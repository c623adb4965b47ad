/**
 * The element records the scanner returns, `[type, start, end, name]`, and the
 * lookups on the record list that closing a block relies on.
 */
module Records {
  import opened Wrappers

  type Tag = string

  /** One detected element: its tag, first and last line, and the name captured for a block. */
  datatype Element = Element(tag: Tag, start: nat, end: nat, name: Option<string>)

  /** The number of records of tag `t`. */
  function CountTag(es: seq<Element>, t: Tag): nat
  {
    if es == [] then 0
    else CountTag(es[..|es| - 1], t) + (if es[|es| - 1].tag == t then 1 else 0)
  }

  /**
   * The index of the (`num`+1)-th most recent record of tag `t` among the records
   * before position `j`, walking back from `j - 1`.
   */
  function NthLastBefore(es: seq<Element>, j: nat, t: Tag, num: nat): (r: Option<nat>)
    requires j <= |es|
    ensures r.Some? ==> r.value < j && es[r.value].tag == t
    decreases j
  {
    if j == 0 then None
    else if es[j - 1].tag == t then
      (if num == 0 then Some(j - 1) else NthLastBefore(es, j - 1, t, num - 1))
    else NthLastBefore(es, j - 1, t, num)
  }

  /**
   * The index of the (`num`+1)-th most recent record of tag `t`, walking the list
   * from its end, as `UpdateLastIndex` does.
   */
  function NthLast(es: seq<Element>, t: Tag, num: nat): (r: Option<nat>)
    ensures r.Some? ==> r.value < |es| && es[r.value].tag == t
  {
    NthLastBefore(es, |es|, t, num)
  }

  /** The list with the `end` of record `k` set to `e`. */
  function SetEnd(es: seq<Element>, k: nat, e: nat): seq<Element>
    requires k < |es|
  {
    es[k := es[k].(end := e)]
  }

  /**
   * `after` is `before` with some `end` fields moved to line `i` and nothing else
   * changed: what advancing the open blocks on line `i` may do to the records.
   */
  predicate EndsAdvanced(before: seq<Element>, after: seq<Element>, i: nat)
  {
    && |after| == |before|
    && forall k :: 0 <= k < |before| ==>
         && after[k].tag == before[k].tag
         && after[k].start == before[k].start
         && after[k].name == before[k].name
         && (after[k].end == before[k].end || after[k].end == i)
  }

  lemma {:induction false} CountTagAppend(a: seq<Element>, b: seq<Element>, t: Tag)
    ensures CountTag(a + b, t) == CountTag(a, t) + CountTag(b, t)
    decreases |b|
  {
    if b == [] {
      assert a + b == a;
    } else {
      assert (a + b)[..|a + b| - 1] == a + b[..|b| - 1];
      CountTagAppend(a, b[..|b| - 1], t);
    }
  }

  /** The records of `t` from position `j` on: record `j`'s, then those after it. */
  lemma CountTagFrom(es: seq<Element>, j: nat, t: Tag)
    requires j < |es|
    ensures CountTag(es[j..], t) == CountTag(es[j + 1..], t) + (if es[j].tag == t then 1 else 0)
  {
    assert es[j..] == [es[j]] + es[j + 1..];
    assert [es[j]][..0] == [];
    CountTagAppend([es[j]], es[j + 1..], t);
  }

  /** The walk finds a record exactly when more than `num` records of the tag precede `j`. */
  lemma {:induction false} NthLastBeforeFound(es: seq<Element>, j: nat, t: Tag, num: nat)
    requires j <= |es|
    ensures NthLastBefore(es, j, t, num).Some? <==> num < CountTag(es[..j], t)
    decreases j
  {
    if j > 0 {
      assert es[..j][..j - 1] == es[..j - 1];
      if es[j - 1].tag == t {
        if num > 0 { NthLastBeforeFound(es, j - 1, t, num - 1); }
      } else {
        NthLastBeforeFound(es, j - 1, t, num);
      }
    }
  }

  /** `NthLast` finds a record exactly when there are more than `num` records of the tag. */
  lemma NthLastFound(es: seq<Element>, t: Tag, num: nat)
    ensures NthLast(es, t, num).Some? <==> num < CountTag(es, t)
  {
    NthLastBeforeFound(es, |es|, t, num);
    assert es[..|es|] == es;
  }

  /** Exactly `num` records of the tag lie between the one the walk finds and `j`. */
  lemma {:induction false} NthLastBeforeAt(es: seq<Element>, j: nat, t: Tag, num: nat)
    requires j <= |es| && NthLastBefore(es, j, t, num).Some?
    ensures CountTag(es[NthLastBefore(es, j, t, num).value + 1..j], t) == num
    decreases j
  {
    var v := NthLastBefore(es, j, t, num).value;
    var last := es[j - 1];
    if last.tag == t && num == 0 {
      assert es[v + 1..j] == [];
    } else {
      var num' := if last.tag == t then num - 1 else num;
      NthLastBeforeAt(es, j - 1, t, num');
      assert es[v + 1..j] == es[v + 1..j - 1] + [last];
      CountTagAppend(es[v + 1..j - 1], [last], t);
      assert [last][..0] == [];
    }
  }

  /** The record `NthLast` finds has the tag, and exactly `num` records of the tag follow it. */
  lemma NthLastAt(es: seq<Element>, t: Tag, num: nat)
    requires NthLast(es, t, num).Some?
    ensures NthLast(es, t, num).value < |es|
    ensures es[NthLast(es, t, num).value].tag == t
    ensures CountTag(es[NthLast(es, t, num).value + 1..], t) == num
  {
    NthLastBeforeAt(es, |es|, t, num);
    assert es[NthLast(es, t, num).value + 1..|es|] == es[NthLast(es, t, num).value + 1..];
  }

  /** Moving `end` fields leaves the number of records of every tag as it was. */
  lemma {:induction false} CountTagEndsAdvanced(before: seq<Element>, after: seq<Element>, i: nat, t: Tag)
    requires EndsAdvanced(before, after, i)
    ensures CountTag(after, t) == CountTag(before, t)
    decreases |before|
  {
    if before != [] {
      var n := |before| - 1;
      assert EndsAdvanced(before[..n], after[..n], i);
      CountTagEndsAdvanced(before[..n], after[..n], i, t);
    }
  }
}
