/**
 * Compaction of a block tag's list of per-instance counters (`Del`), run when the
 * oldest instance has just been marked closed. Counters are depths: positive for
 * an instance still open, zero for one already closed (or never advanced).
 */
module Compaction {
  import opened Wrappers

  /** The index of the last positive counter, if any. */
  function LastPositive(list: seq<nat>): (r: Option<nat>)
    ensures r.Some? ==> r.value < |list| && list[r.value] > 0
    ensures r.Some? ==> forall k :: r.value < k < |list| ==> list[k] == 0
    ensures r.None? ==> forall k :: 0 <= k < |list| ==> list[k] == 0
  {
    if list == [] then None
    else if list[|list| - 1] > 0 then Some(|list| - 1)
    else LastPositive(list[..|list| - 1])
  }

  /** How many leading entries `Del` removes: up to the last positive one, or just one. */
  function Cut(list: seq<nat>): nat
  {
    match LastPositive(list)
    case Some(p) => p
    case None => 1
  }

  /**
   * The list `Del` leaves: the suffix from the last positive counter on, or the list
   * without its first entry when no counter is positive. Entries before the last
   * positive one are dropped whether or not they are still positive; closed entries
   * after it stay.
   */
  function Compacted(list: seq<nat>): (kept: seq<nat>)
    requires |list| >= 1
    ensures |kept| <= |list| && list == list[..|list| - |kept|] + kept
    ensures list[0] == 0 ==> |kept| < |list|
    ensures forall k :: 1 <= k < |kept| ==> kept[k] == 0
    ensures (exists k :: 0 <= k < |list| && list[k] > 0) <==> (kept != [] && kept[0] > 0)
    ensures (forall k :: 0 <= k < |list| ==> list[k] == 0) ==> kept == list[1..]
  {
    list[Cut(list)..]
  }

  /**
   * `Del`: find the last positive counter, then delete the entries before it one
   * at a time, from the highest index down.
   */
  method Del(list: seq<nat>) returns (kept: seq<nat>)
    requires |list| >= 1
    ensures kept == Compacted(list)
  {
    var last := 1;
    var idx := 0;
    while idx < |list|
      invariant idx <= |list|
      invariant last == Cut(list[..idx])
    {
      assert list[..idx + 1][..idx] == list[..idx];
      if list[idx] > 0 {
        last := idx;
      }
      idx := idx + 1;
    }
    assert list[..idx] == list;
    kept := list;
    var d := last;
    while d > 0
      invariant d <= last
      invariant kept == list[..d] + list[last..]
    {
      d := d - 1;
      kept := kept[..d] + kept[d + 1..];
    }
  }
}
