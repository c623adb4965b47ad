/**
 * The delimiter balance counter (`IsEndUp`). It walks a line with a running
 * depth: an opening delimiter adds one, a closing delimiter removes one when the
 * depth is at least one. The first change that brings the depth to zero stops
 * the walk and reports the block as closed; otherwise the final depth comes back.
 */
module Balance {
  import opened Strings

  /**
   * The two answers of `IsEndUp`: `(True, at)` when the depth returned to zero,
   * `(count, at)` when the line ended first.
   */
  datatype Scan = Closed(at: nat) | Open(count: nat, at: nat)

  /** `size_max`: the length of the longer delimiter. */
  function Width(add: string, remove: string): nat
  {
    if |add| >= |remove| then |add| else |remove|
  }

  /**
   * The walk from position `i` with depth `n`. Windows start only where the longer
   * delimiter still fits; the opening delimiter is tried first at each position.
   */
  function ScanFrom(line: string, add: string, remove: string, i: nat, n: nat): Scan
    requires |add| >= 1 && |remove| >= 1
    decreases |line| - i
  {
    var w := Width(add, remove);
    if i + w > |line| then Open(n, i)
    else if MatchAt(line, add, i) then ScanFrom(line, add, remove, i + |add|, n + 1)
    else if MatchAt(line, remove, i) && n >= 1 then
      (if n == 1 then Closed(i + |remove| - 1 + w - 1)
       else ScanFrom(line, add, remove, i + |remove|, n - 1))
    else ScanFrom(line, add, remove, i + 1, n)
  }

  /** Delimiter `d` is spelled out in `line` starting at position `i`. */
  function MatchAt(line: string, d: string, i: nat): bool
    decreases |d|
  {
    if d == [] then true else i < |line| && line[i] == d[0] && MatchAt(line, d[1..], i + 1)
  }

  /** Where the whole delimiter fits, matching at `i` is comparing the slice there. */
  lemma {:induction false} MatchAtIsSlice(line: string, d: string, i: nat)
    requires i + |d| <= |line|
    ensures MatchAt(line, d, i) <==> line[i..i + |d|] == d
    decreases |d|
  {
    if d != [] {
      MatchAtIsSlice(line, d[1..], i + 1);
      assert line[i..i + |d|] == [line[i]] + line[i + 1..i + |d|];
      assert d == [d[0]] + d[1..];
    }
  }

  /** The answer of `IsEndUp(line, n, add, remove)`; a line shorter than `size_max` is not walked. */
  function EndUp(line: string, n: nat, add: string, remove: string): Scan
    requires |add| >= 1 && |remove| >= 1
  {
    if |line| < Width(add, remove) then Open(n, |line|)
    else ScanFrom(line, add, remove, 0, n)
  }

  /**
   * `IsEndUp`: the loop of the original, with its `have_change` flag. The flag is
   * never set while the depth is zero, so the closing test fires only right after
   * a closing delimiter took the depth from one to zero.
   */
  method IsEndUp(line: string, n0: nat, add: string, remove: string) returns (r: Scan)
    requires |add| >= 1 && |remove| >= 1
    ensures r == EndUp(line, n0, add, remove)
  {
    var haveChange := false;
    var sizeMax := Width(add, remove);
    if |line| < sizeMax {
      return Open(n0, |line|);
    }
    var n := n0;
    var i := 0;
    ghost var goal := ScanFrom(line, add, remove, 0, n0);
    while i < |line| - (sizeMax - 1)
      invariant i <= |line|
      invariant haveChange ==> n >= 1
      invariant ScanFrom(line, add, remove, i, n) == goal
      decreases |line| - i
    {
      MatchAtIsSlice(line, add, i);
      MatchAtIsSlice(line, remove, i);
      var sampleAdd := line[i..i + |add|];
      var sampleRemove := line[i..i + |remove|];
      if sampleAdd == add {
        n := n + 1;
        haveChange := true;
        i := i + |add| - 1;
      } else if sampleRemove == remove && n >= 1 {
        n := n - 1;
        haveChange := true;
        i := i + |remove| - 1;
      }
      if n == 0 && haveChange {
        return Closed(i + sizeMax - 1);
      }
      i := i + 1;
    }
    return Open(n, i);
  }

  // ---------------------------------------------------------------------------
  // What the walk promises

  /** No window from `i` on holds either delimiter. */
  ghost predicate Quiet(line: string, d: string, i: nat)
  {
    forall p :: i <= p ==> !OccursAt(line, d, p)
  }

  lemma QuietOfAbsent(line: string, d: string)
    requires !Occurs(line, d)
    ensures Quiet(line, d, 0)
  {
    forall p | 0 <= p
      ensures !OccursAt(line, d, p)
    {
    }
  }

  lemma {:induction false} ScanQuiet(line: string, add: string, remove: string, i: nat, n: nat)
    requires |add| >= 1 && |remove| >= 1
    requires Quiet(line, add, i) && Quiet(line, remove, i)
    ensures ScanFrom(line, add, remove, i, n).Open?
    ensures ScanFrom(line, add, remove, i, n).count == n
    decreases |line| - i
  {
    if i + Width(add, remove) <= |line| {
      assert !OccursAt(line, add, i) && !OccursAt(line, remove, i);
      MatchAtIsSlice(line, add, i);
      MatchAtIsSlice(line, remove, i);
      ScanQuiet(line, add, remove, i + 1, n);
    }
  }

  /**
   * The closing delimiters the walk from `i` meets when no opening delimiter lies
   * ahead: it jumps past each one it finds and moves one character otherwise.
   */
  function Closers(line: string, add: string, remove: string, i: nat): nat
    requires |remove| >= 1
    decreases |line| - i
  {
    if i + Width(add, remove) > |line| then 0
    else if MatchAt(line, remove, i) then 1 + Closers(line, add, remove, i + |remove|)
    else Closers(line, add, remove, i + 1)
  }

  /** Where the `k`-th of those closing delimiters (counting from one) starts. */
  function NthCloser(line: string, add: string, remove: string, i: nat, k: nat): (p: nat)
    requires |remove| >= 1 && 1 <= k <= Closers(line, add, remove, i)
    ensures i <= p
    decreases |line| - i
  {
    if MatchAt(line, remove, i) then
      if k == 1 then i else NthCloser(line, add, remove, i + |remove|, k - 1)
    else NthCloser(line, add, remove, i + 1, k)
  }

  /**
   * With no opening delimiter ahead, a walk from depth `n >= 1` closes exactly when
   * it meets at least `n` closing delimiters, and then at the `n`-th; otherwise it
   * ends open with `n` less the number it met.
   */
  lemma {:induction false} ScanCountsClosers(line: string, add: string, remove: string, i: nat, n: nat)
    requires |add| >= 1 && |remove| >= 1 && n >= 1
    requires Quiet(line, add, i)
    ensures ScanFrom(line, add, remove, i, n).Closed? <==> Closers(line, add, remove, i) >= n
    ensures Closers(line, add, remove, i) >= n ==>
              ScanFrom(line, add, remove, i, n).at
              == NthCloser(line, add, remove, i, n) + |remove| - 1 + Width(add, remove) - 1
    ensures Closers(line, add, remove, i) < n ==>
              ScanFrom(line, add, remove, i, n).count == n - Closers(line, add, remove, i)
    decreases |line| - i
  {
    if i + Width(add, remove) <= |line| {
      assert !OccursAt(line, add, i);
      MatchAtIsSlice(line, add, i);
      if MatchAt(line, remove, i) {
        if n > 1 {
          ScanCountsClosers(line, add, remove, i + |remove|, n - 1);
        }
      } else {
        ScanCountsClosers(line, add, remove, i + 1, n);
      }
    }
  }

  /** `ScanCountsClosers` for a whole line that holds no opening delimiter. */
  lemma EndUpCountsClosers(line: string, n: nat, add: string, remove: string)
    requires |add| >= 1 && |remove| >= 1 && n >= 1
    requires !Occurs(line, add)
    ensures EndUp(line, n, add, remove).Closed? <==> Closers(line, add, remove, 0) >= n
    ensures Closers(line, add, remove, 0) >= n ==>
              EndUp(line, n, add, remove).at
              == NthCloser(line, add, remove, 0, n) + |remove| - 1 + Width(add, remove) - 1
    ensures Closers(line, add, remove, 0) < n ==>
              EndUp(line, n, add, remove).count == n - Closers(line, add, remove, 0)
  {
    QuietOfAbsent(line, add);
    if |line| >= Width(add, remove) {
      ScanCountsClosers(line, add, remove, 0, n);
    }
  }

  /** A line holding neither delimiter leaves the depth as it was. */
  lemma NoDelimiterKeepsCount(line: string, n: nat, add: string, remove: string)
    requires |add| >= 1 && |remove| >= 1
    requires !Occurs(line, add) && !Occurs(line, remove)
    ensures EndUp(line, n, add, remove) == Open(n, EndUp(line, n, add, remove).at)
  {
    QuietOfAbsent(line, add);
    QuietOfAbsent(line, remove);
    if |line| >= Width(add, remove) {
      ScanQuiet(line, add, remove, 0, n);
    }
  }

  /**
   * The opening delimiters the walk from `i` meets: it jumps past each one it finds
   * and moves one character otherwise.
   */
  function Openers(line: string, add: string, remove: string, i: nat): nat
    requires |add| >= 1
    decreases |line| - i
  {
    if i + Width(add, remove) > |line| then 0
    else if MatchAt(line, add, i) then 1 + Openers(line, add, remove, i + |add|)
    else Openers(line, add, remove, i + 1)
  }

  /**
   * With no closing delimiter ahead, the walk never closes and each opening
   * delimiter it meets adds one to the depth.
   */
  lemma {:induction false} ScanNoRemove(line: string, add: string, remove: string, i: nat, n: nat)
    requires |add| >= 1 && |remove| >= 1
    requires Quiet(line, remove, i)
    ensures ScanFrom(line, add, remove, i, n).Open?
    ensures ScanFrom(line, add, remove, i, n).count >= n
    ensures ScanFrom(line, add, remove, i, n).count == n + Openers(line, add, remove, i)
    decreases |line| - i
  {
    var w := Width(add, remove);
    if i + w <= |line| {
      assert !OccursAt(line, remove, i);
      MatchAtIsSlice(line, remove, i);
      if MatchAt(line, add, i) {
        ScanNoRemove(line, add, remove, i + |add|, n + 1);
      } else {
        ScanNoRemove(line, add, remove, i + 1, n);
      }
    }
  }

  /**
   * Without a closing delimiter a block cannot close, and its depth grows by the
   * number of opening delimiters on the line.
   */
  lemma NoCloseStaysOpen(line: string, n: nat, add: string, remove: string)
    requires |add| >= 1 && |remove| >= 1
    requires !Occurs(line, remove)
    ensures EndUp(line, n, add, remove).Open?
    ensures EndUp(line, n, add, remove).count >= n
    ensures EndUp(line, n, add, remove).count == n + Openers(line, add, remove, 0)
  {
    QuietOfAbsent(line, remove);
    if |line| >= Width(add, remove) {
      ScanNoRemove(line, add, remove, 0, n);
    }
  }

  lemma {:induction false} ScanFromZeroNoAdd(line: string, add: string, remove: string, i: nat)
    requires |add| >= 1 && |remove| >= 1
    requires Quiet(line, add, i)
    ensures ScanFrom(line, add, remove, i, 0) == Open(0, ScanFrom(line, add, remove, i, 0).at)
    decreases |line| - i
  {
    if i + Width(add, remove) <= |line| {
      assert !OccursAt(line, add, i);
      MatchAtIsSlice(line, add, i);
      ScanFromZeroNoAdd(line, add, remove, i + 1);
    }
  }

  /**
   * Starting from depth zero, a line without an opening delimiter stays at zero:
   * closing delimiters are not counted below zero.
   */
  lemma ZeroWithoutOpenStaysZero(line: string, add: string, remove: string)
    requires |add| >= 1 && |remove| >= 1
    requires !Occurs(line, add)
    ensures EndUp(line, 0, add, remove) == Open(0, EndUp(line, 0, add, remove).at)
  {
    QuietOfAbsent(line, add);
    if |line| >= Width(add, remove) {
      ScanFromZeroNoAdd(line, add, remove, 0);
    }
  }

  lemma {:induction false} ScanClosedAt(line: string, add: string, remove: string, i: nat, n: nat)
    requires |add| >= 1 && |remove| >= 1
    requires ScanFrom(line, add, remove, i, n).Closed?
    ensures exists p :: i <= p && OccursAt(line, remove, p) &&
                        ScanFrom(line, add, remove, i, n).at == p + |remove| - 1 + Width(add, remove) - 1
    decreases |line| - i
  {
    var w := Width(add, remove);
    MatchAtIsSlice(line, remove, i);
    if MatchAt(line, add, i) {
      ScanClosedAt(line, add, remove, i + |add|, n + 1);
    } else if MatchAt(line, remove, i) && n >= 1 {
      if n == 1 {
        assert OccursAt(line, remove, i);
      } else {
        ScanClosedAt(line, add, remove, i + |remove|, n - 1);
      }
    } else {
      ScanClosedAt(line, add, remove, i + 1, n);
    }
  }

  /**
   * A closure is reported at a closing delimiter found in the line, at the index of
   * that delimiter's last character plus `size_max - 1`.
   */
  lemma ClosedAtClosingDelimiter(line: string, n: nat, add: string, remove: string)
    requires |add| >= 1 && |remove| >= 1
    requires EndUp(line, n, add, remove).Closed?
    ensures exists p :: OccursAt(line, remove, p) &&
                        EndUp(line, n, add, remove).at == p + |remove| - 1 + Width(add, remove) - 1
  {
    ScanClosedAt(line, add, remove, 0, n);
  }
}
