/**
 * The scanner's state and what one line does to it, as functions on values. The
 * class in `Detection` performs the same steps in place; each of its methods is
 * proved to leave exactly the state these functions describe.
 */
module Steps {
  import opened Wrappers
  import opened Normalize
  import opened Balance
  import opened Compaction
  import opened Records
  import opened Config
  import opened Classify
  import opened Strings

  /**
   * `block_parenthesis[0]`: `True` when no argument list is waiting to be closed,
   * otherwise the parenthesis depth reached so far.
   */
  datatype Args = Balanced | Pending(depth: nat)

  /**
   * Everything the scan carries from one line to the next: the records, `in_`
   * split by table (counter lists for block tags, streak counters for single
   * tags), the two fields of `block_parenthesis`, and `prev_block_type`.
   */
  datatype State = State(
    elements: seq<Element>,
    blockState: map<Tag, seq<nat>>,
    singleState: map<Tag, nat>,
    args: Args,
    argsTag: Option<Tag>,
    prevBlock: Option<Tag>)

  /** `line[k:]`, which is empty when `k` is past the end. */
  function Drop(s: string, k: nat): (r: string)
    ensures |r| == if k <= |s| then |s| - k else 0
    ensures r == s[|s| - |r|..]
  {
    if k <= |s| then s[k..] else []
  }

  // ---------------------------------------------------------------------------
  // Invariants

  /** A block record carries a name and a single-line record does not. */
  predicate WellNamed(cfg: Config, e: Element)
  {
    || (e.tag in BlockTags(cfg.blocks) && e.name.Some?)
    || (e.tag in SingleTags(cfg.singles) && e.name.None?)
  }

  predicate Named(cfg: Config, es: seq<Element>)
  {
    forall k :: 0 <= k < |es| ==> WellNamed(cfg, es[k])
  }

  /** Every block type has non-empty delimiters, so walking a line with them ends. */
  predicate Delimited(cfg: Config)
  {
    forall k :: 0 <= k < |cfg.blocks| ==> |cfg.blocks[k].open| >= 1 && |cfg.blocks[k].close| >= 1
  }

  /**
   * What advancing the open blocks needs: non-empty delimiters, a counter list for
   * every block tag, and no list with more entries than there are records of its
   * tag (so the record a closure targets always exists).
   */
  predicate Fits(cfg: Config, s: State)
  {
    && Delimited(cfg)
    && (forall k :: 0 <= k < |cfg.blocks| ==> cfg.blocks[k].tag in s.blockState)
    && (forall t :: t in s.blockState ==> |s.blockState[t]| <= CountTag(s.elements, t))
  }

  /**
   * The configuration is well formed, the state's tables match it, and the last
   * block type handled is declared.
   */
  predicate Shape(cfg: Config, s: State)
  {
    && WellFormed(cfg)
    && Fits(cfg, s)
    && s.blockState.Keys == BlockTags(cfg.blocks)
    && s.singleState.Keys == SingleTags(cfg.singles)
    && (s.prevBlock.Some? ==> s.prevBlock.value in BlockTags(cfg.blocks))
  }

  /** A single tag with a running streak owns the last record (so `elements[-1]` exists). */
  predicate Streaks(s: State)
  {
    forall t :: t in s.singleState && s.singleState[t] > 0 ==>
      s.elements != [] && s.elements[|s.elements| - 1].tag == t
  }

  predicate Inv(cfg: Config, s: State)
  {
    Shape(cfg, s) && Named(cfg, s.elements) && Streaks(s)
  }

  /**
   * The records lie within lines `0 .. bound - 1`, each starts no later than it
   * ends, and their starts strictly increase: at most one record starts per line.
   */
  predicate RecordsBefore(es: seq<Element>, bound: nat)
  {
    && (forall k :: 0 <= k < |es| ==> es[k].start <= es[k].end < bound)
    && (forall j, k :: 0 <= j < k < |es| ==> es[j].start < es[k].start)
  }

  /** What line `i` may do to the records: move ends to `i` and append at most one record `i .. i`. */
  predicate LineEffect(before: seq<Element>, after: seq<Element>, i: nat)
  {
    && |before| <= |after| <= |before| + 1
    && EndsAdvanced(before, after[..|before|], i)
    && (|after| > |before| ==> after[|before|].start == i && after[|before|].end == i)
  }

  lemma InvKnowsConstraints(cfg: Config, s: State)
    requires Shape(cfg, s)
    ensures AllConstraintsKnown(cfg.blocks, s.blockState)
  {
    forall k | 0 <= k < |cfg.blocks|
      ensures ConstraintsKnown(cfg.blocks[k], s.blockState)
    {
      assert ConstraintsDeclared(cfg.blocks[k], BlockTags(cfg.blocks));
    }
  }

  lemma EndsAdvancedTrans(a: seq<Element>, b: seq<Element>, c: seq<Element>, i: nat)
    requires EndsAdvanced(a, b, i) && EndsAdvanced(b, c, i)
    ensures EndsAdvanced(a, c, i)
  {
  }

  /** Two updates of the same key are one update of it. */
  lemma UpdateTrans(a: map<Tag, seq<nat>>, b: map<Tag, seq<nat>>, c: map<Tag, seq<nat>>, t: Tag)
    requires t in b && b == a[t := b[t]] && t in c && c == b[t := c[t]]
    ensures c == a[t := c[t]]
  {
  }

  /** Moving ends and shortening counter lists keeps what advancing blocks needs. */
  lemma AdvanceKeepsFits(cfg: Config, s: State, r: State, i: nat)
    requires Fits(cfg, s) && EndsAdvanced(s.elements, r.elements, i)
    requires r.blockState.Keys == s.blockState.Keys
    requires forall t :: t in r.blockState ==> |r.blockState[t]| <= |s.blockState[t]|
    ensures Fits(cfg, r)
  {
    forall t | t in r.blockState
      ensures |r.blockState[t]| <= CountTag(r.elements, t)
    {
      CountTagEndsAdvanced(s.elements, r.elements, i, t);
    }
  }

  /**
   * Moving ends and shortening counter lists, with nothing else changed, keeps the
   * invariant.
   */
  lemma AdvanceKeepsInv(cfg: Config, s: State, r: State, i: nat)
    requires Inv(cfg, s) && EndsAdvanced(s.elements, r.elements, i)
    requires r.singleState == s.singleState && r.prevBlock == s.prevBlock
    requires r.blockState.Keys == s.blockState.Keys
    requires forall t :: t in r.blockState ==> |r.blockState[t]| <= |s.blockState[t]|
    ensures Inv(cfg, r)
  {
    AdvanceKeepsFits(cfg, s, r, i);
    assert Named(cfg, r.elements) by {
      forall k | 0 <= k < |r.elements|
        ensures WellNamed(cfg, r.elements[k])
      {
        assert WellNamed(cfg, s.elements[k]);
      }
    }
  }

  /** The state before the first line: no records, empty lists, zero streaks, no pending arguments. */
  function Initial(cfg: Config): (s: State)
    requires WellFormed(cfg)
    ensures Inv(cfg, s) && RecordsBefore(s.elements, 0)
  {
    State([], map t | t in BlockTags(cfg.blocks) :: [], map t | t in SingleTags(cfg.singles) :: 0,
          Balanced, None, None)
  }

  // ---------------------------------------------------------------------------
  // UpdateBlocks

  /**
   * The counter list after instance `j` closed: a zero in its place, and when it
   * was the oldest instance the list `Del` leaves.
   */
  function ClosedList(list: seq<nat>, j: nat): (r: seq<nat>)
    requires j < |list|
    ensures j > 0 ==> |r| == |list| && r[j] == 0 && forall k :: 0 <= k < |list| && k != j ==> r[k] == list[k]
    ensures j == 0 ==> |r| < |list| && list[0 := 0] == list[0 := 0][..|list| - |r|] + r
  {
    if j == 0 then Compacted(list[0 := 0]) else list[j := 0]
  }

  /**
   * `UpdateState`: walk `segment` from depth `depth` with block `b`'s delimiters; if
   * the depth returns to zero, instance `j` of the `n` instances closes and the end
   * of its record (the `(n-1-j)+1`-th most recent one of the tag) moves to line `i`;
   * otherwise the instance stores its new depth.
   */
  function AfterUpdateState(cfg: Config, s: State, segment: string, depth: nat, i: nat, b: nat, j: nat, n: nat): (r: State)
    requires Fits(cfg, s) && b < |cfg.blocks|
    requires j < n == |s.blockState[cfg.blocks[b].tag]|
    ensures Fits(cfg, r) && EndsAdvanced(s.elements, r.elements, i)
    ensures r == s.(elements := r.elements, blockState := r.blockState)
    ensures r.blockState == s.blockState[cfg.blocks[b].tag := r.blockState[cfg.blocks[b].tag]]
    ensures |r.blockState[cfg.blocks[b].tag]| <= n
    ensures j > 0 ==> |r.blockState[cfg.blocks[b].tag]| == n
  {
    var spec := cfg.blocks[b];
    match EndUp(segment, depth, spec.open, spec.close)
    case Closed(_) => CloseInstance(cfg, s, spec.tag, i, j, n)
    case Open(count, _) => StoreDepth(cfg, s, spec.tag, i, j, count)
  }

  /** Unfolds the definition of `AfterUpdateState`; a proof helper, not a property. */
  lemma AfterUpdateStateIs(cfg: Config, s: State, segment: string, depth: nat, i: nat, b: nat, j: nat, n: nat)
    requires Fits(cfg, s) && b < |cfg.blocks|
    requires j < n == |s.blockState[cfg.blocks[b].tag]|
    ensures var spec := cfg.blocks[b];
            var walk := EndUp(segment, depth, spec.open, spec.close);
            AfterUpdateState(cfg, s, segment, depth, i, b, j, n)
            == if walk.Closed? then CloseInstance(cfg, s, spec.tag, i, j, n)
               else StoreDepth(cfg, s, spec.tag, i, j, walk.count)
  {
  }

  /**
   * Instance `j` of the `n` instances of tag `t` closed on line `i`: its counter
   * becomes zero (the list compacted when it is the oldest), and the end of the
   * `(n-1-j)+1`-th most recent record of `t` moves to `i`.
   */
  function CloseInstance(cfg: Config, s: State, t: Tag, i: nat, j: nat, n: nat): (r: State)
    requires Fits(cfg, s) && t in s.blockState && j < n == |s.blockState[t]|
    ensures Fits(cfg, r) && EndsAdvanced(s.elements, r.elements, i)
    ensures r == s.(elements := r.elements, blockState := r.blockState)
    ensures t in r.blockState && r.blockState == s.blockState[t := r.blockState[t]]
    ensures |r.blockState[t]| <= n && (j > 0 ==> |r.blockState[t]| == n)
  {
    NthLastFound(s.elements, t, n - 1 - j);
    var r := s.(blockState := s.blockState[t := ClosedList(s.blockState[t], j)],
                elements := SetEnd(s.elements, NthLast(s.elements, t, n - 1 - j).value, i));
    AdvanceKeepsFits(cfg, s, r, i);
    r
  }

  lemma CloseInstanceIs(cfg: Config, s: State, t: Tag, i: nat, j: nat, n: nat)
    requires Fits(cfg, s) && t in s.blockState && j < n == |s.blockState[t]|
    ensures NthLast(s.elements, t, n - 1 - j).Some?
    ensures CloseInstance(cfg, s, t, i, j, n)
            == s.(blockState := s.blockState[t := ClosedList(s.blockState[t], j)],
                  elements := SetEnd(s.elements, NthLast(s.elements, t, n - 1 - j).value, i))
  {
    NthLastFound(s.elements, t, n - 1 - j);
  }

  /** Instance `j` of tag `t` is still open after the line and keeps depth `count`. */
  function StoreDepth(cfg: Config, s: State, t: Tag, i: nat, j: nat, count: nat): (r: State)
    requires Fits(cfg, s) && t in s.blockState && j < |s.blockState[t]|
    ensures Fits(cfg, r) && EndsAdvanced(s.elements, r.elements, i)
    ensures r == s.(blockState := r.blockState)
    ensures t in r.blockState && r.blockState == s.blockState[t := r.blockState[t]]
    ensures |r.blockState[t]| == |s.blockState[t]|
    ensures r.blockState[t] == s.blockState[t][j := count]
  {
    var list: seq<nat> := s.blockState[t][j := count];
    var r := s.(blockState := s.blockState[t := list]);
    AdvanceKeepsFits(cfg, s, r, i);
    r
  }

  /**
   * One pass of the inner loop of `UpdateBlocks`: instance `j` of block `b`. The
   * newest instance of the block that owns a pending argument list first finishes
   * the list; its body is walked from the closing parenthesis on. Any other
   * instance advances only while its counter is positive.
   */
  function AfterInstance(cfg: Config, s: State, lc: string, i: nat, b: nat, j: nat, n: nat): (r: State)
    requires Fits(cfg, s) && b < |cfg.blocks|
    requires j < n == |s.blockState[cfg.blocks[b].tag]|
    ensures Fits(cfg, r) && EndsAdvanced(s.elements, r.elements, i)
    ensures r == s.(elements := r.elements, blockState := r.blockState, args := r.args)
    ensures r.blockState == s.blockState[cfg.blocks[b].tag := r.blockState[cfg.blocks[b].tag]]
    ensures |r.blockState[cfg.blocks[b].tag]| <= n
    ensures j > 0 ==> |r.blockState[cfg.blocks[b].tag]| == n
    ensures r.args != s.args ==> s.args.Pending? && s.argsTag == Some(cfg.blocks[b].tag) && j == n - 1
  {
    var t := cfg.blocks[b].tag;
    if s.args.Pending? && s.argsTag == Some(t) && j == n - 1 then
      match EndUp(lc, s.args.depth, "(", ")")
      case Closed(at) => AfterUpdateState(cfg, s.(args := Balanced), Drop(lc, at), 0, i, b, j, n)
      case Open(count, _) => s.(args := Pending(count))
    else if s.blockState[t][j] > 0 then
      AfterUpdateState(cfg, s, lc, s.blockState[t][j], i, b, j, n)
    else
      s
  }

  /** Unfolds the definition of `AfterInstance`; a proof helper, not a property. */
  lemma AfterInstanceIs(cfg: Config, s: State, lc: string, i: nat, b: nat, j: nat, n: nat)
    requires Fits(cfg, s) && b < |cfg.blocks|
    requires j < n == |s.blockState[cfg.blocks[b].tag]|
    ensures var t := cfg.blocks[b].tag;
            var walk := EndUp(lc, if s.args.Pending? then s.args.depth else 0, "(", ")");
            AfterInstance(cfg, s, lc, i, b, j, n)
            == if s.args.Pending? && s.argsTag == Some(t) && j == n - 1 then
                 (if walk.Closed? then AfterUpdateState(cfg, s.(args := Balanced), Drop(lc, walk.at), 0, i, b, j, n)
                  else s.(args := Pending(walk.count)))
               else if s.blockState[t][j] > 0 then AfterUpdateState(cfg, s, lc, s.blockState[t][j], i, b, j, n)
               else s
  {
  }

  /** Instances `j - 1` down to `0` of block `b`, most recent first. */
  function AfterInstances(cfg: Config, s: State, lc: string, i: nat, b: nat, j: nat, n: nat): (r: State)
    requires Fits(cfg, s) && b < |cfg.blocks| && j <= n
    requires j > 0 ==> n == |s.blockState[cfg.blocks[b].tag]|
    ensures Fits(cfg, r) && EndsAdvanced(s.elements, r.elements, i)
    ensures r == s.(elements := r.elements, blockState := r.blockState, args := r.args)
    ensures r.blockState == s.blockState[cfg.blocks[b].tag := r.blockState[cfg.blocks[b].tag]]
    ensures |r.blockState[cfg.blocks[b].tag]| <= |s.blockState[cfg.blocks[b].tag]|
    decreases j
  {
    if j == 0 then s
    else
      var t := cfg.blocks[b].tag;
      var s' := AfterInstance(cfg, s, lc, i, b, j - 1, n);
      var r := AfterInstances(cfg, s', lc, i, b, j - 1, n);
      EndsAdvancedTrans(s.elements, s'.elements, r.elements, i);
      UpdateTrans(s.blockState, s'.blockState, r.blockState, t);
      r
  }

  /** Block types `b` onwards, in declared order, each over all its current instances. */
  function AfterBlocks(cfg: Config, s: State, lc: string, i: nat, b: nat): (r: State)
    requires Fits(cfg, s) && b <= |cfg.blocks|
    ensures Fits(cfg, r) && EndsAdvanced(s.elements, r.elements, i)
    ensures r == s.(elements := r.elements, blockState := r.blockState, args := r.args)
    ensures r.blockState.Keys == s.blockState.Keys
    ensures forall t :: t in r.blockState ==> |r.blockState[t]| <= |s.blockState[t]|
    decreases |cfg.blocks| - b
  {
    if b == |cfg.blocks| then s
    else
      var n := |s.blockState[cfg.blocks[b].tag]|;
      var s' := AfterInstances(cfg, s, lc, i, b, n, n);
      var r := AfterBlocks(cfg, s', lc, i, b + 1);
      EndsAdvancedTrans(s.elements, s'.elements, r.elements, i);
      r
  }

  // ---------------------------------------------------------------------------
  // HandleType and Reinit

  /**
   * `HandleType` for a single-line type: a zero streak counter starts a record
   * `(t, i, i, None)` and sets the counter to one; a running streak extends the
   * last record, which is the streak's own, to line `i`.
   */
  function HandleSingle(cfg: Config, s: State, t: Tag, i: nat): (r: State)
    requires Inv(cfg, s) && t in SingleTags(cfg.singles)
    ensures Shape(cfg, r) && Named(cfg, r.elements) && LineEffect(s.elements, r.elements, i)
    ensures r == s.(elements := r.elements, singleState := r.singleState)
    ensures r.singleState == s.singleState[t := if s.singleState[t] == 0 then 1 else s.singleState[t]]
    ensures s.singleState[t] == 0 ==> r.elements == s.elements + [Element(t, i, i, None)]
    ensures s.singleState[t] > 0 ==> |s.elements| > 0 && r.elements == SetEnd(s.elements, |s.elements| - 1, i)
    ensures r.elements != [] && r.elements[|r.elements| - 1].tag == t
  {
    if s.singleState[t] == 0 then
      StartKeepsShape(cfg, s, t, i);
      s.(elements := s.elements + [Element(t, i, i, None)], singleState := s.singleState[t := 1])
    else
      ExtendKeepsShape(cfg, s, i);
      s.(elements := SetEnd(s.elements, |s.elements| - 1, i))
  }

  lemma StartKeepsShape(cfg: Config, s: State, t: Tag, i: nat)
    requires Inv(cfg, s) && t in SingleTags(cfg.singles)
    ensures var r := s.(elements := s.elements + [Element(t, i, i, None)], singleState := s.singleState[t := 1]);
            Shape(cfg, r) && Named(cfg, r.elements) && LineEffect(s.elements, r.elements, i)
  {
    var es := s.elements + [Element(t, i, i, None)];
    assert es[..|es| - 1] == s.elements;
    assert es[..|s.elements|] == s.elements;
  }

  lemma ExtendKeepsShape(cfg: Config, s: State, i: nat)
    requires Inv(cfg, s) && s.elements != []
    ensures var r := s.(elements := SetEnd(s.elements, |s.elements| - 1, i));
            Shape(cfg, r) && Named(cfg, r.elements) && LineEffect(s.elements, r.elements, i)
  {
    var r := s.(elements := SetEnd(s.elements, |s.elements| - 1, i));
    assert EndsAdvanced(s.elements, r.elements, i);
    assert r.elements[..|s.elements|] == r.elements;
    AdvanceKeepsInv(cfg, s, r, i);
  }

  /** The argument slot a block line leaves: balanced unless it has arguments still open. */
  function OpeningArgs(spec: BlockSpec, parens: Scan): Args
  {
    if spec.haveArgs && parens.Open? then Pending(parens.count) else Balanced
  }

  /**
   * The walk of a block line's body: from depth zero, past its arguments when the
   * block has any (from the position the argument walk reported), else from the start.
   */
  function BodyWalk(spec: BlockSpec, lc: string, parens: Scan): Scan
    requires |spec.open| >= 1 && |spec.close| >= 1
  {
    EndUp(Drop(lc, if spec.haveArgs then parens.at else 0), 0, spec.open, spec.close)
  }

  /**
   * The counter list of a block line's tag: depth 0 appended while its arguments
   * are open, otherwise the depth its body reaches on the line, unless the body
   * closes there.
   */
  function OpeningList(spec: BlockSpec, lc: string, parens: Scan, list: seq<nat>): (r: seq<nat>)
    requires |spec.open| >= 1 && |spec.close| >= 1
    ensures |list| <= |r| <= |list| + 1 && r[..|list|] == list
    ensures r == list <==> OpeningArgs(spec, parens) == Balanced && BodyWalk(spec, lc, parens).Closed?
    ensures r != list ==>
              r == list + [if OpeningArgs(spec, parens).Pending? then 0 else BodyWalk(spec, lc, parens).count]
  {
    if OpeningArgs(spec, parens).Pending? then list + [0]
    else
      match BodyWalk(spec, lc, parens)
      case Closed(_) => list
      case Open(count, _) => list + [count]
  }

  /**
   * A block line whose arguments are balanced but whose body has no opening
   * delimiter still registers an instance, with depth zero.
   */
  lemma NoOpenerPushesZero(spec: BlockSpec, lc: string, parens: Scan, list: seq<nat>)
    requires |spec.open| >= 1 && |spec.close| >= 1
    requires OpeningArgs(spec, parens) == Balanced
    requires !Occurs(Drop(lc, if spec.haveArgs then parens.at else 0), spec.open)
    ensures OpeningList(spec, lc, parens, list) == list + [0]
  {
    ZeroWithoutOpenStaysZero(Drop(lc, if spec.haveArgs then parens.at else 0), spec.open, spec.close);
  }

  /**
   * `HandleType` for a block type: the record `(t, i, i, name)` is appended, the
   * argument slot is taken over by `t` (open when the block has arguments whose
   * parentheses do not balance on the line), and the tag's counter list grows by
   * one instance unless the block closes on its opening line.
   */
  function HandleBlock(cfg: Config, s: State, t: Tag, i: nat, lc: string): (r: State)
    requires Inv(cfg, s) && t in BlockTags(cfg.blocks)
    ensures Shape(cfg, r) && LineEffect(s.elements, r.elements, i)
    ensures r == s.(elements := r.elements, blockState := r.blockState, args := r.args, argsTag := r.argsTag)
    ensures r.elements == s.elements + [Element(t, i, i, GetName(cfg.blocks[BlockIndex(cfg.blocks, t)], lc))]
    ensures r.argsTag == Some(t)
    ensures r.blockState == s.blockState[t := r.blockState[t]]
    ensures |s.blockState[t]| <= |r.blockState[t]| <= |s.blockState[t]| + 1
    ensures r.blockState[t][..|s.blockState[t]|] == s.blockState[t]
    ensures r.args == OpeningArgs(cfg.blocks[BlockIndex(cfg.blocks, t)], EndUp(lc, 0, "(", ")"))
    ensures r.blockState[t] == s.blockState[t]
            <==> r.args == Balanced && BodyWalk(cfg.blocks[BlockIndex(cfg.blocks, t)], lc, EndUp(lc, 0, "(", ")")).Closed?
    ensures r.blockState[t] != s.blockState[t] ==>
              r.blockState[t] == s.blockState[t]
                 + [if r.args.Pending? then 0 else BodyWalk(cfg.blocks[BlockIndex(cfg.blocks, t)], lc, EndUp(lc, 0, "(", ")")).count]
    ensures GetName(cfg.blocks[BlockIndex(cfg.blocks, t)], lc).Some? ==> Named(cfg, r.elements)
  {
    var spec := cfg.blocks[BlockIndex(cfg.blocks, t)];
    var parens := EndUp(lc, 0, "(", ")");
    var r := s.(elements := s.elements + [Element(t, i, i, GetName(spec, lc))],
                blockState := s.blockState[t := OpeningList(spec, lc, parens, s.blockState[t])],
                args := OpeningArgs(spec, parens), argsTag := Some(t));
    OpenKeepsShape(cfg, s, r, Element(t, i, i, GetName(spec, lc)), i);
    if GetName(spec, lc).Some? then AppendKeepsNamed(cfg, s.elements, Element(t, i, i, GetName(spec, lc))); r
    else r
  }

  /**
   * Appending a record of a block tag and growing that tag's counter list by at most
   * one keeps the shape.
   */
  lemma OpenKeepsShape(cfg: Config, s: State, r: State, e: Element, i: nat)
    requires Shape(cfg, s) && e.tag in BlockTags(cfg.blocks) && e.start == i && e.end == i
    requires r.elements == s.elements + [e] && r.singleState == s.singleState && r.prevBlock == s.prevBlock
    requires e.tag in r.blockState && r.blockState == s.blockState[e.tag := r.blockState[e.tag]]
    requires |r.blockState[e.tag]| <= |s.blockState[e.tag]| + 1
    ensures Shape(cfg, r) && LineEffect(s.elements, r.elements, i)
  {
    assert r.elements[..|s.elements|] == s.elements;
    forall u | u in r.blockState
      ensures |r.blockState[u]| <= CountTag(r.elements, u)
    {
      CountTagAppend(s.elements, [e], u);
      assert CountTag([e], u) == CountTag([], u) + (if e.tag == u then 1 else 0) by {
        assert [e][..0] == [];
      }
    }
  }

  lemma AppendKeepsNamed(cfg: Config, es: seq<Element>, e: Element)
    requires Named(cfg, es) && WellNamed(cfg, e)
    ensures Named(cfg, es + [e])
  {
    forall k | 0 <= k < |es| + 1
      ensures WellNamed(cfg, (es + [e])[k])
    {
      if k < |es| {
        assert (es + [e])[k] == es[k];
      }
    }
  }

  /** Unfolds the definition of `HandleBlock`; a proof helper, not a property. */
  lemma HandleBlockIs(cfg: Config, s: State, t: Tag, i: nat, lc: string)
    requires Inv(cfg, s) && t in BlockTags(cfg.blocks)
    ensures var spec := cfg.blocks[BlockIndex(cfg.blocks, t)];
            var parens := EndUp(lc, 0, "(", ")");
            HandleBlock(cfg, s, t, i, lc)
            == s.(elements := s.elements + [Element(t, i, i, GetName(spec, lc))],
                  blockState := s.blockState[t := OpeningList(spec, lc, parens, s.blockState[t])],
                  args := OpeningArgs(spec, parens), argsTag := Some(t))
  {
  }

  /** `HandleType`: a declared type is handled by its table; any other tag changes nothing. */
  function AfterHandleType(cfg: Config, s: State, t: Tag, i: nat, line: string): (r: State)
    requires Inv(cfg, s)
    ensures Shape(cfg, r) && LineEffect(s.elements, r.elements, i) && r.prevBlock == s.prevBlock
    ensures t in SingleTags(cfg.singles) || t in BlockTags(cfg.blocks) ==>
              r.elements != [] && r.elements[|r.elements| - 1].tag == t
    ensures t !in SingleTags(cfg.singles) ==> r.singleState == s.singleState
    ensures t in SingleTags(cfg.singles) ==> r.singleState[t] > 0
    ensures (t in BlockTags(cfg.blocks) ==> GetName(cfg.blocks[BlockIndex(cfg.blocks, t)], GetNormalizedLine(line)).Some?)
            ==> Named(cfg, r.elements)
  {
    if t in SingleTags(cfg.singles) then HandleSingle(cfg, s, t, i)
    else if t in BlockTags(cfg.blocks) then HandleBlock(cfg, s, t, i, GetNormalizedLine(line))
    else
      assert s.elements[..|s.elements|] == s.elements;
      s
  }

  /** `Reinit`: every single counter but `t`'s is zero; `t`'s is kept. */
  function Reset(counters: map<Tag, nat>, t: Tag): (r: map<Tag, nat>)
    ensures r.Keys == counters.Keys
  {
    map u | u in counters :: if u == t then counters[u] else 0
  }

  /**
   * Counters where every single type other than `t` is zero and nothing else
   * changed are `Reset(before, t)`.
   */
  lemma ResetAll(singles: seq<SingleSpec>, before: map<Tag, nat>, after: map<Tag, nat>, t: Tag)
    requires before.Keys == SingleTags(singles) && after.Keys == before.Keys
    requires forall m :: 0 <= m < |singles| && singles[m].tag != t ==> after[singles[m].tag] == 0
    requires forall u :: u in after && after[u] != before[u] ==> u != t && after[u] == 0
    ensures after == Reset(before, t)
  {
    forall u | u in after
      ensures after[u] == Reset(before, t)[u]
    {
      if u != t {
        var m :| 0 <= m < |singles| && singles[m].tag == u;
      }
    }
  }

  // ---------------------------------------------------------------------------
  // One line, and the whole scan

  /**
   * The rule of `Main` that lets a classified line be handled: no block handled
   * yet, or the last handled block type is recursive, or it has no instance left.
   */
  predicate Admits(cfg: Config, u: State)
    requires Shape(cfg, u)
  {
    || u.prevBlock.None?
    || cfg.blocks[BlockIndex(cfg.blocks, u.prevBlock.value)].recursive
    || |u.blockState[u.prevBlock.value]| == 0
  }

  /** Some single-line type is configured with a mode `VerifyType` does not know, and that mode is `e`'s. */
  predicate RaisedByConfig(cfg: Config, e: Error)
  {
    exists m :: 0 <= m < |cfg.singles| && cfg.singles[m].way == e.way && !KnownWay(e.way)
  }

  /**
   * What the classifier's answer guarantees: a type it names is declared, and a
   * block type's pattern matched the line, so the block gets a name; it raises only
   * for a configured mode it does not know.
   */
  lemma ClassifiedFacts(cfg: Config, state: map<Tag, seq<nat>>, line: string)
    requires WellFormed(cfg) && AllConstraintsKnown(cfg.blocks, state)
    ensures var c := DefineType(cfg, state, line);
            c.Success? && c.value.Some? ==> Declared(cfg, c.value.value, line)
    ensures DefineType(cfg, state, line).Failure? ==> RaisedByConfig(cfg, DefineType(cfg, state, line).error)
  {
    var c := DefineType(cfg, state, line);
    if c.Success? && c.value.Some? && c.value.value in BlockTags(cfg.blocks) {
      ClassifiedBlockIsNamed(cfg, state, line);
    }
    if c.Failure? {
      var m :| 0 <= m < |cfg.singles| && cfg.singles[m].way == c.error.way
               && VerifyType(GetNormalizedLine(line), cfg.singles[m].element, cfg.singles[m].way).Failure?;
      assert !KnownWay(cfg.singles[m].way);
    }
  }

  /** `t` is a declared type, and if it is a block type its pattern matches `line`. */
  predicate Declared(cfg: Config, t: Tag, line: string)
  {
    && (t in SingleTags(cfg.singles) || t in BlockTags(cfg.blocks))
    && (t in BlockTags(cfg.blocks) ==> GetName(cfg.blocks[BlockIndex(cfg.blocks, t)], GetNormalizedLine(line)).Some?)
  }

  lemma LineEffectAfterAdvance(a: seq<Element>, b: seq<Element>, c: seq<Element>, i: nat)
    requires EndsAdvanced(a, b, i) && LineEffect(b, c, i)
    ensures LineEffect(a, c, i)
  {
    EndsAdvancedTrans(a, b, c[..|a|], i);
  }

  /**
   * A line `Main` lets through: `HandleType`, then `Reinit`, then a block type
   * becomes `prev_block_type`.
   */
  function Handled(cfg: Config, u: State, t: Tag, i: nat, line: string): (r: State)
    requires Inv(cfg, u) && Declared(cfg, t, line)
    ensures Inv(cfg, r) && LineEffect(u.elements, r.elements, i)
    ensures r.prevBlock == if t in BlockTags(cfg.blocks) then Some(t) else u.prevBlock
    ensures r.elements != [] && r.elements[|r.elements| - 1].tag == t
    ensures forall v :: v in r.singleState && v != t ==> r.singleState[v] == 0
  {
    var h := AfterHandleType(cfg, u, t, i, line);
    HandledKeepsInv(cfg, h, t, line);
    h.(singleState := Reset(h.singleState, t), prevBlock := if t in BlockTags(cfg.blocks) then Some(t) else h.prevBlock)
  }

  /**
   * After a handled line, whose type owns the last record, zeroing the other
   * streaks and remembering a block type keeps the invariant.
   */
  lemma HandledKeepsInv(cfg: Config, h: State, t: Tag, line: string)
    requires Shape(cfg, h) && Named(cfg, h.elements) && Declared(cfg, t, line)
    requires h.elements != [] && h.elements[|h.elements| - 1].tag == t
    ensures Inv(cfg, h.(singleState := Reset(h.singleState, t),
                        prevBlock := if t in BlockTags(cfg.blocks) then Some(t) else h.prevBlock))
  {
  }

  /**
   * One iteration of `Main`: classify the line against the state before it,
   * advance the open blocks, then handle the line's type (and reset the other
   * streaks) only when `Admits` lets it through; a handled block type becomes
   * `prev_block_type`.
   */
  function AfterLine(cfg: Config, s: State, i: nat, line: string): (r: Result<State, Error>)
    requires Inv(cfg, s)
    ensures r.Success? ==> Inv(cfg, r.value) && LineEffect(s.elements, r.value.elements, i)
    ensures r.Failure? ==> RaisedByConfig(cfg, r.error)
  {
    InvKnowsConstraints(cfg, s);
    ClassifiedFacts(cfg, s.blockState, line);
    match DefineType(cfg, s.blockState, line)
    case Failure(e) => Failure(e)
    case Success(ty) => Success(AfterClassified(cfg, s, ty, i, line))
  }

  /** The rest of a line once the classifier has answered `ty` on the state before it. */
  function AfterClassified(cfg: Config, s: State, ty: Option<Tag>, i: nat, line: string): (r: State)
    requires Inv(cfg, s) && (ty.Some? ==> Declared(cfg, ty.value, line))
    ensures Inv(cfg, r) && LineEffect(s.elements, r.elements, i)
  {
    var u := AfterBlocks(cfg, s, GetNormalizedLine(line), i, 0);
    AdvanceKeepsInv(cfg, s, u, i);
    HandledIfAdmitted(cfg, s, u, ty, i, line)
  }

  /**
   * The second half of a classified line: once the open blocks have advanced to
   * `u`, the line is handled when the last handled block type admits it.
   */
  function HandledIfAdmitted(cfg: Config, s: State, u: State, ty: Option<Tag>, i: nat, line: string): (r: State)
    requires Inv(cfg, u) && EndsAdvanced(s.elements, u.elements, i) && (ty.Some? ==> Declared(cfg, ty.value, line))
    ensures Inv(cfg, r) && LineEffect(s.elements, r.elements, i)
  {
    if ty.Some? && Admits(cfg, u) then
      var h := Handled(cfg, u, ty.value, i, line);
      LineEffectAfterAdvance(s.elements, u.elements, h.elements, i);
      h
    else
      assert u.elements[..|s.elements|] == u.elements;
      u
  }

  /** Unfolds the definition of `AfterClassified`; a proof helper, not a property. */
  lemma AfterClassifiedIs(cfg: Config, s: State, ty: Option<Tag>, i: nat, line: string)
    requires Inv(cfg, s) && (ty.Some? ==> Declared(cfg, ty.value, line))
    ensures var u := AfterBlocks(cfg, s, GetNormalizedLine(line), i, 0);
            Inv(cfg, u)
            && AfterClassified(cfg, s, ty, i, line)
               == if ty.Some? && Admits(cfg, u) then Handled(cfg, u, ty.value, i, line) else u
  {
    AdvanceKeepsInv(cfg, s, AfterBlocks(cfg, s, GetNormalizedLine(line), i, 0), i);
  }

  // ---------------------------------------------------------------------------
  // The suppression rule of `Main`

  /**
   * A line that is not classified, or that the last handled block type does not
   * admit, starts no record, leaves every streak counter as it was (no `Reinit`)
   * and keeps the last handled block type.
   */
  lemma SuppressedLineAddsNothing(cfg: Config, s: State, ty: Option<Tag>, i: nat, line: string)
    requires Inv(cfg, s) && (ty.Some? ==> Declared(cfg, ty.value, line))
    requires ty.Some? ==> !Admits(cfg, AfterBlocks(cfg, s, GetNormalizedLine(line), i, 0))
    ensures var r := AfterClassified(cfg, s, ty, i, line);
            && |r.elements| == |s.elements|
            && r.singleState == s.singleState
            && r.prevBlock == s.prevBlock
  {
    AfterClassifiedIs(cfg, s, ty, i, line);
  }

  /**
   * A line the last handled block type admits ends with a record of its type, every
   * other single streak is zero, and a block type becomes the last handled one.
   */
  lemma AdmittedLineIsHandled(cfg: Config, s: State, t: Tag, i: nat, line: string)
    requires Inv(cfg, s) && Declared(cfg, t, line)
    requires Admits(cfg, AfterBlocks(cfg, s, GetNormalizedLine(line), i, 0))
    ensures var r := AfterClassified(cfg, s, Some(t), i, line);
            && r.elements != [] && r.elements[|r.elements| - 1].tag == t
            && (forall v :: v in r.singleState && v != t ==> r.singleState[v] == 0)
            && r.prevBlock == if t in BlockTags(cfg.blocks) then Some(t) else s.prevBlock
  {
    var u := AfterBlocks(cfg, s, GetNormalizedLine(line), i, 0);
    AfterClassifiedIs(cfg, s, Some(t), i, line);
    var h := Handled(cfg, u, t, i, line);
    assert AfterClassified(cfg, s, Some(t), i, line) == h;
  }

  /** The last handled block type changes only to the type of a handled block line. */
  lemma PrevBlockChangesOnlyOnBlock(cfg: Config, s: State, ty: Option<Tag>, i: nat, line: string)
    requires Inv(cfg, s) && (ty.Some? ==> Declared(cfg, ty.value, line))
    ensures var r := AfterClassified(cfg, s, ty, i, line);
            r.prevBlock != s.prevBlock ==> ty.Some? && ty.value in BlockTags(cfg.blocks) && r.prevBlock == ty
  {
    AfterClassifiedIs(cfg, s, ty, i, line);
    var u := AfterBlocks(cfg, s, GetNormalizedLine(line), i, 0);
    if ty.Some? && Admits(cfg, u) {
      AdmittedLineIsHandled(cfg, s, ty.value, i, line);
    } else {
      SuppressedLineAddsNothing(cfg, s, ty, i, line);
    }
  }

  /** Unfolds the definition of `Handled`; a proof helper, not a property. */
  lemma HandledIs(cfg: Config, u: State, t: Tag, i: nat, line: string)
    requires Inv(cfg, u) && Declared(cfg, t, line)
    ensures var h := AfterHandleType(cfg, u, t, i, line);
            Handled(cfg, u, t, i, line)
            == h.(singleState := Reset(h.singleState, t),
                  prevBlock := if t in BlockTags(cfg.blocks) then Some(t) else h.prevBlock)
  {
  }

  /** Once line `i` has had its effect, every record lies within lines `0 .. i`. */
  lemma LineEffectKeepsRanges(before: seq<Element>, after: seq<Element>, i: nat)
    requires RecordsBefore(before, i) && LineEffect(before, after, i)
    ensures RecordsBefore(after, i + 1)
  {
    forall k | 0 <= k < |before|
      ensures after[k] == after[..|before|][k]
    {
    }
  }

  /** `Main`'s loop from line `i` on. */
  function Run(cfg: Config, s: State, lines: seq<string>, i: nat): (r: Result<State, Error>)
    requires Inv(cfg, s) && i <= |lines| && RecordsBefore(s.elements, i)
    ensures r.Success? ==> Inv(cfg, r.value) && RecordsBefore(r.value.elements, |lines|)
    ensures r.Failure? ==> RaisedByConfig(cfg, r.error)
    decreases |lines| - i
  {
    if i == |lines| then Success(s)
    else
      match AfterLine(cfg, s, i, lines[i])
      case Failure(e) => Failure(e)
      case Success(s') =>
        LineEffectKeepsRanges(s.elements, s'.elements, i);
        Run(cfg, s', lines, i + 1)
  }

  /** A line that succeeds moves the scan one line on without changing where it ends. */
  lemma RunStep(cfg: Config, s: State, lines: seq<string>, i: nat, s': State)
    requires Inv(cfg, s) && i < |lines| && RecordsBefore(s.elements, i)
    requires AfterLine(cfg, s, i, lines[i]) == Success(s')
    ensures Inv(cfg, s') && RecordsBefore(s'.elements, i + 1)
    ensures Run(cfg, s', lines, i + 1) == Run(cfg, s, lines, i)
  {
    LineEffectKeepsRanges(s.elements, s'.elements, i);
  }

  /**
   * `GetElements(lines, blocks, singles, ignore)`: the records of a successful
   * scan each cover lines within the input, start in line order, and carry a name
   * exactly when they are blocks; the scan raises only for a configured mode that
   * `VerifyType` does not know.
   */
  function Detect(cfg: Config, lines: seq<string>): (r: Result<seq<Element>, Error>)
    requires WellFormed(cfg)
    ensures r.Success? ==> RecordsBefore(r.value, |lines|) && Named(cfg, r.value)
    ensures r.Failure? ==> RaisedByConfig(cfg, r.error)
  {
    match Run(cfg, Initial(cfg), lines, 0)
    case Success(s) => Success(s.elements)
    case Failure(e) => Failure(e)
  }
}
