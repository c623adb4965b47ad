/**
 * The scanner as the original runs it: one object whose fields the closures of
 * `GetElements` update in place, line by line. Each method is proved to leave
 * exactly the state that the matching function of `Steps` describes, so what is
 * proved there about the records holds of this object.
 */
module Detection {
  import opened Wrappers
  import opened Normalize
  import opened Balance
  import opened Compaction
  import opened Records
  import opened Config
  import opened Classify
  import opened Steps

  class Scanner {
    /** The block table, the single-line table and the ignore list. */
    const cfg: Config
    /** The records found so far. */
    var elements: seq<Element>
    /** `in_` for the block tags: one depth counter per started instance, oldest first. */
    var blockState: map<Tag, seq<nat>>
    /** `in_` for the single tags: the streak counters. */
    var singleState: map<Tag, nat>
    /** `block_parenthesis`: the argument slot and the block tag that owns it. */
    var args: Args
    var argsTag: Option<Tag>
    /** `prev_block_type`. */
    var prevBlock: Option<Tag>

    function Snapshot(): State
      reads this
    {
      State(elements, blockState, singleState, args, argsTag, prevBlock)
    }

    /** A scanner over the tables of `cfg`, with the argument slot balanced and unowned. */
    constructor (cfg: Config)
      ensures this.cfg == cfg && args == Balanced && argsTag == None
    {
      this.cfg := cfg;
      elements := [];
      blockState := map[];
      singleState := map[];
      args := Balanced;
      argsTag := None;
      prevBlock := None;
    }

    /**
     * `UpdateLastIndex`: walk the records from the end and set the `end` of the
     * (`num`+1)-th one of tag `t` to `newIdx`; report whether there was one.
     */
    method UpdateLastIndex(t: Tag, newIdx: nat, num: nat) returns (found: bool)
      modifies this`elements
      ensures found <==> NthLast(old(elements), t, num).Some?
      ensures found ==> elements == SetEnd(old(elements), NthLast(old(elements), t, num).value, newIdx)
      ensures !found ==> elements == old(elements)
    {
      found := false;
      var count := 0;
      var j := |elements|;
      assert elements[j..] == [];
      while j > 0
        invariant 0 <= j <= |elements| && elements == old(elements)
        invariant count <= num && count == CountTag(elements[j..], t)
        invariant NthLast(elements, t, num) == NthLastBefore(elements, j, t, num - count)
      {
        j := j - 1;
        CountTagFrom(elements, j, t);
        if elements[j].tag == t {
          if count == num {
            elements := SetEnd(elements, j, newIdx);
            found := true;
            break;
          }
          count := count + 1;
        }
      }
    }

    /**
     * The closing half of `UpdateState`: instance `j` of the `n` instances of `t`
     * is zeroed (the list compacted when it is the oldest) and the end of its
     * record moves to line `i`.
     */
    method CloseAt(t: Tag, i: nat, j: nat, n: nat)
      requires Fits(cfg, Snapshot()) && t in blockState && j < n == |blockState[t]|
      modifies this`elements, this`blockState
      ensures Snapshot() == CloseInstance(cfg, old(Snapshot()), t, i, j, n)
    {
      ghost var s0 := Snapshot();
      CloseInstanceIs(cfg, s0, t, i, j, n);
      var list := blockState[t][j := 0];
      if j == 0 {
        list := Del(list);
      }
      assert list == ClosedList(s0.blockState[t], j);
      blockState := blockState[t := list];
      var found := UpdateLastIndex(t, i, n - 1 - j);
      // The list never has more entries than there are records of its tag, so
      // the record is always found and the original's exception cannot occur.
      assert found;
    }

    /**
     * `UpdateState`: walk `segment` from `depth` with block `b`'s delimiters; a
     * closure closes instance `j`, otherwise the new depth is stored.
     */
    method UpdateState(segment: string, depth: nat, i: nat, b: nat, j: nat, n: nat)
      requires Fits(cfg, Snapshot()) && b < |cfg.blocks|
      requires j < n == |blockState[cfg.blocks[b].tag]|
      modifies this`elements, this`blockState
      ensures Snapshot() == AfterUpdateState(cfg, old(Snapshot()), segment, depth, i, b, j, n)
    {
      ghost var s0 := Snapshot();
      var spec := cfg.blocks[b];
      var t := spec.tag;
      var walk := IsEndUp(segment, depth, spec.open, spec.close);
      AfterUpdateStateIs(cfg, s0, segment, depth, i, b, j, n);
      if walk.Closed? {
        CloseAt(t, i, j, n);
      } else {
        var list: seq<nat> := blockState[t][j := walk.count];
        blockState := blockState[t := list];
        assert Snapshot() == StoreDepth(cfg, s0, t, i, j, walk.count);
      }
    }

    /**
     * One pass of the inner loop of `UpdateBlocks`: instance `j` of block `b`. The
     * newest instance of the block owning a pending argument list finishes that
     * list first and walks its body from the closing parenthesis on; any other
     * instance advances only while its counter is positive.
     */
    method UpdateInstance(lc: string, i: nat, b: nat, j: nat, n: nat)
      requires Fits(cfg, Snapshot()) && b < |cfg.blocks|
      requires j < n == |blockState[cfg.blocks[b].tag]|
      modifies this`elements, this`blockState, this`args
      ensures Snapshot() == AfterInstance(cfg, old(Snapshot()), lc, i, b, j, n)
    {
      ghost var s := Snapshot();
      var t := cfg.blocks[b].tag;
      AfterInstanceIs(cfg, s, lc, i, b, j, n);
      if args.Pending? && argsTag == Some(t) && j == n - 1 {
        var walk := IsEndUp(lc, args.depth, "(", ")");
        if walk.Closed? {
          args := Balanced;
          assert Snapshot() == s.(args := Balanced);
          UpdateState(Drop(lc, walk.at), 0, i, b, j, n);
        } else {
          args := Pending(walk.count);
        }
      } else if blockState[t][j] > 0 {
        UpdateState(lc, blockState[t][j], i, b, j, n);
      }
    }

    /** The inner loop of `UpdateBlocks`: the instances of block `b`, from the most recent down. */
    method UpdateInstances(lc: string, i: nat, b: nat)
      requires Fits(cfg, Snapshot()) && b < |cfg.blocks|
      modifies this`elements, this`blockState, this`args
      ensures Snapshot() == AfterInstances(cfg, old(Snapshot()), lc, i, b, |old(blockState)[cfg.blocks[b].tag]|,
                                           |old(blockState)[cfg.blocks[b].tag]|)
    {
      var t := cfg.blocks[b].tag;
      var n := |blockState[t]|;
      ghost var goal := AfterInstances(cfg, Snapshot(), lc, i, b, n, n);
      var j: nat := n;
      while j > 0
        invariant j <= n
        invariant Fits(cfg, Snapshot())
        invariant j > 0 ==> |blockState[t]| == n
        invariant AfterInstances(cfg, Snapshot(), lc, i, b, j, n) == goal
      {
        ghost var s := Snapshot();
        j := j - 1;
        UpdateInstance(lc, i, b, j, n);
        assert AfterInstances(cfg, s, lc, i, b, j + 1, n) == AfterInstances(cfg, Snapshot(), lc, i, b, j, n);
      }
      assert AfterInstances(cfg, Snapshot(), lc, i, b, 0, n) == Snapshot();
    }

    /** `UpdateBlocks`: every block type in declared order advances its instances on the line. */
    method UpdateBlocks(i: nat, line: string)
      requires Fits(cfg, Snapshot())
      modifies this`elements, this`blockState, this`args
      ensures Snapshot() == AfterBlocks(cfg, old(Snapshot()), GetNormalizedLine(line), i, 0)
    {
      var lc := GetNormalizedLine(line);
      ghost var goal := AfterBlocks(cfg, Snapshot(), lc, i, 0);
      var b := 0;
      while b < |cfg.blocks|
        invariant b <= |cfg.blocks|
        invariant Fits(cfg, Snapshot())
        invariant AfterBlocks(cfg, Snapshot(), lc, i, b) == goal
      {
        ghost var s := Snapshot();
        UpdateInstances(lc, i, b);
        assert Snapshot() == AfterInstances(cfg, s, lc, i, b, |s.blockState[cfg.blocks[b].tag]|, |s.blockState[cfg.blocks[b].tag]|);
        assert Fits(cfg, Snapshot());
        b := b + 1;
      }
    }

    /** `HandleType` for a single-line type: start a streak record, or extend the running one. */
    method StartOrExtend(t: Tag, i: nat)
      requires Inv(cfg, Snapshot()) && t in SingleTags(cfg.singles)
      modifies this`elements, this`singleState
      ensures Snapshot() == HandleSingle(cfg, old(Snapshot()), t, i)
    {
      ghost var s := Snapshot();
      ghost var r := HandleSingle(cfg, s, t, i);
      if singleState[t] == 0 {
        elements := elements + [Element(t, i, i, None)];
        singleState := singleState[t := singleState[t] + 1];
      } else {
        elements := SetEnd(elements, |elements| - 1, i);
      }
      assert elements == r.elements && singleState == r.singleState;
    }

    /**
     * `HandleType` for a block type: the argument slot is taken over by `t`, the
     * tag's counter list grows unless the block closes on this line, and the
     * block's record is appended.
     */
    method OpenBlock(t: Tag, i: nat, lc: string)
      requires Delimited(cfg) && t in BlockTags(cfg.blocks) && t in blockState
      modifies this`elements, this`blockState, this`args, this`argsTag
      ensures var spec := cfg.blocks[BlockIndex(cfg.blocks, t)];
              var parens := EndUp(lc, 0, "(", ")");
              && elements == old(elements) + [Element(t, i, i, GetName(spec, lc))]
              && blockState == old(blockState)[t := OpeningList(spec, lc, parens, old(blockState)[t])]
              && args == OpeningArgs(spec, parens) && argsTag == Some(t)
    {
      ghost var s := Snapshot();
      var spec := cfg.blocks[BlockIndex(cfg.blocks, t)];
      var parens := IsEndUp(lc, 0, "(", ")");
      var from := parens.at;
      if spec.haveArgs {
        args := if parens.Closed? then Balanced else Pending(parens.count);
      } else {
        args := Balanced;
        from := 0;
      }
      argsTag := Some(t);
      var list := blockState[t];
      if args.Balanced? {
        var body := IsEndUp(Drop(lc, from), 0, spec.open, spec.close);
        if body.Open? {
          list := list + [body.count];
        }
      } else {
        list := list + [0];
      }
      assert list == OpeningList(spec, lc, parens, s.blockState[t]);
      blockState := blockState[t := list];
      elements := elements + [Element(t, i, i, GetName(spec, lc))];
    }

    /** `HandleType`: start or extend a single-line record, or open a block. */
    method HandleType(t: Tag, i: nat, line: string)
      requires Inv(cfg, Snapshot())
      modifies this`elements, this`blockState, this`singleState, this`args, this`argsTag
      ensures Snapshot() == AfterHandleType(cfg, old(Snapshot()), t, i, line)
    {
      var lc := GetNormalizedLine(line);
      if t in SingleTags(cfg.singles) {
        StartOrExtend(t, i);
      } else if t in BlockTags(cfg.blocks) {
        HandleBlockIs(cfg, old(Snapshot()), t, i, lc);
        OpenBlock(t, i, lc);
      }
    }

    /** `Reinit`: zero every single-line streak counter except `t`'s. */
    method Reinit(t: Tag)
      requires singleState.Keys == SingleTags(cfg.singles)
      modifies this`singleState
      ensures singleState == Reset(old(singleState), t)
    {
      var counters := singleState;
      var k := 0;
      while k < |cfg.singles|
        invariant k <= |cfg.singles|
        invariant counters.Keys == old(singleState).Keys
        invariant forall m :: 0 <= m < k && cfg.singles[m].tag != t ==> counters[cfg.singles[m].tag] == 0
        invariant forall u :: u in counters && counters[u] != old(singleState)[u] ==> u != t && counters[u] == 0
      {
        var u := cfg.singles[k].tag;
        if u != t {
          counters := counters[u := 0];
        }
        k := k + 1;
      }
      ResetAll(cfg.singles, old(singleState), counters, t);
      singleState := counters;
    }

    /**
     * A line `Main` lets through: `HandleType`, then `Reinit`, then a block type
     * becomes `prev_block_type`.
     */
    method HandleLine(t: Tag, i: nat, line: string)
      requires Inv(cfg, Snapshot()) && Declared(cfg, t, line)
      modifies this`elements, this`blockState, this`singleState, this`args, this`argsTag, this`prevBlock
      ensures Snapshot() == Handled(cfg, old(Snapshot()), t, i, line)
    {
      ghost var u := Snapshot();
      HandledIs(cfg, u, t, i, line);
      HandleType(t, i, line);
      FinishLine(t);
    }

    /** After `HandleType`: `Reinit`, then a block type becomes `prev_block_type`. */
    method FinishLine(t: Tag)
      requires singleState.Keys == SingleTags(cfg.singles)
      modifies this`singleState, this`prevBlock
      ensures Snapshot() == old(Snapshot()).(singleState := Reset(old(singleState), t),
                                            prevBlock := if t in BlockTags(cfg.blocks) then Some(t) else old(prevBlock))
    {
      Reinit(t);
      if t in BlockTags(cfg.blocks) {
        prevBlock := Some(t);
      }
    }

    /**
     * The body of `Main`'s loop once the line is classified as `ty`: advance the
     * open blocks, then handle the line when the last handled block type allows.
     */
    method ScanLine(ty: Option<Tag>, i: nat, line: string)
      requires Inv(cfg, Snapshot()) && (ty.Some? ==> Declared(cfg, ty.value, line))
      modifies this`elements, this`blockState, this`singleState, this`args, this`argsTag, this`prevBlock
      ensures Snapshot() == AfterClassified(cfg, old(Snapshot()), ty, i, line)
    {
      AfterClassifiedIs(cfg, Snapshot(), ty, i, line);
      UpdateBlocks(i, line);
      if ty.Some? && (prevBlock.None? || cfg.blocks[BlockIndex(cfg.blocks, prevBlock.value)].recursive
                      || |blockState[prevBlock.value]| == 0) {
        HandleLine(ty.value, i, line);
      }
    }

    /**
     * One iteration of `Main`'s loop: classify line `i` against the state before
     * it, then scan it; a configured comparison mode the classifier does not know
     * is reported and changes nothing.
     */
    method StepLine(i: nat, line: string) returns (err: Option<Error>)
      requires Inv(cfg, Snapshot())
      modifies this`elements, this`blockState, this`singleState, this`args, this`argsTag, this`prevBlock
      ensures err.None? ==> AfterLine(cfg, old(Snapshot()), i, line) == Success(Snapshot())
      ensures err.Some? ==> AfterLine(cfg, old(Snapshot()), i, line) == Failure(err.value)
    {
      InvKnowsConstraints(cfg, Snapshot());
      var ty := DefineType(cfg, blockState, line);
      if ty.Failure? {
        return Some(ty.error);
      }
      ClassifiedFacts(cfg, blockState, line);
      ScanLine(ty.value, i, line);
      return None;
    }

    /** `Main`'s start: no records, an empty list per block tag and a zero streak per single tag. */
    method Start()
      requires WellFormed(cfg) && args == Balanced && argsTag == None
      modifies this`elements, this`blockState, this`singleState, this`prevBlock
      ensures Snapshot() == Initial(cfg)
    {
      elements := [];
      blockState := map t | t in BlockTags(cfg.blocks) :: [];
      singleState := map t | t in SingleTags(cfg.singles) :: 0;
      prevBlock := None;
    }

    /** Line `i` of `lines` as one step of the whole scan. */
    method ScanNext(lines: seq<string>, i: nat) returns (err: Option<Error>)
      requires i < |lines| && Inv(cfg, Snapshot()) && RecordsBefore(elements, i)
      modifies this`elements, this`blockState, this`singleState, this`args, this`argsTag, this`prevBlock
      ensures err.None? ==> && Inv(cfg, Snapshot()) && RecordsBefore(elements, i + 1)
                            && Run(cfg, Snapshot(), lines, i + 1) == Run(cfg, old(Snapshot()), lines, i)
      ensures err.Some? ==> Run(cfg, old(Snapshot()), lines, i) == Failure(err.value)
    {
      ghost var before := Snapshot();
      err := StepLine(i, lines[i]);
      if err.None? {
        RunStep(cfg, before, lines, i, Snapshot());
      }
    }

    /**
     * `Main`: start from no records and empty state, and scan the lines in order;
     * a configured comparison mode the classifier does not know ends the scan
     * with its error.
     */
    method Scan(lines: seq<string>) returns (r: Result<seq<Element>, Error>)
      requires WellFormed(cfg) && args == Balanced && argsTag == None
      modifies this
      ensures r == Detect(cfg, lines)
    {
      Start();
      ghost var goal := Run(cfg, Snapshot(), lines, 0);
      var i := 0;
      while i < |lines|
        invariant i <= |lines|
        invariant Inv(cfg, Snapshot()) && RecordsBefore(elements, i)
        invariant Run(cfg, Snapshot(), lines, i) == goal
      {
        var err := ScanNext(lines, i);
        if err.Some? {
          return Failure(err.value);
        }
        i := i + 1;
      }
      return Success(elements);
    }
  }

  /**
   * `GetElements(lines, blocks, singles, ignore)`: the records the scan finds, or
   * the error of a configured comparison mode the classifier does not know.
   */
  method GetElements(lines: seq<string>, cfg: Config) returns (r: Result<seq<Element>, Error>)
    requires WellFormed(cfg)
    ensures r == Detect(cfg, lines)
  {
    var scanner := new Scanner(cfg);
    r := scanner.Scan(lines);
  }
}
