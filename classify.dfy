/**
 * The line classifier (`DefineType`, `VerifyType`) and the name extraction of a
 * block line (`GetName`). Classification is a first-match search in a fixed order:
 * `up` singles, then block types, then `down` singles, then the first `default`.
 */
module Classify {
  import opened Wrappers
  import opened Strings
  import opened Normalize
  import opened Records
  import opened Config

  /** The pieces a `no ...` mode forbids: those from the fourth comma-separated piece on. */
  function Banned(way: string): seq<string>
    requires |way| >= 3
  {
    var pieces := Split(way[3..], ',');
    if |pieces| > 3 then pieces[3..] else []
  }

  predicate NoneOccur(s: string, pieces: seq<string>)
  {
    forall k :: 0 <= k < |pieces| ==> !Occurs(s, pieces[k])
  }

  /** The modes `VerifyType` knows: the four named ones and every mode starting with `no `. */
  predicate KnownWay(way: string)
  {
    way == "==" || way == "startswith" || way == "endswith" || way == "in" || (|way| >= 3 && way[..3] == "no ")
  }

  /**
   * `VerifyType(string, element, way)`. Mode `in` asks whether the line occurs in
   * `element`; mode `no ...` does not look at `element` at all.
   */
  function VerifyType(s: string, element: string, way: string): (r: Result<bool, Error>)
    ensures r.Failure? <==> !KnownWay(way)
    ensures r.Failure? ==> r.error == UnknownWay(way)
  {
    if way == "==" then Success(s == element)
    else if way == "startswith" then Success(element <= s)
    else if way == "endswith" then Success(EndsWith(s, element))
    else if way == "in" then Success(Occurs(element, s))
    else if |way| >= 3 && way[..3] == "no " then Success(NoneOccur(s, Banned(way)))
    else Failure(UnknownWay(way))
  }

  /** A mode starting with `no ` is none of the four named modes. */
  lemma NoModeIsNotNamed(s: string, element: string, way: string)
    requires |way| >= 3 && way[..3] == "no "
    ensures VerifyType(s, element, way) == Success(NoneOccur(s, Banned(way)))
  {
    assert way[0] == 'n';
    assert "=="[0] == '=' && "startswith"[0] == 's' && "endswith"[0] == 'e' && "in"[1] == 'n';
    assert way[1] == 'o';
  }

  /**
   * In `no ` mode the first three comma-separated pieces are skipped, whatever the
   * element: the line passes when none of the remaining pieces occurs in it.
   */
  lemma NoModeSkipsThreePieces(s: string, element: string, a: string, b: string, c: string, rest: string)
    requires ',' !in a && ',' !in b && ',' !in c
    ensures VerifyType(s, element, "no " + a + [','] + b + [','] + c + [','] + rest)
            == Success(NoneOccur(s, Split(rest, ',')))
  {
    var way := "no " + a + [','] + b + [','] + c + [','] + rest;
    BannedSkipsThree(a, b, c, rest);
    NoModeIsNotNamed(s, element, way);
  }

  lemma BannedSkipsThree(a: string, b: string, c: string, rest: string)
    requires ',' !in a && ',' !in b && ',' !in c
    ensures var way := "no " + a + [','] + b + [','] + c + [','] + rest;
            |way| >= 3 && way[..3] == "no " && Banned(way) == Split(rest, ',')
  {
    var tail := a + [','] + (b + [','] + (c + [','] + rest));
    NoModeRegroups(a, b, c, rest);
    BannedOfNo(tail);
    SplitSkipsThree(a, b, c, rest);
  }

  lemma NoModeRegroups(a: string, b: string, c: string, rest: string)
    ensures "no " + a + [','] + b + [','] + c + [','] + rest == "no " + (a + [','] + (b + [','] + (c + [','] + rest)))
  {
  }

  /** Unfolds the definition of `Banned`; a proof helper, not a property. */
  lemma BannedOfNo(tail: string)
    ensures |"no " + tail| >= 3 && ("no " + tail)[..3] == "no "
    ensures Banned("no " + tail) == var pieces := Split(tail, ','); if |pieces| > 3 then pieces[3..] else []
  {
    assert ("no " + tail)[3..] == tail;
  }

  lemma SplitSkipsThree(a: string, b: string, c: string, rest: string)
    requires ',' !in a && ',' !in b && ',' !in c
    ensures var pieces := Split(a + [','] + (b + [','] + (c + [','] + rest)), ',');
            |pieces| > 3 && pieces[3..] == Split(rest, ',')
  {
    var tc := c + [','] + rest;
    var tb := b + [','] + tc;
    SplitFirst(c, rest, ',');
    SplitFirst(b, tc, ',');
    SplitFirst(a, tb, ',');
    var pieces := Split(a + [','] + tb, ',');
    assert pieces[1..] == Split(tb, ',');
    assert Split(tb, ',')[1..] == Split(tc, ',');
    assert Split(tc, ',')[1..] == Split(rest, ',');
    assert pieces[3..] == pieces[1..][1..][1..];
  }

  // ---------------------------------------------------------------------------
  // Single-line types

  predicate Passes(sp: SingleSpec, lc: string)
  {
    VerifyType(lc, sp.element, sp.way) == Success(true)
  }

  /** Every single of position `pos` in `lo..hi` was checked and did not match. */
  predicate RejectedBetween(singles: seq<SingleSpec>, pos: Position, lc: string, lo: nat, hi: nat)
    requires hi <= |singles|
  {
    forall j :: lo <= j < hi && singles[j].position == pos ==>
      VerifyType(lc, singles[j].element, singles[j].way) == Success(false)
  }

  /**
   * The first single of position `pos` from index `k` on whose check passes; the
   * search stops with the error of the first check that raises.
   */
  function FirstSingle(singles: seq<SingleSpec>, pos: Position, lc: string, k: nat): (r: Result<Option<Tag>, Error>)
    requires k <= |singles|
    decreases |singles| - k
  {
    if k == |singles| then Success(None)
    else if singles[k].position != pos then FirstSingle(singles, pos, lc, k + 1)
    else match VerifyType(lc, singles[k].element, singles[k].way)
      case Failure(e) => Failure(e)
      case Success(true) => Success(Some(singles[k].tag))
      case Success(false) => FirstSingle(singles, pos, lc, k + 1)
  }

  /**
   * The search finds nothing exactly when every single of the position fails its
   * check, and what it stops at (a match or an error) is preceded only by failing
   * checks.
   */
  lemma {:induction false} FirstSingleIsFirst(singles: seq<SingleSpec>, pos: Position, lc: string, k: nat)
    requires k <= |singles|
    ensures FirstSingle(singles, pos, lc, k) == Success(None) <==> RejectedBetween(singles, pos, lc, k, |singles|)
    ensures var r := FirstSingle(singles, pos, lc, k);
            !(r == Success(None)) ==>
              exists m :: k <= m < |singles| && singles[m].position == pos && RejectedBetween(singles, pos, lc, k, m)
                          && r == (match VerifyType(lc, singles[m].element, singles[m].way)
                                   case Failure(e) => Failure(e)
                                   case Success(_) => Success(Some(singles[m].tag)))
    decreases |singles| - k
  {
    if k < |singles| {
      FirstSingleIsFirst(singles, pos, lc, k + 1);
      var r := FirstSingle(singles, pos, lc, k);
      if singles[k].position == pos && VerifyType(lc, singles[k].element, singles[k].way) != Success(false) {
        assert RejectedBetween(singles, pos, lc, k, k);
      } else {
        FirstSingleSkip(singles, pos, lc, k);
        if r != Success(None) {
          var m :| k + 1 <= m < |singles| && singles[m].position == pos && RejectedBetween(singles, pos, lc, k + 1, m)
                   && r == (match VerifyType(lc, singles[m].element, singles[m].way)
                            case Failure(e) => Failure(e)
                            case Success(_) => Success(Some(singles[m].tag)));
          assert RejectedBetween(singles, pos, lc, k, m);
        }
      }
    }
  }

  /** The first single of position `default` from index `k` on. */
  function FirstDefault(singles: seq<SingleSpec>, k: nat): (r: Option<Tag>)
    requires k <= |singles|
    ensures r.Some? ==> exists m :: k <= m < |singles| && singles[m].position == Default && singles[m].tag == r.value
                                    && forall j :: k <= j < m ==> singles[j].position != Default
    ensures r.None? <==> forall j :: k <= j < |singles| ==> singles[j].position != Default
    decreases |singles| - k
  {
    if k == |singles| then None
    else if singles[k].position == Default then Some(singles[k].tag)
    else FirstDefault(singles, k + 1)
  }

  // ---------------------------------------------------------------------------
  // Block types

  /** The state records a counter list for every tag the block type's constraints name. */
  predicate ConstraintsKnown(b: BlockSpec, state: map<Tag, seq<nat>>)
  {
    && (forall m :: 0 <= m < |b.isNotIn| ==> b.isNotIn[m] in state)
    && (forall m :: 0 <= m < |b.isInside| ==> b.isInside[m] in state)
  }

  predicate AllConstraintsKnown(blocks: seq<BlockSpec>, state: map<Tag, seq<nat>>)
  {
    forall k :: 0 <= k < |blocks| ==> ConstraintsKnown(blocks[k], state)
  }

  /**
   * A block type may start on the line: its pattern matches, no ignore string occurs
   * in the line, no `is_not_in` tag has an open instance and every `is_inside` tag has one.
   */
  predicate Eligible(b: BlockSpec, state: map<Tag, seq<nat>>, ignore: seq<string>, lc: string)
    requires ConstraintsKnown(b, state)
  {
    && b.pattern(lc).Some?
    && (forall k :: 0 <= k < |ignore| ==> !Occurs(lc, ignore[k]))
    && (forall m :: 0 <= m < |b.isNotIn| ==> |state[b.isNotIn[m]]| == 0)
    && (forall m :: 0 <= m < |b.isInside| ==> |state[b.isInside[m]]| > 0)
  }

  predicate IneligibleBetween(blocks: seq<BlockSpec>, state: map<Tag, seq<nat>>, ignore: seq<string>, lc: string, lo: nat, hi: nat)
    requires hi <= |blocks| && AllConstraintsKnown(blocks, state)
  {
    forall j :: lo <= j < hi ==> !Eligible(blocks[j], state, ignore, lc)
  }

  /** The first eligible block type from index `k` on. */
  function FirstBlock(blocks: seq<BlockSpec>, state: map<Tag, seq<nat>>, ignore: seq<string>, lc: string, k: nat): (r: Option<Tag>)
    requires k <= |blocks| && AllConstraintsKnown(blocks, state)
    decreases |blocks| - k
  {
    if k == |blocks| then None
    else if Eligible(blocks[k], state, ignore, lc) then Some(blocks[k].tag)
    else FirstBlock(blocks, state, ignore, lc, k + 1)
  }

  /**
   * The search finds nothing exactly when no block type is eligible, and the one it
   * finds is the first eligible one.
   */
  lemma {:induction false} FirstBlockIsFirst(blocks: seq<BlockSpec>, state: map<Tag, seq<nat>>, ignore: seq<string>, lc: string, k: nat)
    requires k <= |blocks| && AllConstraintsKnown(blocks, state)
    ensures FirstBlock(blocks, state, ignore, lc, k).None? <==> IneligibleBetween(blocks, state, ignore, lc, k, |blocks|)
    ensures FirstBlock(blocks, state, ignore, lc, k).Some? ==>
              exists m :: k <= m < |blocks| && blocks[m].tag == FirstBlock(blocks, state, ignore, lc, k).value
                          && Eligible(blocks[m], state, ignore, lc)
                          && IneligibleBetween(blocks, state, ignore, lc, k, m)
    decreases |blocks| - k
  {
    if k < |blocks| {
      FirstBlockIsFirst(blocks, state, ignore, lc, k + 1);
      var r := FirstBlock(blocks, state, ignore, lc, k);
      if Eligible(blocks[k], state, ignore, lc) {
        assert IneligibleBetween(blocks, state, ignore, lc, k, k);
      } else if r.Some? {
        var m :| k + 1 <= m < |blocks| && blocks[m].tag == r.value && Eligible(blocks[m], state, ignore, lc)
                 && IneligibleBetween(blocks, state, ignore, lc, k + 1, m);
        assert IneligibleBetween(blocks, state, ignore, lc, k, m);
      }
    }
  }

  // ---------------------------------------------------------------------------
  // The classifier

  /** `DefineType(line, in_)`: `state` gives each block tag's list of open-instance counters. */
  function DefineType(cfg: Config, state: map<Tag, seq<nat>>, line: string): (r: Result<Option<Tag>, Error>)
    requires AllConstraintsKnown(cfg.blocks, state)
    ensures r.Success? && r.value.Some? ==>
              r.value.value in SingleTags(cfg.singles)
              || exists m :: 0 <= m < |cfg.blocks| && cfg.blocks[m].tag == r.value.value
                             && Eligible(cfg.blocks[m], state, cfg.ignore, GetNormalizedLine(line))
    ensures r.Failure? ==>
              exists m :: 0 <= m < |cfg.singles| && cfg.singles[m].way == r.error.way
                          && VerifyType(GetNormalizedLine(line), cfg.singles[m].element, cfg.singles[m].way).Failure?
  {
    var lc := GetNormalizedLine(line);
    FirstSingleIsFirst(cfg.singles, Up, lc, 0);
    FirstSingleIsFirst(cfg.singles, Down, lc, 0);
    match FirstSingle(cfg.singles, Up, lc, 0)
    case Failure(e) => Failure(e)
    case Success(Some(t)) => Success(Some(t))
    case Success(None) =>
      match FirstBlock(cfg.blocks, state, cfg.ignore, lc, 0)
      case Some(t) => FirstBlockIsFirst(cfg.blocks, state, cfg.ignore, lc, 0); Success(Some(t))
      case None =>
        match FirstSingle(cfg.singles, Down, lc, 0)
        case Failure(e) => Failure(e)
        case Success(Some(t)) => Success(Some(t))
        case Success(None) => Success(FirstDefault(cfg.singles, 0))
  }

  /** 1. The first `up` single whose check passes wins over everything else. */
  lemma UpSingleFirst(cfg: Config, state: map<Tag, seq<nat>>, line: string, m: nat)
    requires AllConstraintsKnown(cfg.blocks, state)
    requires m < |cfg.singles| && cfg.singles[m].position == Up
    requires Passes(cfg.singles[m], GetNormalizedLine(line))
    requires RejectedBetween(cfg.singles, Up, GetNormalizedLine(line), 0, m)
    ensures DefineType(cfg, state, line) == Success(Some(cfg.singles[m].tag))
  {
    FirstSingleAt(cfg.singles, Up, GetNormalizedLine(line), m);
  }

  /** 2. Then the first eligible block type, in declared order. */
  lemma BlockSecond(cfg: Config, state: map<Tag, seq<nat>>, line: string, m: nat)
    requires AllConstraintsKnown(cfg.blocks, state)
    requires RejectedBetween(cfg.singles, Up, GetNormalizedLine(line), 0, |cfg.singles|)
    requires m < |cfg.blocks| && Eligible(cfg.blocks[m], state, cfg.ignore, GetNormalizedLine(line))
    requires IneligibleBetween(cfg.blocks, state, cfg.ignore, GetNormalizedLine(line), 0, m)
    ensures DefineType(cfg, state, line) == Success(Some(cfg.blocks[m].tag))
  {
    FirstSingleIsFirst(cfg.singles, Up, GetNormalizedLine(line), 0);
    FirstBlockAt(cfg.blocks, state, cfg.ignore, GetNormalizedLine(line), m);
  }

  /** 3. Then the first `down` single whose check passes. */
  lemma DownSingleThird(cfg: Config, state: map<Tag, seq<nat>>, line: string, m: nat)
    requires AllConstraintsKnown(cfg.blocks, state)
    requires RejectedBetween(cfg.singles, Up, GetNormalizedLine(line), 0, |cfg.singles|)
    requires IneligibleBetween(cfg.blocks, state, cfg.ignore, GetNormalizedLine(line), 0, |cfg.blocks|)
    requires m < |cfg.singles| && cfg.singles[m].position == Down
    requires Passes(cfg.singles[m], GetNormalizedLine(line))
    requires RejectedBetween(cfg.singles, Down, GetNormalizedLine(line), 0, m)
    ensures DefineType(cfg, state, line) == Success(Some(cfg.singles[m].tag))
  {
    FirstSingleIsFirst(cfg.singles, Up, GetNormalizedLine(line), 0);
    FirstBlockIsFirst(cfg.blocks, state, cfg.ignore, GetNormalizedLine(line), 0);
    FirstSingleAt(cfg.singles, Down, GetNormalizedLine(line), m);
  }

  /** 4. Then the first `default` single, unconditionally; 5. else nothing. */
  lemma DefaultLast(cfg: Config, state: map<Tag, seq<nat>>, line: string)
    requires AllConstraintsKnown(cfg.blocks, state)
    requires RejectedBetween(cfg.singles, Up, GetNormalizedLine(line), 0, |cfg.singles|)
    requires IneligibleBetween(cfg.blocks, state, cfg.ignore, GetNormalizedLine(line), 0, |cfg.blocks|)
    requires RejectedBetween(cfg.singles, Down, GetNormalizedLine(line), 0, |cfg.singles|)
    ensures DefineType(cfg, state, line) == Success(FirstDefault(cfg.singles, 0))
  {
    var lc := GetNormalizedLine(line);
    FirstSingleIsFirst(cfg.singles, Up, lc, 0);
    FirstBlockIsFirst(cfg.blocks, state, cfg.ignore, lc, 0);
    FirstSingleIsFirst(cfg.singles, Down, lc, 0);
  }

  /** An unknown comparison mode raises when the search reaches its single. */
  lemma UnknownWayRaises(cfg: Config, state: map<Tag, seq<nat>>, line: string, m: nat)
    requires AllConstraintsKnown(cfg.blocks, state)
    requires m < |cfg.singles| && cfg.singles[m].position == Up
    requires VerifyType(GetNormalizedLine(line), cfg.singles[m].element, cfg.singles[m].way).Failure?
    requires RejectedBetween(cfg.singles, Up, GetNormalizedLine(line), 0, m)
    ensures DefineType(cfg, state, line) == Failure(UnknownWay(cfg.singles[m].way))
  {
    FirstSingleAt(cfg.singles, Up, GetNormalizedLine(line), m);
  }

  /** The search from `k` stops at the first single that passes or raises. */
  lemma {:induction false} FirstSingleAt(singles: seq<SingleSpec>, pos: Position, lc: string, m: nat)
    requires m < |singles| && singles[m].position == pos
    requires RejectedBetween(singles, pos, lc, 0, m)
    requires !VerifyType(lc, singles[m].element, singles[m].way).Success? || Passes(singles[m], lc)
    ensures FirstSingle(singles, pos, lc, 0) ==
              match VerifyType(lc, singles[m].element, singles[m].way)
              case Failure(e) => Failure(e)
              case Success(_) => Success(Some(singles[m].tag))
  {
    FirstSingleFrom(singles, pos, lc, 0, m);
  }

  lemma {:induction false} FirstSingleFrom(singles: seq<SingleSpec>, pos: Position, lc: string, k: nat, m: nat)
    requires k <= m < |singles| && singles[m].position == pos
    requires RejectedBetween(singles, pos, lc, k, m)
    ensures FirstSingle(singles, pos, lc, k) == FirstSingle(singles, pos, lc, m)
    decreases m - k
  {
    if k < m {
      FirstSingleSkip(singles, pos, lc, k);
      FirstSingleFrom(singles, pos, lc, k + 1, m);
    }
  }

  /** A single of another position, or one whose check fails, is passed over. */
  lemma FirstSingleSkip(singles: seq<SingleSpec>, pos: Position, lc: string, k: nat)
    requires k < |singles|
    requires singles[k].position == pos ==> VerifyType(lc, singles[k].element, singles[k].way) == Success(false)
    ensures FirstSingle(singles, pos, lc, k) == FirstSingle(singles, pos, lc, k + 1)
  {
  }

  lemma {:induction false} FirstBlockAt(blocks: seq<BlockSpec>, state: map<Tag, seq<nat>>, ignore: seq<string>, lc: string, m: nat)
    requires m < |blocks| && AllConstraintsKnown(blocks, state)
    requires Eligible(blocks[m], state, ignore, lc)
    requires IneligibleBetween(blocks, state, ignore, lc, 0, m)
    ensures FirstBlock(blocks, state, ignore, lc, 0) == Some(blocks[m].tag)
  {
    FirstBlockFrom(blocks, state, ignore, lc, 0, m);
  }

  lemma {:induction false} FirstBlockFrom(blocks: seq<BlockSpec>, state: map<Tag, seq<nat>>, ignore: seq<string>, lc: string, k: nat, m: nat)
    requires k <= m < |blocks| && AllConstraintsKnown(blocks, state)
    requires IneligibleBetween(blocks, state, ignore, lc, k, m)
    ensures FirstBlock(blocks, state, ignore, lc, k) == FirstBlock(blocks, state, ignore, lc, m)
    decreases m - k
  {
    if k < m {
      assert !Eligible(blocks[k], state, ignore, lc);
      FirstBlockSkip(blocks, state, ignore, lc, k);
      FirstBlockFrom(blocks, state, ignore, lc, k + 1, m);
    }
  }

  /** A block type that may not start on the line is passed over. */
  lemma FirstBlockSkip(blocks: seq<BlockSpec>, state: map<Tag, seq<nat>>, ignore: seq<string>, lc: string, k: nat)
    requires k < |blocks| && AllConstraintsKnown(blocks, state)
    requires !Eligible(blocks[k], state, ignore, lc)
    ensures FirstBlock(blocks, state, ignore, lc, k) == FirstBlock(blocks, state, ignore, lc, k + 1)
  {
  }

  // ---------------------------------------------------------------------------
  // Names

  /**
   * `GetName`: capture group 1 of the block's pattern, or the empty name when the
   * pattern has no group or the group took no part in the match; no name at all
   * only when the pattern does not match.
   */
  function GetName(b: BlockSpec, lc: string): Option<string>
  {
    match b.pattern(lc)
    case None => None
    case Some(m) => if |m.groups| > 0 && m.groups[0].Some? then Some(m.groups[0].value) else Some("")
  }

  /**
   * A line classified as a block type always gets a name (possibly empty): the
   * classifier only picks a block type whose pattern matches the same line.
   */
  lemma ClassifiedBlockIsNamed(cfg: Config, state: map<Tag, seq<nat>>, line: string)
    requires WellFormed(cfg) && AllConstraintsKnown(cfg.blocks, state)
    requires DefineType(cfg, state, line).Success? && DefineType(cfg, state, line).value.Some?
    requires DefineType(cfg, state, line).value.value in BlockTags(cfg.blocks)
    ensures GetName(cfg.blocks[BlockIndex(cfg.blocks, DefineType(cfg, state, line).value.value)],
                    GetNormalizedLine(line)).Some?
  {
    var t := DefineType(cfg, state, line).value.value;
    assert t !in SingleTags(cfg.singles);
    var m :| 0 <= m < |cfg.blocks| && cfg.blocks[m].tag == t
             && Eligible(cfg.blocks[m], state, cfg.ignore, GetNormalizedLine(line));
    BlockIndexUnique(cfg, m);
  }
}
