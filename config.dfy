/**
 * The two configuration tables of the scanner, as ordered sequences so that
 * "first in declared order" is explicit, and the ignore list.
 */
module Config {
  import opened Wrappers
  import opened Records

  /** What a regular-expression search reports: the captured groups, in order. */
  datatype Match = Match(groups: seq<Option<string>>)

  /**
   * A block type: `pattern` stands for `re.search(pattern, line)` and gives the
   * match of the line, if any; `open` and `close` are its delimiters.
   */
  datatype BlockSpec = BlockSpec(
    tag: Tag,
    pattern: string -> Option<Match>,
    open: string,
    close: string,
    haveArgs: bool,
    recursive: bool,
    isNotIn: seq<Tag>,
    isInside: seq<Tag>)

  /** `position` of a single-line type; any value but the three named ones is `Unplaced`. */
  datatype Position = Up | Down | Default | Unplaced

  /** A single-line type: `way` is the comparison mode, kept as the configured string. */
  datatype SingleSpec = SingleSpec(tag: Tag, element: string, position: Position, way: string)

  datatype Config = Config(blocks: seq<BlockSpec>, singles: seq<SingleSpec>, ignore: seq<string>)

  /** The error the scan can raise: a comparison mode it does not know. */
  datatype Error = UnknownWay(way: string)

  function BlockTags(blocks: seq<BlockSpec>): set<Tag>
  {
    set k | 0 <= k < |blocks| :: blocks[k].tag
  }

  function SingleTags(singles: seq<SingleSpec>): set<Tag>
  {
    set k | 0 <= k < |singles| :: singles[k].tag
  }

  /** Every tag a block type's containment constraints name is a declared block tag. */
  predicate ConstraintsDeclared(b: BlockSpec, tags: set<Tag>)
  {
    && (forall m :: 0 <= m < |b.isNotIn| ==> b.isNotIn[m] in tags)
    && (forall m :: 0 <= m < |b.isInside| ==> b.isInside[m] in tags)
  }

  /**
   * The configurations the model covers: the tables are dictionaries (distinct
   * keys) sharing one state dictionary (disjoint keys), and containment constraints
   * name block tags (anything else raises a lookup or type error). Delimiters are
   * non-empty: an empty opening delimiter makes the balance loop spin forever; an
   * empty closing one is accepted by the original (it removes one level per pass at
   * the same position) but is left out of the model.
   */
  predicate WellFormed(cfg: Config)
  {
    && (forall j, k :: 0 <= j < k < |cfg.blocks| ==> cfg.blocks[j].tag != cfg.blocks[k].tag)
    && (forall j, k :: 0 <= j < k < |cfg.singles| ==> cfg.singles[j].tag != cfg.singles[k].tag)
    && BlockTags(cfg.blocks) !! SingleTags(cfg.singles)
    && (forall k :: 0 <= k < |cfg.blocks| ==> |cfg.blocks[k].open| >= 1 && |cfg.blocks[k].close| >= 1)
    && (forall k :: 0 <= k < |cfg.blocks| ==> ConstraintsDeclared(cfg.blocks[k], BlockTags(cfg.blocks)))
  }

  /** The position of the first block type with tag `t`. */
  function FindBlock(blocks: seq<BlockSpec>, t: Tag, k: nat): (r: Option<nat>)
    requires k <= |blocks|
    ensures r.Some? ==> k <= r.value < |blocks| && blocks[r.value].tag == t
    ensures r.None? ==> forall m :: k <= m < |blocks| ==> blocks[m].tag != t
    decreases |blocks| - k
  {
    if k == |blocks| then None
    else if blocks[k].tag == t then Some(k)
    else FindBlock(blocks, t, k + 1)
  }

  /** `blocks[t]`: the block type with tag `t`, which must be declared. */
  function BlockIndex(blocks: seq<BlockSpec>, t: Tag): (k: nat)
    requires t in BlockTags(blocks)
    ensures k < |blocks| && blocks[k].tag == t
  {
    FindBlock(blocks, t, 0).value
  }

  /** With distinct tags the position of a tag is unique. */
  lemma BlockIndexUnique(cfg: Config, k: nat)
    requires WellFormed(cfg) && k < |cfg.blocks|
    ensures cfg.blocks[k].tag in BlockTags(cfg.blocks)
    ensures BlockIndex(cfg.blocks, cfg.blocks[k].tag) == k
  {
  }
}
