/**
 What a walk without recursion reaches: every operation at every depth, exactly once, in all four
 settings of direction and order. Shown on patterns that edit the code of operations in place.
 */
module Coverage {
  import opened Ir
  import opened Refinement
  import opened Substitution
  import opened PatternRewriters
  import opened Measures
  import opened Walks
  import opened NormalForms

  type Recode = Code -> Code

  /** Acts on every operation whose code is to be another one, by giving it that code. */
  function Recoding(f: Recode): Pattern
  {
    (op: Op) => if f(op.code) == op.code then [] else [Modify(op.(code := f(op.code)))]
  }

  /** Every code replaced once, at every depth. */
  function RecodedOps(f: Recode, ops: seq<Op>): (r: seq<Op>)
    ensures |r| == |ops|
    decreases ops
  {
    seq(|ops|, i requires 0 <= i < |ops| => RecodedOp(f, ops[i]))
  }

  function RecodedOp(f: Recode, op: Op): Op
    decreases op
  {
    op.(code := f(op.code), regions := RecodedRegions(f, op.regions))
  }

  function RecodedRegions(f: Recode, regions: seq<Region>): (r: seq<Region>)
    ensures |r| == |regions|
    decreases regions
  {
    seq(|regions|, i requires 0 <= i < |regions| => Region(RecodedBlocks(f, regions[i].blocks)))
  }

  function RecodedBlocks(f: Recode, blocks: seq<Block>): (r: seq<Block>)
    ensures |r| == |blocks|
    decreases blocks
  {
    seq(|blocks|, i requires 0 <= i < |blocks| => Block(blocks[i].args, RecodedOps(f, blocks[i].ops)))
  }

  /** How many operations there are to act on, at every depth. */
  function Number(f: Recode, ops: seq<Op>): nat
    decreases ops
  {
    if ops == [] then 0 else NumberIn(f, ops[0]) + Number(f, ops[1..])
  }

  function NumberIn(f: Recode, op: Op): nat
    decreases op
  {
    (if f(op.code) == op.code then 0 else 1) + NumberInRegions(f, op.regions)
  }

  function NumberInRegions(f: Recode, regions: seq<Region>): nat
    decreases regions
  {
    if regions == [] then 0 else NumberInBlocks(f, regions[0].blocks) + NumberInRegions(f, regions[1..])
  }

  function NumberInBlocks(f: Recode, blocks: seq<Block>): nat
    decreases blocks
  {
    if blocks == [] then 0 else Number(f, blocks[0].ops) + NumberInBlocks(f, blocks[1..])
  }

  /** A walk that has left `what`, redirected nothing, and acted `n` times. */
  ghost predicate Leaves<T(!new)>(r: Walked<T>, what: T, n: nat)
  {
    r.what == what && r.s == map[] && |r.log| == n
  }

  ghost predicate IsRecoding(w: Walk, f: Recode)
  {
    w.pattern == Recoding(f) && !w.recursive
  }

  lemma RecodingRewrites(f: Recode, op: Op)
    requires f(op.code) != op.code
    ensures Legal(Recoding(f)(op), Start(op)) && Acts(Recoding(f), op)
    ensures Rewritten(Recoding(f), op) == Rewrite([], op.(code := f(op.code)), false, [], [], [])
    ensures Rewritten(Recoding(f), op).Left() == Rewritten(Recoding(f), op).Affected() == [op.(code := f(op.code))]
    ensures LogOrder(Rewritten(Recoding(f), op)) == [0]
  {
    var calls := Recoding(f)(op);
    assert calls[1..] == [];
    assert Perform(calls, Start(op)) == Start(op).Do(calls[0]);
    SubstNothing([op.(code := f(op.code))]);
    assert Range(0, 1) == [0] && Sizes([]) == [];
  }

  lemma RecodingBounded(w: Walk, f: Recode, mu: Op -> nat)
    requires IsRecoding(w, f)
    ensures w.Bounded(mu)
  {
    forall op ensures Legal(Recoding(f)(op), Start(op)) {
      if f(op.code) != op.code {
        RecodingRewrites(f, op);
      }
    }
    forall op | Acts(Recoding(f), op) ensures OpsDepth(Rewritten(Recoding(f), op).Affected()) <= Depth(op) {
      RecodingRewrites(f, op);
      assert [op.(code := f(op.code))][1..] == [];
    }
  }

  lemma {:induction false} OpsRecoded(w: Walk, f: Recode, reverse: bool, mu: Op -> nat, ops: seq<Op>)
    requires IsRecoding(w, f) && w.Bounded(mu)
    ensures Leaves(WalkOps(w, reverse, mu, ops), RecodedOps(f, ops), Number(f, ops))
    decreases OpsDepth(ops), 2, |ops|
  {
    if ops != [] {
      var x, left := FirstOf(reverse, ops), OthersOf(reverse, ops);
      BesideOthers(reverse, ops);
      UnfoldOps(w, reverse, mu, ops);
      OpRecoded(w, f, reverse, mu, x);
      SubstNothing(left);
      OpsRecoded(w, f, reverse, mu, left);
      OpsJoined(f, reverse, x, left, WalkOp(w, reverse, mu, x), WalkOps(w, reverse, mu, left));
    }
  }

  lemma OpsJoined(f: Recode, reverse: bool, x: Op, left: seq<Op>, first: Walked<seq<Op>>, rest: Walked<seq<Op>>)
    requires Leaves(first, [RecodedOp(f, x)], NumberIn(f, x)) && Leaves(rest, RecodedOps(f, left), Number(f, left))
    ensures var all := Beside(reverse, [x], left); Leaves(Join(reverse, first, rest), RecodedOps(f, all), Number(f, all))
  {
    SubstNothing([RecodedOp(f, x)]);
    ComposeNothing(map[]);
    NumberBeside(f, reverse, x, left);
    assert RecodedOps(f, Beside(reverse, [x], left)) == Beside(reverse, [RecodedOp(f, x)], RecodedOps(f, left));
  }

  lemma NumberBeside(f: Recode, reverse: bool, x: Op, left: seq<Op>)
    ensures Number(f, Beside(reverse, [x], left)) == NumberIn(f, x) + Number(f, left)
  {
    if reverse {
      NumberAppend(f, left, [x]);
    } else {
      NumberAppend(f, [x], left);
    }
    assert [x][1..] == [];
  }

  lemma {:induction false} NumberAppend(f: Recode, a: seq<Op>, b: seq<Op>)
    ensures Number(f, a + b) == Number(f, a) + Number(f, b)
  {
    if a == [] {
      assert a + b == b;
    } else {
      assert (a + b)[1..] == a[1..] + b;
      NumberAppend(f, a[1..], b);
    }
  }

  lemma {:induction false} OpRecoded(w: Walk, f: Recode, reverse: bool, mu: Op -> nat, op: Op)
    requires IsRecoding(w, f) && w.Bounded(mu)
    ensures Leaves(WalkOp(w, reverse, mu, op), [RecodedOp(f, op)], NumberIn(f, op))
    decreases Depth(op), 1, 0
  {
    ComposeNothing(map[]);
    if f(op.code) == op.code {
      RegionsRecoded(w, f, reverse, mu, op);
    } else if w.regionsFirst {
      RegionsRecoded(w, f, reverse, mu, op);
      RecodingRewrites(f, WalkRegions(w, reverse, mu, op).what);
    } else {
      RecodingRewrites(f, op);
      var edited := op.(code := f(op.code));
      assert Depth(edited) == Depth(op);
      RegionsRecoded(w, f, reverse, mu, edited);
      EachOfOne(w, reverse, mu, edited, Depth(op));
      var inside := WalkRegions(w, reverse, mu, edited);
      assert SubstOps(inside.s, [edited])[0 := inside.what] == [inside.what] == [RecodedOp(f, op)];
    }
  }

  lemma EachOfOne(w: Walk, reverse: bool, mu: Op -> nat, op: Op, depth: nat)
    requires w.Bounded(mu) && !w.recursive && Depth(op) <= depth
    ensures Distinct([0])
    ensures WalkEach(w, reverse, mu, [op], [0], depth)
         == Again(Walked(SubstOps(WalkRegions(w, reverse, mu, op).s, [op])[0 := WalkRegions(w, reverse, mu, op).what],
                         WalkRegions(w, reverse, mu, op).s, WalkRegions(w, reverse, mu, op).log),
                  Walked(SubstOps(WalkRegions(w, reverse, mu, op).s, [op])[0 := WalkRegions(w, reverse, mu, op).what], map[], []))
  {
    assert [0][1..] == [];
  }

  lemma {:induction false} RegionsRecoded(w: Walk, f: Recode, reverse: bool, mu: Op -> nat, op: Op)
    requires IsRecoding(w, f) && w.Bounded(mu)
    ensures Leaves(WalkRegions(w, reverse, mu, op), op.(regions := RecodedRegions(f, op.regions)), NumberInRegions(f, op.regions))
    decreases Depth(op), 0, 1
  {
    UnfoldRegions(w, reverse, mu, op);
    var weight, depth := RegionsOfIs(w, reverse, mu, op);
    RegionListRecoded(w, f, reverse, mu, op.regions, weight, depth);
    SubstOpUnused(map[], op);
  }

  lemma {:induction false} RegionListRecoded(w: Walk, f: Recode, reverse: bool, mu: Op -> nat, regions: seq<Region>, weight: nat, depth: nat)
    requires IsRecoding(w, f) && w.Bounded(mu) && Within(w, mu, regions, weight, depth)
    ensures Leaves(WalkRegionList(w, reverse, mu, regions, weight, depth), RecodedRegions(f, regions), NumberInRegions(f, regions))
    decreases depth, 4, |regions|
  {
    if regions != [] {
      UnfoldRegionList(w, reverse, mu, regions, weight, depth);
      BlocksRecoded(w, f, reverse, mu, regions[0].blocks, weight, depth);
      SubstRegionsNothing(regions[1..]);
      RegionListRecoded(w, f, reverse, mu, regions[1..], weight, depth);
      SubstRegionUnused(map[], Region(RecodedBlocks(f, regions[0].blocks)));
      ComposeNothing(map[]);
      assert RecodedRegions(f, regions) == [Region(RecodedBlocks(f, regions[0].blocks))] + RecodedRegions(f, regions[1..]);
    }
  }

  lemma {:induction false} BlocksRecoded(w: Walk, f: Recode, reverse: bool, mu: Op -> nat, blocks: seq<Block>, weight: nat, depth: nat)
    requires IsRecoding(w, f) && w.Bounded(mu) && BlocksWithin(w, mu, blocks, weight, depth)
    ensures Leaves(WalkBlocks(w, reverse, mu, blocks, weight, depth), RecodedBlocks(f, blocks), NumberInBlocks(f, blocks))
    decreases depth, 3, |blocks|
  {
    if blocks != [] {
      var block, left := FirstOf(reverse, blocks), OthersOf(reverse, blocks);
      BesideOthers(reverse, blocks);
      UnfoldBlocks(w, reverse, mu, blocks, weight, depth);
      OpsRecoded(w, f, reverse, mu, block.ops);
      SubstBlocksNothing(left);
      BlocksRecoded(w, f, reverse, mu, left, weight, depth);
      BlocksJoined(f, reverse, block, left, WalkOps(w, reverse, mu, block.ops), WalkBlocks(w, reverse, mu, left, weight, depth));
    }
  }

  lemma BlocksJoined(f: Recode, reverse: bool, block: Block, left: seq<Block>, first: Walked<seq<Op>>, rest: Walked<seq<Block>>)
    requires Leaves(first, RecodedOps(f, block.ops), Number(f, block.ops))
    requires Leaves(rest, RecodedBlocks(f, left), NumberInBlocks(f, left))
    ensures var all := Beside(reverse, [block], left);
            Leaves(JoinBlocks(reverse, first, block.args, rest), RecodedBlocks(f, all), NumberInBlocks(f, all))
  {
    SubstNothing(RecodedOps(f, block.ops));
    ComposeNothing(map[]);
    NumberBesideBlocks(f, reverse, block, left);
    var recoded := Block(block.args, RecodedOps(f, block.ops));
    assert RecodedBlocks(f, Beside(reverse, [block], left)) == Beside(reverse, [recoded], RecodedBlocks(f, left));
  }

  lemma NumberBesideBlocks(f: Recode, reverse: bool, x: Block, left: seq<Block>)
    ensures NumberInBlocks(f, Beside(reverse, [x], left)) == Number(f, x.ops) + NumberInBlocks(f, left)
  {
    if reverse {
      NumberAppendBlocks(f, left, [x]);
    } else {
      NumberAppendBlocks(f, [x], left);
    }
    assert [x][1..] == [];
  }

  lemma {:induction false} NumberAppendBlocks(f: Recode, a: seq<Block>, b: seq<Block>)
    ensures NumberInBlocks(f, a + b) == NumberInBlocks(f, a) + NumberInBlocks(f, b)
  {
    if a == [] {
      assert a + b == b;
    } else {
      assert (a + b)[1..] == a[1..] + b;
      NumberAppendBlocks(f, a[1..], b);
    }
  }

  /**
   Without recursion every operation to act on, at every depth, is acted on exactly once, and no other,
   whichever way the walk goes and whether regions come first or last.
   */
  lemma EveryOperationOnce(f: Recode, regionsFirst: bool, reverse: bool, mu: Op -> nat, ops: seq<Op>)
    ensures var w := Walk(Recoding(f), regionsFirst, false);
            && w.Bounded(mu)
            && WalkOps(w, reverse, mu, ops).what == RecodedOps(f, ops)
            && WalkOps(w, reverse, mu, ops).s == map[]
            && |WalkOps(w, reverse, mu, ops).log| == Number(f, ops)
  {
    var w := Walk(Recoding(f), regionsFirst, false);
    RecodingBounded(w, f, mu);
    OpsRecoded(w, f, reverse, mu, ops);
  }
}
