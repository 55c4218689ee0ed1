/**
 A tame pattern walks properly over a block of distinct names, so for a pattern that does not look at
 which values are used the direction of the walk does not matter.
 */
module TameWalks {
  import opened Ir
  import opened Refinement
  import opened Substitution
  import opened PatternRewriters
  import opened Measures
  import opened Walks
  import opened Factoring
  import opened Naming

  datatype Scheme = Scheme(own: Territory, below: Order)

  // ----- parts of a walk -----

  ghost predicate Fits(n: Scheme, gone: set<Value>, ops: seq<Op>)
  {
    Clear(n.own, gone, Defined(ops)) && Ordered(n.below, ops)
  }

  ghost predicate FitsOp(n: Scheme, gone: set<Value>, op: Op)
  {
    Clear(n.own, gone, OpDefined(op)) && OrderedOp(n.below, op)
  }

  ghost predicate GoodOps(n: Scheme, gone: set<Value>, was: seq<Value>, r: Walked<seq<Op>>)
  {
    Tidy(n.own, gone, was, r.log, Defined(r.what)) && Descending(n.below, r.s) && Ordered(n.below, r.what)
  }

  ghost predicate GoodOp(n: Scheme, gone: set<Value>, was: seq<Value>, r: Walked<Op>)
  {
    Tidy(n.own, gone, was, r.log, OpDefined(r.what)) && Descending(n.below, r.s) && OrderedOp(n.below, r.what)
  }

  ghost predicate GoodBlocks(n: Scheme, gone: set<Value>, was: seq<Value>, r: Walked<seq<Block>>)
  {
    Tidy(n.own, gone, was, r.log, BlocksDefined(r.what)) && Descending(n.below, r.s) && OrderedBlocks(n.below, r.what)
  }

  ghost predicate GoodRegions(n: Scheme, gone: set<Value>, was: seq<Value>, r: Walked<seq<Region>>)
  {
    Tidy(n.own, gone, was, r.log, RegionsDefined(r.what)) && Descending(n.below, r.s) && OrderedRegions(n.below, r.what)
  }

  // ----- one part after another -----

  lemma ClearBeside(n: Scheme, reverse: bool, gone: set<Value>, a: seq<Value>, b: seq<Value>)
    requires Clear(n.own, gone, Beside(reverse, a, b))
    ensures Clear(n.own, gone, a) && Clear(n.own, gone, b)
  {
    assert [] + a + b == a + b && a + b + [] == a + b && [] + b + a == b + a && b + a + [] == b + a;
    if reverse {
      ClearPart(n.own, gone, b, a, []);
      ClearPart(n.own, gone, [], b, a);
    } else {
      ClearPart(n.own, gone, [], a, b);
      ClearPart(n.own, gone, a, b, []);
    }
  }

  lemma FrameBeside(n: Scheme, reverse: bool, gone: set<Value>, x: seq<Value>, others: seq<Value>, log: seq<Visit>, x': seq<Value>)
    requires Clear(n.own, gone, Beside(reverse, x, others)) && Tidy(n.own, gone, x, log, x')
    ensures Tidy(n.own, gone, Beside(reverse, x, others), log, Beside(reverse, x', others))
  {
    assert [] + x + others == x + others && [] + x' + others == x' + others;
    assert others + x + [] == others + x && others + x' + [] == others + x';
    if reverse {
      TidyFrame(n.own, gone, others, x, [], log, x');
    } else {
      TidyFrame(n.own, gone, [], x, others, log, x');
    }
  }

  lemma RestClear(n: Scheme, reverse: bool, gone: set<Value>, x: seq<Value>, others: seq<Value>, log: seq<Visit>, x': seq<Value>)
    requires Clear(n.own, gone, Beside(reverse, x, others)) && Tidy(n.own, gone, x, log, x')
    ensures Clear(n.own, gone + Replaced(log), others)
  {
    FrameBeside(n, reverse, gone, x, others, log, x');
    TidyClear(n.own, gone, Beside(reverse, x, others), log, Beside(reverse, x', others));
    ClearBeside(n, reverse, gone + Replaced(log), x', others);
  }

  lemma JoinTidy(n: Scheme, reverse: bool, gone: set<Value>, x: seq<Value>, others: seq<Value>,
                 l: seq<Visit>, x': seq<Value>, m: seq<Visit>, others': seq<Value>)
    requires Clear(n.own, gone, Beside(reverse, x, others))
    requires Tidy(n.own, gone, x, l, x') && Tidy(n.own, gone + Replaced(l), others, m, others')
    ensures Tidy(n.own, gone, Beside(reverse, x, others), l + m, Beside(reverse, x', others'))
  {
    FrameBeside(n, reverse, gone, x, others, l, x');
    TidyClear(n.own, gone, Beside(reverse, x, others), l, Beside(reverse, x', others));
    assert Beside(!reverse, others, x') == Beside(reverse, x', others);
    assert Beside(!reverse, others', x') == Beside(reverse, x', others');
    FrameBeside(n, !reverse, gone + Replaced(l), others, x', m, others');
    TidyAgain(n.own, gone, Beside(reverse, x, others), l, Beside(reverse, x', others), m, Beside(reverse, x', others'));
  }

  lemma DefinedBeside(reverse: bool, a: seq<Op>, b: seq<Op>)
    ensures Defined(Beside(reverse, a, b)) == Beside(reverse, Defined(a), Defined(b))
  {
    DefinedAppend(a, b);
    DefinedAppend(b, a);
  }

  lemma BlocksDefinedBeside(reverse: bool, a: seq<Block>, b: seq<Block>)
    ensures BlocksDefined(Beside(reverse, a, b)) == Beside(reverse, BlocksDefined(a), BlocksDefined(b))
  {
    BlocksDefinedAppend(a, b);
    BlocksDefinedAppend(b, a);
  }

  lemma JoinGood(n: Scheme, reverse: bool, gone: set<Value>, x: seq<Value>, others: seq<Value>,
                 first: Walked<seq<Op>>, rest: Walked<seq<Op>>)
    requires Clear(n.own, gone, Beside(reverse, x, others))
    requires GoodOps(n, gone, x, first) && GoodOps(n, gone + Replaced(first.log), others, rest)
    ensures GoodOps(n, gone, Beside(reverse, x, others), Join(reverse, first, rest))
  {
    JoinTidy(n, reverse, gone, x, others, first.log, Defined(first.what), rest.log, Defined(rest.what));
    DefinedSubst(rest.s, first.what);
    DefinedBeside(reverse, SubstOps(rest.s, first.what), rest.what);
    OrderedSubst(n.below, rest.s, first.what);
    DescendingCompose(n.below, first.s, rest.s);
  }

  lemma AgainGood(n: Scheme, gone: set<Value>, was: seq<Value>, here: Walked<seq<Op>>, rest: Walked<seq<Op>>)
    requires GoodOps(n, gone, was, here) && GoodOps(n, gone + Replaced(here.log), Defined(here.what), rest)
    ensures GoodOps(n, gone, was, Again(here, rest))
  {
    TidyAgain(n.own, gone, was, here.log, Defined(here.what), rest.log, Defined(rest.what));
    DescendingCompose(n.below, here.s, rest.s);
  }

  lemma GoodFits(n: Scheme, gone: set<Value>, was: seq<Value>, here: Walked<seq<Op>>)
    requires Clear(n.own, gone, was) && GoodOps(n, gone, was, here)
    ensures Fits(n, gone + Replaced(here.log), here.what)
  {
    TidyClear(n.own, gone, was, here.log, Defined(here.what));
  }

  // ----- whole walks -----

  ghost predicate Runs(w: Walk, mu: Op -> nat, n: Scheme)
  {
    w.Bounded(mu) && Tame(w.pattern, n.own, n.below)
  }

  lemma {:induction false} TidyOps(w: Walk, reverse: bool, mu: Op -> nat, n: Scheme, ops: seq<Op>, gone: set<Value>)
    requires Runs(w, mu, n) && Fits(n, gone, ops)
    ensures GoodOps(n, gone, Defined(ops), WalkOps(w, reverse, mu, ops))
    decreases w.Weight(mu, ops), OpsDepth(ops), 2, |ops|
  {
    if ops == [] {
      TidyNothing(n.own, gone, []);
    } else {
      var x, others := FirstOf(reverse, ops), OthersOf(reverse, ops);
      var first := WalkOp(w, reverse, mu, x);
      var left := SubstOps(first.s, others);
      UnfoldOps(w, reverse, mu, ops);
      BesideOthers(reverse, ops);
      DefinedBeside(reverse, [x], others);
      DefinedOne(x);
      ClearBeside(n, reverse, gone, OpDefined(x), Defined(others));
      TidyOp(w, reverse, mu, n, x, gone);
      RestClear(n, reverse, gone, OpDefined(x), Defined(others), first.log, Defined(first.what));
      DefinedSubst(first.s, others);
      OrderedSubst(n.below, first.s, others);
      TidyOps(w, reverse, mu, n, left, gone + Replaced(first.log));
      JoinGood(n, reverse, gone, OpDefined(x), Defined(others), first, WalkOps(w, reverse, mu, left));
    }
  }

  lemma {:induction false} TidyOp(w: Walk, reverse: bool, mu: Op -> nat, n: Scheme, op: Op, gone: set<Value>)
    requires Runs(w, mu, n) && FitsOp(n, gone, op)
    ensures GoodOps(n, gone, OpDefined(op), WalkOp(w, reverse, mu, op))
    decreases w.WeightOf(mu, op), Depth(op), 1, 0
  {
    var ready := Ready(w, reverse, mu, op);
    if Acts(w.pattern, ready.what) {
      var here := Visited(w.pattern, ready);
      FollowUpIs(w, reverse, mu, op);
      TidyHere(w, reverse, mu, n, op, gone);
      GoodFits(n, gone, OpDefined(op), here);
      TidyFollowUp(w, reverse, mu, n, op, gone + Replaced(here.log));
      AgainGood(n, gone, OpDefined(op), here, FollowUp(w, reverse, mu, op));
    } else {
      TidyRegions(w, reverse, mu, n, op, gone);
      DefinedOne(WalkRegions(w, reverse, mu, op).what);
    }
  }

  lemma {:induction false} TidyReady(w: Walk, reverse: bool, mu: Op -> nat, n: Scheme, op: Op, gone: set<Value>)
    requires Runs(w, mu, n) && FitsOp(n, gone, op)
    ensures GoodOp(n, gone, OpDefined(op), Ready(w, reverse, mu, op))
    decreases w.WeightOf(mu, op), Depth(op), 0, 1
  {
    if w.regionsFirst {
      TidyRegions(w, reverse, mu, n, op, gone);
    } else {
      TidyNothing(n.own, gone, OpDefined(op));
    }
  }

  /** Up to and with the action. */
  lemma {:induction false} TidyHere(w: Walk, reverse: bool, mu: Op -> nat, n: Scheme, op: Op, gone: set<Value>)
    requires Runs(w, mu, n) && FitsOp(n, gone, op) && Acts(w.pattern, Ready(w, reverse, mu, op).what)
    ensures GoodOps(n, gone, OpDefined(op), Visited(w.pattern, Ready(w, reverse, mu, op)))
    decreases w.WeightOf(mu, op), Depth(op), 0, 2
  {
    var ready := Ready(w, reverse, mu, op);
    var rw, visit := Rewritten(w.pattern, ready.what), [VisitOf(w.pattern, ready.what)];
    TidyReady(w, reverse, mu, n, op, gone);
    TidyClear(n.own, gone, OpDefined(op), ready.log, OpDefined(ready.what));
    TameVisit(w.pattern, n.own, n.below, ready.what, gone + Replaced(ready.log));
    TidyAgain(n.own, gone, OpDefined(op), ready.log, OpDefined(ready.what), visit, Defined(rw.Left()));
    DescendingCompose(n.below, ready.s, rw.Redirection());
  }

  /** What follows the action. */
  lemma {:induction false} TidyFollowUp(w: Walk, reverse: bool, mu: Op -> nat, n: Scheme, op: Op, gone: set<Value>)
    requires Runs(w, mu, n) && Acts(w.pattern, Ready(w, reverse, mu, op).what)
    requires Fits(n, gone, Visited(w.pattern, Ready(w, reverse, mu, op)).what)
    ensures GoodOps(n, gone, Defined(Visited(w.pattern, Ready(w, reverse, mu, op)).what), FollowUp(w, reverse, mu, op))
    decreases w.WeightOf(mu, op), Depth(op), 0, 3
  {
    var ready := Ready(w, reverse, mu, op);
    var here := Visited(w.pattern, ready);
    VisitBounded(w, mu, ready);
    if w.recursive {
      TidyOps(w, reverse, mu, n, here.what, gone);
    } else if w.regionsFirst {
      TidyNothing(n.own, gone, Defined(here.what));
    } else {
      TidyEach(w, reverse, mu, n, here.what, LogOrder(Rewritten(w.pattern, ready.what)), Depth(op), gone);
    }
  }

  lemma DefinedAt(ops: seq<Op>, k: nat, op: Op)
    requires k < |ops|
    ensures Defined(ops[k := op]) == Defined(ops[..k]) + OpDefined(op) + Defined(ops[k + 1..])
  {
    assert ops[k := op] == ops[..k] + [op] + ops[k + 1..];
    DefinedAppend(ops[..k] + [op], ops[k + 1..]);
    DefinedAppend(ops[..k], [op]);
    DefinedOne(op);
  }

  lemma DefinedEdited(s: Redirect, ops: seq<Op>, k: nat, op: Op)
    requires k < |ops|
    ensures Defined(SubstOps(s, ops)[k := op]) == Defined(ops[..k]) + OpDefined(op) + Defined(ops[k + 1..])
  {
    var redirected := SubstOps(s, ops);
    DefinedAt(redirected, k, op);
    assert redirected[..k] == SubstOps(s, ops[..k]) && redirected[k + 1..] == SubstOps(s, ops[k + 1..]);
    DefinedSubst(s, ops[..k]);
    DefinedSubst(s, ops[k + 1..]);
  }

  lemma OrderedEdited(below: Order, s: Redirect, ops: seq<Op>, k: nat, op: Op)
    requires k < |ops| && Descending(below, s) && Ordered(below, ops) && OrderedOp(below, op)
    ensures Ordered(below, SubstOps(s, ops)[k := op])
  {
    OrderedSubst(below, s, ops);
    forall x | x in SubstOps(s, ops)[k := op] ensures OrderedOp(below, x) {
      assert x == op || x in SubstOps(s, ops);
    }
  }

  /** The regions of one operation among others. */
  lemma EditGood(n: Scheme, gone: set<Value>, ops: seq<Op>, k: nat, first: Walked<Op>)
    requires k < |ops| && Fits(n, gone, ops) && GoodOp(n, gone, OpDefined(ops[k]), first)
    ensures GoodOps(n, gone, Defined(ops), Walked(SubstOps(first.s, ops)[k := first.what], first.s, first.log))
  {
    DefinedAt(ops, k, ops[k]);
    assert ops[k := ops[k]] == ops;
    DefinedEdited(first.s, ops, k, first.what);
    OrderedEdited(n.below, first.s, ops, k, first.what);
    TidyFrame(n.own, gone, Defined(ops[..k]), OpDefined(ops[k]), Defined(ops[k + 1..]), first.log, OpDefined(first.what));
  }

  lemma FitsAt(n: Scheme, gone: set<Value>, ops: seq<Op>, k: nat)
    requires k < |ops| && Fits(n, gone, ops)
    ensures FitsOp(n, gone, ops[k])
  {
    DefinedAt(ops, k, ops[k]);
    assert ops[k := ops[k]] == ops && ops[k] in ops;
    ClearPart(n.own, gone, Defined(ops[..k]), OpDefined(ops[k]), Defined(ops[k + 1..]));
  }

  lemma {:induction false} TidyEach(w: Walk, reverse: bool, mu: Op -> nat, n: Scheme, ops: seq<Op>, order: seq<nat>, depth: nat, gone: set<Value>)
    requires Runs(w, mu, n) && !w.recursive && Fits(n, gone, ops)
    requires Distinct(order) && forall k :: k in order ==> k < |ops| && Depth(ops[k]) <= depth
    ensures GoodOps(n, gone, Defined(ops), WalkEach(w, reverse, mu, ops, order, depth))
    decreases 0, depth, 0, 1, |order|
  {
    if order == [] {
      TidyNothing(n.own, gone, Defined(ops));
    } else {
      var k := order[0];
      EachUnfolds(w, reverse, mu, ops, order, depth);
      var first := WalkRegions(w, reverse, mu, ops[k]);
      var edited := SubstOps(first.s, ops)[k := first.what];
      FitsAt(n, gone, ops, k);
      TidyRegions(w, reverse, mu, n, ops[k], gone);
      EditGood(n, gone, ops, k, first);
      var here := Walked(edited, first.s, first.log);
      GoodFits(n, gone, Defined(ops), here);
      TidyEach(w, reverse, mu, n, edited, order[1..], depth, gone + Replaced(first.log));
      AgainGood(n, gone, Defined(ops), here, WalkEach(w, reverse, mu, edited, order[1..], depth));
    }
  }

  lemma {:induction false} TidyRegions(w: Walk, reverse: bool, mu: Op -> nat, n: Scheme, op: Op, gone: set<Value>)
    requires Runs(w, mu, n) && FitsOp(n, gone, op)
    ensures GoodOp(n, gone, OpDefined(op), WalkRegions(w, reverse, mu, op))
    decreases w.WeightOf(mu, op), Depth(op), 0, 0
  {
    var weight, depth := RegionsOfIs(w, reverse, mu, op);
    UnfoldRegions(w, reverse, mu, op);
    var r := WalkRegionList(w, reverse, mu, op.regions, weight, depth);
    ClearBeside(n, false, gone, op.results, RegionsDefined(op.regions));
    TidyRegionList(w, reverse, mu, n, op.regions, weight, depth, gone);
    PutBackGood(n, gone, op, r);
  }

  lemma PutBackGood(n: Scheme, gone: set<Value>, op: Op, r: Walked<seq<Region>>)
    requires FitsOp(n, gone, op) && GoodRegions(n, gone, RegionsDefined(op.regions), r)
    ensures GoodOp(n, gone, OpDefined(op), Walked(SubstOp(r.s, op).(regions := r.what), r.s, r.log))
  {
    assert Beside(true, RegionsDefined(op.regions), op.results) == OpDefined(op);
    FrameBeside(n, true, gone, RegionsDefined(op.regions), op.results, r.log, RegionsDefined(r.what));
    OrderedOpSubst(n.below, r.s, op);
  }

  lemma {:induction false} TidyRegionList(w: Walk, reverse: bool, mu: Op -> nat, n: Scheme, regions: seq<Region>,
                                          weight: nat, depth: nat, gone: set<Value>)
    requires Runs(w, mu, n) && Within(w, mu, regions, weight, depth)
    requires Clear(n.own, gone, RegionsDefined(regions)) && OrderedRegions(n.below, regions)
    ensures GoodRegions(n, gone, RegionsDefined(regions), WalkRegionList(w, reverse, mu, regions, weight, depth))
    decreases weight, depth, 4, |regions|
  {
    if regions == [] {
      TidyNothing(n.own, gone, []);
    } else {
      var region, others := regions[0], regions[1..];
      assert region in regions && forall r :: r in others ==> r in regions;
      UnfoldRegionList(w, reverse, mu, regions, weight, depth);
      var first := WalkBlocks(w, reverse, mu, region.blocks, weight, depth);
      var left := SubstRegions(first.s, others);
      ClearBeside(n, false, gone, BlocksDefined(region.blocks), RegionsDefined(others));
      TidyBlocks(w, reverse, mu, n, region.blocks, weight, depth, gone);
      RestClear(n, false, gone, BlocksDefined(region.blocks), RegionsDefined(others), first.log, BlocksDefined(first.what));
      RegionsDefinedSubst(first.s, others);
      OrderedRegionsSubst(n.below, first.s, others);
      TidyRegionList(w, reverse, mu, n, left, weight, depth, gone + Replaced(first.log));
      JoinGoodRegions(n, gone, BlocksDefined(region.blocks), RegionsDefined(others), first,
                      WalkRegionList(w, reverse, mu, left, weight, depth));
    }
  }

  lemma JoinGoodRegions(n: Scheme, gone: set<Value>, x: seq<Value>, others: seq<Value>,
                        first: Walked<seq<Block>>, rest: Walked<seq<Region>>)
    requires Clear(n.own, gone, x + others)
    requires GoodBlocks(n, gone, x, first) && GoodRegions(n, gone + Replaced(first.log), others, rest)
    ensures GoodRegions(n, gone, x + others, ThenRegions(first, rest))
  {
    JoinTidy(n, false, gone, x, others, first.log, BlocksDefined(first.what), rest.log, RegionsDefined(rest.what));
    BlocksDefinedSubst(rest.s, first.what);
    OrderedBlocksSubst(n.below, rest.s, first.what);
    var front := SubstRegion(rest.s, Region(first.what));
    assert front.blocks == SubstBlocks(rest.s, first.what);
    assert ([front] + rest.what)[1..] == rest.what;
    DescendingCompose(n.below, first.s, rest.s);
  }

  lemma {:induction false} TidyBlocks(w: Walk, reverse: bool, mu: Op -> nat, n: Scheme, blocks: seq<Block>,
                                      weight: nat, depth: nat, gone: set<Value>)
    requires Runs(w, mu, n) && BlocksWithin(w, mu, blocks, weight, depth)
    requires Clear(n.own, gone, BlocksDefined(blocks)) && OrderedBlocks(n.below, blocks)
    ensures GoodBlocks(n, gone, BlocksDefined(blocks), WalkBlocks(w, reverse, mu, blocks, weight, depth))
    decreases weight, depth, 3, |blocks|
  {
    if blocks == [] {
      TidyNothing(n.own, gone, []);
    } else {
      var block, others := FirstOf(reverse, blocks), OthersOf(reverse, blocks);
      UnfoldBlocks(w, reverse, mu, blocks, weight, depth);
      BesideOthers(reverse, blocks);
      BlocksDefinedBeside(reverse, [block], others);
      BlocksDefinedOne(block);
      var first := WalkOps(w, reverse, mu, block.ops);
      var left := SubstBlocks(first.s, others);
      ClearBeside(n, reverse, gone, BlockDefined(block), BlocksDefined(others));
      ClearBeside(n, false, gone, block.args, Defined(block.ops));
      TidyOps(w, reverse, mu, n, block.ops, gone);
      TidyBlock(n, gone, block, first);
      RestClear(n, reverse, gone, BlockDefined(block), BlocksDefined(others), first.log, block.args + Defined(first.what));
      BlocksDefinedSubst(first.s, others);
      OrderedBlocksSubst(n.below, first.s, others);
      TidyBlocks(w, reverse, mu, n, left, weight, depth, gone + Replaced(first.log));
      JoinGoodBlocks(n, reverse, gone, block, BlocksDefined(others), first, WalkBlocks(w, reverse, mu, left, weight, depth));
    }
  }

  lemma TidyBlock(n: Scheme, gone: set<Value>, block: Block, first: Walked<seq<Op>>)
    requires Clear(n.own, gone, BlockDefined(block)) && GoodOps(n, gone, Defined(block.ops), first)
    ensures Tidy(n.own, gone, BlockDefined(block), first.log, block.args + Defined(first.what))
  {
    assert Beside(true, Defined(block.ops), block.args) == BlockDefined(block);
    FrameBeside(n, true, gone, Defined(block.ops), block.args, first.log, Defined(first.what));
  }

  lemma JoinGoodBlocks(n: Scheme, reverse: bool, gone: set<Value>, block: Block, others: seq<Value>,
                       first: Walked<seq<Op>>, rest: Walked<seq<Block>>)
    requires Clear(n.own, gone, Beside(reverse, BlockDefined(block), others)) && Clear(n.own, gone, BlockDefined(block))
    requires GoodOps(n, gone, Defined(block.ops), first) && GoodBlocks(n, gone + Replaced(first.log), others, rest)
    ensures GoodBlocks(n, gone, Beside(reverse, BlockDefined(block), others), JoinBlocks(reverse, first, block.args, rest))
  {
    var put := Block(block.args, SubstOps(rest.s, first.what));
    TidyBlock(n, gone, block, first);
    JoinTidy(n, reverse, gone, BlockDefined(block), others, first.log, block.args + Defined(first.what),
             rest.log, BlocksDefined(rest.what));
    DefinedSubst(rest.s, first.what);
    BlocksDefinedOne(put);
    BlocksDefinedBeside(reverse, [put], rest.what);
    OrderedSubst(n.below, rest.s, first.what);
    DescendingCompose(n.below, first.s, rest.s);
  }

  // ----- what a caller can check -----

  /** A tame pattern uses names once, on every block of separate territories in which uses are below definitions. */
  lemma TameIsProper(w: Walk, reverse: bool, mu: Op -> nat, n: Scheme, ops: seq<Op>)
    requires Runs(w, mu, n) && Apart(n.own, Defined(ops)) && Ordered(n.below, ops)
    ensures Proper({}, WalkOps(w, reverse, mu, ops).log)
  {
    TidyOps(w, reverse, mu, n, ops, {});
  }

  /**
   A tame pattern that does not look at which values are used leaves the same block, and redirects
   what is around it alike, in both directions. All conditions are on the pattern and on the block.
   */
  lemma TameHasNoDirection(w: Walk, mu: Op -> nat, n: Scheme, ops: seq<Op>)
    requires Runs(w, mu, n) && Equivariant(w.pattern) && Apart(n.own, Defined(ops)) && Ordered(n.below, ops)
    ensures WalkOps(w, false, mu, ops).what == WalkOps(w, true, mu, ops).what
    ensures WalkOps(w, false, mu, ops).s == WalkOps(w, true, mu, ops).s
  {
    TameIsProper(w, false, mu, n, ops);
    TameIsProper(w, true, mu, n, ops);
    DirectionIrrelevant(w, mu, ops);
  }
}
