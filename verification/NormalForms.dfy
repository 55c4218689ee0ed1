/**
 When a recursive walk leaves nothing to match: the pattern must not come to act on an operation it
 has left alone, neither because of what was rewritten inside it nor because its operands were
 redirected after its visit.
 */
module NormalForms {
  import opened Ir
  import opened Substitution
  import opened PatternRewriters
  import opened Measures
  import opened Walks

  /** No operation at any depth is still matched. */
  ghost predicate NormalOps(pattern: Pattern, ops: seq<Op>)
    decreases ops
  {
    forall op :: op in ops ==> NormalOp(pattern, op)
  }

  ghost predicate NormalOp(pattern: Pattern, op: Op)
    decreases op
  {
    !Acts(pattern, op) && NormalInside(pattern, op)
  }

  ghost predicate NormalInside(pattern: Pattern, op: Op)
    decreases op, 0
  {
    NormalRegions(pattern, op.regions)
  }

  ghost predicate NormalRegions(pattern: Pattern, regions: seq<Region>)
    decreases regions
  {
    forall region :: region in regions ==> NormalBlocks(pattern, region.blocks)
  }

  ghost predicate NormalBlocks(pattern: Pattern, blocks: seq<Block>)
    decreases blocks
  {
    forall block :: block in blocks ==> NormalOps(pattern, block.ops)
  }

  // ----- what may happen to an operation after its visit -----

  /** Redirecting uses does not make the pattern act on anything it leaves alone. */
  ghost predicate Harmless(pattern: Pattern, s: Redirect)
  {
    forall op :: HarmlessAt(pattern, s, op)
  }

  ghost predicate HarmlessAt(pattern: Pattern, s: Redirect, op: Op)
  {
    NormalOp(pattern, op) ==> NormalOp(pattern, SubstOp(s, op))
  }

  /** None of the redirections the walk can make is harmful. */
  ghost predicate RedirectsHarmless(w: Walk, reverse: bool, mu: Op -> nat)
    requires w.Bounded(mu)
  {
    forall ops :: Harmless(w.pattern, WalkOps(w, reverse, mu, ops).s)
  }

  /** Rewriting inside an operation that was left alone does not make the pattern act on it. */
  ghost predicate Settled(w: Walk, reverse: bool, mu: Op -> nat)
    requires w.Bounded(mu)
  {
    w.regionsFirst || forall op :: SettledAt(w, reverse, mu, op)
  }

  ghost predicate SettledAt(w: Walk, reverse: bool, mu: Op -> nat, op: Op)
    requires w.Bounded(mu)
  {
    !Acts(w.pattern, op) ==> !Acts(w.pattern, WalkRegions(w, reverse, mu, op).what)
  }

  /** Every block ends in normal form. */
  ghost predicate AlwaysNormal(w: Walk, reverse: bool, mu: Op -> nat)
    requires w.Bounded(mu)
  {
    forall ops :: NormalOps(w.pattern, WalkOps(w, reverse, mu, ops).what)
  }

  // ----- harmless redirections -----

  lemma HarmlessNothing(pattern: Pattern)
    ensures Harmless(pattern, map[])
  {
    forall op ensures HarmlessAt(pattern, map[], op) {
      SubstOpUnused(map[], op);
    }
  }

  lemma HarmlessCompose(pattern: Pattern, s: Redirect, t: Redirect)
    requires Harmless(pattern, s) && Harmless(pattern, t)
    ensures Harmless(pattern, Compose(s, t))
  {
    forall op ensures HarmlessAt(pattern, Compose(s, t), op) {
      SubstOpCompose(s, t, op);
      assert HarmlessAt(pattern, s, op) && HarmlessAt(pattern, t, SubstOp(s, op));
    }
  }

  lemma HarmlessOps(pattern: Pattern, s: Redirect, ops: seq<Op>)
    requires Harmless(pattern, s) && NormalOps(pattern, ops)
    ensures NormalOps(pattern, SubstOps(s, ops))
  {
    forall op | op in SubstOps(s, ops) ensures NormalOp(pattern, op) {
      var k :| 0 <= k < |ops| && SubstOps(s, ops)[k] == op;
      assert ops[k] in ops && HarmlessAt(pattern, s, ops[k]) && op == SubstOp(s, ops[k]);
    }
  }

  lemma HarmlessBlocks(pattern: Pattern, s: Redirect, blocks: seq<Block>)
    requires Harmless(pattern, s) && NormalBlocks(pattern, blocks)
    ensures NormalBlocks(pattern, SubstBlocks(s, blocks))
    ensures NormalBlocks(pattern, SubstRegion(s, Region(blocks)).blocks)
  {
    assert SubstRegion(s, Region(blocks)).blocks == SubstBlocks(s, blocks);
    forall block | block in SubstBlocks(s, blocks) ensures NormalOps(pattern, block.ops) {
      var k :| 0 <= k < |blocks| && SubstBlocks(s, blocks)[k] == block;
      assert blocks[k] in blocks;
      HarmlessOps(pattern, s, blocks[k].ops);
    }
  }

  /** Redirections made inside an operation are compositions of those made in blocks. */
  lemma {:induction false} BlocksHarmless(w: Walk, reverse: bool, mu: Op -> nat, blocks: seq<Block>, weight: nat, depth: nat)
    requires w.Bounded(mu) && BlocksWithin(w, mu, blocks, weight, depth) && RedirectsHarmless(w, reverse, mu)
    ensures Harmless(w.pattern, WalkBlocks(w, reverse, mu, blocks, weight, depth).s)
    decreases |blocks|
  {
    if blocks == [] {
      HarmlessNothing(w.pattern);
    } else {
      UnfoldBlocks(w, reverse, mu, blocks, weight, depth);
      var first := WalkOps(w, reverse, mu, FirstOf(reverse, blocks).ops);
      var left := SubstBlocks(first.s, OthersOf(reverse, blocks));
      BlocksHarmless(w, reverse, mu, left, weight, depth);
      HarmlessCompose(w.pattern, first.s, WalkBlocks(w, reverse, mu, left, weight, depth).s);
    }
  }

  lemma {:induction false} RegionListHarmless(w: Walk, reverse: bool, mu: Op -> nat, regions: seq<Region>, weight: nat, depth: nat)
    requires w.Bounded(mu) && Within(w, mu, regions, weight, depth) && RedirectsHarmless(w, reverse, mu)
    ensures Harmless(w.pattern, WalkRegionList(w, reverse, mu, regions, weight, depth).s)
    decreases |regions|
  {
    if regions == [] {
      HarmlessNothing(w.pattern);
    } else {
      UnfoldRegionList(w, reverse, mu, regions, weight, depth);
      var first := WalkBlocks(w, reverse, mu, regions[0].blocks, weight, depth);
      BlocksHarmless(w, reverse, mu, regions[0].blocks, weight, depth);
      var left := SubstRegions(first.s, regions[1..]);
      RegionListHarmless(w, reverse, mu, left, weight, depth);
      HarmlessCompose(w.pattern, first.s, WalkRegionList(w, reverse, mu, left, weight, depth).s);
    }
  }

  // ----- the walk ends with nothing left to match -----

  lemma {:induction false} WalkOpsNormal(w: Walk, reverse: bool, mu: Op -> nat, ops: seq<Op>)
    requires w.Bounded(mu) && w.recursive && Settled(w, reverse, mu) && RedirectsHarmless(w, reverse, mu)
    ensures NormalOps(w.pattern, WalkOps(w, reverse, mu, ops).what)
    decreases w.Weight(mu, ops), OpsDepth(ops), 2, |ops|
  {
    if ops != [] {
      var x := FirstOf(reverse, ops);
      var first := WalkOp(w, reverse, mu, x);
      var left := SubstOps(first.s, OthersOf(reverse, ops));
      UnfoldOps(w, reverse, mu, ops);
      WalkOpNormal(w, reverse, mu, x);
      WalkOpsNormal(w, reverse, mu, left);
      HarmlessOps(w.pattern, WalkOps(w, reverse, mu, left).s, first.what);
    }
  }

  lemma {:induction false} WalkOpNormal(w: Walk, reverse: bool, mu: Op -> nat, op: Op)
    requires w.Bounded(mu) && w.recursive && Settled(w, reverse, mu) && RedirectsHarmless(w, reverse, mu)
    ensures NormalOps(w.pattern, WalkOp(w, reverse, mu, op).what)
    decreases w.WeightOf(mu, op), Depth(op), 1, 0
  {
    var ready := if w.regionsFirst then WalkRegions(w, reverse, mu, op) else Walked(op, map[], []);
    if Acts(w.pattern, ready.what) {
      VisitBounded(w, mu, ready);
      WalkOpsNormal(w, reverse, mu, Visited(w.pattern, ready).what);
    } else {
      assert w.regionsFirst || SettledAt(w, reverse, mu, op);
      WalkRegionsNormal(w, reverse, mu, op);
    }
  }

  lemma {:induction false} WalkRegionsNormal(w: Walk, reverse: bool, mu: Op -> nat, op: Op)
    requires w.Bounded(mu) && w.recursive && Settled(w, reverse, mu) && RedirectsHarmless(w, reverse, mu)
    ensures NormalInside(w.pattern, WalkRegions(w, reverse, mu, op).what)
    decreases w.WeightOf(mu, op), Depth(op), 0, 1
  {
    UnfoldRegions(w, reverse, mu, op);
    RegionsOfNormal(w, reverse, mu, op);
  }

  lemma {:induction false} RegionsOfNormal(w: Walk, reverse: bool, mu: Op -> nat, op: Op)
    requires w.Bounded(mu) && w.recursive && Settled(w, reverse, mu) && RedirectsHarmless(w, reverse, mu)
    ensures NormalRegions(w.pattern, RegionsOf(w, reverse, mu, op).what)
    decreases w.WeightOf(mu, op), Depth(op), 0, 0
  {
    var weight, depth := RegionsOfIs(w, reverse, mu, op);
    RegionListNormal(w, reverse, mu, op.regions, weight, depth);
  }

  lemma {:induction false} RegionListNormal(w: Walk, reverse: bool, mu: Op -> nat, regions: seq<Region>, weight: nat, depth: nat)
    requires w.Bounded(mu) && Within(w, mu, regions, weight, depth)
    requires w.recursive && Settled(w, reverse, mu) && RedirectsHarmless(w, reverse, mu)
    ensures NormalRegions(w.pattern, WalkRegionList(w, reverse, mu, regions, weight, depth).what)
    decreases weight, depth, 4, |regions|
  {
    if regions != [] {
      UnfoldRegionList(w, reverse, mu, regions, weight, depth);
      var first := WalkBlocks(w, reverse, mu, regions[0].blocks, weight, depth);
      BlocksNormal(w, reverse, mu, regions[0].blocks, weight, depth);
      var left := SubstRegions(first.s, regions[1..]);
      RegionListNormal(w, reverse, mu, left, weight, depth);
      RegionListHarmless(w, reverse, mu, left, weight, depth);
      HarmlessBlocks(w.pattern, WalkRegionList(w, reverse, mu, left, weight, depth).s, first.what);
    }
  }

  lemma {:induction false} BlocksNormal(w: Walk, reverse: bool, mu: Op -> nat, blocks: seq<Block>, weight: nat, depth: nat)
    requires w.Bounded(mu) && BlocksWithin(w, mu, blocks, weight, depth)
    requires w.recursive && Settled(w, reverse, mu) && RedirectsHarmless(w, reverse, mu)
    ensures NormalBlocks(w.pattern, WalkBlocks(w, reverse, mu, blocks, weight, depth).what)
    decreases weight, depth, 3, |blocks|
  {
    if blocks != [] {
      UnfoldBlocks(w, reverse, mu, blocks, weight, depth);
      var first := WalkOps(w, reverse, mu, FirstOf(reverse, blocks).ops);
      var left := SubstBlocks(first.s, OthersOf(reverse, blocks));
      WalkOpsNormal(w, reverse, mu, FirstOf(reverse, blocks).ops);
      BlocksNormal(w, reverse, mu, left, weight, depth);
      BlocksHarmless(w, reverse, mu, left, weight, depth);
      HarmlessOps(w.pattern, WalkBlocks(w, reverse, mu, left, weight, depth).s, first.what);
    }
  }

  // ----- a normal form stays as it is -----

  /** A part that the walk leaves as it is. */
  ghost function Fixed<T>(what: T): Walked<T>
  {
    Walked(what, map[], [])
  }

  lemma FixedJoin(reverse: bool, x: Op, left: seq<Op>)
    ensures SubstOps(map[], left) == left && Join(reverse, Fixed([x]), Fixed(left)) == Fixed(Beside(reverse, [x], left))
  {
    SubstNothing([x]);
    SubstNothing(left);
    ComposeNothing(map[]);
  }

  lemma {:induction false} NormalIsFixed(w: Walk, reverse: bool, mu: Op -> nat, ops: seq<Op>)
    requires w.Bounded(mu) && NormalOps(w.pattern, ops)
    ensures WalkOps(w, reverse, mu, ops) == Fixed(ops)
    decreases w.Weight(mu, ops), OpsDepth(ops), 2, |ops|
  {
    if ops != [] {
      var x, left := FirstOf(reverse, ops), OthersOf(reverse, ops);
      BesideOthers(reverse, ops);
      UnfoldOps(w, reverse, mu, ops);
      NormalOpIsFixed(w, reverse, mu, x);
      FixedJoin(reverse, x, left);
      NormalIsFixed(w, reverse, mu, left);
    }
  }

  lemma {:induction false} NormalOpIsFixed(w: Walk, reverse: bool, mu: Op -> nat, op: Op)
    requires w.Bounded(mu) && NormalOp(w.pattern, op)
    ensures WalkOp(w, reverse, mu, op) == Fixed([op])
    decreases w.WeightOf(mu, op), Depth(op), 1, 0
  {
    NormalInsideIsFixed(w, reverse, mu, op);
  }

  lemma {:induction false} NormalInsideIsFixed(w: Walk, reverse: bool, mu: Op -> nat, op: Op)
    requires w.Bounded(mu) && NormalInside(w.pattern, op)
    ensures WalkRegions(w, reverse, mu, op) == Fixed(op)
    decreases w.WeightOf(mu, op), Depth(op), 0, 1
  {
    UnfoldRegions(w, reverse, mu, op);
    RegionsOfFixed(w, reverse, mu, op);
    SubstOpUnused(map[], op);
  }

  lemma {:induction false} RegionsOfFixed(w: Walk, reverse: bool, mu: Op -> nat, op: Op)
    requires w.Bounded(mu) && NormalRegions(w.pattern, op.regions)
    ensures RegionsOf(w, reverse, mu, op) == Fixed(op.regions)
    decreases w.WeightOf(mu, op), Depth(op), 0, 0
  {
    var weight, depth := RegionsOfIs(w, reverse, mu, op);
    NormalRegionsFixed(w, reverse, mu, op.regions, weight, depth);
  }

  lemma {:induction false} NormalRegionsFixed(w: Walk, reverse: bool, mu: Op -> nat, regions: seq<Region>, weight: nat, depth: nat)
    requires w.Bounded(mu) && Within(w, mu, regions, weight, depth) && NormalRegions(w.pattern, regions)
    ensures WalkRegionList(w, reverse, mu, regions, weight, depth) == Fixed(regions)
    decreases weight, depth, 4, |regions|
  {
    if regions != [] {
      assert regions[0] in regions && forall region :: region in regions[1..] ==> region in regions;
      UnfoldRegionList(w, reverse, mu, regions, weight, depth);
      NormalBlocksFixed(w, reverse, mu, regions[0].blocks, weight, depth);
      FixedRegions(regions[0], regions[1..]);
      NormalRegionsFixed(w, reverse, mu, regions[1..], weight, depth);
      assert [regions[0]] + regions[1..] == regions;
    }
  }

  lemma FixedRegions(region: Region, left: seq<Region>)
    ensures SubstRegions(map[], left) == left && ThenRegions(Fixed(region.blocks), Fixed(left)) == Fixed([region] + left)
  {
    SubstRegionsNothing(left);
    SubstRegionUnused(map[], region);
    ComposeNothing(map[]);
  }

  lemma {:induction false} NormalBlocksFixed(w: Walk, reverse: bool, mu: Op -> nat, blocks: seq<Block>, weight: nat, depth: nat)
    requires w.Bounded(mu) && BlocksWithin(w, mu, blocks, weight, depth) && NormalBlocks(w.pattern, blocks)
    ensures WalkBlocks(w, reverse, mu, blocks, weight, depth) == Fixed(blocks)
    decreases weight, depth, 3, |blocks|
  {
    if blocks != [] {
      var block, left := FirstOf(reverse, blocks), OthersOf(reverse, blocks);
      BesideOthers(reverse, blocks);
      UnfoldBlocks(w, reverse, mu, blocks, weight, depth);
      NormalIsFixed(w, reverse, mu, block.ops);
      FixedBlocks(reverse, block, left);
      NormalBlocksFixed(w, reverse, mu, left, weight, depth);
    }
  }

  lemma FixedBlocks(reverse: bool, block: Block, left: seq<Block>)
    ensures SubstBlocks(map[], left) == left
    ensures JoinBlocks(reverse, Fixed(block.ops), block.args, Fixed(left)) == Fixed(Beside(reverse, [block], left))
  {
    SubstBlocksNothing(left);
    SubstNothing(block.ops);
    ComposeNothing(map[]);
  }

  // ----- exactly when -----

  /**
   A recursive walk reaches a normal form on every block exactly when no operation it leaves alone
   comes to match later: not by what is rewritten inside, not by what is redirected.
   */
  lemma NormalFormExactly(w: Walk, reverse: bool, mu: Op -> nat)
    requires w.Bounded(mu) && w.recursive
    ensures AlwaysNormal(w, reverse, mu) <==> Settled(w, reverse, mu) && RedirectsHarmless(w, reverse, mu)
  {
    if Settled(w, reverse, mu) && RedirectsHarmless(w, reverse, mu) {
      forall ops ensures NormalOps(w.pattern, WalkOps(w, reverse, mu, ops).what) {
        WalkOpsNormal(w, reverse, mu, ops);
      }
    }
    if AlwaysNormal(w, reverse, mu) {
      NormalFormNeedsHarmless(w, reverse, mu);
      NormalFormNeedsSettled(w, reverse, mu);
    }
  }

  lemma NormalFormNeedsSettled(w: Walk, reverse: bool, mu: Op -> nat)
    requires w.Bounded(mu) && w.recursive && AlwaysNormal(w, reverse, mu)
    ensures Settled(w, reverse, mu)
  {
    forall op | !w.regionsFirst && !Acts(w.pattern, op) ensures SettledAt(w, reverse, mu, op) {
      var r := WalkOps(w, reverse, mu, [op]);
      WalkOne(w, reverse, mu, op);
      assert NormalOps(w.pattern, r.what) && r.what[0] in r.what;
    }
  }

  lemma WalkOne(w: Walk, reverse: bool, mu: Op -> nat, op: Op)
    requires w.Bounded(mu)
    ensures WalkOps(w, reverse, mu, [op]) == WalkOp(w, reverse, mu, op)
  {
    var r := WalkOp(w, reverse, mu, op);
    assert [op] + [] == [op] && [] + [op] == [op];
    if reverse {
      LastFirst(w, mu, [], op);
    } else {
      FirstFirst(w, mu, op, []);
    }
    SubstNothing(r.what);
    ComposeNothing(r.s);
    assert SubstOps(r.s, []) == [] && r.what + [] == r.what && [] + r.what == r.what && r.log + [] == r.log;
  }

  /** A normal operation put where it is visited before a block shows the redirection of that block. */
  lemma ShowsRedirection(w: Walk, reverse: bool, mu: Op -> nat, ops: seq<Op>, op: Op)
    requires w.Bounded(mu) && NormalOp(w.pattern, op)
    ensures SubstOp(WalkOps(w, reverse, mu, ops).s, op) in WalkOps(w, reverse, mu, Beside(reverse, [op], ops)).what
  {
    var r := WalkOps(w, reverse, mu, ops);
    var all := Beside(reverse, [op], ops);
    assert FirstOf(reverse, all) == op && OthersOf(reverse, all) == ops;
    UnfoldOps(w, reverse, mu, all);
    NormalOpIsFixed(w, reverse, mu, op);
    SubstNothing(ops);
    assert SubstOps(r.s, [op]) == [SubstOp(r.s, op)];
    assert SubstOp(r.s, op) in Beside(reverse, [SubstOp(r.s, op)], r.what);
  }

  lemma NormalFormNeedsHarmless(w: Walk, reverse: bool, mu: Op -> nat)
    requires w.Bounded(mu) && w.recursive && AlwaysNormal(w, reverse, mu)
    ensures RedirectsHarmless(w, reverse, mu)
  {
    forall ops, op | NormalOp(w.pattern, op)
      ensures HarmlessAt(w.pattern, WalkOps(w, reverse, mu, ops).s, op)
    {
      ShowsRedirection(w, reverse, mu, ops, op);
      assert NormalOps(w.pattern, WalkOps(w, reverse, mu, Beside(reverse, [op], ops)).what);
    }
  }

  // ----- conditions on the pattern alone -----

  /** Whether the pattern acts does not depend on what stands inside the operation. */
  ghost predicate Shallow(pattern: Pattern)
  {
    forall op: Op, regions :: Acts(pattern, op.(regions := regions)) == Acts(pattern, op)
  }

  ghost predicate SteadyUnderRedirects(pattern: Pattern)
  {
    forall s: Redirect, op: Op :: !Acts(pattern, op) ==> !Acts(pattern, SubstOp(s, op))
  }

  /** Making the inside of an operation lighter, or redirecting its operands, does not make the pattern act on it. */
  ghost predicate Steady(pattern: Pattern, mu: Op -> nat)
  {
    && SteadyUnderRedirects(pattern)
    && (forall op: Op, regions :: !Acts(pattern, op) && NotHeavier(mu, regions, op.regions) ==>
          !Acts(pattern, op.(regions := regions)))
  }

  /** A condition on single operations that is enough. */
  lemma SteadyIsEnough(w: Walk, reverse: bool, mu: Op -> nat)
    requires w.Bounded(mu) && w.recursive && Steady(w.pattern, mu)
    ensures Settled(w, reverse, mu) && RedirectsHarmless(w, reverse, mu) && AlwaysNormal(w, reverse, mu)
  {
    forall op | !Acts(w.pattern, op) ensures SettledAt(w, reverse, mu, op) {
      SteadySettles(w, reverse, mu, op);
    }
    forall ops ensures Harmless(w.pattern, WalkOps(w, reverse, mu, ops).s) {
      SteadyHarmless(w.pattern, WalkOps(w, reverse, mu, ops).s);
    }
    NormalFormExactly(w, reverse, mu);
  }

  lemma SteadySettles(w: Walk, reverse: bool, mu: Op -> nat, op: Op)
    requires w.Bounded(mu) && w.recursive && Steady(w.pattern, mu) && !Acts(w.pattern, op)
    ensures !Acts(w.pattern, WalkRegions(w, reverse, mu, op).what)
  {
    UnfoldRegions(w, reverse, mu, op);
    var r := RegionsOf(w, reverse, mu, op);
    RegionsOfNotHeavier(w, reverse, mu, op);
    SubstNotHeavier(w, mu, op, r.s, r.what);
    SteadyStep(w.pattern, mu, op, r.s, r.what);
  }

  lemma RegionsOfNotHeavier(w: Walk, reverse: bool, mu: Op -> nat, op: Op)
    requires w.Bounded(mu) && w.recursive
    ensures NotHeavier(mu, RegionsOf(w, reverse, mu, op).what, op.regions)
  {
    WithinOp(w, mu, op);
  }

  lemma SteadyStep(pattern: Pattern, mu: Op -> nat, op: Op, s: Redirect, regions: seq<Region>)
    requires Steady(pattern, mu) && !Acts(pattern, op) && NotHeavier(mu, regions, SubstOp(s, op).regions)
    ensures !Acts(pattern, SubstOp(s, op).(regions := regions))
  {
    var redirected := SubstOp(s, op);
    assert !Acts(pattern, redirected);
  }

  lemma SteadyHarmless(pattern: Pattern, s: Redirect)
    requires SteadyUnderRedirects(pattern)
    ensures Harmless(pattern, s)
  {
    forall op | NormalOp(pattern, op) ensures HarmlessAt(pattern, s, op) {
      SteadyRedirect(pattern, s, op);
    }
  }

  lemma SubstNotHeavier(w: Walk, mu: Op -> nat, op: Op, s: Redirect, regions: seq<Region>)
    requires w.Bounded(mu) && w.recursive && NotHeavier(mu, regions, op.regions)
    ensures NotHeavier(mu, regions, SubstOp(s, op).regions)
  {
    forall i, b | 0 <= i < |op.regions| && 0 <= b < |op.regions[i].blocks|
      ensures Sum(mu, SubstOp(s, op).regions[i].blocks[b].ops) == Sum(mu, op.regions[i].blocks[b].ops)
    {
      assert SubstOp(s, op).regions[i] == SubstRegion(s, op.regions[i]);
      assert SubstRegion(s, op.regions[i]).blocks[b] == SubstBlock(s, op.regions[i].blocks[b]);
      SumSubst(mu, s, op.regions[i].blocks[b].ops);
    }
  }

  lemma {:induction false} SteadyRedirect(pattern: Pattern, s: Redirect, op: Op)
    requires SteadyUnderRedirects(pattern) && NormalOp(pattern, op)
    ensures NormalOp(pattern, SubstOp(s, op))
    decreases op
  {
    assert NormalInside(pattern, op) && NormalRegions(pattern, op.regions);
    forall region' | region' in SubstOp(s, op).regions ensures NormalBlocks(pattern, region'.blocks) {
      var i :| 0 <= i < |op.regions| && SubstOp(s, op).regions[i] == region';
      assert op.regions[i] in op.regions;
      SteadyBlocks(pattern, s, op.regions[i]);
    }
  }

  lemma {:induction false} SteadyBlocks(pattern: Pattern, s: Redirect, region: Region)
    requires SteadyUnderRedirects(pattern) && NormalBlocks(pattern, region.blocks)
    ensures NormalBlocks(pattern, SubstRegion(s, region).blocks)
    decreases region
  {
    forall block' | block' in SubstRegion(s, region).blocks ensures NormalOps(pattern, block'.ops) {
      var b :| 0 <= b < |region.blocks| && SubstRegion(s, region).blocks[b] == block';
      assert region.blocks[b] in region.blocks;
      var ops := region.blocks[b].ops;
      assert block'.ops == SubstOps(s, ops);
      forall op' | op' in block'.ops ensures NormalOp(pattern, op') {
        var k :| 0 <= k < |ops| && SubstOps(s, ops)[k] == op';
        assert ops[k] in ops;
        SteadyRedirect(pattern, s, ops[k]);
      }
    }
  }

  lemma EquivariantIsSteady(pattern: Pattern)
    requires Equivariant(pattern)
    ensures SteadyUnderRedirects(pattern)
  {
    forall s: Redirect, op: Op | !Acts(pattern, op) ensures !Acts(pattern, SubstOp(s, op)) {
      assert EquivariantAt(pattern, s, op);
      assert CallsDefs([]) == {};
    }
  }

  /**
   A pattern that does not look at which values are used leaves a normal form in both directions,
   if it visits regions first or does not look inside the operation either.
   */
  lemma EquivariantReachesNormalForm(w: Walk, reverse: bool, mu: Op -> nat)
    requires w.Bounded(mu) && w.recursive && Equivariant(w.pattern) && (w.regionsFirst || Shallow(w.pattern))
    ensures AlwaysNormal(w, reverse, mu)
  {
    EquivariantIsSteady(w.pattern);
    forall ops ensures Harmless(w.pattern, WalkOps(w, reverse, mu, ops).s) {
      SteadyHarmless(w.pattern, WalkOps(w, reverse, mu, ops).s);
    }
    if !w.regionsFirst {
      forall op | !Acts(w.pattern, op) ensures SettledAt(w, reverse, mu, op) {
        SteadySettles(w, reverse, mu, op);
      }
    }
    NormalFormExactly(w, reverse, mu);
  }
}
