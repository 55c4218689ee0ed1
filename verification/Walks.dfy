/**
 What a rewrite walk does, without a cursor: operations in the order they are visited, each visit
 redirecting uses in everything the walk holds. A walk of a part gives back the redirection it made,
 and what is around that part is redirected then; no pattern looks there in the meantime.
 */
module Walks {
  import opened Ir
  import opened Refinement
  import opened Substitution
  import opened PatternRewriters
  import opened Measures

  /** The names one action uses: results that gave way, values it brought along, and whether no result gave way to a result. */
  datatype Visit = Visit(replaced: set<Value>, defined: set<Value>, clean: bool)

  /** A part after its walk, the redirection made on the way, and the actions in order. */
  datatype Walked<T> = Walked(what: T, s: Redirect, log: seq<Visit>)

  predicate CleanReplacement(rw: Rewrite)
  {
    Distinct(rw.replaced) && |rw.replaced| == |rw.targets| && forall t :: t in rw.targets ==> t !in rw.replaced
  }

  function VisitOf(pattern: Pattern, op: Op): Visit
    requires Legal(pattern(op), Start(op))
  {
    var rw := Rewritten(pattern, op);
    Visit(Names(rw.replaced), CallsDefs(pattern(op)), CleanReplacement(rw))
  }

  // ----- one part after another -----

  /** `b` was walked after `a`, which stands in front of it. */
  function Then(a: Walked<seq<Op>>, b: Walked<seq<Op>>): Walked<seq<Op>>
  {
    Walked(SubstOps(b.s, a.what) + b.what, Compose(a.s, b.s), a.log + b.log)
  }

  /** `a` was walked after `b`, which stands behind it. */
  function After(a: Walked<seq<Op>>, b: Walked<seq<Op>>): Walked<seq<Op>>
  {
    Walked(a.what + SubstOps(a.s, b.what), Compose(b.s, a.s), b.log + a.log)
  }

  /** The operations left by one visit are walked again. */
  function Again(a: Walked<seq<Op>>, b: Walked<seq<Op>>): Walked<seq<Op>>
  {
    Walked(b.what, Compose(a.s, b.s), a.log + b.log)
  }

  const NOTHING: Walked<seq<Op>> := Walked([], map[], [])

  // ----- the walk -----

  ghost function WalkOps(w: Walk, reverse: bool, mu: Op -> nat, ops: seq<Op>): (r: Walked<seq<Op>>)
    requires w.Bounded(mu)
    ensures w.Weight(mu, r.what) <= w.Weight(mu, ops)
    decreases w.Weight(mu, ops), OpsDepth(ops), 2, |ops|
  {
    if ops == [] then NOTHING
    else if reverse then
      var n := |ops| - 1;
      Parts(w, mu, ops, n);
      var last := WalkOp(w, reverse, mu, ops[n]);
      w.WeightSubst(mu, last.s, ops[..n]);
      var rest := WalkOps(w, reverse, mu, SubstOps(last.s, ops[..n]));
      JoinedWeight(w, mu, rest.what, last.what, rest.s);
      After(rest, last)
    else
      Parts(w, mu, ops, 0);
      var first := WalkOp(w, reverse, mu, ops[0]);
      w.WeightSubst(mu, first.s, ops[1..]);
      var rest := WalkOps(w, reverse, mu, SubstOps(first.s, ops[1..]));
      JoinedWeight(w, mu, first.what, rest.what, rest.s);
      Then(first, rest)
  }

  /** One operation: its regions and the pattern, in the order the walk has them. */
  ghost function WalkOp(w: Walk, reverse: bool, mu: Op -> nat, op: Op): (r: Walked<seq<Op>>)
    requires w.Bounded(mu)
    ensures w.Weight(mu, r.what) <= w.WeightOf(mu, op)
    decreases w.WeightOf(mu, op), Depth(op), 1, 0
  {
    var ready := if w.regionsFirst then WalkRegions(w, reverse, mu, op) else Walked(op, map[], []);
    if !Acts(w.pattern, ready.what) then
      var r := if w.regionsFirst then ready else WalkRegions(w, reverse, mu, op);
      OneWeight(w, mu, r.what);
      Walked([r.what], r.s, r.log)
    else
      var here := Visited(w.pattern, ready);
      VisitBounded(w, mu, ready);
      if w.recursive then Again(here, WalkOps(w, reverse, mu, here.what))
      else if w.regionsFirst then here
      else
        var order := LogOrder(Rewritten(w.pattern, ready.what));
        Again(here, WalkEach(w, reverse, mu, here.what, order, Depth(op)))
  }

  /** The operation as the pattern is offered it: after its regions, if those come first. */
  ghost function Ready(w: Walk, reverse: bool, mu: Op -> nat, op: Op): Walked<Op>
    requires w.Bounded(mu)
  {
    if w.regionsFirst then WalkRegions(w, reverse, mu, op) else Walked(op, map[], [])
  }

  lemma OneWeight(w: Walk, mu: Op -> nat, op: Op)
    ensures w.Weight(mu, [op]) == w.WeightOf(mu, op)
  {
    assert Sum(mu, [op]) == mu(op) + Sum(mu, [op][1..]) && [op][1..] == [];
  }

  /** What a visit leaves is lighter, or nested no deeper where that matters. */
  lemma VisitBounded(w: Walk, mu: Op -> nat, ready: Walked<Op>)
    requires w.Bounded(mu) && Acts(w.pattern, ready.what)
    ensures var here := Visited(w.pattern, ready).what;
            var order := LogOrder(Rewritten(w.pattern, ready.what));
            && (w.recursive ==> Sum(mu, here) < mu(ready.what))
            && Distinct(order)
            && (!w.recursive && !w.regionsFirst ==>
                  forall k :: k in order ==> k < |here| && Depth(here[k]) <= Depth(ready.what))
  {
    var rw := Rewritten(w.pattern, ready.what);
    w.WeightSubst(mu, rw.Redirection(), rw.Affected());
    LogOrderFits(rw);
    if !w.recursive && !w.regionsFirst {
      DepthsWithin(rw.Left(), Depth(ready.what));
    }
  }

  /** What the pattern leaves where it acts on `ready.what`. */
  ghost function Visited(pattern: Pattern, ready: Walked<Op>): Walked<seq<Op>>
    requires Legal(pattern(ready.what), Start(ready.what))
  {
    var rw := Rewritten(pattern, ready.what);
    Walked(rw.Left(), Compose(ready.s, rw.Redirection()), ready.log + [VisitOf(pattern, ready.what)])
  }

  /** The regions of the operations at the listed positions, in that order. */
  ghost function WalkEach(w: Walk, reverse: bool, mu: Op -> nat, ops: seq<Op>, order: seq<nat>, depth: nat): (r: Walked<seq<Op>>)
    requires w.Bounded(mu) && !w.recursive
    requires forall k :: k in order ==> k < |ops| && Depth(ops[k]) <= depth
    requires Distinct(order)
    ensures |r.what| == |ops|
    decreases 0, depth, 0, 1 + |order|
  {
    if order == [] then Walked(ops, map[], [])
    else
      var k := order[0];
      assert k in order;
      var first := WalkRegions(w, reverse, mu, ops[k]);
      var edited := SubstOps(first.s, ops)[k := first.what];
      forall j | j in order[1..] ensures j < |edited| && Depth(edited[j]) <= depth {
        assert j in order && j != k;
        DepthSubst(first.s, ops[j]);
      }
      Again(Walked(edited, first.s, first.log), WalkEach(w, reverse, mu, edited, order[1..], depth))
  }

  ghost function WalkRegions(w: Walk, reverse: bool, mu: Op -> nat, op: Op): (r: Walked<Op>)
    requires w.Bounded(mu)
    ensures w.WeightOf(mu, r.what) <= w.WeightOf(mu, op)
    ensures r.what == SubstOp(r.s, op).(regions := r.what.regions) && |r.what.regions| == |op.regions|
    decreases w.WeightOf(mu, op), Depth(op), 0, 0
  {
    WithinOp(w, mu, op);
    var r := WalkRegionList(w, reverse, mu, op.regions, w.WeightOf(mu, op), Depth(op) - 1);
    RegionsWeight(w, mu, op, r.s, r.what);
    Walked(SubstOp(r.s, op).(regions := r.what), r.s, r.log)
  }

  /** Regions are walked forwards in every walk. */
  ghost function WalkRegionList(w: Walk, reverse: bool, mu: Op -> nat, regions: seq<Region>, weight: nat, depth: nat)
    : (r: Walked<seq<Region>>)
    requires w.Bounded(mu) && Within(w, mu, regions, weight, depth)
    ensures w.recursive ==> NotHeavier(mu, r.what, regions)
    ensures |r.what| == |regions|
    decreases weight, depth, 4, |regions|
  {
    if regions == [] then Walked([], map[], [])
    else
      var first := WalkBlocks(w, reverse, mu, regions[0].blocks, weight, depth);
      WithinTail(w, mu, regions, weight, depth, first.s);
      var rest := WalkRegionList(w, reverse, mu, SubstRegions(first.s, regions[1..]), weight, depth);
      RegionListWeight(w, mu, regions, first, rest);
      ThenRegions(first, rest)
  }

  /** The regions `rest` were walked after the blocks of the region in front of them. */
  function ThenRegions(first: Walked<seq<Block>>, rest: Walked<seq<Region>>): Walked<seq<Region>>
  {
    Walked([SubstRegion(rest.s, Region(first.what))] + rest.what, Compose(first.s, rest.s), first.log + rest.log)
  }

  ghost function WalkBlocks(w: Walk, reverse: bool, mu: Op -> nat, blocks: seq<Block>, weight: nat, depth: nat): (r: Walked<seq<Block>>)
    requires w.Bounded(mu) && BlocksWithin(w, mu, blocks, weight, depth)
    ensures BlocksNotHeavier(w, mu, r.what, blocks)
    decreases weight, depth, 3, |blocks|
  {
    if blocks == [] then Walked([], map[], [])
    else if reverse then
      var n := |blocks| - 1;
      var last := WalkOps(w, reverse, mu, blocks[n].ops);
      BlocksWithinSubst(w, mu, blocks[..n], weight, depth, last.s);
      var rest := WalkBlocks(w, reverse, mu, SubstBlocks(last.s, blocks[..n]), weight, depth);
      BlockAfterWeight(w, mu, blocks, last, rest);
      BlocksAfter(rest, last, blocks[n].args)
    else
      var first := WalkOps(w, reverse, mu, blocks[0].ops);
      BlocksWithinSubst(w, mu, blocks[1..], weight, depth, first.s);
      var rest := WalkBlocks(w, reverse, mu, SubstBlocks(first.s, blocks[1..]), weight, depth);
      BlockBeforeWeight(w, mu, blocks, first, rest);
      ThenBlocks(first, blocks[0].args, rest)
  }

  /** The blocks `rest` were walked after the block in front of them. */
  function ThenBlocks(first: Walked<seq<Op>>, args: seq<Value>, rest: Walked<seq<Block>>): Walked<seq<Block>>
  {
    Walked([Block(args, SubstOps(rest.s, first.what))] + rest.what, Compose(first.s, rest.s), first.log + rest.log)
  }

  /** The blocks `rest` were walked after the block behind them. */
  function BlocksAfter(rest: Walked<seq<Block>>, last: Walked<seq<Op>>, args: seq<Value>): Walked<seq<Block>>
  {
    Walked(rest.what + [Block(args, SubstOps(rest.s, last.what))], Compose(last.s, rest.s), last.log + rest.log)
  }

  ghost predicate BlocksNotHeavier(w: Walk, mu: Op -> nat, new_: seq<Block>, old_: seq<Block>)
  {
    |new_| == |old_| && forall b :: 0 <= b < |new_| ==> w.Weight(mu, new_[b].ops) <= w.Weight(mu, old_[b].ops)
  }

  lemma BlockBeforeWeight(w: Walk, mu: Op -> nat, blocks: seq<Block>, first: Walked<seq<Op>>, rest: Walked<seq<Block>>)
    requires w.Bounded(mu) && blocks != [] && w.Weight(mu, first.what) <= w.Weight(mu, blocks[0].ops)
    requires BlocksNotHeavier(w, mu, rest.what, SubstBlocks(first.s, blocks[1..]))
    ensures BlocksNotHeavier(w, mu, ThenBlocks(first, blocks[0].args, rest).what, blocks)
  {
    w.WeightSubst(mu, rest.s, first.what);
    var r := ThenBlocks(first, blocks[0].args, rest).what;
    forall b | 0 < b < |blocks| ensures w.Weight(mu, r[b].ops) <= w.Weight(mu, blocks[b].ops) {
      var was := SubstBlocks(first.s, blocks[1..])[b - 1];
      assert was == SubstBlock(first.s, blocks[b]) && w.Weight(mu, rest.what[b - 1].ops) <= w.Weight(mu, was.ops);
      w.WeightSubst(mu, first.s, blocks[b].ops);
    }
  }

  lemma BlockAfterWeight(w: Walk, mu: Op -> nat, blocks: seq<Block>, last: Walked<seq<Op>>, rest: Walked<seq<Block>>)
    requires w.Bounded(mu) && blocks != [] && w.Weight(mu, last.what) <= w.Weight(mu, blocks[|blocks| - 1].ops)
    requires BlocksNotHeavier(w, mu, rest.what, SubstBlocks(last.s, blocks[..|blocks| - 1]))
    ensures BlocksNotHeavier(w, mu, BlocksAfter(rest, last, blocks[|blocks| - 1].args).what, blocks)
  {
    w.WeightSubst(mu, rest.s, last.what);
    var r := BlocksAfter(rest, last, blocks[|blocks| - 1].args).what;
    forall b | 0 <= b < |blocks| - 1 ensures w.Weight(mu, r[b].ops) <= w.Weight(mu, blocks[b].ops) {
      var was := SubstBlocks(last.s, blocks[..|blocks| - 1])[b];
      assert was == SubstBlock(last.s, blocks[b]) && w.Weight(mu, rest.what[b].ops) <= w.Weight(mu, was.ops);
      w.WeightSubst(mu, last.s, blocks[b].ops);
    }
  }

  // ----- lists in a row -----

  lemma ThenAssociative(a: Walked<seq<Op>>, b: Walked<seq<Op>>, c: Walked<seq<Op>>)
    ensures Then(Then(a, b), c) == Then(a, Then(b, c))
  {
    ComposeAssociative(a.s, b.s, c.s);
    SubstOpsCompose(b.s, c.s, a.what);
    SubstOpsAppend(c.s, SubstOps(b.s, a.what), b.what);
    AppendAssociative(SubstOps(c.s, SubstOps(b.s, a.what)), SubstOps(c.s, b.what), c.what);
    AppendAssociative(a.log, b.log, c.log);
  }

  lemma AfterAssociative(a: Walked<seq<Op>>, b: Walked<seq<Op>>, c: Walked<seq<Op>>)
    ensures After(After(a, b), c) == After(a, After(b, c))
  {
    ComposeAssociative(c.s, b.s, a.s);
    SubstOpsCompose(b.s, a.s, c.what);
    SubstOpsAppend(a.s, b.what, SubstOps(b.s, c.what));
    AppendAssociative(a.what, SubstOps(a.s, b.what), SubstOps(a.s, SubstOps(b.s, c.what)));
    AppendAssociative(c.log, b.log, a.log);
  }

  lemma AppendAssociative<T>(a: seq<T>, b: seq<T>, c: seq<T>)
    ensures a + b + c == a + (b + c)
  {
  }

  lemma NothingJoins(a: Walked<seq<Op>>)
    ensures Then(NOTHING, a) == a && After(a, NOTHING) == a
  {
    ComposeNothing(a.s);
    assert [] + a.what == a.what && a.what + [] == a.what && [] + a.log == a.log;
  }

  /** Forwards, a list is its front and then, redirected by that, its back. */
  lemma {:induction false} WalkAppendForward(w: Walk, mu: Op -> nat, a: seq<Op>, b: seq<Op>)
    requires w.Bounded(mu)
    ensures var front := WalkOps(w, false, mu, a);
            WalkOps(w, false, mu, a + b) == Then(front, WalkOps(w, false, mu, SubstOps(front.s, b)))
    decreases |a|
  {
    if a == [] {
      assert a + b == b;
      SubstNothing(b);
      NothingJoins(WalkOps(w, false, mu, b));
    } else {
      var first := WalkOp(w, false, mu, a[0]);
      var a', b' := SubstOps(first.s, a[1..]), SubstOps(first.s, b);
      assert (a + b)[0] == a[0] && (a + b)[1..] == a[1..] + b;
      SubstOpsAppend(first.s, a[1..], b);
      WalkAppendForward(w, mu, a', b');
      var rest := WalkOps(w, false, mu, a');
      SubstOpsCompose(first.s, rest.s, b);
      ThenAssociative(first, rest, WalkOps(w, false, mu, SubstOps(rest.s, b')));
    }
  }

  /** Backwards, a list is its back and then, redirected by that, its front. */
  lemma {:induction false} WalkAppendReverse(w: Walk, mu: Op -> nat, a: seq<Op>, b: seq<Op>)
    requires w.Bounded(mu)
    ensures var back := WalkOps(w, true, mu, b);
            WalkOps(w, true, mu, a + b) == After(WalkOps(w, true, mu, SubstOps(back.s, a)), back)
    decreases |b|
  {
    if b == [] {
      assert a + b == a;
      SubstNothing(a);
      NothingJoins(WalkOps(w, true, mu, a));
    } else {
      var init, x := b[..|b| - 1], b[|b| - 1];
      var last := WalkOp(w, true, mu, x);
      var a', b' := SubstOps(last.s, a), SubstOps(last.s, init);
      assert a + b == (a + init) + [x] && b == init + [x];
      LastFirst(w, mu, a + init, x);
      LastFirst(w, mu, init, x);
      SubstOpsAppend(last.s, a, init);
      WalkAppendReverse(w, mu, a', b');
      var rest := WalkOps(w, true, mu, b');
      SubstOpsCompose(last.s, rest.s, a);
      AfterAssociative(WalkOps(w, true, mu, SubstOps(rest.s, a')), rest, last);
    }
  }

  /** Forwards, the first operation is walked first. */
  lemma FirstFirst(w: Walk, mu: Op -> nat, x: Op, tail: seq<Op>)
    requires w.Bounded(mu)
    ensures var first := WalkOp(w, false, mu, x);
            WalkOps(w, false, mu, [x] + tail) == Then(first, WalkOps(w, false, mu, SubstOps(first.s, tail)))
  {
    assert ([x] + tail)[0] == x && ([x] + tail)[1..] == tail;
  }

  /** Backwards, the last operation is walked first. */
  lemma LastFirst(w: Walk, mu: Op -> nat, init: seq<Op>, x: Op)
    requires w.Bounded(mu)
    ensures var last := WalkOp(w, true, mu, x);
            WalkOps(w, true, mu, init + [x]) == After(WalkOps(w, true, mu, SubstOps(last.s, init)), last)
  {
    assert (init + [x])[|init|] == x && (init + [x])[..|init|] == init;
  }

  // ----- both directions at once -----

  function FirstOf<T>(reverse: bool, xs: seq<T>): T
    requires xs != []
  {
    if reverse then xs[|xs| - 1] else xs[0]
  }

  function OthersOf<T>(reverse: bool, xs: seq<T>): (r: seq<T>)
    requires xs != []
    ensures |r| == |xs| - 1
  {
    if reverse then xs[..|xs| - 1] else xs[1..]
  }

  /** `x` on the side of `others` where the walk starts. */
  function Beside<T>(reverse: bool, x: seq<T>, others: seq<T>): seq<T>
  {
    if reverse then others + x else x + others
  }

  lemma BesideOthers<T>(reverse: bool, xs: seq<T>)
    requires xs != []
    ensures xs == Beside(reverse, [FirstOf(reverse, xs)], OthersOf(reverse, xs))
    ensures FirstOf(reverse, xs) in xs && forall x :: x in OthersOf(reverse, xs) ==> x in xs
  {
  }

  function Join(reverse: bool, first: Walked<seq<Op>>, rest: Walked<seq<Op>>): Walked<seq<Op>>
  {
    Walked(Beside(reverse, SubstOps(rest.s, first.what), rest.what), Compose(first.s, rest.s), first.log + rest.log)
  }

  lemma UnfoldOps(w: Walk, reverse: bool, mu: Op -> nat, ops: seq<Op>)
    requires w.Bounded(mu) && ops != []
    ensures var x, others := FirstOf(reverse, ops), OthersOf(reverse, ops);
            var first := WalkOp(w, reverse, mu, x);
            && w.WeightOf(mu, x) <= w.Weight(mu, ops) && Depth(x) <= OpsDepth(ops)
            && w.Weight(mu, SubstOps(first.s, others)) <= w.Weight(mu, ops) && OpsDepth(SubstOps(first.s, others)) <= OpsDepth(ops)
            && WalkOps(w, reverse, mu, ops) == Join(reverse, first, WalkOps(w, reverse, mu, SubstOps(first.s, others)))
  {
    Parts(w, mu, ops, if reverse then |ops| - 1 else 0);
    w.WeightSubst(mu, WalkOp(w, reverse, mu, FirstOf(reverse, ops)).s, OthersOf(reverse, ops));
  }

  function JoinBlocks(reverse: bool, first: Walked<seq<Op>>, args: seq<Value>, rest: Walked<seq<Block>>): Walked<seq<Block>>
  {
    Walked(Beside(reverse, [Block(args, SubstOps(rest.s, first.what))], rest.what), Compose(first.s, rest.s), first.log + rest.log)
  }

  lemma UnfoldBlocks(w: Walk, reverse: bool, mu: Op -> nat, blocks: seq<Block>, weight: nat, depth: nat)
    requires w.Bounded(mu) && BlocksWithin(w, mu, blocks, weight, depth) && blocks != []
    ensures var block, others := FirstOf(reverse, blocks), OthersOf(reverse, blocks);
            var first := WalkOps(w, reverse, mu, block.ops);
            && w.Weight(mu, block.ops) <= weight && OpsDepth(block.ops) <= depth
            && BlocksWithin(w, mu, SubstBlocks(first.s, others), weight, depth)
            && WalkBlocks(w, reverse, mu, blocks, weight, depth)
               == JoinBlocks(reverse, first, block.args, WalkBlocks(w, reverse, mu, SubstBlocks(first.s, others), weight, depth))
  {
    BlocksWithinSubst(w, mu, OthersOf(reverse, blocks), weight, depth, WalkOps(w, reverse, mu, FirstOf(reverse, blocks).ops).s);
  }

  lemma UnfoldRegionList(w: Walk, reverse: bool, mu: Op -> nat, regions: seq<Region>, weight: nat, depth: nat)
    requires w.Bounded(mu) && Within(w, mu, regions, weight, depth) && regions != []
    ensures BlocksWithin(w, mu, regions[0].blocks, weight, depth)
    ensures var first := WalkBlocks(w, reverse, mu, regions[0].blocks, weight, depth);
            && Within(w, mu, SubstRegions(first.s, regions[1..]), weight, depth)
            && WalkRegionList(w, reverse, mu, regions, weight, depth)
               == ThenRegions(first, WalkRegionList(w, reverse, mu, SubstRegions(first.s, regions[1..]), weight, depth))
  {
    WithinTail(w, mu, regions, weight, depth, WalkBlocks(w, reverse, mu, regions[0].blocks, weight, depth).s);
  }

  /** The walked regions of an operation, not yet put back into it. */
  ghost function RegionsOf(w: Walk, reverse: bool, mu: Op -> nat, op: Op): Walked<seq<Region>>
    requires w.Bounded(mu)
  {
    WithinOp(w, mu, op);
    WalkRegionList(w, reverse, mu, op.regions, w.WeightOf(mu, op), Depth(op) - 1)
  }

  lemma RegionsOfIs(w: Walk, reverse: bool, mu: Op -> nat, op: Op) returns (weight: nat, depth: nat)
    requires w.Bounded(mu)
    ensures weight == w.WeightOf(mu, op) && depth == Depth(op) - 1 && Within(w, mu, op.regions, weight, depth)
    ensures RegionsOf(w, reverse, mu, op) == WalkRegionList(w, reverse, mu, op.regions, weight, depth)
  {
    WithinOp(w, mu, op);
    weight, depth := w.WeightOf(mu, op), Depth(op) - 1;
  }

  lemma UnfoldRegions(w: Walk, reverse: bool, mu: Op -> nat, op: Op)
    requires w.Bounded(mu)
    ensures WalkRegions(w, reverse, mu, op)
         == Walked(SubstOp(RegionsOf(w, reverse, mu, op).s, op).(regions := RegionsOf(w, reverse, mu, op).what),
                   RegionsOf(w, reverse, mu, op).s, RegionsOf(w, reverse, mu, op).log)
  {
  }

  // ----- bounds -----

  ghost predicate BlocksWithin(w: Walk, mu: Op -> nat, blocks: seq<Block>, weight: nat, depth: nat)
  {
    forall b :: 0 <= b < |blocks| ==> w.Weight(mu, blocks[b].ops) <= weight && OpsDepth(blocks[b].ops) <= depth
  }

  ghost predicate Within(w: Walk, mu: Op -> nat, regions: seq<Region>, weight: nat, depth: nat)
  {
    forall i :: 0 <= i < |regions| ==> BlocksWithin(w, mu, regions[i].blocks, weight, depth)
  }

  lemma BlocksWithinSubst(w: Walk, mu: Op -> nat, blocks: seq<Block>, weight: nat, depth: nat, s: Redirect)
    requires w.Bounded(mu) && BlocksWithin(w, mu, blocks, weight, depth)
    ensures BlocksWithin(w, mu, SubstBlocks(s, blocks), weight, depth)
  {
    forall b | 0 <= b < |blocks|
      ensures w.Weight(mu, SubstBlocks(s, blocks)[b].ops) == w.Weight(mu, blocks[b].ops)
      ensures OpsDepth(SubstBlocks(s, blocks)[b].ops) == OpsDepth(blocks[b].ops)
    {
      w.WeightSubst(mu, s, blocks[b].ops);
    }
  }

  lemma WithinTail(w: Walk, mu: Op -> nat, regions: seq<Region>, weight: nat, depth: nat, s: Redirect)
    requires w.Bounded(mu) && Within(w, mu, regions, weight, depth) && regions != []
    ensures Within(w, mu, SubstRegions(s, regions[1..]), weight, depth)
  {
    forall i | 0 <= i < |regions[1..]|
      ensures BlocksWithin(w, mu, SubstRegions(s, regions[1..])[i].blocks, weight, depth)
    {
      var blocks := regions[i + 1].blocks;
      assert BlocksWithin(w, mu, blocks, weight, depth);
      BlocksWithinSubst(w, mu, blocks, weight, depth, s);
      assert SubstRegions(s, regions[1..])[i].blocks == SubstBlocks(s, blocks);
    }
  }

  lemma WithinOp(w: Walk, mu: Op -> nat, op: Op)
    requires w.Bounded(mu)
    ensures Depth(op) >= 1 && Within(w, mu, op.regions, w.WeightOf(mu, op), Depth(op) - 1)
  {
    forall i, b | 0 <= i < |op.regions| && 0 <= b < |op.regions[i].blocks|
      ensures w.Weight(mu, op.regions[i].blocks[b].ops) <= w.WeightOf(mu, op)
      ensures OpsDepth(op.regions[i].blocks[b].ops) <= Depth(op) - 1
    {
      DepthInside(op, i, b);
    }
  }

  lemma Parts(w: Walk, mu: Op -> nat, ops: seq<Op>, i: nat)
    requires i < |ops|
    ensures w.WeightOf(mu, ops[i]) <= w.Weight(mu, ops) && Depth(ops[i]) <= OpsDepth(ops)
    ensures i == 0 ==> w.Weight(mu, ops) == w.WeightOf(mu, ops[0]) + w.Weight(mu, ops[1..]) && OpsDepth(ops[1..]) <= OpsDepth(ops)
    ensures i == |ops| - 1 ==>
              w.Weight(mu, ops) == w.Weight(mu, ops[..i]) + w.WeightOf(mu, ops[i]) && OpsDepth(ops[..i]) <= OpsDepth(ops)
  {
    SumAtLeast(mu, ops, i);
    DepthOfMember(ops, i);
    if i == |ops| - 1 {
      assert ops == ops[..i] + [ops[i]] && [ops[i]][1..] == [];
      SumAppend(mu, ops[..i], [ops[i]]);
      OpsDepthPrefix(ops, i);
    }
  }

  lemma {:induction false} OpsDepthPrefix(ops: seq<Op>, n: nat)
    requires n <= |ops|
    ensures OpsDepth(ops[..n]) <= OpsDepth(ops)
  {
    if n > 0 {
      assert ops[..n][1..] == ops[1..][..n - 1];
      OpsDepthPrefix(ops[1..], n - 1);
    }
  }

  /** The weight of two walked parts does not depend on which of them is redirected. */
  lemma JoinedWeight(w: Walk, mu: Op -> nat, a: seq<Op>, b: seq<Op>, s: Redirect)
    requires w.Bounded(mu)
    ensures w.Weight(mu, SubstOps(s, a) + b) == w.Weight(mu, a) + w.Weight(mu, b)
    ensures w.Weight(mu, a + SubstOps(s, b)) == w.Weight(mu, a) + w.Weight(mu, b)
  {
    SumAppend(mu, SubstOps(s, a), b);
    SumAppend(mu, a, SubstOps(s, b));
    if w.recursive {
      SumSubst(mu, s, a);
      SumSubst(mu, s, b);
    }
  }

  lemma RegionsWeight(w: Walk, mu: Op -> nat, op: Op, s: Redirect, regions: seq<Region>)
    requires w.Bounded(mu) && (w.recursive ==> NotHeavier(mu, regions, op.regions))
    ensures w.WeightOf(mu, SubstOp(s, op).(regions := regions)) <= w.WeightOf(mu, op)
  {
    if w.recursive {
      var op' := SubstOp(s, op);
      forall i, b | 0 <= i < |op.regions| && 0 <= b < |op.regions[i].blocks|
        ensures Sum(mu, op'.regions[i].blocks[b].ops) == Sum(mu, op.regions[i].blocks[b].ops)
      {
        assert op'.regions[i] == SubstRegion(s, op.regions[i]);
        assert op'.regions[i].blocks[b] == SubstBlock(s, op.regions[i].blocks[b]);
        SumSubst(mu, s, op.regions[i].blocks[b].ops);
      }
      assert forall i :: 0 <= i < |op.regions| ==> |op'.regions[i].blocks| == |op.regions[i].blocks|;
      assert NotHeavier(mu, regions, op'.regions);
    }
  }

  lemma RegionListWeight(w: Walk, mu: Op -> nat, regions: seq<Region>, first: Walked<seq<Block>>, rest: Walked<seq<Region>>)
    requires w.Bounded(mu) && regions != []
    requires BlocksNotHeavier(w, mu, first.what, regions[0].blocks)
    requires w.recursive ==> NotHeavier(mu, rest.what, SubstRegions(first.s, regions[1..]))
    ensures w.recursive ==> NotHeavier(mu, ThenRegions(first, rest).what, regions)
  {
    if w.recursive {
      var all := [SubstRegion(rest.s, Region(first.what))] + rest.what;
      forall i | 0 <= i < |all|
        ensures |all[i].blocks| == |regions[i].blocks|
        ensures forall b :: 0 <= b < |all[i].blocks| ==> Sum(mu, all[i].blocks[b].ops) <= Sum(mu, regions[i].blocks[b].ops)
      {
        if i == 0 {
          forall b | 0 <= b < |all[0].blocks| ensures Sum(mu, all[0].blocks[b].ops) <= Sum(mu, regions[0].blocks[b].ops) {
            assert all[0].blocks[b] == SubstBlock(rest.s, first.what[b]);
            SumSubst(mu, rest.s, first.what[b].ops);
            assert w.Weight(mu, first.what[b].ops) <= w.Weight(mu, regions[0].blocks[b].ops);
          }
        } else {
          var was := SubstRegions(first.s, regions[1..])[i - 1];
          assert was == SubstRegion(first.s, regions[i]) && all[i] == rest.what[i - 1];
          forall b | 0 <= b < |all[i].blocks| ensures Sum(mu, all[i].blocks[b].ops) <= Sum(mu, regions[i].blocks[b].ops) {
            assert was.blocks[b] == SubstBlock(first.s, regions[i].blocks[b]);
            SumSubst(mu, first.s, regions[i].blocks[b].ops);
          }
        }
      }
    }
  }

  lemma DepthsWithin(ops: seq<Op>, depth: nat)
    requires OpsDepth(ops) <= depth
    ensures forall k :: 0 <= k < |ops| ==> Depth(ops[k]) <= depth
  {
    forall k | 0 <= k < |ops| ensures Depth(ops[k]) <= depth {
      DepthOfMember(ops, k);
    }
  }

  // ----- the order of the log -----

  function Range(from: nat, n: nat): (r: seq<nat>)
    ensures |r| == n
  {
    seq(n, k requires 0 <= k < n => from + k)
  }

  /** Where the insertions after the operation stand, in the order of the calls: the last one comes first in the block. */
  function ChunkOrder(sizes: seq<nat>, from: nat): seq<nat>
  {
    if sizes == [] then []
    else
      var n := |sizes| - 1;
      ChunkOrder(sizes[..n], from + sizes[n]) + Range(from, sizes[n])
  }

  function Sizes(chunks: seq<seq<Op>>): (r: seq<nat>)
    ensures |r| == |chunks|
  {
    seq(|chunks|, i requires 0 <= i < |chunks| => |chunks[i]|)
  }

  /** The positions of what a pattern left, in the order in which it logged them. */
  function LogOrder(rw: Rewrite): seq<nat>
  {
    OrderOf(|rw.before| + (if rw.erased then 0 else 1), Sizes(rw.afterCalls))
  }

  function OrderOf(n: nat, afterSizes: seq<nat>): seq<nat>
  {
    Range(0, n) + ChunkOrder(afterSizes, n)
  }

  lemma {:induction false} ChunkOrderFits(chunks: seq<seq<Op>>, from: nat)
    ensures var order := ChunkOrder(Sizes(chunks), from);
            Distinct(order) && forall k: nat :: k in order <==> from <= k < from + |ConcatReversed(chunks)|
  {
    if chunks != [] {
      var n := |chunks| - 1;
      assert Sizes(chunks)[..n] == Sizes(chunks[..n]) && Sizes(chunks)[n] == |chunks[n]|;
      assert |ConcatReversed(chunks)| == |chunks[n]| + |ConcatReversed(chunks[..n])|;
      assert ChunkOrder(Sizes(chunks), from)
          == ChunkOrder(Sizes(chunks[..n]), from + |chunks[n]|) + Range(from, |chunks[n]|);
      ChunkOrderFits(chunks[..n], from + |chunks[n]|);
      RangeFits(from, |chunks[n]|);
      DistinctJoined(ChunkOrder(Sizes(chunks[..n]), from + |chunks[n]|), Range(from, |chunks[n]|));
    }
  }

  lemma {:induction false} RangeFits(from: nat, n: nat)
    ensures Distinct(Range(from, n)) && forall k: nat :: k in Range(from, n) <==> from <= k < from + n
    decreases n
  {
    var r := Range(from, n);
    if n > 0 {
      RangeFits(from + 1, n - 1);
      assert r[1..] == Range(from + 1, n - 1);
      assert r == [from] + r[1..];
    }
  }

  lemma {:induction false} DistinctJoined(a: seq<nat>, b: seq<nat>)
    requires Distinct(a) && Distinct(b) && forall v :: v in a ==> v !in b
    ensures Distinct(a + b)
  {
    if a == [] {
      assert a + b == b;
    } else {
      assert (a + b)[0] == a[0] && (a + b)[1..] == a[1..] + b;
      assert a == [a[0]] + a[1..];
      DistinctJoined(a[1..], b);
    }
  }

  lemma LogOrderFits(rw: Rewrite)
    ensures Distinct(LogOrder(rw)) && forall k: nat :: k in LogOrder(rw) <==> k < |rw.Affected()|
  {
    assert |rw.Affected()| == |rw.before| + (if rw.erased then 0 else 1) + |ConcatReversed(rw.afterCalls)|;
    var n := |rw.before| + (if rw.erased then 0 else 1);
    RangeFits(0, n);
    ChunkOrderFits(rw.afterCalls, n);
    DistinctJoined(Range(0, n), ChunkOrder(Sizes(rw.afterCalls), n));
  }
}
