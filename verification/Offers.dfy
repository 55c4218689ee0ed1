/**
 The operations of a block that a walk offers to the pattern, as they stand by then.
 */
module Offers {
  import opened Ir
  import opened Substitution
  import opened PatternRewriters
  import opened Measures
  import opened Walks

  /** What the walk of a block offers at the level of the block, in order. */
  ghost function Offered(w: Walk, reverse: bool, mu: Op -> nat, ops: seq<Op>): seq<Op>
    requires w.Bounded(mu)
    decreases w.Weight(mu, ops), 1, |ops|
  {
    if ops == [] then []
    else
      UnfoldOps(w, reverse, mu, ops);
      var x := FirstOf(reverse, ops);
      OfferedFor(w, reverse, mu, x) + Offered(w, reverse, mu, SubstOps(WalkOp(w, reverse, mu, x).s, OthersOf(reverse, ops)))
  }

  /** The operation itself and, if the walk goes again over what an action leaves, what it offers of that. */
  ghost function OfferedFor(w: Walk, reverse: bool, mu: Op -> nat, op: Op): seq<Op>
    requires w.Bounded(mu)
    decreases w.WeightOf(mu, op), 0, 0
  {
    var ready := Ready(w, reverse, mu, op);
    if w.recursive && Acts(w.pattern, ready.what) then
      VisitBounded(w, mu, ready);
      [ready.what] + Offered(w, reverse, mu, Visited(w.pattern, ready).what)
    else [ready.what]
  }

  lemma OfferedOne(w: Walk, reverse: bool, mu: Op -> nat, op: Op)
    requires w.Bounded(mu)
    ensures Offered(w, reverse, mu, [op]) == OfferedFor(w, reverse, mu, op)
  {
    var s := WalkOp(w, reverse, mu, op).s;
    assert FirstOf(reverse, [op]) == op && OthersOf(reverse, [op]) == [] && SubstOps(s, []) == [];
  }

  lemma {:induction false} OfferedAppendForward(w: Walk, mu: Op -> nat, a: seq<Op>, b: seq<Op>)
    requires w.Bounded(mu)
    ensures Offered(w, false, mu, a + b) == Offered(w, false, mu, a) + Offered(w, false, mu, SubstOps(WalkOps(w, false, mu, a).s, b))
    decreases |a|
  {
    if a == [] {
      assert a + b == b;
      SubstNothing(b);
    } else {
      var first := WalkOp(w, false, mu, a[0]);
      var a', b' := SubstOps(first.s, a[1..]), SubstOps(first.s, b);
      assert (a + b)[0] == a[0] && (a + b)[1..] == a[1..] + b;
      SubstOpsAppend(first.s, a[1..], b);
      OfferedAppendForward(w, mu, a', b');
      FirstFirst(w, mu, a[0], a[1..]);
      assert a == [a[0]] + a[1..];
      SubstOpsCompose(first.s, WalkOps(w, false, mu, a').s, b);
      AppendAssociative(OfferedFor(w, false, mu, a[0]), Offered(w, false, mu, a'),
                        Offered(w, false, mu, SubstOps(WalkOps(w, false, mu, a').s, b')));
    }
  }

  lemma LastOfBoth(a: seq<Op>, b: seq<Op>)
    requires b != []
    ensures OthersOf(true, a + b) == a + OthersOf(true, b) && FirstOf(true, a + b) == FirstOf(true, b)
  {
  }

  lemma {:induction false} OfferedAppendReverse(w: Walk, mu: Op -> nat, a: seq<Op>, b: seq<Op>)
    requires w.Bounded(mu)
    ensures Offered(w, true, mu, a + b) == Offered(w, true, mu, b) + Offered(w, true, mu, SubstOps(WalkOps(w, true, mu, b).s, a))
    decreases |b|
  {
    if b == [] {
      assert a + b == a;
      SubstNothing(a);
    } else {
      var init, x := b[..|b| - 1], b[|b| - 1];
      var last := WalkOp(w, true, mu, x);
      var a', b' := SubstOps(last.s, a), SubstOps(last.s, init);
      LastOfBoth(a, b);
      SubstOpsAppend(last.s, a, init);
      OfferedAppendReverse(w, mu, a', b');
      LastFirst(w, mu, init, x);
      BesideOthers(true, b);
      SubstOpsCompose(last.s, WalkOps(w, true, mu, b').s, a);
      AppendAssociative(OfferedFor(w, true, mu, x), Offered(w, true, mu, b'),
                        Offered(w, true, mu, SubstOps(WalkOps(w, true, mu, b').s, a')));
    }
  }

  // ----- without recursion -----

  /** Operation `k` as it is offered when the walk comes to it forwards: the walk in front of it has redirected it. */
  ghost function ForwardOffer(w: Walk, mu: Op -> nat, ops: seq<Op>, k: nat): Op
    requires w.Bounded(mu) && k < |ops|
  {
    Ready(w, false, mu, SubstOp(WalkOps(w, false, mu, ops[..k]).s, ops[k])).what
  }

  /** The same backwards: the walk behind it has redirected it. */
  ghost function ReverseOffer(w: Walk, mu: Op -> nat, ops: seq<Op>, k: nat): Op
    requires w.Bounded(mu) && k < |ops|
  {
    Ready(w, true, mu, SubstOp(WalkOps(w, true, mu, ops[k + 1..]).s, ops[k])).what
  }

  ghost function ForwardOffers(w: Walk, mu: Op -> nat, ops: seq<Op>): seq<Op>
    requires w.Bounded(mu)
  {
    seq(|ops|, k requires 0 <= k < |ops| => ForwardOffer(w, mu, ops, k))
  }

  ghost function ReverseOffers(w: Walk, mu: Op -> nat, ops: seq<Op>): seq<Op>
    requires w.Bounded(mu)
  {
    seq(|ops|, k requires 0 <= k < |ops| => ReverseOffer(w, mu, ops, |ops| - 1 - k))
  }

  lemma ForwardOffersSplit(w: Walk, mu: Op -> nat, init: seq<Op>, x: Op)
    requires w.Bounded(mu)
    ensures ForwardOffers(w, mu, init + [x])
         == ForwardOffers(w, mu, init) + [Ready(w, false, mu, SubstOp(WalkOps(w, false, mu, init).s, x)).what]
  {
    var ops := init + [x];
    assert ops[..|init|] == init;
    forall k | 0 <= k < |init| ensures ForwardOffer(w, mu, init, k) == ForwardOffer(w, mu, ops, k) {
      assert init[..k] == ops[..k];
    }
  }

  lemma OfferBehind(w: Walk, mu: Op -> nat, x: Op, tail: seq<Op>, k: nat)
    requires w.Bounded(mu) && k < |tail|
    ensures ReverseOffer(w, mu, tail, k) == ReverseOffer(w, mu, [x] + tail, k + 1)
  {
    assert ([x] + tail)[k + 2..] == tail[k + 1..];
  }

  lemma OfferFirst(w: Walk, mu: Op -> nat, x: Op, tail: seq<Op>)
    requires w.Bounded(mu)
    ensures ReverseOffer(w, mu, [x] + tail, 0) == Ready(w, true, mu, SubstOp(WalkOps(w, true, mu, tail).s, x)).what
  {
    assert ([x] + tail)[0 + 1..] == tail;
  }

  lemma ReverseOffersAt(w: Walk, mu: Op -> nat, ops: seq<Op>, k: nat)
    requires w.Bounded(mu) && k < |ops|
    ensures ReverseOffers(w, mu, ops)[k] == ReverseOffer(w, mu, ops, |ops| - 1 - k)
  {
  }

  lemma ReverseOffersSplit(w: Walk, mu: Op -> nat, x: Op, tail: seq<Op>)
    requires w.Bounded(mu)
    ensures ReverseOffers(w, mu, [x] + tail)
         == ReverseOffers(w, mu, tail) + [Ready(w, true, mu, SubstOp(WalkOps(w, true, mu, tail).s, x)).what]
  {
    var l, r := ReverseOffers(w, mu, [x] + tail), ReverseOffers(w, mu, tail);
    OfferFirst(w, mu, x, tail);
    ReverseOffersAt(w, mu, [x] + tail, |tail|);
    forall k | 0 <= k < |tail| ensures l[k] == r[k] {
      ReverseOffersAt(w, mu, [x] + tail, k);
      ReverseOffersAt(w, mu, tail, k);
      OfferBehind(w, mu, x, tail, |tail| - 1 - k);
    }
    SameUpTo(l, r, ReverseOffer(w, mu, [x] + tail, 0));
  }

  lemma SameUpTo(l: seq<Op>, r: seq<Op>, last: Op)
    requires |l| == |r| + 1 && l[|r|] == last && forall k :: 0 <= k < |r| ==> l[k] == r[k]
    ensures l == r + [last]
  {
  }

  lemma OfferedOnce(w: Walk, reverse: bool, mu: Op -> nat, s: Redirect, x: Op)
    requires w.Bounded(mu) && !w.recursive
    ensures Offered(w, reverse, mu, SubstOps(s, [x])) == [Ready(w, reverse, mu, SubstOp(s, x)).what]
  {
    assert SubstOps(s, [x]) == [SubstOp(s, x)];
    OfferedOne(w, reverse, mu, SubstOp(s, x));
  }

  /** Forwards, without recursion: each operation of the block once, in order, and no operation that the pattern added. */
  lemma {:induction false} OfferedForward(w: Walk, mu: Op -> nat, ops: seq<Op>)
    requires w.Bounded(mu) && !w.recursive
    ensures Offered(w, false, mu, ops) == ForwardOffers(w, mu, ops)
    decreases |ops|
  {
    if ops != [] {
      var init, x := ops[..|ops| - 1], ops[|ops| - 1];
      assert ops == init + [x];
      OfferedForward(w, mu, init);
      OfferedAppendForward(w, mu, init, [x]);
      OfferedOnce(w, false, mu, WalkOps(w, false, mu, init).s, x);
      ForwardOffersSplit(w, mu, init, x);
    }
  }

  /** Backwards, from the end. */
  lemma {:induction false} OfferedReverse(w: Walk, mu: Op -> nat, ops: seq<Op>)
    requires w.Bounded(mu) && !w.recursive
    ensures Offered(w, true, mu, ops) == ReverseOffers(w, mu, ops)
    decreases |ops|
  {
    if ops != [] {
      var x, tail := ops[0], ops[1..];
      assert ops == [x] + tail;
      OfferedReverse(w, mu, tail);
      OfferedAppendReverse(w, mu, [x], tail);
      OfferedOnce(w, true, mu, WalkOps(w, true, mu, tail).s, x);
      ReverseOffersSplit(w, mu, x, tail);
    }
  }

  // ----- every action answers an offer -----

  /** Whatever was offered and acted on is in the log of the walk. */
  lemma {:induction false} ActionsLogged(w: Walk, reverse: bool, mu: Op -> nat, ops: seq<Op>, op: Op)
    requires w.Bounded(mu) && op in Offered(w, reverse, mu, ops) && Acts(w.pattern, op)
    ensures VisitOf(w.pattern, op) in WalkOps(w, reverse, mu, ops).log
    decreases w.Weight(mu, ops), 1, |ops|
  {
    UnfoldOps(w, reverse, mu, ops);
    var x := FirstOf(reverse, ops);
    if op in OfferedFor(w, reverse, mu, x) {
      ActionsLoggedFor(w, reverse, mu, x, op);
    } else {
      ActionsLogged(w, reverse, mu, SubstOps(WalkOp(w, reverse, mu, x).s, OthersOf(reverse, ops)), op);
    }
  }

  lemma {:induction false} ActionsLoggedFor(w: Walk, reverse: bool, mu: Op -> nat, x: Op, op: Op)
    requires w.Bounded(mu) && op in OfferedFor(w, reverse, mu, x) && Acts(w.pattern, op)
    ensures VisitOf(w.pattern, op) in WalkOp(w, reverse, mu, x).log
    decreases w.WeightOf(mu, x), 0, 0
  {
    var ready := Ready(w, reverse, mu, x);
    if op != ready.what {
      VisitBounded(w, mu, ready);
      ActionsLogged(w, reverse, mu, Visited(w.pattern, ready).what, op);
    }
  }
}
