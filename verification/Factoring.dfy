/**
 A walk of a pattern that does not look at which values are used does what the walk without
 redirections does, with every use sent to the end of its replacements. So its direction does not
 matter.
 */
module Factoring {
  import opened Ir
  import opened Refinement
  import opened Substitution
  import opened PatternRewriters
  import opened Measures
  import opened Walks
  import opened Resolution
  import opened Directions

  // ----- names are used once -----

  /**
   The actions of a walk, after the values in `gone` gave way: no value gives way twice or is
   brought in again after it did, and no result gives way to a result of the same operation. In the
   program the first two hold because values are objects, and the third because it raises otherwise.
   */
  ghost predicate Proper(gone: set<Value>, log: seq<Visit>)
    decreases |log|
  {
    log == [] ||
      (log[0].clean && log[0].replaced !! gone && log[0].defined !! gone && Proper(gone + log[0].replaced, log[1..]))
  }

  ghost function Replaced(log: seq<Visit>): set<Value>
  {
    if log == [] then {} else log[0].replaced + Replaced(log[1..])
  }

  lemma {:induction false} ProperAppend(gone: set<Value>, a: seq<Visit>, b: seq<Visit>)
    ensures Proper(gone, a + b) <==> Proper(gone, a) && Proper(gone + Replaced(a), b)
    ensures Replaced(a + b) == Replaced(a) + Replaced(b)
    decreases |a|
  {
    if a == [] {
      assert a + b == b && gone + {} == gone;
    } else {
      assert (a + b)[0] == a[0] && (a + b)[1..] == a[1..] + b;
      ProperAppend(gone + a[0].replaced, a[1..], b);
      assert gone + a[0].replaced + Replaced(a[1..]) == gone + Replaced(a);
    }
  }

  // ----- what has been replaced so far -----

  /** From `e`, resolved by `g`, to `e'`, resolved by `g'`, by the actions in `log`. */
  ghost predicate Grown(e: Redirect, g: Redirect, e': Redirect, g': Redirect, entries: set<Entry>, log: seq<Visit>)
  {
    && Resolves(e, g) && Resolves(e', g')
    && e'.Items == e.Items + entries && e'.Keys == e.Keys + Replaced(log)
  }

  lemma GrownNothing(e: Redirect, g: Redirect)
    requires Resolves(e, g)
    ensures Grown(e, g, e, Compose(g, map[]), {}, [])
  {
    ComposeNothing(g);
  }

  /** Two walks in a row. */
  lemma GrownJoin(e: Redirect, g: Redirect, e1: Redirect, s: Redirect, e2: Redirect, t: Redirect,
                  a: set<Entry>, b: set<Entry>, l: seq<Visit>, m: seq<Visit>)
    requires Grown(e, g, e1, Compose(g, s), a, l) && Grown(e1, Compose(g, s), e2, Compose(Compose(g, s), t), b, m)
    ensures Grown(e, g, e2, Compose(g, Compose(s, t)), a + b, l + m)
  {
    ComposeAssociative(g, s, t);
    ProperAppend({}, l, m);
    UnionAssociative(e.Items, a, b);
    UnionAssociative(e.Keys, Replaced(l), Replaced(m));
  }

  lemma UnionAssociative<T>(a: set<T>, b: set<T>, c: set<T>)
    ensures a + b + c == a + (b + c)
  {
  }

  /** The second of two walks in a row is proper after the first. */
  lemma ProperAfter(e: Redirect, g: Redirect, e1: Redirect, g1: Redirect, a: set<Entry>, l: seq<Visit>, m: seq<Visit>)
    requires Grown(e, g, e1, g1, a, l) && Proper(e.Keys, l + m)
    ensures Proper(e.Keys, l) && Proper(e1.Keys, m)
  {
    ProperAppend(e.Keys, l, m);
  }

  lemma ProperFront(gone: set<Value>, l: seq<Visit>, m: seq<Visit>)
    requires Proper(gone, l + m)
    ensures Proper(gone, l)
  {
    ProperAppend(gone, l, m);
  }

  // ----- one action -----

  lemma ActsAlike(pattern: Pattern, g: Redirect, op: Op)
    requires Equivariant(pattern)
    ensures Acts(pattern, SubstOp(g, op)) <==> Acts(pattern, op)
  {
    assert EquivariantAt(pattern, g, op);
    assert CallsDefs([]) == {};
  }

  /** A clean replacement sends each result to its target, redirected or not. */
  lemma CleanTargets(g: Redirect, results: seq<Value>, targets: seq<Value>)
    requires |results| == |targets| && Distinct(results) && g.Keys !! Names(results)
    requires forall t :: t in SubstValues(g, targets) ==> t !in results
    ensures var r, s := Redirections(results, targets, |targets|), Redirections(results, SubstValues(g, targets), |targets|);
            && r.Keys == s.Keys == Names(results)
            && forall v :: v in r ==> s[v] == Target(g, r[v]) && s[v] !in s
  {
    assert forall v :: v in results <==> v in Names(results);
    forall j | 0 <= j < |targets| ensures targets[j] !in results {
      assert SubstValues(g, targets)[j] in SubstValues(g, targets);
    }
    AtOnce(results, targets);
    AtOnce(results, SubstValues(g, targets));
    var r, s := Redirections(results, targets, |targets|), Redirections(results, SubstValues(g, targets), |targets|);
    forall v | v in r ensures s[v] == Target(g, r[v]) && s[v] !in s {
      var j :| 0 <= j < |results| && results[j] == v;
      assert s[results[j]] == SubstValues(g, targets)[j] && r[results[j]] == targets[j];
    }
  }

  lemma AtOnce(results: seq<Value>, targets: seq<Value>)
    requires |results| == |targets| && Distinct(results) && forall t :: t in targets ==> t !in results
    ensures var r := Redirections(results, targets, |targets|);
            r.Keys == Names(results)
            && (forall j :: 0 <= j < |results| ==> r[results[j]] == targets[j])
            && (forall v :: v in r ==> r[v] !in r)
  {
    RedirectionsAtOnce(results, targets, |targets|);
    var r := Redirections(results, targets, |targets|);
    forall v | v in Names(results) ensures v in r {
      var j :| 0 <= j < |results| && results[j] == v;
    }
  }

  /** The rewrites of an operation and of the same operation redirected. */
  lemma RewrittenShifted(pattern: Pattern, g: Redirect, op: Op)
    requires LegalPattern(pattern) && Equivariant(pattern) && g.Keys !! CallsDefs(pattern(SubstOp(g, op)))
    ensures Shifted(g, Rewritten(pattern, op), Rewritten(pattern, SubstOp(g, op)))
  {
    assert EquivariantAt(pattern, g, op);
    PerformShifted(g, pattern(op), Start(op), Start(SubstOp(g, op)));
  }

  /** A redirection does not show in the order of the log. */
  lemma OrderShifted(g: Redirect, rw: Rewrite, rw': Rewrite)
    requires Shifted(g, rw, rw')
    ensures LogOrder(rw') == LogOrder(rw)
  {
    assert Sizes(rw'.afterCalls) == Sizes(rw.afterCalls);
  }

  /** One action: what it leaves is what the raw action leaves, sent to the end of all replacements. */
  lemma FactorVisit(pattern: Pattern, op: Op, e: Redirect, g: Redirect) returns (e': Redirect)
    requires LegalPattern(pattern) && Equivariant(pattern) && Resolves(e, g)
    requires Proper(e.Keys, [VisitOf(pattern, SubstOp(g, op))])
    ensures var rw, rw' := Rewritten(pattern, op), Rewritten(pattern, SubstOp(g, op));
            && Grown(e, g, e', Compose(g, rw'.Redirection()), rw.Redirection().Items, [VisitOf(pattern, SubstOp(g, op))])
            && rw'.Left() == SubstOps(Compose(g, rw'.Redirection()), rw.Affected())
            && LogOrder(rw') == LogOrder(rw)
  {
    var rw, rw' := Rewritten(pattern, op), Rewritten(pattern, SubstOp(g, op));
    var visit := VisitOf(pattern, SubstOp(g, op));
    RewrittenShifted(pattern, g, op);
    AffectedShifted(g, rw, rw');
    OrderShifted(g, rw, rw');
    SubstOpsCompose(g, rw'.Redirection(), rw.Affected());
    CleanTargets(g, rw.replaced, rw.targets);
    var r, s := rw.Redirection(), rw'.Redirection();
    ResolvesStep(e, g, r, s);
    ItemsJoin(e, r);
    e' := e + r;
    assert [visit][1..] == [] && Replaced([visit]) == visit.replaced + {};
  }

  // ----- whole walks -----

  /** The walk of `g` applied to a part, against the raw walk of the part. */
  ghost predicate FactoredOps(e: Redirect, g: Redirect, e': Redirect, r: Walked<seq<Op>>, raw: Raw<seq<Op>>)
  {
    Grown(e, g, e', Compose(g, r.s), raw.entries, r.log) && r.what == SubstOps(Compose(g, r.s), raw.what)
  }

  ghost predicate FactoredOp(e: Redirect, g: Redirect, e': Redirect, r: Walked<Op>, raw: Raw<Op>)
  {
    Grown(e, g, e', Compose(g, r.s), raw.entries, r.log) && r.what == SubstOp(Compose(g, r.s), raw.what)
  }

  ghost predicate FactoredBlocks(e: Redirect, g: Redirect, e': Redirect, r: Walked<seq<Block>>, raw: Raw<seq<Block>>)
  {
    Grown(e, g, e', Compose(g, r.s), raw.entries, r.log) && r.what == SubstBlocks(Compose(g, r.s), raw.what)
  }

  ghost predicate FactoredRegions(e: Redirect, g: Redirect, e': Redirect, r: Walked<seq<Region>>, raw: Raw<seq<Region>>)
  {
    Grown(e, g, e', Compose(g, r.s), raw.entries, r.log) && r.what == SubstRegions(Compose(g, r.s), raw.what)
  }

  /** Joining the factored parts of a list. */
  lemma JoinFactored(reverse: bool, e: Redirect, g: Redirect, e1: Redirect, first: Walked<seq<Op>>, raw1: Raw<seq<Op>>,
                     e2: Redirect, rest: Walked<seq<Op>>, raw2: Raw<seq<Op>>)
    requires FactoredOps(e, g, e1, first, raw1) && FactoredOps(e1, Compose(g, first.s), e2, rest, raw2)
    ensures FactoredOps(e, g, e2, Join(reverse, first, rest),
                        Raw(Beside(reverse, raw1.what, raw2.what), raw1.entries + raw2.entries))
  {
    GrownJoin(e, g, e1, first.s, e2, rest.s, raw1.entries, raw2.entries, first.log, rest.log);
    ComposeAssociative(g, first.s, rest.s);
    SubstOpsCompose(Compose(g, first.s), rest.s, raw1.what);
    var all := Compose(g, Compose(first.s, rest.s));
    SubstOpsAppend(all, raw1.what, raw2.what);
    SubstOpsAppend(all, raw2.what, raw1.what);
  }

  lemma {:induction false} FactorOps(w: Walk, reverse: bool, mu: Op -> nat, ops: seq<Op>, e: Redirect, g: Redirect)
    returns (e': Redirect)
    requires w.Bounded(mu) && Equivariant(w.pattern) && Resolves(e, g)
    requires Proper(e.Keys, WalkOps(w, reverse, mu, SubstOps(g, ops)).log)
    ensures FactoredOps(e, g, e', WalkOps(w, reverse, mu, SubstOps(g, ops)), RawOps(w, mu, ops))
    decreases w.Weight(mu, ops), OpsDepth(ops), 2, |ops|
  {
    if ops == [] {
      e' := e;
      GrownNothing(e, g);
    } else {
      var x, others := FirstOf(reverse, ops), OthersOf(reverse, ops);
      assert FirstOf(reverse, SubstOps(g, ops)) == SubstOp(g, x) && OthersOf(reverse, SubstOps(g, ops)) == SubstOps(g, others);
      PartsOf(w, mu, reverse, ops);
      UnfoldOps(w, reverse, mu, SubstOps(g, ops));
      var first := WalkOp(w, reverse, mu, SubstOp(g, x));
      SubstOpsCompose(g, first.s, others);
      var rest := WalkOps(w, reverse, mu, SubstOps(Compose(g, first.s), others));
      ProperFront(e.Keys, first.log, rest.log);
      var e1 := FactorOp(w, reverse, mu, x, e, g);
      ProperAfter(e, g, e1, Compose(g, first.s), RawOp(w, mu, x).entries, first.log, rest.log);
      e' := FactorOps(w, reverse, mu, others, e1, Compose(g, first.s));
      JoinFactored(reverse, e, g, e1, first, RawOp(w, mu, x), e', rest, RawOps(w, mu, others));
      RawBeside(w, reverse, mu, ops);
    }
  }

  lemma PartsOf(w: Walk, mu: Op -> nat, reverse: bool, ops: seq<Op>)
    requires w.Bounded(mu) && ops != []
    ensures var x, others := FirstOf(reverse, ops), OthersOf(reverse, ops);
            && w.WeightOf(mu, x) <= w.Weight(mu, ops) && Depth(x) <= OpsDepth(ops)
            && w.Weight(mu, others) <= w.Weight(mu, ops) && OpsDepth(others) <= OpsDepth(ops)
  {
    Parts(w, mu, ops, if reverse then |ops| - 1 else 0);
  }

  /** A finished walk, and a walk of what it left. */
  lemma AgainFactored(e: Redirect, g: Redirect, e1: Redirect, here: Walked<seq<Op>>, raw1: Raw<seq<Op>>,
                      e2: Redirect, rest: Walked<seq<Op>>, raw2: Raw<seq<Op>>)
    requires FactoredOps(e, g, e1, here, raw1) && FactoredOps(e1, Compose(g, here.s), e2, rest, raw2)
    ensures FactoredOps(e, g, e2, Again(here, rest), Raw(raw2.what, raw1.entries + raw2.entries))
  {
    GrownJoin(e, g, e1, here.s, e2, rest.s, raw1.entries, raw2.entries, here.log, rest.log);
    ComposeAssociative(g, here.s, rest.s);
  }

  ghost function RawReady(w: Walk, mu: Op -> nat, op: Op): Raw<Op>
    requires w.Bounded(mu)
  {
    if w.regionsFirst then RawRegions(w, mu, op) else Raw(op, {})
  }

  lemma FactorNothing(e: Redirect, g: Redirect, op: Op)
    requires Resolves(e, g)
    ensures FactoredOp(e, g, e, Walked(SubstOp(g, op), map[], []), Raw(op, {}))
  {
    GrownNothing(e, g);
    ComposeNothing(g);
  }

  /** An action, after whatever made the operation ready. */
  lemma FactorAction(w: Walk, e: Redirect, g: Redirect, e1: Redirect, ready: Walked<Op>, raw: Raw<Op>) returns (e': Redirect)
    requires LegalPattern(w.pattern) && Equivariant(w.pattern) && FactoredOp(e, g, e1, ready, raw)
    requires Proper(e.Keys, Visited(w.pattern, ready).log)
    ensures var rw := Rewritten(w.pattern, raw.what);
            && FactoredOps(e, g, e', Visited(w.pattern, ready), Raw(rw.Affected(), raw.entries + rw.Redirection().Items))
            && LogOrder(Rewritten(w.pattern, ready.what)) == LogOrder(rw)
  {
    var g1 := Compose(g, ready.s);
    var visit := [VisitOf(w.pattern, ready.what)];
    var rw, rw' := Rewritten(w.pattern, raw.what), Rewritten(w.pattern, ready.what);
    ProperAfter(e, g, e1, g1, raw.entries, ready.log, visit);
    e' := FactorVisit(w.pattern, raw.what, e1, g1);
    GrownJoin(e, g, e1, ready.s, e', rw'.Redirection(), raw.entries, rw.Redirection().Items, ready.log, visit);
    ComposeAssociative(g, ready.s, rw'.Redirection());
  }

  lemma {:induction false} FactorReady(w: Walk, reverse: bool, mu: Op -> nat, op: Op, e: Redirect, g: Redirect) returns (e': Redirect)
    requires w.Bounded(mu) && Equivariant(w.pattern) && Resolves(e, g)
    requires Proper(e.Keys, Ready(w, reverse, mu, SubstOp(g, op)).log)
    ensures FactoredOp(e, g, e', Ready(w, reverse, mu, SubstOp(g, op)), RawReady(w, mu, op))
    decreases w.WeightOf(mu, op), Depth(op), 0, 1
  {
    if w.regionsFirst {
      e' := FactorRegions(w, reverse, mu, op, e, g);
    } else {
      e' := e;
      FactorNothing(e, g, op);
    }
  }

  lemma {:induction false} FactorOp(w: Walk, reverse: bool, mu: Op -> nat, op: Op, e: Redirect, g: Redirect) returns (e': Redirect)
    requires w.Bounded(mu) && Equivariant(w.pattern) && Resolves(e, g)
    requires Proper(e.Keys, WalkOp(w, reverse, mu, SubstOp(g, op)).log)
    ensures FactoredOps(e, g, e', WalkOp(w, reverse, mu, SubstOp(g, op)), RawOp(w, mu, op))
    decreases w.WeightOf(mu, op), Depth(op), 1, 0
  {
    var ready, raw := Ready(w, reverse, mu, SubstOp(g, op)), RawReady(w, mu, op);
    if Acts(w.pattern, ready.what) {
      e' := FactorActing(w, reverse, mu, op, e, g);
    } else {
      var r := WalkRegions(w, reverse, mu, SubstOp(g, op));
      if w.regionsFirst {
        e' := FactorRegions(w, reverse, mu, op, e, g);
        ActsAlike(w.pattern, Compose(g, ready.s), raw.what);
      } else {
        ActsAlike(w.pattern, g, op);
        e' := FactorRegions(w, reverse, mu, op, e, g);
      }
      assert SubstOps(Compose(g, r.s), [RawRegions(w, mu, op).what]) == [r.what];
    }
  }

  lemma {:induction false} FactorActing(w: Walk, reverse: bool, mu: Op -> nat, op: Op, e: Redirect, g: Redirect) returns (e': Redirect)
    requires w.Bounded(mu) && Equivariant(w.pattern) && Resolves(e, g)
    requires Acts(w.pattern, Ready(w, reverse, mu, SubstOp(g, op)).what)
    requires Proper(e.Keys, WalkOp(w, reverse, mu, SubstOp(g, op)).log)
    ensures FactoredOps(e, g, e', WalkOp(w, reverse, mu, SubstOp(g, op)), RawOp(w, mu, op))
    decreases w.WeightOf(mu, op), Depth(op), 0, 4
  {
    var here, rest := Visited(w.pattern, Ready(w, reverse, mu, SubstOp(g, op))), FollowUp(w, reverse, mu, SubstOp(g, op));
    FollowUpIs(w, reverse, mu, SubstOp(g, op));
    ProperFront(e.Keys, here.log, rest.log);
    var e1 := FactorHere(w, reverse, mu, op, e, g);
    ProperAfter(e, g, e1, Compose(g, here.s), RawHere(w, mu, op).entries, here.log, rest.log);
    e' := FactorFollowUp(w, reverse, mu, op, g, e1);
    AgainFactored(e, g, e1, here, RawHere(w, mu, op), e', rest, RawFollowUp(w, mu, op));
    RawFollowUpIs(w, mu, op);
  }

  ghost function RawHere(w: Walk, mu: Op -> nat, op: Op): Raw<seq<Op>>
    requires w.Bounded(mu) && Acts(w.pattern, RawReady(w, mu, op).what)
  {
    var raw := RawReady(w, mu, op);
    var rw := Rewritten(w.pattern, raw.what);
    Raw(rw.Affected(), raw.entries + rw.Redirection().Items)
  }

  /** Up to and with the action. */
  lemma {:induction false} FactorHere(w: Walk, reverse: bool, mu: Op -> nat, op: Op, e: Redirect, g: Redirect) returns (e': Redirect)
    requires w.Bounded(mu) && Equivariant(w.pattern) && Resolves(e, g)
    requires Acts(w.pattern, Ready(w, reverse, mu, SubstOp(g, op)).what)
    requires Proper(e.Keys, Visited(w.pattern, Ready(w, reverse, mu, SubstOp(g, op))).log)
    ensures Acts(w.pattern, RawReady(w, mu, op).what)
    ensures FactoredOps(e, g, e', Visited(w.pattern, Ready(w, reverse, mu, SubstOp(g, op))), RawHere(w, mu, op))
    ensures LogOrder(Rewritten(w.pattern, Ready(w, reverse, mu, SubstOp(g, op)).what)) == LogOrder(Rewritten(w.pattern, RawReady(w, mu, op).what))
    decreases w.WeightOf(mu, op), Depth(op), 0, 2
  {
    var ready, raw := Ready(w, reverse, mu, SubstOp(g, op)), RawReady(w, mu, op);
    ProperFront(e.Keys, ready.log, [VisitOf(w.pattern, ready.what)]);
    var e0 := FactorReady(w, reverse, mu, op, e, g);
    ActsAlike(w.pattern, Compose(g, ready.s), raw.what);
    e' := FactorAction(w, e, g, e0, ready, raw);
  }

  /** What follows the action. */
  lemma {:induction false} FactorFollowUp(w: Walk, reverse: bool, mu: Op -> nat, op: Op, g: Redirect, e1: Redirect) returns (e': Redirect)
    requires w.Bounded(mu) && Equivariant(w.pattern)
    requires Acts(w.pattern, Ready(w, reverse, mu, SubstOp(g, op)).what) && Acts(w.pattern, RawReady(w, mu, op).what)
    requires var here := Visited(w.pattern, Ready(w, reverse, mu, SubstOp(g, op)));
             Resolves(e1, Compose(g, here.s)) && here.what == SubstOps(Compose(g, here.s), RawHere(w, mu, op).what)
    requires LogOrder(Rewritten(w.pattern, Ready(w, reverse, mu, SubstOp(g, op)).what)) == LogOrder(Rewritten(w.pattern, RawReady(w, mu, op).what))
    requires Proper(e1.Keys, FollowUp(w, reverse, mu, SubstOp(g, op)).log)
    ensures var here := Visited(w.pattern, Ready(w, reverse, mu, SubstOp(g, op)));
            FactoredOps(e1, Compose(g, here.s), e', FollowUp(w, reverse, mu, SubstOp(g, op)), RawFollowUp(w, mu, op))
    decreases w.WeightOf(mu, op), Depth(op), 0, 3
  {
    var here := Visited(w.pattern, Ready(w, reverse, mu, SubstOp(g, op)));
    var rw := Rewritten(w.pattern, RawReady(w, mu, op).what);
    ReadyWeight(w, mu, op);
    if w.recursive {
      e' := FactorOps(w, reverse, mu, rw.Affected(), e1, Compose(g, here.s));
    } else if w.regionsFirst {
      e' := e1;
      FactorRest(e1, Compose(g, here.s), rw.Affected());
    } else {
      VisitBounded(w, mu, Ready(w, reverse, mu, SubstOp(g, op)));
      DepthSubst(g, op);
      e' := FactorLogged(w, reverse, mu, op, e1, Compose(g, here.s), here.what);
    }
  }

  /** What the walk does with what an action left. */
  ghost function FollowUp(w: Walk, reverse: bool, mu: Op -> nat, op: Op): Walked<seq<Op>>
    requires w.Bounded(mu) && Acts(w.pattern, Ready(w, reverse, mu, op).what)
  {
    var ready := Ready(w, reverse, mu, op);
    var here := Visited(w.pattern, ready);
    if w.recursive then WalkOps(w, reverse, mu, here.what)
    else if w.regionsFirst then Walked(here.what, map[], [])
    else
      VisitBounded(w, mu, ready);
      WalkEach(w, reverse, mu, here.what, LogOrder(Rewritten(w.pattern, ready.what)), Depth(op))
  }

  lemma FollowUpIs(w: Walk, reverse: bool, mu: Op -> nat, op: Op)
    requires w.Bounded(mu) && Acts(w.pattern, Ready(w, reverse, mu, op).what)
    ensures WalkOp(w, reverse, mu, op) == Again(Visited(w.pattern, Ready(w, reverse, mu, op)), FollowUp(w, reverse, mu, op))
  {
    ComposeNothing(Visited(w.pattern, Ready(w, reverse, mu, op)).s);
  }

  ghost function RawFollowUp(w: Walk, mu: Op -> nat, op: Op): Raw<seq<Op>>
    requires w.Bounded(mu) && Acts(w.pattern, RawReady(w, mu, op).what)
  {
    var affected := Rewritten(w.pattern, RawReady(w, mu, op).what).Affected();
    if w.recursive then RawOps(w, mu, affected)
    else if w.regionsFirst then Raw(affected, {})
    else
      DepthsWithin(affected, Depth(op));
      RawEach(w, mu, affected, Depth(op))
  }

  lemma RawFollowUpIs(w: Walk, mu: Op -> nat, op: Op)
    requires w.Bounded(mu) && Acts(w.pattern, RawReady(w, mu, op).what)
    ensures var raw, rest := RawReady(w, mu, op), RawFollowUp(w, mu, op);
            RawOp(w, mu, op) == Raw(rest.what, raw.entries + Rewritten(w.pattern, raw.what).Redirection().Items + rest.entries)
  {
    var raw := RawReady(w, mu, op);
    var due := raw.entries + Rewritten(w.pattern, raw.what).Redirection().Items;
    assert due + {} == due;
  }

  lemma FactorRest(e: Redirect, g: Redirect, ops: seq<Op>)
    requires Resolves(e, g)
    ensures FactoredOps(e, g, e, Walked(SubstOps(g, ops), map[], []), Raw(ops, {}))
  {
    GrownNothing(e, g);
    ComposeNothing(g);
  }

  /** What an action leaves is lighter than the operation. */
  lemma ReadyWeight(w: Walk, mu: Op -> nat, op: Op)
    requires w.Bounded(mu) && Acts(w.pattern, RawReady(w, mu, op).what)
    ensures w.recursive ==> Sum(mu, Rewritten(w.pattern, RawReady(w, mu, op).what).Affected()) < mu(op)
  {
  }

  lemma {:induction false} FactorLogged(w: Walk, reverse: bool, mu: Op -> nat, op: Op, e: Redirect, g: Redirect, left: seq<Op>)
    returns (e': Redirect)
    requires w.Bounded(mu) && Equivariant(w.pattern) && !w.recursive && !w.regionsFirst && Resolves(e, g)
    requires Acts(w.pattern, op)
    requires var rw := Rewritten(w.pattern, op);
             left == SubstOps(g, rw.Affected())
             && Distinct(LogOrder(rw)) && (forall k :: k in LogOrder(rw) ==> k < |left| && Depth(left[k]) <= Depth(op))
             && Proper(e.Keys, WalkEach(w, reverse, mu, left, LogOrder(rw), Depth(op)).log)
    ensures FactoredOps(e, g, e', WalkEach(w, reverse, mu, left, LogOrder(Rewritten(w.pattern, op)), Depth(op)), RawFollowUp(w, mu, op))
    decreases 0, Depth(op), 0, 2
  {
    var rw := Rewritten(w.pattern, op);
    var ops := rw.Affected();
    DepthsWithin(ops, Depth(op));
    LogOrderFits(rw);
    e' := FactorEach(w, reverse, mu, ops, LogOrder(rw), Depth(op), e, g);
    AllDone(w, mu, ops, LogOrder(rw), Depth(op));
  }

  /** The regions of the listed operations walked, raw. */
  ghost function EachDone(w: Walk, mu: Op -> nat, ops: seq<Op>, order: seq<nat>): Raw<seq<Op>>
    requires w.Bounded(mu)
  {
    Raw(seq(|ops|, k requires 0 <= k < |ops| => if k in order then RawRegions(w, mu, ops[k]).what else ops[k]),
        set k, p | 0 <= k < |ops| && k in order && p in RawRegions(w, mu, ops[k]).entries :: p)
  }

  lemma AllDone(w: Walk, mu: Op -> nat, ops: seq<Op>, order: seq<nat>, depth: nat)
    requires w.Bounded(mu) && !w.recursive && (forall k :: 0 <= k < |ops| ==> Depth(ops[k]) <= depth && k in order)
    ensures EachDone(w, mu, ops, order) == RawEach(w, mu, ops, depth)
  {
    assert EachDone(w, mu, ops, order).what == RawEach(w, mu, ops, depth).what;
  }

  lemma EachDoneStep(w: Walk, mu: Op -> nat, ops: seq<Op>, order: seq<nat>)
    requires w.Bounded(mu) && order != [] && Distinct(order) && forall k :: k in order ==> k < |ops|
    ensures order[0] in order
    ensures var r := RawRegions(w, mu, ops[order[0]]);
            var next := EachDone(w, mu, ops[order[0] := r.what], order[1..]);
            EachDone(w, mu, ops, order) == Raw(next.what, r.entries + next.entries)
  {
    assert order[0] in order && order == [order[0]] + order[1..];
    var k0 := order[0];
    var r := RawRegions(w, mu, ops[k0]);
    var l, next := EachDone(w, mu, ops, order), EachDone(w, mu, ops[k0 := r.what], order[1..]);
    assert l.what == next.what;
    forall p | p in l.entries ensures p in r.entries + next.entries {
      var k :| 0 <= k < |ops| && k in order && p in RawRegions(w, mu, ops[k]).entries;
      if k != k0 {
        assert k in order[1..] && ops[k0 := r.what][k] == ops[k];
      }
    }
    forall p | p in r.entries + next.entries ensures p in l.entries {
      if p in next.entries {
        var k :| 0 <= k < |ops| && k in order[1..] && p in RawRegions(w, mu, ops[k0 := r.what][k]).entries;
        assert k in order && k != k0;
      } else {
        assert k0 in order;
      }
    }
  }

  lemma {:induction false} FactorEach(w: Walk, reverse: bool, mu: Op -> nat, ops: seq<Op>, order: seq<nat>, depth: nat,
                                      e: Redirect, g: Redirect) returns (e': Redirect)
    requires w.Bounded(mu) && Equivariant(w.pattern) && !w.recursive && Resolves(e, g)
    requires Distinct(order) && (forall k :: k in order ==> k < |ops| && Depth(ops[k]) <= depth)
    requires forall k :: k in order ==> Depth(SubstOps(g, ops)[k]) <= depth
    requires Proper(e.Keys, WalkEach(w, reverse, mu, SubstOps(g, ops), order, depth).log)
    ensures FactoredOps(e, g, e', WalkEach(w, reverse, mu, SubstOps(g, ops), order, depth), EachDone(w, mu, ops, order))
    decreases 0, depth, 0, 1, |order|
  {
    if order == [] {
      e' := e;
      FactorRest(e, g, ops);
      assert EachDone(w, mu, ops, order) == Raw(ops, {}) by {
        assert EachDone(w, mu, ops, order).what == ops;
      }
    } else {
      var k := order[0];
      EachDoneStep(w, mu, ops, order);
      var first := WalkRegions(w, reverse, mu, SubstOp(g, ops[k]));
      var raw := RawRegions(w, mu, ops[k]);
      var g1, next := Compose(g, first.s), ops[k := raw.what];
      EachUnfolds(w, reverse, mu, SubstOps(g, ops), order, depth);
      var edited := SubstOps(first.s, SubstOps(g, ops))[k := first.what];
      var rest := WalkEach(w, reverse, mu, edited, order[1..], depth);
      ProperFront(e.Keys, first.log, rest.log);
      var e1 := FactorRegions(w, reverse, mu, ops[k], e, g);
      EditedAlike(g, first, ops, k, raw.what);
      ProperAfter(e, g, e1, g1, raw.entries, first.log, rest.log);
      OthersFit(ops, order, raw.what, depth);
      e' := FactorEach(w, reverse, mu, next, order[1..], depth, e1, g1);
      JoinEach(e, g, e1, first, raw.what, raw.entries, edited, e', rest, EachDone(w, mu, next, order[1..]));
    }
  }

  lemma EditedAlike(g: Redirect, first: Walked<Op>, ops: seq<Op>, k: nat, raw: Op)
    requires k < |ops| && first.what == SubstOp(Compose(g, first.s), raw)
    ensures SubstOps(first.s, SubstOps(g, ops))[k := first.what] == SubstOps(Compose(g, first.s), ops[k := raw])
  {
    SubstOpsCompose(g, first.s, ops);
  }

  lemma OthersFit(ops: seq<Op>, order: seq<nat>, op: Op, depth: nat)
    requires Distinct(order) && order != [] && forall k :: k in order ==> k < |ops| && Depth(ops[k]) <= depth
    ensures order[0] in order && Distinct(order[1..])
    ensures forall j :: j in order[1..] ==> j < |ops| && Depth(ops[order[0] := op][j]) <= depth
  {
    assert order[0] in order;
    forall j | j in order[1..] ensures j < |ops| && Depth(ops[order[0] := op][j]) <= depth {
      assert j in order && j != order[0];
    }
  }

  lemma JoinEach(e: Redirect, g: Redirect, e1: Redirect, first: Walked<Op>, raw: Op, entries: set<Entry>, edited: seq<Op>,
                 e2: Redirect, rest: Walked<seq<Op>>, done: Raw<seq<Op>>)
    requires FactoredOp(e, g, e1, first, Raw(raw, entries)) && FactoredOps(e1, Compose(g, first.s), e2, rest, done)
    ensures FactoredOps(e, g, e2, Again(Walked(edited, first.s, first.log), rest), Raw(done.what, entries + done.entries))
  {
    GrownJoin(e, g, e1, first.s, e2, rest.s, entries, done.entries, first.log, rest.log);
    ComposeAssociative(g, first.s, rest.s);
  }

  lemma EachUnfolds(w: Walk, reverse: bool, mu: Op -> nat, ops: seq<Op>, order: seq<nat>, depth: nat)
    requires w.Bounded(mu) && !w.recursive && order != [] && Distinct(order)
    requires forall k :: k in order ==> k < |ops| && Depth(ops[k]) <= depth
    ensures order[0] in order
    ensures var first := WalkRegions(w, reverse, mu, ops[order[0]]);
            var edited := SubstOps(first.s, ops)[order[0] := first.what];
            && Distinct(order[1..]) && (forall j :: j in order[1..] ==> j < |edited| && Depth(edited[j]) <= depth)
            && WalkEach(w, reverse, mu, ops, order, depth)
               == Again(Walked(edited, first.s, first.log), WalkEach(w, reverse, mu, edited, order[1..], depth))
  {
    assert order[0] in order;
    var first := WalkRegions(w, reverse, mu, ops[order[0]]);
    var edited := SubstOps(first.s, ops)[order[0] := first.what];
    forall j | j in order[1..] ensures j < |edited| && Depth(edited[j]) <= depth {
      assert j in order && j != order[0];
      DepthSubst(first.s, ops[j]);
    }
  }

  // ----- regions -----

  lemma {:induction false} FactorRegions(w: Walk, reverse: bool, mu: Op -> nat, op: Op, e: Redirect, g: Redirect) returns (e': Redirect)
    requires w.Bounded(mu) && Equivariant(w.pattern) && Resolves(e, g)
    requires Proper(e.Keys, WalkRegions(w, reverse, mu, SubstOp(g, op)).log)
    ensures FactoredOp(e, g, e', WalkRegions(w, reverse, mu, SubstOp(g, op)), RawRegions(w, mu, op))
    decreases w.WeightOf(mu, op), Depth(op), 0, 0
  {
    var weight, depth := RegionsParts(w, reverse, mu, op, g);
    e' := FactorRegionList(w, reverse, mu, op.regions, weight, depth, e, g);
    var r := WalkRegionList(w, reverse, mu, SubstRegions(g, op.regions), weight, depth);
    PutBack(e, g, e', op, r, RawRegionList(w, mu, op.regions, weight, depth));
  }

  /** Both walks of what is inside an operation. */
  lemma RegionsParts(w: Walk, reverse: bool, mu: Op -> nat, op: Op, g: Redirect) returns (weight: nat, depth: nat)
    requires w.Bounded(mu)
    ensures weight == w.WeightOf(mu, op) && depth == Depth(op) - 1
    ensures Within(w, mu, op.regions, weight, depth) && Within(w, mu, SubstRegions(g, op.regions), weight, depth)
    ensures var r := WalkRegionList(w, reverse, mu, SubstRegions(g, op.regions), weight, depth);
            WalkRegions(w, reverse, mu, SubstOp(g, op)) == Walked(SubstOp(r.s, SubstOp(g, op)).(regions := r.what), r.s, r.log)
    ensures var raw := RawRegionList(w, mu, op.regions, weight, depth);
            RawRegions(w, mu, op) == Raw(op.(regions := raw.what), raw.entries)
  {
    OpSubst(w, mu, g, op);
    weight, depth := RegionsOfIs(w, reverse, mu, SubstOp(g, op));
    UnfoldRegions(w, reverse, mu, SubstOp(g, op));
  }

  lemma PutBack(e: Redirect, g: Redirect, e': Redirect, op: Op, r: Walked<seq<Region>>, raw: Raw<seq<Region>>)
    requires FactoredRegions(e, g, e', r, raw)
    ensures FactoredOp(e, g, e', Walked(SubstOp(r.s, SubstOp(g, op)).(regions := r.what), r.s, r.log),
                       Raw(op.(regions := raw.what), raw.entries))
  {
    RegionsBack(g, op, r.s, raw.what);
  }

  /** Putting walked regions back into the operation. */
  lemma RegionsBack(g: Redirect, op: Op, s: Redirect, regions: seq<Region>)
    ensures SubstOp(s, SubstOp(g, op)).(regions := SubstRegions(Compose(g, s), regions))
         == SubstOp(Compose(g, s), op.(regions := regions))
  {
    SubstOpCompose(g, s, op);
    assert SubstOp(Compose(g, s), op.(regions := regions)).regions == SubstRegions(Compose(g, s), regions);
  }

  lemma OpSubst(w: Walk, mu: Op -> nat, g: Redirect, op: Op)
    requires w.Bounded(mu)
    ensures w.WeightOf(mu, SubstOp(g, op)) == w.WeightOf(mu, op) && Depth(SubstOp(g, op)) == Depth(op)
    ensures SubstOp(g, op).regions == SubstRegions(g, op.regions)
    ensures Depth(op) >= 1 && Within(w, mu, op.regions, w.WeightOf(mu, op), Depth(op) - 1)
  {
    DepthSubst(g, op);
    WithinOp(w, mu, op);
  }

  lemma {:induction false} FactorRegionList(w: Walk, reverse: bool, mu: Op -> nat, regions: seq<Region>, weight: nat, depth: nat,
                                            e: Redirect, g: Redirect) returns (e': Redirect)
    requires w.Bounded(mu) && Equivariant(w.pattern) && Resolves(e, g)
    requires Within(w, mu, regions, weight, depth) && Within(w, mu, SubstRegions(g, regions), weight, depth)
    requires Proper(e.Keys, WalkRegionList(w, reverse, mu, SubstRegions(g, regions), weight, depth).log)
    ensures FactoredRegions(e, g, e', WalkRegionList(w, reverse, mu, SubstRegions(g, regions), weight, depth),
                            RawRegionList(w, mu, regions, weight, depth))
    decreases weight, depth, 4, |regions|
  {
    if regions == [] {
      e' := e;
      GrownNothing(e, g);
    } else {
      RegionListParts(w, reverse, mu, regions, weight, depth, g);
      var first := WalkBlocks(w, reverse, mu, SubstBlocks(g, regions[0].blocks), weight, depth);
      var rest := WalkRegionList(w, reverse, mu, SubstRegions(Compose(g, first.s), regions[1..]), weight, depth);
      var raw1, raw2 := RawBlocks(w, mu, regions[0].blocks, weight, depth), RawRegionList(w, mu, regions[1..], weight, depth);
      ProperFront(e.Keys, first.log, rest.log);
      var e1 := FactorBlocks(w, reverse, mu, regions[0].blocks, weight, depth, e, g);
      ProperAfter(e, g, e1, Compose(g, first.s), raw1.entries, first.log, rest.log);
      e' := FactorRegionList(w, reverse, mu, regions[1..], weight, depth, e1, Compose(g, first.s));
      JoinFactoredRegions(e, g, e1, first, raw1, e', rest, raw2);
    }
  }

  /** Both walks, unfolded. */
  lemma RegionListParts(w: Walk, reverse: bool, mu: Op -> nat, regions: seq<Region>, weight: nat, depth: nat, g: Redirect)
    requires w.Bounded(mu) && regions != []
    requires Within(w, mu, regions, weight, depth) && Within(w, mu, SubstRegions(g, regions), weight, depth)
    ensures BlocksWithin(w, mu, regions[0].blocks, weight, depth)
    ensures BlocksWithin(w, mu, SubstBlocks(g, regions[0].blocks), weight, depth)
    ensures Within(w, mu, regions[1..], weight, depth)
    ensures var first := WalkBlocks(w, reverse, mu, SubstBlocks(g, regions[0].blocks), weight, depth);
            var others := SubstRegions(Compose(g, first.s), regions[1..]);
            && Within(w, mu, others, weight, depth)
            && WalkRegionList(w, reverse, mu, SubstRegions(g, regions), weight, depth)
               == ThenRegions(first, WalkRegionList(w, reverse, mu, others, weight, depth))
    ensures var raw1, raw2 := RawBlocks(w, mu, regions[0].blocks, weight, depth), RawRegionList(w, mu, regions[1..], weight, depth);
            RawRegionList(w, mu, regions, weight, depth) == Raw([Region(raw1.what)] + raw2.what, raw1.entries + raw2.entries)
  {
    UnfoldRegionList(w, reverse, mu, SubstRegions(g, regions), weight, depth);
    assert SubstRegions(g, regions)[0].blocks == SubstBlocks(g, regions[0].blocks);
    assert SubstRegions(g, regions)[1..] == SubstRegions(g, regions[1..]);
    var first := WalkBlocks(w, reverse, mu, SubstBlocks(g, regions[0].blocks), weight, depth);
    SubstRegionsCompose(g, first.s, regions[1..]);
  }

  lemma JoinFactoredRegions(e: Redirect, g: Redirect, e1: Redirect, first: Walked<seq<Block>>, raw1: Raw<seq<Block>>,
                            e2: Redirect, rest: Walked<seq<Region>>, raw2: Raw<seq<Region>>)
    requires FactoredBlocks(e, g, e1, first, raw1) && FactoredRegions(e1, Compose(g, first.s), e2, rest, raw2)
    ensures FactoredRegions(e, g, e2, ThenRegions(first, rest), Raw([Region(raw1.what)] + raw2.what, raw1.entries + raw2.entries))
  {
    GrownJoin(e, g, e1, first.s, e2, rest.s, raw1.entries, raw2.entries, first.log, rest.log);
    ComposeAssociative(g, first.s, rest.s);
    var all := Compose(g, Compose(first.s, rest.s));
    SubstBlocksCompose(Compose(g, first.s), rest.s, raw1.what);
    assert SubstRegion(rest.s, Region(first.what)).blocks == SubstBlocks(rest.s, first.what);
    assert SubstRegion(all, Region(raw1.what)).blocks == SubstBlocks(all, raw1.what);
    assert SubstRegions(all, [Region(raw1.what)] + raw2.what) == [SubstRegion(all, Region(raw1.what))] + SubstRegions(all, raw2.what);
  }

  lemma JoinFactoredBlocks(reverse: bool, args: seq<Value>, e: Redirect, g: Redirect, e1: Redirect, first: Walked<seq<Op>>, raw1: Raw<seq<Op>>,
                           e2: Redirect, rest: Walked<seq<Block>>, raw2: Raw<seq<Block>>)
    requires FactoredOps(e, g, e1, first, raw1) && FactoredBlocks(e1, Compose(g, first.s), e2, rest, raw2)
    ensures FactoredBlocks(e, g, e2, JoinBlocks(reverse, first, args, rest),
                           Raw(Beside(reverse, [Block(args, raw1.what)], raw2.what), raw1.entries + raw2.entries))
  {
    GrownJoin(e, g, e1, first.s, e2, rest.s, raw1.entries, raw2.entries, first.log, rest.log);
    ComposeAssociative(g, first.s, rest.s);
    var all := Compose(g, Compose(first.s, rest.s));
    SubstOpsCompose(Compose(g, first.s), rest.s, raw1.what);
    assert SubstBlocks(all, [Block(args, raw1.what)] + raw2.what) == [Block(args, SubstOps(all, raw1.what))] + SubstBlocks(all, raw2.what);
    assert SubstBlocks(all, raw2.what + [Block(args, raw1.what)]) == SubstBlocks(all, raw2.what) + [Block(args, SubstOps(all, raw1.what))];
  }

  lemma {:induction false} FactorBlocks(w: Walk, reverse: bool, mu: Op -> nat, blocks: seq<Block>, weight: nat, depth: nat,
                                        e: Redirect, g: Redirect) returns (e': Redirect)
    requires w.Bounded(mu) && Equivariant(w.pattern) && Resolves(e, g)
    requires BlocksWithin(w, mu, blocks, weight, depth) && BlocksWithin(w, mu, SubstBlocks(g, blocks), weight, depth)
    requires Proper(e.Keys, WalkBlocks(w, reverse, mu, SubstBlocks(g, blocks), weight, depth).log)
    ensures FactoredBlocks(e, g, e', WalkBlocks(w, reverse, mu, SubstBlocks(g, blocks), weight, depth),
                           RawBlocks(w, mu, blocks, weight, depth))
    decreases weight, depth, 3, |blocks|
  {
    if blocks == [] {
      e' := e;
      GrownNothing(e, g);
    } else {
      var block, others := FirstOf(reverse, blocks), OthersOf(reverse, blocks);
      UnfoldBlocks(w, reverse, mu, SubstBlocks(g, blocks), weight, depth);
      assert FirstOf(reverse, SubstBlocks(g, blocks)) == SubstBlock(g, block);
      assert OthersOf(reverse, SubstBlocks(g, blocks)) == SubstBlocks(g, others);
      RawBlocksBeside(w, reverse, mu, blocks, weight, depth);
      var first := WalkOps(w, reverse, mu, SubstOps(g, block.ops));
      SubstBlocksCompose(g, first.s, others);
      var rest := WalkBlocks(w, reverse, mu, SubstBlocks(Compose(g, first.s), others), weight, depth);
      var raw1, raw2 := RawOps(w, mu, block.ops), RawBlocks(w, mu, others, weight, depth);
      ProperFront(e.Keys, first.log, rest.log);
      w.WeightSubst(mu, g, block.ops);
      var e1 := FactorOps(w, reverse, mu, block.ops, e, g);
      ProperAfter(e, g, e1, Compose(g, first.s), raw1.entries, first.log, rest.log);
      e' := FactorBlocks(w, reverse, mu, others, weight, depth, e1, Compose(g, first.s));
      JoinFactoredBlocks(reverse, block.args, e, g, e1, first, raw1, e', rest, raw2);
    }
  }

  // ----- directions -----

  /**
   A pattern that does not look at which values are used leaves the same block, and the same
   redirections for what is around it, in both directions, if names are used once in both.
   */
  lemma DirectionIrrelevant(w: Walk, mu: Op -> nat, ops: seq<Op>)
    requires w.Bounded(mu) && Equivariant(w.pattern)
    requires Proper({}, WalkOps(w, false, mu, ops).log) && Proper({}, WalkOps(w, true, mu, ops).log)
    ensures WalkOps(w, false, mu, ops).what == WalkOps(w, true, mu, ops).what
    ensures WalkOps(w, false, mu, ops).s == WalkOps(w, true, mu, ops).s
  {
    var e := FactoredWalk(w, false, mu, ops);
    var e' := FactoredWalk(w, true, mu, ops);
    SameItems(e, e');
    ResolvesUnique(e, WalkOps(w, false, mu, ops).s, WalkOps(w, true, mu, ops).s);
  }

  /** The walk leaves what the raw walk leaves, every use sent to the end of its replacements. */
  lemma FactoredWalk(w: Walk, reverse: bool, mu: Op -> nat, ops: seq<Op>) returns (e: Redirect)
    requires w.Bounded(mu) && Equivariant(w.pattern) && Proper({}, WalkOps(w, reverse, mu, ops).log)
    ensures var r, raw := WalkOps(w, reverse, mu, ops), RawOps(w, mu, ops);
            e.Items == raw.entries && Resolves(e, r.s) && r.what == SubstOps(r.s, raw.what)
  {
    ResolvesNothing();
    SubstNothing(ops);
    var none: Redirect := map[];
    assert none.Keys == {};
    e := FactorOps(w, reverse, mu, ops, none, none);
    ComposeNothing(WalkOps(w, reverse, mu, ops).s);
    assert none.Items + RawOps(w, mu, ops).entries == RawOps(w, mu, ops).entries;
  }
}
