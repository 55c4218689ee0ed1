/**
 Two terminating patterns whose walks leave a match behind: one looks inside operations that are
 visited too early, the other at which values are used. A third does neither.
 */
module WalkExamples {
  import opened Ir
  import opened Substitution
  import opened PatternRewriters
  import opened Measures
  import opened Walks
  import opened NormalForms
  import opened Factoring

  function One(code: Code): nat
  {
    1
  }

  /** Every action removes the operation. */
  ghost predicate OnlyRemoves(pattern: Pattern)
  {
    forall op :: OnlyRemovesAt(pattern, op)
  }

  ghost predicate OnlyRemovesAt(pattern: Pattern, op: Op)
  {
    pattern(op) == [] || pattern(op) == [EraseMatched]
    || exists target :: |op.results| == 1 && pattern(op) == [ReplaceMatched([], [target])]
  }

  lemma RemovesToNothing(pattern: Pattern, op: Op)
    requires OnlyRemovesAt(pattern, op)
    ensures Legal(pattern(op), Start(op))
    ensures Acts(pattern, op) ==> Rewritten(pattern, op).Affected() == [] && Rewritten(pattern, op).Left() == []
  {
    if Acts(pattern, op) {
      var call := pattern(op)[0];
      assert pattern(op) == [call] && [call][1..] == [];
      assert Legal([], Start(op).Do(call));
      assert Perform([call], Start(op)) == Perform([], Start(op).Do(call));
    }
  }

  /** Operations first, forwards or backwards, again over what an action leaves. */
  function OpsFirst(pattern: Pattern): Walk
  {
    Walk(pattern, false, true)
  }

  lemma RemovingTerminates(pattern: Pattern)
    requires OnlyRemoves(pattern)
    ensures OpsFirst(pattern).Bounded(Additive(One))
  {
    forall op ensures Legal(pattern(op), Start(op)) {
      assert OnlyRemovesAt(pattern, op);
      RemovesToNothing(pattern, op);
    }
    forall op | Acts(pattern, op) ensures Sum(Additive(One), Rewritten(pattern, op).Affected()) < Weigh(One, op) {
      assert OnlyRemovesAt(pattern, op);
      RemovesToNothing(pattern, op);
    }
    AdditiveMeasures(One, pattern);
  }

  lemma RemovedWhereItActs(pattern: Pattern, reverse: bool, op: Op)
    requires OnlyRemoves(pattern) && OpsFirst(pattern).Bounded(Additive(One)) && Acts(pattern, op)
    ensures var r := WalkOp(OpsFirst(pattern), reverse, Additive(One), op);
            r == Walked([], Rewritten(pattern, op).Redirection(), [VisitOf(pattern, op)])
  {
    assert OnlyRemovesAt(pattern, op);
    RemovesToNothing(pattern, op);
    ComposeNothing(Rewritten(pattern, op).Redirection());
  }

  // ----- small walks -----

  lemma TwoForward(w: Walk, mu: Op -> nat, a: Op, b: Op)
    requires w.Bounded(mu)
    ensures var first := WalkOp(w, false, mu, a);
            WalkOps(w, false, mu, [a, b]) == Then(first, WalkOp(w, false, mu, SubstOp(first.s, b)))
  {
    var first := WalkOp(w, false, mu, a);
    FirstFirst(w, mu, a, [b]);
    assert [a] + [b] == [a, b] && SubstOps(first.s, [b]) == [SubstOp(first.s, b)];
    WalkOne(w, false, mu, SubstOp(first.s, b));
  }

  lemma TwoReverse(w: Walk, mu: Op -> nat, a: Op, b: Op)
    requires w.Bounded(mu)
    ensures var last := WalkOp(w, true, mu, b);
            WalkOps(w, true, mu, [a, b]) == After(WalkOp(w, true, mu, SubstOp(last.s, a)), last)
  {
    var last := WalkOp(w, true, mu, b);
    LastFirst(w, mu, [a], b);
    assert [a] + [b] == [a, b] && SubstOps(last.s, [a]) == [SubstOp(last.s, a)];
    WalkOne(w, true, mu, SubstOp(last.s, a));
  }

  lemma LeftAsIs(w: Walk, reverse: bool, mu: Op -> nat, op: Op)
    requires w.Bounded(mu) && !w.regionsFirst && !Acts(w.pattern, op)
    ensures WalkOps(w, reverse, mu, [op]).what == [WalkRegions(w, reverse, mu, op).what]
  {
    WalkOne(w, reverse, mu, op);
  }

  lemma OneInside(w: Walk, reverse: bool, mu: Op -> nat, op: Op, inner: Op)
    requires w.Bounded(mu) && op.regions == [Region([Block([], [inner])])]
    ensures var r := WalkOp(w, reverse, mu, inner);
            WalkRegions(w, reverse, mu, op).what == SubstOp(r.s, op).(regions := [Region([Block([], r.what)])])
  {
    var block := Block([], [inner]);
    var r := WalkOp(w, reverse, mu, inner);
    UnfoldRegions(w, reverse, mu, op);
    var weight, depth := RegionsOfIs(w, reverse, mu, op);
    UnfoldRegionList(w, reverse, mu, op.regions, weight, depth);
    OneBlock(w, reverse, mu, block, weight, depth);
    assert op.regions[1..] == [] && op.regions[0].blocks == [block];
    WalkOne(w, reverse, mu, inner);
    ComposeNothing(r.s);
    SubstBlocksNothing([Block([], r.what)]);
    SubstRegionUnused(map[], Region([Block([], r.what)]));
  }

  lemma OneBlock(w: Walk, reverse: bool, mu: Op -> nat, block: Block, weight: nat, depth: nat)
    requires w.Bounded(mu) && BlocksWithin(w, mu, [block], weight, depth)
    ensures var r := WalkOps(w, reverse, mu, block.ops);
            WalkBlocks(w, reverse, mu, [block], weight, depth) == Walked([Block(block.args, r.what)], r.s, r.log)
  {
    var r := WalkOps(w, reverse, mu, block.ops);
    UnfoldBlocks(w, reverse, mu, [block], weight, depth);
    assert FirstOf(reverse, [block]) == block && OthersOf(reverse, [block]) == [];
    SubstNothing(r.what);
    ComposeNothing(r.s);
    assert Beside(reverse, [Block(block.args, r.what)], []) == [Block(block.args, r.what)] && r.log + [] == r.log;
  }

  // ----- looking inside -----

  /** Erases every "inner" operation, and an "outer" operation whose one block is empty. */
  function EraseEmptyOuter(op: Op): seq<Call>
  {
    if op.code.name == "inner" || (op.code.name == "outer" && op.regions == [Region([Block([], [])])])
    then [EraseMatched] else []
  }

  const INNER := Op(Code("inner", []), [], [], [], [])
  const OUTER := Op(Code("outer", []), [], [], [], [Region([Block([], [INNER])])])
  const EMPTIED := Op(Code("outer", []), [], [], [], [Region([Block([], [])])])

  lemma EraseEmptyOuterBounded()
    ensures OnlyRemoves(EraseEmptyOuter) && OpsFirst(EraseEmptyOuter).Bounded(Additive(One))
  {
    forall op ensures OnlyRemovesAt(EraseEmptyOuter, op) {
    }
    RemovingTerminates(EraseEmptyOuter);
  }

  /** Once the inner operation is gone, the outer one has been passed already. */
  lemma OuterLeftEmpty(reverse: bool)
    requires OpsFirst(EraseEmptyOuter).Bounded(Additive(One))
    ensures WalkOps(OpsFirst(EraseEmptyOuter), reverse, Additive(One), [OUTER]).what == [EMPTIED]
    ensures WalkRegions(OpsFirst(EraseEmptyOuter), reverse, Additive(One), OUTER).what == EMPTIED
  {
    var w, mu := OpsFirst(EraseEmptyOuter), Additive(One);
    EraseEmptyOuterBounded();
    InnerErased();
    RemovedWhereItActs(EraseEmptyOuter, reverse, INNER);
    OneInside(w, reverse, mu, OUTER, INNER);
    SubstOpUnused(map[], OUTER);
    LeftAsIs(w, reverse, mu, OUTER);
  }

  lemma InnerErased()
    requires LegalPattern(EraseEmptyOuter)
    ensures Acts(EraseEmptyOuter, INNER) && !Acts(EraseEmptyOuter, OUTER)
    ensures Rewritten(EraseEmptyOuter, INNER).Redirection() == map[]
  {
    assert [EraseMatched][1..] == [];
    assert Perform([EraseMatched], Start(INNER)) == Perform([], Start(INNER).Do(EraseMatched));
    assert OUTER.regions[0].blocks[0].ops == [INNER];
  }

  /** Visiting operations before their regions leaves a match behind, in both directions. */
  lemma OpsFirstCanMissMatches(reverse: bool)
    ensures OpsFirst(EraseEmptyOuter).Bounded(Additive(One))
    ensures var r := WalkOps(OpsFirst(EraseEmptyOuter), reverse, Additive(One), [OUTER]).what;
            r == [EMPTIED] && Acts(EraseEmptyOuter, EMPTIED) && !NormalOps(EraseEmptyOuter, r)
    ensures !Settled(OpsFirst(EraseEmptyOuter), reverse, Additive(One))
  {
    EraseEmptyOuterBounded();
    OuterLeftEmpty(reverse);
    assert EMPTIED in [EMPTIED];
    assert OUTER.regions[0].blocks[0].ops == [INNER];
    assert !SettledAt(OpsFirst(EraseEmptyOuter), reverse, Additive(One), OUTER);
  }

  // ----- looking at values -----

  /** Folds `h(x)` to `x`, and erases `f(x, x)`. */
  function FoldAndErase(op: Op): seq<Call>
  {
    if op.regions != [] then []
    else if op.code.name == "h" && |op.operands| == |op.results| == 1 then [ReplaceMatched([], [op.operands[0]])]
    else if op.code.name == "f" && |op.operands| == 2 && op.operands[0] == op.operands[1] then [EraseMatched]
    else []
  }

  const A: Value := 0
  const Y: Value := 1
  const H := Op(Code("h", []), [A], [Y], [], [])

  function F(x: Value, y: Value): Op
  {
    Op(Code("f", []), [x, y], [], [], [])
  }

  lemma FoldAndEraseBounded()
    ensures OnlyRemoves(FoldAndErase) && OpsFirst(FoldAndErase).Bounded(Additive(One))
  {
    forall op ensures OnlyRemovesAt(FoldAndErase, op) {
    }
    RemovingTerminates(FoldAndErase);
  }

  /** What is rewritten inside an operation does not matter to this pattern. */
  lemma FoldAndEraseSettled(reverse: bool)
    requires OpsFirst(FoldAndErase).Bounded(Additive(One))
    ensures Settled(OpsFirst(FoldAndErase), reverse, Additive(One))
  {
    var w, mu := OpsFirst(FoldAndErase), Additive(One);
    forall op ensures SettledAt(w, reverse, mu, op) {
      if op.regions == [] && !Acts(FoldAndErase, op) {
        NormalInsideIsFixed(w, reverse, mu, op);
      }
    }
  }

  lemma HRedirects()
    requires OpsFirst(FoldAndErase).Bounded(Additive(One))
    ensures Rewritten(FoldAndErase, H).Redirection() == map[Y := A]
  {
    var call := ReplaceMatched([], [A]);
    assert FoldAndErase(H) == [call] && [call][1..] == [];
    assert Perform([call], Start(H)) == Perform([], Start(H).Do(call));
    assert Redirections([Y], [A], 1) == Compose(Redirections([Y], [A], 0), map[Y := A]);
    ComposeNothing(map[Y := A]);
  }

  /** Forwards, the operand is redirected before `f` is visited. */
  lemma ForwardRemovesBoth()
    requires OpsFirst(FoldAndErase).Bounded(Additive(One))
    ensures WalkOps(OpsFirst(FoldAndErase), false, Additive(One), [H, F(A, Y)]).what == []
  {
    var w, mu := OpsFirst(FoldAndErase), Additive(One);
    FoldAndEraseBounded();
    HRedirects();
    FMatches();
    RemovedWhereItActs(FoldAndErase, false, H);
    TwoForward(w, mu, H, F(A, Y));
    RemovedWhereItActs(FoldAndErase, false, F(A, A));
  }

  lemma FMatches()
    ensures Acts(FoldAndErase, H) && Acts(FoldAndErase, F(A, A)) && !Acts(FoldAndErase, F(A, Y))
    ensures SubstOp(map[Y := A], F(A, Y)) == F(A, A)
  {
    assert SubstValues(map[Y := A], [A, Y]) == [A, A];
  }

  lemma RedirectedF()
    ensures SubstOps(map[Y := A], [F(A, Y)]) == [F(A, A)]
  {
    FMatches();
  }

  lemma FPassed()
    requires OpsFirst(FoldAndErase).Bounded(Additive(One))
    ensures WalkOp(OpsFirst(FoldAndErase), true, Additive(One), F(A, Y)) == Fixed([F(A, Y)])
    ensures SubstOp(map[], H) == H
  {
    FMatches();
    NormalOpIsFixed(OpsFirst(FoldAndErase), true, Additive(One), F(A, Y));
    SubstOpUnused(map[], H);
  }

  /** Backwards, `f` is passed first. */
  lemma ReverseLeavesMatch()
    requires OpsFirst(FoldAndErase).Bounded(Additive(One))
    ensures WalkOps(OpsFirst(FoldAndErase), true, Additive(One), [H, F(A, Y)]).what == [F(A, A)]
  {
    var w, mu := OpsFirst(FoldAndErase), Additive(One);
    FoldAndEraseBounded();
    HRedirects();
    FMatches();
    RemovedWhereItActs(FoldAndErase, true, H);
    FPassed();
    TwoReverse(w, mu, H, F(A, Y));
    RedirectedF();
  }

  /**
   A redirection can make an operation match that a reverse walk has passed. So the directions
   differ, and the reverse walk does not reach a normal form, though the pattern is settled.
   */
  lemma DirectionCanMatter()
    ensures OpsFirst(FoldAndErase).Bounded(Additive(One)) && Settled(OpsFirst(FoldAndErase), true, Additive(One))
    ensures var w, ops := OpsFirst(FoldAndErase), [H, F(A, Y)];
            && WalkOps(w, false, Additive(One), ops).what == []
            && WalkOps(w, true, Additive(One), ops).what == [F(A, A)] && Acts(FoldAndErase, F(A, A))
    ensures !AlwaysNormal(OpsFirst(FoldAndErase), true, Additive(One))
    ensures !RedirectsHarmless(OpsFirst(FoldAndErase), true, Additive(One)) && !Equivariant(FoldAndErase)
  {
    var w, mu := OpsFirst(FoldAndErase), Additive(One);
    FoldAndEraseBounded();
    FoldAndEraseSettled(true);
    FMatches();
    ForwardRemovesBoth();
    ReverseLeavesMatch();
    NotNormal(w, mu, [H, F(A, Y)], F(A, A));
    FoldAndEraseLooksAtValues();
    NormalFormExactly(w, true, mu);
  }

  lemma NotNormal(w: Walk, mu: Op -> nat, ops: seq<Op>, op: Op)
    requires w.Bounded(mu) && WalkOps(w, true, mu, ops).what == [op] && Acts(w.pattern, op)
    ensures !AlwaysNormal(w, true, mu)
  {
    assert op in [op] && !NormalOp(w.pattern, op);
    assert !NormalOps(w.pattern, WalkOps(w, true, mu, ops).what);
  }

  lemma FoldAndEraseLooksAtValues()
    ensures !Equivariant(FoldAndErase)
  {
    FMatches();
    assert FoldAndErase(F(A, Y)) == [] && CallsDefs([]) == {};
    assert !EquivariantAt(FoldAndErase, map[Y := A], F(A, Y));
  }

  // ----- not looking at values -----

  /** Folds `h(x)` to `x`. */
  function Fold(op: Op): seq<Call>
  {
    if op.code.name == "h" && |op.operands| == |op.results| == 1 then [ReplaceMatched([], [op.operands[0]])] else []
  }

  lemma FoldBounded()
    ensures OnlyRemoves(Fold) && OpsFirst(Fold).Bounded(Additive(One))
  {
    forall op ensures OnlyRemovesAt(Fold, op) {
    }
    RemovingTerminates(Fold);
  }

  lemma FoldLooksAtNoValue()
    ensures Equivariant(Fold) && Shallow(Fold)
  {
    forall s: Redirect, op: Op ensures EquivariantAt(Fold, s, op) {
      if Fold(op) != [] {
        assert SubstValues(s, [op.operands[0]]) == [SubstOp(s, op).operands[0]] && SubstOps(s, []) == [];
        assert SubstCalls(s, Fold(op)) == Fold(SubstOp(s, op));
      }
      FoldDefinesNothing(op);
      FoldDefinesNothing(SubstOp(s, op));
    }
  }

  lemma FoldDefinesNothing(op: Op)
    ensures CallsDefs(Fold(op)) == {}
  {
    forall call | call in Fold(op) ensures CallDefs(call) == {} {
      assert OpsDefs([]) == {};
    }
  }

  lemma OneVisitProper(visit: Visit)
    requires visit.clean
    ensures Proper({}, [visit])
  {
    assert [visit][1..] == [];
  }

  lemma FoldVisit()
    requires OpsFirst(Fold).Bounded(Additive(One))
    ensures Rewritten(Fold, H).Redirection() == map[Y := A]
    ensures Proper({}, [VisitOf(Fold, H)])
  {
    var call := ReplaceMatched([], [A]);
    assert Fold(H) == [call] && [call][1..] == [];
    assert Perform([call], Start(H)) == Perform([], Start(H).Do(call));
    assert Redirections([Y], [A], 1) == Compose(Redirections([Y], [A], 0), map[Y := A]);
    ComposeNothing(map[Y := A]);
    var rw := Rewritten(Fold, H);
    assert rw.replaced == [Y] && rw.targets == [A];
    assert Distinct([Y]) by {
      assert [Y][1..] == [];
    }
    OneVisitProper(VisitOf(Fold, H));
  }

  /** On the same block this pattern does the same in both directions. */
  lemma FoldHasNoDirection()
    ensures OpsFirst(Fold).Bounded(Additive(One))
    ensures forall reverse :: AlwaysNormal(OpsFirst(Fold), reverse, Additive(One))
    ensures forall reverse :: WalkOps(OpsFirst(Fold), reverse, Additive(One), [H, F(A, Y)]).what == [F(A, A)]
  {
    var w, mu, ops := OpsFirst(Fold), Additive(One), [H, F(A, Y)];
    FoldBounded();
    FoldLooksAtNoValue();
    EquivariantReachesNormalForm(w, false, mu);
    EquivariantReachesNormalForm(w, true, mu);
    FoldForward();
    FoldReverse();
    DirectionIrrelevant(w, mu, ops);
  }

  lemma FoldForward()
    requires OnlyRemoves(Fold) && OpsFirst(Fold).Bounded(Additive(One))
    ensures var r := WalkOps(OpsFirst(Fold), false, Additive(One), [H, F(A, Y)]);
            r.what == [F(A, A)] && Proper({}, r.log)
  {
    var w, mu := OpsFirst(Fold), Additive(One);
    FoldVisit();
    FMatches();
    RemovedWhereItActs(Fold, false, H);
    TwoForward(w, mu, H, F(A, Y));
    NormalOpIsFixed(w, false, mu, F(A, A));
  }

  lemma FoldReverse()
    requires OnlyRemoves(Fold) && OpsFirst(Fold).Bounded(Additive(One))
    ensures Proper({}, WalkOps(OpsFirst(Fold), true, Additive(One), [H, F(A, Y)]).log)
  {
    var w, mu := OpsFirst(Fold), Additive(One);
    FoldVisit();
    NormalOpIsFixed(w, true, mu, F(A, Y));
    TwoReverse(w, mu, H, F(A, Y));
    SubstOpUnused(map[], H);
    RemovedWhereItActs(Fold, true, H);
  }
}
