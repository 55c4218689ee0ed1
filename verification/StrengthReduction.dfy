/**
 An instance of a justified pass: inside a loop, a doubling gives way to an addition.
 */
module StrengthReduction {
  import opened Ir
  import opened Semantics
  import opened Refinement
  import opened Dominance
  import opened Substitution
  import opened Replacement
  import opened Passes
  import opened Simulation

  const DOUBLE := Op(Code("double", []), [1], [2], [], [])
  const ADD := Op(Code("add", []), [1, 1], [3], [], [])
  const ENTER := Op(Code("br", []), [0], [], [1], [])
  const AGAIN := Op(Code("loop", []), [2], [], [1], [])

  /** Value 0 enters the loop as value 1; value 2 goes round until it is large enough. */
  const LOOP := Region([Block([0], [ENTER]), Block([1], [DOUBLE, AGAIN])])

  const REDUCE := Step(1, 0, [ADD], map[2 := 3])

  function Implementation(code: Code, inputs: PyValues, history: seq<PyValues>): Action
  {
    if code.name == "double" && |inputs| == 1 && inputs[0].PyInt? then Finish([PyInt(2 * inputs[0].i)], NoTerminator)
    else if code.name == "add" && |inputs| == 2 && inputs[0].PyInt? && inputs[1].PyInt? then
      Finish([PyInt(inputs[0].i + inputs[1].i)], NoTerminator)
    else if code.name == "br" then Finish([], Successor(0, inputs))
    else if code.name == "loop" && |inputs| == 1 && inputs[0].PyInt? then
      Finish([], if inputs[0].i < 100 then Successor(0, inputs) else ReturnedValues(inputs))
    else Raise(0)
  }

  lemma LoopReachable()
    ensures Reachable(LOOP, 1)
  {
    assert ENTER in LOOP.blocks[0].ops;
    assert Edge(LOOP, 0, 1);
    assert IsPath(LOOP, [0, 1]);
  }

  lemma LoopWellFormed()
    ensures WellFormed(LOOP, {})
    ensures 1 in Visible(LOOP, {}, 1, 0)
  {
    assert LOOP.blocks[1].ops[..1] == [DOUBLE];
    assert Results([DOUBLE]) == [2] + Results([]);
    assert 1 in Names(LOOP.blocks[1].args) && 0 in Names(LOOP.blocks[0].args);
    assert 2 in Names(Results(LOOP.blocks[1].ops[..1]));
  }

  lemma NothingNested(op: Op)
    requires op.regions == []
    ensures NestedDefs(op) == {} && OpUses(op) == Names(op.operands) && AllDefs(op) == Names(op.results)
  {
  }

  lemma LoopUnique()
    ensures UniqueValues(LOOP, {})
  {
    forall c: nat, j: nat | At(LOOP, c, j)
      ensures AllDefs(LOOP.blocks[c].ops[j]) == if (c, j) == (1, 0) then {2} else {}
      ensures NestedDefs(LOOP.blocks[c].ops[j]) == {}
    {
      var op := LOOP.blocks[c].ops[j];
      assert op == if c == 0 then ENTER else if j == 0 then DOUBLE else AGAIN;
      NothingNested(op);
    }
  }

  lemma Operands(env: Env)
    ensures LookupAll(env, [1]) == if 1 in env then Done([env[1]]) else Failed(ValueNotFound(1))
    ensures LookupAll(env, [1, 1]) == if 1 in env then Done([env[1], env[1]]) else Failed(ValueNotFound(1))
  {
    if 1 in env {
      LookupPresent(env, [1], [env[1]]);
      LookupPresent(env, [1, 1], [env[1], env[1]]);
    } else {
      LookupMissing(env, [1], 0);
      LookupMissing(env, [1, 1], 0);
    }
  }

  lemma AdditionDoubles(limit: nat)
    ensures Equivalent(Implementation, DOUBLE, [ADD], REDUCE.s, limit, InStep)
  {
    forall env ensures EquivalentIn(Implementation, DOUBLE, [ADD], REDUCE.s, limit, InStep, env) {
      assert [ADD][1..] == [];
      Operands(env);
      if InStep.Covers(RunOp(Implementation, DOUBLE, env, limit)) {
        assert InStep.Allows(limit, limit) && SameEffect(Implementation, DOUBLE, [ADD], REDUCE.s, limit, limit, env);
      }
    }
  }

  lemma Sets()
    ensures OpsUses([ADD]) == {1} && Names(Results([ADD])) == {3}
    ensures RegionUses(LOOP) <= {0, 1, 2} && RegionDefs(LOOP) <= {0, 1, 2}
    ensures Names(DOUBLE.results) == {2}
  {
    NothingNested(ENTER);
    NothingNested(DOUBLE);
    NothingNested(AGAIN);
    NothingNested(ADD);
    assert [ADD][1..] == [];
    assert ADD in [ADD] && 1 in OpUses(ADD);
    assert Results([ADD]) == [3] + Results([]);
  }

  lemma ReduceRequested()
    ensures REDUCE.On(LOOP, {}).Requested(Implementation)
  {
    Sets();
    assert REDUCE.On(LOOP, {}).Old() == DOUBLE;
  }

  lemma ReducePlaced()
    ensures Placed(REDUCE.On(LOOP, {}))
  {
    var e := REDUCE.On(LOOP, {});
    LoopWellFormed();
    assert Names(ADD.operands) <= VisibleTo(e, 0);
  }

  lemma ReduceNew()
    ensures New(REDUCE.On(LOOP, {}))
  {
    var e := REDUCE.On(LOOP, {});
    NothingNested(ENTER);
    NothingNested(AGAIN);
    NothingNested(ADD);
    assert AllDefs(ADD) == {3} && e.Old() == DOUBLE;
    forall c: nat, j: nat | At(LOOP, c, j) && (c, j) != (1, 0) ensures AllDefs(LOOP.blocks[c].ops[j]) == {} {
      assert LOOP.blocks[c].ops[j] == if c == 0 then ENTER else AGAIN;
    }
    assert NewOp(e, ADD);
  }

  /** The reduction is justified, so the loop runs as it did before, however often it goes round. */
  lemma ReductionPreservesMeaning(limit: nat)
    ensures Requests(Implementation, LOOP, {}, [REDUCE]) && Justified(Implementation, LOOP, {}, [REDUCE], limit, InStep)
    ensures Simulates(Implementation, LOOP, After(REDUCE.On(LOOP, {})), limit, InStep)
  {
    LoopWellFormed();
    LoopUnique();
    ReduceRequested();
    LoopReachable();
    ReducePlaced();
    ReduceNew();
    AdditionDoubles(limit);
    assert [REDUCE][1..] == [];
    PassKeepsPace(Implementation, LOOP, {}, [REDUCE], limit, InStep);
  }
}
