/**
 The runs before and after a replacement, side by side: they agree on every live value at
 every position they reach, so the region returns the same results.
 */
module Preservation {
  import opened Ir
  import opened Semantics
  import opened Refinement
  import opened Dominance
  import opened Substitution
  import opened Replacement
  import opened Simulation

  // ----- what binding and running leave alone -----

  lemma {:induction false} BindFrame(env: Env, names: seq<Value>, vals: PyValues, v: Value)
    requires v !in names
    ensures v in Bind(env, names, vals) <==> v in env
    ensures v in env ==> Bind(env, names, vals)[v] == env[v]
    decreases names
  {
    if names != [] && vals != [] {
      BindFrame(env[names[0] := vals[0]], names[1..], vals[1..], v);
    }
  }

  lemma {:induction false} BindSame(env: Env, env': Env, names: seq<Value>, vals: PyValues, v: Value)
    requires |names| == |vals| && v in names
    ensures v in Bind(env, names, vals) && v in Bind(env', names, vals)
    ensures Bind(env, names, vals)[v] == Bind(env', names, vals)[v]
    decreases names
  {
    var e, e' := env[names[0] := vals[0]], env'[names[0] := vals[0]];
    if v in names[1..] {
      BindSame(e, e', names[1..], vals[1..], v);
    } else {
      assert names == [names[0]] + names[1..];
      BindFrame(e, names[1..], vals[1..], v);
      BindFrame(e', names[1..], vals[1..], v);
    }
  }

  /** Operations change nothing but their own results. */
  lemma {:induction false} OpsFrame(impl: Impl, ops: seq<Op>, env: Env, limit: nat, v: Value)
    requires RunOps(impl, ops, env, limit).Done? && v !in Results(ops)
    ensures var env' := RunOps(impl, ops, env, limit).value.1;
            && (v in env' <==> v in env)
            && (v in env ==> env'[v] == env[v])
  {
    if ops != [] {
      var inputs := LookupAll(env, ops[0].operands);
      var o := RunImpl(impl, ops[0], inputs.value, [], env, limit);
      BindFrame(env, ops[0].results, o.value.0, v);
      var r := RunOp(impl, ops[0], env, limit);
      if r.value.0.Continue? {
        OpsFrame(impl, ops[1..], r.value.1, limit, v);
      }
    }
  }

  lemma {:induction false} RunOpsAppend(impl: Impl, a: seq<Op>, b: seq<Op>, env: Env, limit: nat)
    ensures var o := RunOps(impl, a, env, limit);
            RunOps(impl, a + b, env, limit) ==
            if o.Done? && o.value.0.Continue? then RunOps(impl, b, o.value.1, limit) else o
  {
    if a == [] {
      assert a + b == b;
    } else {
      assert (a + b)[0] == a[0] && (a + b)[1..] == a[1..] + b;
      var o := RunOp(impl, a[0], env, limit);
      if o.Done? && o.value.0.Continue? {
        RunOpsAppend(impl, a[1..], b, o.value.1, limit);
      }
    }
  }

  // ----- one step -----

  /** Binding names on both sides keeps agreement on the live values of the new position. */
  lemma BindLive(e: Edit, impl: Impl, p: seq<nat>, j: nat, used: set<Value>, env: Env, env': Env, vals: PyValues)
    requires e.Valid(impl) && IsPath(e.region, p)
    requires var c := p[|p| - 1];
             && j <= |e.region.blocks[c].ops| && (c, j) != (e.b, e.i + 1)
             && e.Live(c, j) <= used
    requires Related(e.s, used, env, env')
    ensures var c := p[|p| - 1];
            var names := BoundAt(e.region, c, j);
            Related(e.s, e.Live(c, j), Bind(env, names, vals), Bind(env', names, vals))
  {
    var c := p[|p| - 1];
    var live := e.Live(c, j);
    assert Related(e.s, live, env, env');
    if e.Available(c, j) {
      BoundAvoidsTargets(e, impl, p, j);
      BindRelated(e.s, live, env, env', BoundAt(e.region, c, j), vals);
    } else {
      assert forall v :: v in live ==> v !in e.s;
      assert Related(map[], live, env, env');
      BindRelated(map[], live, env, env', BoundAt(e.region, c, j), vals);
    }
  }

  /** A redirected operation makes the same move; its results decide which values still agree. */
  lemma StepFrom(impl: Impl, s: Redirect, used: set<Value>, live: set<Value>, op: Op, env: Env, env': Env, limit: nat, pace: Pace)
    requires OpUses(op) <= used && NestedDefs(op) !! s.Keys + s.Values
    requires Related(s, used, env, env')
    requires forall vals :: Related(s, live, Bind(env, op.results, vals), Bind(env', op.results, vals))
    requires pace.Covers(RunOp(impl, op, env, limit))
    ensures RelatedOutcome(s, live, RunOp(impl, op, env, limit), RunOp(impl, SubstOp(s, op), env', limit))
  {
    OpSameValues(impl, s, used, op, env, env', limit);
    var o := RunImpl(impl, op, LookupAll(env, op.operands).value, [], env, limit);
    if o.Done? {
      assert Related(s, live, Bind(env, op.results, o.value.0), Bind(env', op.results, o.value.0));
    }
  }

  /** Only the replaced operation makes its results available. */
  lemma LiveStep(e: Edit, c: nat, j: nat)
    requires At(e.region, e.b, e.i) && (c, j) != (e.b, e.i)
    ensures e.Live(c, j + 1) == e.Live(c, j)
  {
    assert e.Available(c, j + 1) == e.Available(c, j);
  }

  /** An operation other than the replaced one. */
  lemma StepOther(e: Edit, impl: Impl, p: seq<nat>, j: nat, env: Env, env': Env, limit: nat, pace: Pace)
    requires e.Valid(impl) && IsPath(e.region, p)
    requires var c := p[|p| - 1]; At(e.region, c, j) && (c, j) != (e.b, e.i) && Related(e.s, e.Live(c, j), env, env')
    requires pace.Covers(RunOp(impl, e.region.blocks[p[|p| - 1]].ops[j], env, limit))
    ensures var op := e.region.blocks[p[|p| - 1]].ops[j];
            RelatedOutcome(e.s, e.Live(p[|p| - 1], j + 1), RunOp(impl, op, env, limit), RunOp(impl, SubstOp(e.s, op), env', limit))
  {
    var c := p[|p| - 1];
    var op := e.region.blocks[c].ops[j];
    var used, live := e.Live(c, j), e.Live(c, j + 1);
    LiveStep(e, c, j);
    assert OpUses(op) <= used by { UsesLive(e, impl, c, j); }
    assert NestedDefs(op) !! e.s.Keys + e.s.Values by { TargetsNotNested(e, impl, c, j); }
    forall vals ensures Related(e.s, live, Bind(env, op.results, vals), Bind(env', op.results, vals)) {
      BindLive(e, impl, p, j + 1, used, env, env', vals);
    }
    StepFrom(impl, e.s, used, live, op, env, env', limit, pace);
  }

  /** Equivalent operations, run on environments that agree where the old operation looks. */
  lemma EquivalentStep(impl: Impl, op: Op, newOps: seq<Op>, s: Redirect, used: set<Value>, env: Env, env': Env,
                       limit: nat, later: nat)
    requires SameEffect(impl, op, newOps, s, limit, later, env')
    requires OpUses(op) <= used && Related(map[], used, env, env')
    requires s.Keys <= Names(op.results)
    requires used !! Names(op.results) + Names(Results(newOps))
    requires !RunOp(impl, op, env, limit).Failed?
    ensures RelatedOutcome(s, used + s.Keys, RunOp(impl, op, env, limit), RunOps(impl, newOps, env', later))
  {
    SubstOpUnused(map[], op);
    OpSameValues(impl, map[], used, op, env, env', limit);
    var o, o' := RunOp(impl, op, env, limit), RunOps(impl, newOps, env', later);
    if o.Done? {
      var vals := RunImpl(impl, op, LookupAll(env, op.operands).value, [], env, limit).value.0;
      forall v | v in used + s.Keys
        ensures v in o.value.1 <==> Target(s, v) in o'.value.1
        ensures v in o.value.1 ==> o.value.1[v] == o'.value.1[Target(s, v)]
      {
        if v in s.Keys {
          assert v in Names(op.results);
          BindSame(env, env', op.results, vals, v);
        } else {
          assert v in used && v !in Names(op.results) && v !in Names(Results(newOps));
          BindFrame(env, op.results, vals, v);
          OpsFrame(impl, newOps, env', later, v);
        }
      }
    }
  }

  /** The replaced operation completes or stops in both environments. */
  lemma SameCover(impl: Impl, op: Op, used: set<Value>, env: Env, env': Env, limit: nat, pace: Pace)
    requires OpUses(op) <= used && Related(map[], used, env, env') && pace.Covers(RunOp(impl, op, env, limit))
    ensures pace.Covers(RunOp(impl, op, env', limit))
  {
    SubstOpUnused(map[], op);
    OpSameValues(impl, map[], used, op, env, env', limit);
  }

  /** Equivalent operations, at the bound that the pace allows. */
  lemma EquivalentOps(impl: Impl, op: Op, newOps: seq<Op>, s: Redirect, used: set<Value>, env: Env, env': Env,
                      limit: nat, pace: Pace) returns (later: nat)
    requires Equivalent(impl, op, newOps, s, limit, pace)
    requires OpUses(op) <= used && Related(map[], used, env, env')
    requires s.Keys <= Names(op.results)
    requires used !! Names(op.results) + Names(Results(newOps))
    requires pace.Covers(RunOp(impl, op, env, limit))
    ensures pace.Allows(limit, later)
    ensures RelatedOutcome(s, used + s.Keys, RunOp(impl, op, env, limit), RunOps(impl, newOps, env', later))
  {
    SameCover(impl, op, used, env, env', limit, pace);
    assert EquivalentIn(impl, op, newOps, s, limit, pace, env');
    later :| pace.Allows(limit, later) && SameEffect(impl, op, newOps, s, limit, later, env');
    EquivalentStep(impl, op, newOps, s, used, env, env', limit, later);
  }

  /** The replaced operation against the new ones. */
  lemma StepReplaced(e: Edit, impl: Impl, env: Env, env': Env, limit: nat, pace: Pace) returns (later: nat)
    requires e.Valid(impl) && Equivalent(impl, e.Old(), e.newOps, e.s, limit, pace)
    requires Related(e.s, e.Live(e.b, e.i), env, env')
    requires pace.Covers(RunOp(impl, e.Old(), env, limit))
    ensures pace.Allows(limit, later)
    ensures RelatedOutcome(e.s, e.Live(e.b, e.i + 1), RunOp(impl, e.Old(), env, limit), RunOps(impl, e.newOps, env', later))
  {
    var live := e.Live(e.b, e.i);
    assert OpUses(e.Old()) <= live by { OldUsesLive(e, impl); }
    assert Related(map[], live, env, env');
    later := EquivalentOps(impl, e.Old(), e.newOps, e.s, live, env, env', limit, pace);
  }

  lemma {:induction false} ImplFallsThrough(impl: Impl, op: Op, inputs: PyValues, history: seq<PyValues>, env: Env, limit: nat)
    requires FallsThrough(impl, op) && |history| <= limit
    ensures var o := RunImpl(impl, op, inputs, history, env, limit); o.Done? ==> o.value.1.NoTerminator?
    decreases limit - |history|
  {
    var action := impl(op.code, inputs, history);
    if action.RunRegionOf? && action.region < |op.regions| && |history| < limit {
      var r := RunRegion(impl, op.regions[action.region], action.args, env, limit);
      if r.Done? {
        ImplFallsThrough(impl, op, inputs, history + [r.value], env, limit);
      }
    }
  }

  lemma OpFallsThrough(impl: Impl, op: Op, env: Env, limit: nat)
    requires FallsThrough(impl, op)
    ensures var o := RunOp(impl, op, env, limit); o.Done? ==> o.value.0.Continue?
  {
    var inputs := LookupAll(env, op.operands);
    if inputs.Done? {
      ImplFallsThrough(impl, op, inputs.value, [], env, limit);
    }
  }

  // ----- blocks and regions -----

  lemma SuffixOther(e: Edit, c: nat, j: nat)
    requires At(e.region, e.b, e.i) && At(e.region, c, j) && (c, j) != (e.b, e.i)
    ensures e.NewSuffix(c, j) == [SubstOp(e.s, e.region.blocks[c].ops[j])] + e.NewSuffix(c, j + 1)
  {
  }

  lemma SuffixReplaced(e: Edit)
    requires At(e.region, e.b, e.i)
    ensures e.NewSuffix(e.b, e.i) == SubstOps(e.s, e.newOps) + e.NewSuffix(e.b, e.i + 1)
  {
  }

  /** Past the operation, or in another block, the live values no longer change. */
  lemma LiveSettled(e: Edit, c: nat, j: nat, k: nat)
    requires At(e.region, e.b, e.i) && (c != e.b || (j > e.i && k > e.i))
    ensures e.Live(c, j) == e.Live(c, k)
  {
    assert e.Available(c, j) == e.Available(c, k);
  }

  /** Runs of two lists agree when they agree on the first operation and on what follows it. */
  lemma FirstThenRest(impl: Impl, s: Redirect, mid: set<Value>, used: set<Value>, op: Op, rest: seq<Op>,
                      piece: seq<Op>, rest': seq<Op>, env: Env, env': Env, limit: nat, later: nat)
    requires var o, o' := RunOp(impl, op, env, limit), RunOps(impl, piece, env', later);
             && RelatedOutcome(s, mid, o, o')
             && (o.Done? && o.value.0.Continue? ==>
                   RelatedOutcome(s, used, RunOps(impl, rest, o.value.1, limit), RunOps(impl, rest', o'.value.1, later)))
             && (o.Done? && !o.value.0.Continue? ==> RelatedOutcome(s, used, o, o'))
    ensures RelatedOutcome(s, used, RunOps(impl, [op] + rest, env, limit), RunOps(impl, piece + rest', env', later))
  {
    RunOpsAppend(impl, piece, rest', env', later);
    assert ([op] + rest)[0] == op && ([op] + rest)[1..] == rest;
  }

  lemma RunOne(impl: Impl, op: Op, env: Env, limit: nat)
    ensures RunOps(impl, [op], env, limit) == RunOp(impl, op, env, limit)
  {
    assert [op][1..] == [];
  }

  /** Only behind the replaced operation does control leave its block. */
  lemma LiveAtExit(e: Edit, impl: Impl, c: nat, j: nat, env: Env, limit: nat)
    requires e.Valid(impl) && At(e.region, c, j) && (c, j) != (e.b, e.i)
    requires var o := RunOp(impl, e.region.blocks[c].ops[j], env, limit); o.Done? && !o.value.0.Continue?
    ensures e.Live(c, j + 1) == e.Live(c, |e.region.blocks[c].ops|)
  {
    if c == e.b && j <= e.i {
      OpFallsThrough(impl, e.region.blocks[c].ops[j], env, limit);
    } else {
      LiveSettled(e, c, j + 1, |e.region.blocks[c].ops|);
    }
  }

  /** What stands afterwards where operation `j` of block `c` stood. */
  function NewPiece(e: Edit, c: nat, j: nat): seq<Op>
    requires At(e.region, e.b, e.i) && At(e.region, c, j)
  {
    if (c, j) == (e.b, e.i) then SubstOps(e.s, e.newOps) else [SubstOp(e.s, e.region.blocks[c].ops[j])]
  }

  /** Whatever relates the environments before an operation relates them after it, or on its exit. */
  ghost predicate OpAgrees(e: Edit, impl: Impl, p: seq<nat>, j: nat, env: Env, env': Env, limit: nat, pace: Pace)
    requires At(e.region, e.b, e.i)
  {
    IsPath(e.region, p) && j < |e.region.blocks[p[|p| - 1]].ops| && Related(e.s, e.Live(p[|p| - 1], j), env, env')
    && pace.Covers(RunOp(impl, e.region.blocks[p[|p| - 1]].ops[j], env, limit)) ==>
      exists later: nat :: pace.Allows(limit, later) && OpFollowed(e, impl, p[|p| - 1], j, env, env', limit, later)
  }

  ghost predicate OpFollowed(e: Edit, impl: Impl, c: nat, j: nat, env: Env, env': Env, limit: nat, later: nat)
    requires At(e.region, e.b, e.i) && At(e.region, c, j)
  {
    var o := RunOp(impl, e.region.blocks[c].ops[j], env, limit);
    RelatedOutcome(e.s, e.Live(c, if o.Done? && !o.value.0.Continue? then |e.region.blocks[c].ops| else j + 1),
                   o, RunOps(impl, NewPiece(e, c, j), env', later))
  }

  ghost predicate OpsAgree(e: Edit, impl: Impl, limit: nat, pace: Pace)
    requires At(e.region, e.b, e.i)
  {
    forall p, j: nat, env, env' :: OpAgrees(e, impl, p, j, env, env', limit, pace)
  }

  lemma ReplacedAgrees(e: Edit, impl: Impl, env: Env, env': Env, limit: nat, pace: Pace) returns (later: nat)
    requires e.Valid(impl) && Equivalent(impl, e.Old(), e.newOps, e.s, limit, pace)
    requires Related(e.s, e.Live(e.b, e.i), env, env') && pace.Covers(RunOp(impl, e.Old(), env, limit))
    ensures pace.Allows(limit, later) && OpFollowed(e, impl, e.b, e.i, env, env', limit, later)
  {
    later := StepReplaced(e, impl, env, env', limit, pace);
    SubstOpsUnused(e.s, e.newOps);
    assert EquivalentIn(impl, e.Old(), e.newOps, e.s, limit, pace, env);
  }

  lemma OtherAgrees(e: Edit, impl: Impl, p: seq<nat>, j: nat, env: Env, env': Env, limit: nat, pace: Pace)
    requires e.Valid(impl) && IsPath(e.region, p)
    requires var c := p[|p| - 1]; At(e.region, c, j) && (c, j) != (e.b, e.i) && Related(e.s, e.Live(c, j), env, env')
    requires pace.Covers(RunOp(impl, e.region.blocks[p[|p| - 1]].ops[j], env, limit))
    ensures OpFollowed(e, impl, p[|p| - 1], j, env, env', limit, limit)
  {
    var c := p[|p| - 1];
    var op := e.region.blocks[c].ops[j];
    StepOther(e, impl, p, j, env, env', limit, pace);
    RunOne(impl, SubstOp(e.s, op), env', limit);
    var o := RunOp(impl, op, env, limit);
    if o.Done? && !o.value.0.Continue? {
      LiveAtExit(e, impl, c, j, env, limit);
    }
  }

  lemma StepAgrees(e: Edit, impl: Impl, p: seq<nat>, j: nat, env: Env, env': Env, limit: nat, pace: Pace)
    requires e.Valid(impl) && Equivalent(impl, e.Old(), e.newOps, e.s, limit, pace)
    ensures OpAgrees(e, impl, p, j, env, env', limit, pace)
  {
    if IsPath(e.region, p) && j < |e.region.blocks[p[|p| - 1]].ops| && Related(e.s, e.Live(p[|p| - 1], j), env, env')
      && pace.Covers(RunOp(impl, e.region.blocks[p[|p| - 1]].ops[j], env, limit))
    {
      if (p[|p| - 1], j) == (e.b, e.i) {
        var later := ReplacedAgrees(e, impl, env, env', limit, pace);
      } else {
        OtherAgrees(e, impl, p, j, env, env', limit, pace);
        assert pace.Allows(limit, limit);
      }
    }
  }

  lemma AllOpsAgree(e: Edit, impl: Impl, limit: nat, pace: Pace)
    requires e.Valid(impl) && Equivalent(impl, e.Old(), e.newOps, e.s, limit, pace)
    ensures OpsAgree(e, impl, limit, pace)
  {
    forall p, j: nat, env, env'
      ensures OpAgrees(e, impl, p, j, env, env', limit, pace)
    {
      StepAgrees(e, impl, p, j, env, env', limit, pace);
    }
  }

  lemma SuffixPiece(e: Edit, c: nat, j: nat)
    requires At(e.region, e.b, e.i) && At(e.region, c, j)
    ensures e.NewSuffix(c, j) == NewPiece(e, c, j) + e.NewSuffix(c, j + 1)
  {
    if (c, j) == (e.b, e.i) {
      SuffixReplaced(e);
    } else {
      SuffixOther(e, c, j);
    }
  }

  /** From any position on, the old operations and the new ones agree. */
  lemma {:induction false} SuffixPreserved(e: Edit, impl: Impl, p: seq<nat>, j: nat, env: Env, env': Env, limit: nat, pace: Pace)
    returns (later: nat)
    requires At(e.region, e.b, e.i) && OpsAgree(e, impl, limit, pace) && IsPath(e.region, p)
    requires var c := p[|p| - 1]; j <= |e.region.blocks[c].ops| && Related(e.s, e.Live(c, j), env, env')
    requires pace.Covers(RunOps(impl, e.region.blocks[p[|p| - 1]].ops[j..], env, limit))
    ensures pace.Allows(limit, later)
    ensures var c := p[|p| - 1];
            RelatedOutcome(e.s, e.Live(c, |e.region.blocks[c].ops|),
                           RunOps(impl, e.region.blocks[c].ops[j..], env, limit),
                           RunOps(impl, e.NewSuffix(c, j), env', later))
    decreases |e.region.blocks[p[|p| - 1]].ops| - j
  {
    var c := p[|p| - 1];
    var ops := e.region.blocks[c].ops;
    later := limit;
    if j < |ops| {
      var op, rest, piece, suffix := ops[j], ops[j + 1..], NewPiece(e, c, j), e.NewSuffix(c, j + 1);
      assert ops[j..] == [op] + rest && ops[j..][0] == op && ops[j..][1..] == rest;
      assert OpAgrees(e, impl, p, j, env, env', limit, pace);
      var near: nat :| pace.Allows(limit, near) && OpFollowed(e, impl, c, j, env, env', limit, near);
      var o, o' := RunOp(impl, op, env, limit), RunOps(impl, piece, env', near);
      later := near;
      if o.Done? && o.value.0.Continue? {
        var far := SuffixPreserved(e, impl, p, j + 1, o.value.1, o'.value.1, limit, pace);
        later := Max(near, far);
        LiftOps(impl, suffix, o'.value.1, far, later);
      }
      LiftOps(impl, piece, env', near, later);
      SuffixPiece(e, c, j);
      FirstThenRest(impl, e.s, e.Live(c, if o.Done? && !o.value.0.Continue? then |ops| else j + 1), e.Live(c, |ops|),
                    op, rest, piece, suffix, env, env', limit, later);
    }
  }

  /** A run moves along an edge of the graph. */
  lemma {:induction false} GotoIsSuccessor(impl: Impl, ops: seq<Op>, env: Env, limit: nat) returns (op: Op)
    requires RunOps(impl, ops, env, limit).Done? && RunOps(impl, ops, env, limit).value.0.Goto?
    ensures op in ops && RunOps(impl, ops, env, limit).value.0.block in op.successors
  {
    op := ops[0];
    var o := RunOp(impl, op, env, limit);
    if o.value.0.Continue? {
      op := GotoIsSuccessor(impl, ops[1..], o.value.1, limit);
    } else {
      var t := RunImpl(impl, op, LookupAll(env, op.operands).value, [], env, limit).value.1;
      assert Continuation(op, t) == Done(o.value.0);
    }
  }

  /** What is live on entry to a successor was live at the end of the block. */
  lemma LiveAlongEdge(e: Edit, a: nat, c: nat)
    requires At(e.region, e.b, e.i) && Edge(e.region, a, c) && c < |e.region.blocks|
    ensures e.Live(c, 0) <= e.Live(a, |e.region.blocks[a].ops|)
  {
    if e.Available(c, 0) && a != e.b {
      DominatesPredecessor(e.region, e.b, a, c);
    }
  }

  lemma ReplacedBlock(e: Edit, c: nat)
    requires At(e.region, e.b, e.i) && c < |e.region.blocks|
    ensures Replaced(e.region, e.b, e.i, e.newOps, e.s).blocks[c]
         == Block(e.region.blocks[c].args, e.NewSuffix(c, 0))
  {
    var ops := e.region.blocks[c].ops;
    assert ops[0..] == ops;
    if c == e.b {
      assert ops[0..e.i] == ops[..e.i];
      var spliced := Block(e.region.blocks[c].args, Splice(ops, e.i, e.newOps));
      assert SubstOps(e.s, spliced.ops) == e.NewSuffix(c, 0);
      assert Replaced(e.region, e.b, e.i, e.newOps, e.s).blocks[c] == SubstBlock(e.s, spliced);
    } else {
      assert SubstBlock(e.s, e.region.blocks[c]) == Block(e.region.blocks[c].args, e.NewSuffix(c, 0));
    }
  }

  lemma BlockPreserved(e: Edit, impl: Impl, p: seq<nat>, used: set<Value>, args: PyValues, env: Env, env': Env, limit: nat, pace: Pace)
    returns (later: nat)
    requires e.Valid(impl) && Equivalent(impl, e.Old(), e.newOps, e.s, limit, pace) && IsPath(e.region, p)
    requires e.Live(p[|p| - 1], 0) <= used && Related(e.s, used, env, env')
    requires pace.Covers(RunBlock(impl, e.region.blocks[p[|p| - 1]], args, env, limit))
    ensures pace.Allows(limit, later) && BlockFollowed(e, impl, p[|p| - 1], args, env, env', limit, later)
  {
    var c := p[|p| - 1];
    var block := e.region.blocks[c];
    BindLive(e, impl, p, 0, used, env, env', args);
    assert block.ops[0..] == block.ops;
    AllOpsAgree(e, impl, limit, pace);
    later := SuffixPreserved(e, impl, p, 0, Bind(env, block.args, args), Bind(env', block.args, args), limit, pace);
    ReplacedBlock(e, c);
  }

  ghost predicate BlockFollowed(e: Edit, impl: Impl, c: nat, args: PyValues, env: Env, env': Env, limit: nat, later: nat)
    requires At(e.region, e.b, e.i) && c < |e.region.blocks|
  {
    RelatedOutcome(e.s, e.Live(c, |e.region.blocks[c].ops|),
                   RunBlock(impl, e.region.blocks[c], args, env, limit),
                   RunBlock(impl, Replaced(e.region, e.b, e.i, e.newOps, e.s).blocks[c], args, env', later))
  }

  /** The walk, extended by the block a run goes to next. */
  lemma NextBlock(e: Edit, impl: Impl, p: seq<nat>, args: PyValues, env: Env, limit: nat)
    requires At(e.region, e.b, e.i) && IsPath(e.region, p)
    requires var o := RunBlock(impl, e.region.blocks[p[|p| - 1]], args, env, limit);
             o.Done? && o.value.0.Goto? && o.value.0.block < |e.region.blocks|
    ensures var c := p[|p| - 1];
            var d := RunBlock(impl, e.region.blocks[c], args, env, limit).value.0.block;
            IsPath(e.region, p + [d]) && e.Live(d, 0) <= e.Live(c, |e.region.blocks[c].ops|)
  {
    var c := p[|p| - 1];
    var block := e.region.blocks[c];
    var op := GotoIsSuccessor(impl, block.ops, Bind(env, block.args, args), limit);
    var d := RunBlock(impl, block, args, env, limit).value.0.block;
    assert Edge(e.region, c, d);
    LiveAlongEdge(e, c, d);
    PathExtends(e.region, p, d);
  }

  /** Runs agree when they agree on the first block and on what follows it. */
  lemma RunBlocksAgree(impl: Impl, r: Region, r': Region, b: nat, args: PyValues, env: Env, env': Env,
                       limit: nat, left: nat, later: nat, left': nat)
    requires left > 0 && left' > 0 && b < |r.blocks| == |r'.blocks|
    requires var o, o' := RunBlock(impl, r.blocks[b], args, env, limit), RunBlock(impl, r'.blocks[b], args, env', later);
             if o.Done? then o'.Done? && o'.value.0 == o.value.0 else o' == o
    requires var o, o' := RunBlock(impl, r.blocks[b], args, env, limit), RunBlock(impl, r'.blocks[b], args, env', later);
             o.Done? && o.value.0.Goto? && o'.Done? ==>
               RunBlocks(impl, r', o.value.0.block, o.value.0.args, o'.value.1, later, left' - 1)
               == RunBlocks(impl, r, o.value.0.block, o.value.0.args, o.value.1, limit, left - 1)
    ensures RunBlocks(impl, r', b, args, env', later, left') == RunBlocks(impl, r, b, args, env, limit, left)
  {
  }

  /** Whatever relates the environments on entry to block `p[|p| - 1]` relates them on its exits. */
  ghost predicate BlockAgrees(e: Edit, impl: Impl, p: seq<nat>, args: PyValues, env: Env, env': Env, limit: nat, pace: Pace)
    requires At(e.region, e.b, e.i)
  {
    IsPath(e.region, p) && Related(e.s, e.Live(p[|p| - 1], 0), env, env')
    && pace.Covers(RunBlock(impl, e.region.blocks[p[|p| - 1]], args, env, limit)) ==>
      exists later: nat :: pace.Allows(limit, later) && BlockFollowed(e, impl, p[|p| - 1], args, env, env', limit, later)
  }

  ghost predicate BlocksAgree(e: Edit, impl: Impl, limit: nat, pace: Pace)
    requires At(e.region, e.b, e.i)
  {
    forall p, args, env, env' :: BlockAgrees(e, impl, p, args, env, env', limit, pace)
  }

  lemma AllBlocksAgree(e: Edit, impl: Impl, limit: nat, pace: Pace)
    requires e.Valid(impl) && Equivalent(impl, e.Old(), e.newOps, e.s, limit, pace)
    ensures BlocksAgree(e, impl, limit, pace)
  {
    forall p, args, env, env'
      ensures BlockAgrees(e, impl, p, args, env, env', limit, pace)
    {
      if IsPath(e.region, p) && Related(e.s, e.Live(p[|p| - 1], 0), env, env')
        && pace.Covers(RunBlock(impl, e.region.blocks[p[|p| - 1]], args, env, limit))
      {
        var later := BlockPreserved(e, impl, p, e.Live(p[|p| - 1], 0), args, env, env', limit, pace);
      }
    }
  }

  /** Runs along the walk `p`, through every loop, agree. */
  lemma {:induction false} BlocksPreserved(e: Edit, impl: Impl, p: seq<nat>, args: PyValues,
                                           env: Env, env': Env, limit: nat, left: nat, pace: Pace)
    returns (later: nat, left': nat)
    requires At(e.region, e.b, e.i) && BlocksAgree(e, impl, limit, pace) && IsPath(e.region, p)
    requires Related(e.s, e.Live(p[|p| - 1], 0), env, env')
    requires pace.Covers(RunBlocks(impl, e.region, p[|p| - 1], args, env, limit, left))
    ensures pace.Allows(limit, later) && pace.Allows(left, left')
    ensures RunBlocks(impl, Replaced(e.region, e.b, e.i, e.newOps, e.s), p[|p| - 1], args, env', later, left')
         == RunBlocks(impl, e.region, p[|p| - 1], args, env, limit, left)
    decreases left, 0
  {
    later, left' := limit, left;
    if left > 0 {
      var c := p[|p| - 1];
      var changed := Replaced(e.region, e.b, e.i, e.newOps, e.s);
      var o := RunBlock(impl, e.region.blocks[c], args, env, limit);
      assert BlockAgrees(e, impl, p, args, env, env', limit, pace);
      var near: nat :| pace.Allows(limit, near) && BlockFollowed(e, impl, c, args, env, env', limit, near);
      var o' := RunBlock(impl, changed.blocks[c], args, env', near);
      later := near;
      if o.Done? && o.value.0.Goto? && o.value.0.block < |e.region.blocks| {
        var far, rest := JumpPreserved(e, impl, p, args, env, o'.value.1, o.value.1, limit, left - 1, pace);
        later, left' := Max(near, far), rest + 1;
        LiftBlocks(impl, changed, o.value.0.block, o.value.0.args, o'.value.1, far, rest, later, rest);
      }
      LiftOps(impl, changed.blocks[c].ops, Bind(env', changed.blocks[c].args, args), near, later);
      RunBlocksAgree(impl, e.region, changed, c, args, env, env', limit, left, later, left');
    }
  }

  /** From a block that jumps, runs go on in agreement. */
  lemma {:induction false} JumpPreserved(e: Edit, impl: Impl, p: seq<nat>, args: PyValues, env: Env, env': Env, after: Env,
                                         limit: nat, left: nat, pace: Pace)
    returns (later: nat, left': nat)
    requires At(e.region, e.b, e.i) && BlocksAgree(e, impl, limit, pace) && IsPath(e.region, p)
    requires var c := p[|p| - 1];
             var o := RunBlock(impl, e.region.blocks[c], args, env, limit);
             o.Done? && o.value.0.Goto? && o.value.0.block < |e.region.blocks| && o.value.1 == after
             && Related(e.s, e.Live(c, |e.region.blocks[c].ops|), after, env')
             && pace.Covers(RunBlocks(impl, e.region, o.value.0.block, o.value.0.args, after, limit, left))
    ensures pace.Allows(limit, later) && pace.Allows(left, left')
    ensures var next := RunBlock(impl, e.region.blocks[p[|p| - 1]], args, env, limit).value.0;
            RunBlocks(impl, Replaced(e.region, e.b, e.i, e.newOps, e.s), next.block, next.args, env', later, left')
            == RunBlocks(impl, e.region, next.block, next.args, after, limit, left)
    decreases left, 1
  {
    var c := p[|p| - 1];
    var next := RunBlock(impl, e.region.blocks[c], args, env, limit).value.0;
    NextBlock(e, impl, p, args, env, limit);
    var q := p + [next.block];
    assert q[|q| - 1] == next.block;
    later, left' := BlocksPreserved(e, impl, q, next.args, after, env', limit, left, pace);
  }

  /** On entry to the region no result of the operation is available, and both runs see one environment. */
  lemma EntryRelated(e: Edit, env: Env)
    requires At(e.region, e.b, e.i) && e.s.Keys <= Names(e.Old().results)
    ensures IsPath(e.region, [0]) && Related(e.s, e.Live(0, 0), env, env)
  {
    var p := [0];
    assert IsPath(e.region, p);
    assert !e.Available(0, 0) by {
      if e.b != 0 {
        assert e.b !in p;
      }
    }
  }

  lemma RegionPreserved(e: Edit, impl: Impl, args: PyValues, env: Env, limit: nat, pace: Pace)
    requires e.Valid(impl) && Equivalent(impl, e.Old(), e.newOps, e.s, limit, pace)
    ensures Follows(impl, e.region, Replaced(e.region, e.b, e.i, e.newOps, e.s), args, env, limit, pace)
  {
    var changed := Replaced(e.region, e.b, e.i, e.newOps, e.s);
    if pace.Covers(RunRegion(impl, e.region, args, env, limit)) {
      EntryRelated(e, env);
      AllBlocksAgree(e, impl, limit, pace);
      var near, left := BlocksPreserved(e, impl, [0], args, env, env, limit, limit, pace);
      var later := Max(near, left);
      LiftBlocks(impl, changed, 0, args, env, near, left, later, later);
      assert FollowsAt(impl, e.region, changed, args, env, limit, later, pace);
    }
  }

  /**
   Replacing an operation by equivalent ones: every run of the region under the bound is followed at
   the same pace, for all arguments and environments.
   */
  lemma ReplaceKeepsPace(e: Edit, impl: Impl, limit: nat, pace: Pace)
    requires e.Valid(impl) && Equivalent(impl, e.Old(), e.newOps, e.s, limit, pace)
    ensures Simulates(impl, e.region, Replaced(e.region, e.b, e.i, e.newOps, e.s), limit, pace)
  {
    forall args, env
      ensures Follows(impl, e.region, Replaced(e.region, e.b, e.i, e.newOps, e.s), args, env, limit, pace)
    {
      RegionPreserved(e, impl, args, env, limit, pace);
    }
  }

  /**
   Replacing an operation by operations that compute the same values wherever it completes: whatever
   the region returns, it still returns.
   */
  lemma ReplacePreservesMeaning(e: Edit, impl: Impl)
    requires e.Valid(impl) && Realizes(impl, e.Old(), e.newOps, e.s)
    ensures Refines(impl, e.region, Replaced(e.region, e.b, e.i, e.newOps, e.s))
  {
    forall limit: nat ensures Simulates(impl, e.region, Replaced(e.region, e.b, e.i, e.newOps, e.s), limit, Eventually) {
      ReplaceKeepsPace(e, impl, limit, Eventually);
    }
    RefinesExactly(impl, e.region, Replaced(e.region, e.b, e.i, e.newOps, e.s));
  }
}
