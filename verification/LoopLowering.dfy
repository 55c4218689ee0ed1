/**
 A lowering that needs ever larger bounds: an operation gives way to a loop over its input, which
 compiled code does, but no bound on region runs covers for all inputs.
 */
module LoopLowering {
  import opened Ir
  import opened Semantics
  import opened Refinement
  import opened Simulation
  import opened Replacement
  import opened Preservation

  /** Clamps value 1 to at least zero, as value 2. */
  const COUNT := Op(Code("count", []), [1], [2], [], [])

  /** Counts as far as value 1 by running its empty body once for each step, as value 3. */
  const BODY := Region([Block([], [])])
  const FOR := Op(Code("for", []), [1], [3], [], [BODY])

  function Implementation(code: Code, inputs: PyValues, history: seq<PyValues>): Action
  {
    if |inputs| != 1 || !inputs[0].PyInt? then Raise(0)
    else if code.name == "count" then Finish([PyInt(if inputs[0].i < 0 then 0 else inputs[0].i)], NoTerminator)
    else if code.name == "for" then
      if |history| < inputs[0].i then RunRegionOf(0, []) else Finish([PyInt(|history|)], NoTerminator)
    else Raise(0)
  }

  lemma BodyReturns(env: Env, limit: nat)
    requires limit > 0
    ensures RunRegion(Implementation, BODY, [], env, limit) == Done([])
  {
  }

  /** With a large enough bound the loop counts to the end. */
  lemma {:induction false} ForCounts(n: int, history: seq<PyValues>, env: Env, limit: nat)
    requires |history| <= limit && n <= limit && (|history| <= n || history == [])
    ensures RunImpl(Implementation, FOR, [PyInt(n)], history, env, limit) == Done(([PyInt(if n < 0 then 0 else n)], NoTerminator))
    decreases limit - |history|
  {
    if |history| < n {
      BodyReturns(env, limit);
      ForCounts(n, history + [[]], env, limit);
    }
  }

  /** With any smaller one it does not. */
  lemma {:induction false} ForStops(n: int, history: seq<PyValues>, env: Env, limit: nat)
    requires |history| <= limit < n
    ensures RunImpl(Implementation, FOR, [PyInt(n)], history, env, limit) == OutOfLimit
    decreases limit - |history|
  {
    if |history| < limit {
      BodyReturns(env, limit);
      ForStops(n, history + [[]], env, limit);
    }
  }

  lemma CountRuns(env: Env, limit: nat)
    ensures RunOp(Implementation, COUNT, env, limit).Done? <==> 1 in env && env[1].PyInt?
    ensures 1 in env && env[1].PyInt? ==>
              RunOp(Implementation, COUNT, env, limit) == Done((Continue, env[2 := PyInt(if env[1].i < 0 then 0 else env[1].i)]))
  {
    if 1 in env {
      LookupPresent(env, [1], [env[1]]);
    } else {
      LookupMissing(env, [1], 0);
    }
  }

  lemma ForRuns(env: Env, limit: nat)
    requires 1 in env && env[1].PyInt?
    ensures env[1].i <= limit ==>
              RunOps(Implementation, [FOR], env, limit) == Done((Continue, env[3 := PyInt(if env[1].i < 0 then 0 else env[1].i)]))
    ensures env[1].i > limit ==> RunOps(Implementation, [FOR], env, limit) == OutOfLimit
  {
    RunOne(Implementation, FOR, env, limit);
    LookupPresent(env, [1], [env[1]]);
    if env[1].i <= limit {
      ForCounts(env[1].i, [], env, limit);
    } else {
      ForStops(env[1].i, [], env, limit);
    }
  }

  /** The loop computes the same value wherever the operation completes. */
  lemma ForRealizesCount()
    ensures Realizes(Implementation, COUNT, [FOR], map[2 := 3])
  {
    forall limit: nat, env: Env ensures EquivalentIn(Implementation, COUNT, [FOR], map[2 := 3], limit, Eventually, env) {
      CountRuns(env, limit);
      if RunOp(Implementation, COUNT, env, limit).Done? {
        var later := if env[1].i <= limit then limit else env[1].i;
        ForRuns(env, later);
        assert Eventually.Allows(limit, later) && SameEffect(Implementation, COUNT, [FOR], map[2 := 3], limit, later, env);
      }
    }
  }

  /** But under no bound does it do so within that bound. */
  lemma ForNeedsMore(limit: nat)
    ensures !Equivalent(Implementation, COUNT, [FOR], map[2 := 3], limit, Within)
  {
    var env: Env := map[1 := PyInt(limit + 1)];
    CountRuns(env, limit);
    ForRuns(env, limit);
    assert !EquivalentIn(Implementation, COUNT, [FOR], map[2 := 3], limit, Within, env);
  }

  /** So, wherever the operation stands, whatever its region returned is still returned. */
  lemma LoweringPreservesMeaning(e: Edit)
    requires e.Valid(Implementation) && e.Old() == COUNT && e.newOps == [FOR] && e.s == map[2 := 3]
    ensures Refines(Implementation, e.region, Replaced(e.region, e.b, e.i, [FOR], map[2 := 3]))
  {
    ForRealizesCount();
    ReplacePreservesMeaning(e, Implementation);
  }
}
