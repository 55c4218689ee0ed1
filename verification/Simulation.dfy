/**
 When one region does what another does, bounds aside or bound by bound, and why it is enough that
 nested regions do so.
 */
module Simulation {
  import opened Ir
  import opened Semantics
  import opened Refinement

  /**
   How closely a run is followed. `Eventually`: what returns still returns the same, maybe under a
   larger bound. `Within`: under the same bound. `InStep`: what stops at the bound also still does.
   */
  datatype Pace = Eventually | Within | InStep {
    predicate Allows(limit: nat, later: nat)
    {
      if Eventually? then limit <= later else later == limit
    }

    /** The runs that are followed. */
    predicate Covers<T>(o: Outcome<T>)
    {
      o.Done? || (InStep? && o.OutOfLimit?)
    }
  }

  // ----- regions -----

  ghost predicate Follows(impl: Impl, r: Region, r': Region, args: PyValues, env: Env, limit: nat, pace: Pace)
  {
    pace.Covers(RunRegion(impl, r, args, env, limit)) ==>
      exists later :: FollowsAt(impl, r, r', args, env, limit, later, pace)
  }

  ghost predicate FollowsAt(impl: Impl, r: Region, r': Region, args: PyValues, env: Env, limit: nat, later: nat, pace: Pace)
  {
    pace.Allows(limit, later) && RunRegion(impl, r', args, env, later) == RunRegion(impl, r, args, env, limit)
  }

  /** Every run of `r` under the bound is followed by `r'`. */
  ghost predicate Simulates(impl: Impl, r: Region, r': Region, limit: nat, pace: Pace)
  {
    forall args, env :: Follows(impl, r, r', args, env, limit, pace)
  }

  /** The region returns `values` under some bound, and then under every larger one. */
  ghost predicate Returns(impl: Impl, region: Region, args: PyValues, env: Env, values: PyValues)
  {
    exists limit: nat :: RunRegion(impl, region, args, env, limit) == Done(values)
  }

  /** Whatever `r` returns, `r'` returns. */
  ghost predicate Refines(impl: Impl, r: Region, r': Region)
  {
    forall args, env, values :: Returns(impl, r, args, env, values) ==> Returns(impl, r', args, env, values)
  }

  lemma ReturnsOnce(impl: Impl, region: Region, args: PyValues, env: Env, limit: nat, limit': nat)
    requires RunRegion(impl, region, args, env, limit).Done? && RunRegion(impl, region, args, env, limit').Done?
    ensures RunRegion(impl, region, args, env, limit) == RunRegion(impl, region, args, env, limit')
  {
    if limit <= limit' {
      LimitIrrelevant(impl, region, args, env, limit, limit');
    } else {
      LimitIrrelevant(impl, region, args, env, limit', limit);
    }
  }

  /** Following every run, eventually, is returning whatever it returns. */
  lemma RefinesExactly(impl: Impl, r: Region, r': Region)
    ensures Refines(impl, r, r') <==> forall limit: nat :: Simulates(impl, r, r', limit, Eventually)
  {
    if Refines(impl, r, r') {
      forall limit: nat, args, env ensures Follows(impl, r, r', args, env, limit, Eventually) {
        var o := RunRegion(impl, r, args, env, limit);
        if o.Done? {
          assert Returns(impl, r, args, env, o.value);
          var found: nat :| RunRegion(impl, r', args, env, found) == o;
          var later := if limit <= found then found else limit;
          LimitIrrelevant(impl, r', args, env, found, later);
          assert FollowsAt(impl, r, r', args, env, limit, later, Eventually);
        }
      }
    }
    if forall limit: nat :: Simulates(impl, r, r', limit, Eventually) {
      forall args, env, values | Returns(impl, r, args, env, values) ensures Returns(impl, r', args, env, values) {
        var limit: nat :| RunRegion(impl, r, args, env, limit) == Done(values);
        assert Simulates(impl, r, r', limit, Eventually) && Follows(impl, r, r', args, env, limit, Eventually);
        var later :| FollowsAt(impl, r, r', args, env, limit, later, Eventually);
      }
    }
  }

  lemma SimulatesItself(impl: Impl, r: Region, limit: nat, pace: Pace)
    ensures Simulates(impl, r, r, limit, pace)
  {
    forall args, env ensures Follows(impl, r, r, args, env, limit, pace) {
      assert FollowsAt(impl, r, r, args, env, limit, limit, pace);
    }
  }

  lemma SimulatesOnwards(impl: Impl, r: Region, r': Region, r'': Region, limit: nat, pace: Pace)
    requires Simulates(impl, r, r', limit, pace)
    requires forall later: nat :: pace.Allows(limit, later) ==> Simulates(impl, r', r'', later, pace)
    ensures Simulates(impl, r, r'', limit, pace)
  {
    forall args, env ensures Follows(impl, r, r'', args, env, limit, pace) {
      assert Follows(impl, r, r', args, env, limit, pace);
      if pace.Covers(RunRegion(impl, r, args, env, limit)) {
        var later: nat :| FollowsAt(impl, r, r', args, env, limit, later, pace);
        assert Simulates(impl, r', r'', later, pace) && Follows(impl, r', r'', args, env, later, pace);
        var last: nat :| FollowsAt(impl, r', r'', args, env, later, last, pace);
        assert FollowsAt(impl, r, r'', args, env, limit, last, pace);
      }
    }
  }

  // ----- larger bounds -----

  function Max(a: nat, b: nat): nat
  {
    if a < b then b else a
  }

  /** A bound may be raised, once the run does not meet it. */
  lemma LiftOps(impl: Impl, ops: seq<Op>, env: Env, near: nat, later: nat)
    requires near <= later && (near == later || RunOps(impl, ops, env, near) != OutOfLimit)
    ensures RunOps(impl, ops, env, later) == RunOps(impl, ops, env, near)
  {
    if near < later {
      OpsLimit(impl, ops, env, near, later);
    }
  }

  lemma LiftBlocks(impl: Impl, region: Region, b: nat, args: PyValues, env: Env, near: nat, left: nat, later: nat, left': nat)
    requires near <= later && left <= left'
    requires (near, left) == (later, left') || RunBlocks(impl, region, b, args, env, near, left) != OutOfLimit
    ensures RunBlocks(impl, region, b, args, env, later, left') == RunBlocks(impl, region, b, args, env, near, left)
  {
    if (near, left) != (later, left') {
      BlocksLimit(impl, region, b, args, env, near, left, later, left');
    }
  }
}
