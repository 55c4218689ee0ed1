/**
 In a region whose uses are dominated by their definitions, no run of any length ever
 misses a value or assigns one twice.
 */
module Safety {
  import opened Ir
  import opened Semantics
  import opened Refinement
  import opened Dominance

  /**
   What an implementation owes its operation: only the last operation of a block
   transfers control, and block arguments are supplied in full.
   */
  ghost predicate Conforms(impl: Impl, region: Region)
    decreases region
  {
    forall b, i :: 0 <= b < |region.blocks| && 0 <= i < |region.blocks[b].ops| ==>
      var op := region.blocks[b].ops[i];
      && OpConforms(impl, region, op, i + 1 == |region.blocks[b].ops|)
      && forall r :: r in op.regions ==> Conforms(impl, r)
  }

  ghost predicate OpConforms(impl: Impl, region: Region, op: Op, last: bool)
  {
    forall inputs, history :: |inputs| == |op.operands| ==>
      ActionConforms(impl(op.code, inputs, history), region, op, last)
  }

  ghost predicate ActionConforms(action: Action, region: Region, op: Op, last: bool)
  {
    match action
    case Raise(_) => true
    case Finish(_, terminator) =>
      && (terminator.NoTerminator? || last)
      && (terminator.Successor? && terminator.index < |op.successors| ==>
            Supplies(region, op.successors[terminator.index], terminator.args))
    case RunRegionOf(k, args) => k < |op.regions| ==> Supplies(op.regions[k], 0, args)
  }

  /** `args` cover every argument of block `b`. */
  predicate Supplies(region: Region, b: nat, args: PyValues)
  {
    b < |region.blocks| ==> |args| >= |region.blocks[b].args|
  }

  predicate NoSsaError<T>(o: Outcome<T>)
  {
    o.Failed? ==> !o.error.ValueNotFound? && !o.error.AlreadyAssigned?
  }

  // ----- environments -----

  lemma {:induction false} BindKeys(env: Env, names: seq<Value>, vals: PyValues)
    ensures env.Keys <= Bind(env, names, vals).Keys
    ensures |names| <= |vals| ==> Names(names) <= Bind(env, names, vals).Keys
    decreases names
  {
    if names != [] && vals != [] {
      BindKeys(env[names[0] := vals[0]], names[1..], vals[1..]);
      assert names == [names[0]] + names[1..];
    }
  }

  lemma {:induction false} LookupSucceeds(env: Env, vs: seq<Value>)
    requires Names(vs) <= env.Keys
    ensures LookupAll(env, vs).Done? && |LookupAll(env, vs).value| == |vs|
  {
    if vs != [] {
      assert vs[0] in Names(vs);
      assert Names(vs[1..]) <= Names(vs);
      LookupSucceeds(env, vs[1..]);
    }
  }

  // ----- runs -----

  lemma {:induction false} RegionSafe(impl: Impl, region: Region, outer: set<Value>, args: PyValues, env: Env, limit: nat)
    requires WellFormed(region, outer) && Conforms(impl, region)
    requires outer <= env.Keys && Supplies(region, 0, args)
    ensures NoSsaError(RunRegion(impl, region, args, env, limit))
    decreases region, 2
  {
    if region.blocks != [] {
      BlocksSafe(impl, region, outer, [0], args, env, limit, limit);
    }
  }

  /** The values of every block entered earlier on the walk `p`. */
  ghost predicate Visited(region: Region, p: seq<nat>, env: Env)
  {
    forall i :: 0 <= i < |p| - 1 && p[i] < |region.blocks| ==> Names(Defs(region.blocks[p[i]])) <= env.Keys
  }

  /** Every block a run reaches finds the values that dominate it, however long the walk. */
  lemma {:induction false} BlocksSafe(impl: Impl, region: Region, outer: set<Value>, p: seq<nat>, args: PyValues,
                                      env: Env, limit: nat, left: nat)
    requires WellFormed(region, outer) && Conforms(impl, region)
    requires IsPath(region, p) && Visited(region, p, env)
    requires outer <= env.Keys && Supplies(region, p[|p| - 1], args)
    ensures NoSsaError(RunBlocks(impl, region, p[|p| - 1], args, env, limit, left))
    decreases region, 1, left
  {
    if left > 0 {
      var b := p[|p| - 1];
      var block := region.blocks[b];
      BindKeys(env, block.args, args);
      DominatorsVisited(region, p, env);
      assert block.ops[..0] == [] && block.ops[0..] == block.ops;
      OpsSafe(impl, region, outer, b, 0, Bind(env, block.args, args), limit);
      var o := RunBlock(impl, block, args, env, limit);
      if o.Done? && o.value.0.Goto? && o.value.0.block < |region.blocks| {
        PathExtends(region, p, o.value.0.block);
        VisitedExtends(region, p, o.value.0.block, env, o.value.1);
        BlocksSafe(impl, region, outer, p + [o.value.0.block], o.value.0.args, o.value.1, limit, left - 1);
      }
    }
  }

  lemma DominatorsVisited(region: Region, p: seq<nat>, env: Env)
    requires IsPath(region, p) && Visited(region, p, env)
    ensures DominatingDefs(region, p[|p| - 1]) <= env.Keys
  {
    var b := p[|p| - 1];
    forall d, v | 0 <= d < |region.blocks| && d != b && Dominates(region, d, b) && v in Defs(region.blocks[d])
      ensures v in env.Keys
    {
      assert d in p;
      var i :| 0 <= i < |p| && p[i] == d;
      assert v in Names(Defs(region.blocks[p[i]]));
    }
  }

  lemma VisitedExtends(region: Region, p: seq<nat>, c: nat, env: Env, env': Env)
    requires |p| > 0 && p[|p| - 1] < |region.blocks| && Visited(region, p, env)
    requires env.Keys <= env'.Keys && Names(Defs(region.blocks[p[|p| - 1]])) <= env'.Keys
    ensures Visited(region, p + [c], env')
  {
    var q := p + [c];
    forall i | 0 <= i < |q| - 1 && q[i] < |region.blocks|
      ensures Names(Defs(region.blocks[q[i]])) <= env'.Keys
    {
      if i < |p| - 1 {
        assert q[i] == p[i];
      }
    }
  }

  lemma {:induction false} OpsSafe(impl: Impl, region: Region, outer: set<Value>, b: nat, i: nat, env: Env, limit: nat)
    requires WellFormed(region, outer) && Conforms(impl, region)
    requires b < |region.blocks| && i <= |region.blocks[b].ops|
    requires Visible(region, outer, b, i) <= env.Keys
    ensures var o := RunOps(impl, region.blocks[b].ops[i..], env, limit);
            && NoSsaError(o)
            && (o.Done? ==> env.Keys <= o.value.1.Keys)
            && (o.Done? && o.value.0.Goto? ==>
                  && Edge(region, b, o.value.0.block)
                  && Supplies(region, o.value.0.block, o.value.0.args)
                  && Names(Defs(region.blocks[b])) <= o.value.1.Keys)
    decreases region, 0, |region.blocks[b].ops| - i
  {
    var ops := region.blocks[b].ops;
    if i < |ops| {
      var op := ops[i];
      assert ops[i..][0] == op && ops[i..][1..] == ops[i + 1..];
      OpSafe(impl, region, Visible(region, outer, b, i), op, i + 1 == |ops|, env, limit);
      ResultsPrefix(ops, i);
      var o := RunOp(impl, op, env, limit);
      if o.Done? {
        assert Visible(region, outer, b, i + 1) <= o.value.1.Keys;
        if o.value.0.Continue? {
          OpsSafe(impl, region, outer, b, i + 1, o.value.1, limit);
        } else {
          assert ops[..i + 1] == ops;
        }
      }
    }
  }

  lemma {:induction false} OpSafe(impl: Impl, region: Region, visible: set<Value>, op: Op, last: bool, env: Env, limit: nat)
    requires OpConforms(impl, region, op, last)
    requires forall r :: r in op.regions ==> Conforms(impl, r) && WellFormed(r, visible)
    requires Names(op.operands) <= visible <= env.Keys
    ensures var o := RunOp(impl, op, env, limit);
            && NoSsaError(o)
            && (o.Done? ==> env.Keys + Names(op.results) <= o.value.1.Keys)
            && (o.Done? && !o.value.0.Continue? ==> last)
            && (o.Done? && o.value.0.Goto? ==>
                  o.value.0.block in op.successors && Supplies(region, o.value.0.block, o.value.0.args))
    decreases op, 1
  {
    LookupSucceeds(env, op.operands);
    var inputs := LookupAll(env, op.operands).value;
    ImplSafe(impl, region, visible, op, last, inputs, [], env, limit);
    var o := RunImpl(impl, op, inputs, [], env, limit);
    if o.Done? {
      BindKeys(env, op.results, o.value.0);
    }
  }

  lemma {:induction false} ImplSafe(impl: Impl, region: Region, visible: set<Value>, op: Op, last: bool,
                                    inputs: PyValues, history: seq<PyValues>, env: Env, limit: nat)
    requires |history| <= limit && |inputs| == |op.operands|
    requires OpConforms(impl, region, op, last)
    requires forall r :: r in op.regions ==> Conforms(impl, r) && WellFormed(r, visible)
    requires visible <= env.Keys
    ensures var o := RunImpl(impl, op, inputs, history, env, limit);
            && NoSsaError(o)
            && (o.Done? ==> ActionConforms(Finish(o.value.0, o.value.1), region, op, last))
    decreases op, 0, limit - |history|
  {
    var action := impl(op.code, inputs, history);
    assert ActionConforms(action, region, op, last);
    if action.RunRegionOf? && action.region < |op.regions| && |history| < limit {
      RegionSafe(impl, op.regions[action.region], visible, action.args, env, limit);
      var r := RunRegion(impl, op.regions[action.region], action.args, env, limit);
      if r.Done? {
        ImplSafe(impl, region, visible, op, last, inputs, history + [r.value], env, limit);
      }
    }
  }

  /** The interpreter's own scopes: neither SSA error is reachable, under any limit. */
  lemma ScopedRegionSafe(impl: Impl, region: Region, outer: set<Value>, args: PyValues, chain: Chain, limit: nat)
    requires UniqueDefs(region) && WellFormed(region, outer) && Conforms(impl, region)
    requires outer <= Flatten(chain).Keys && Supplies(region, 0, args)
    ensures NoSsaError(ScopedRegion(impl, region, args, chain, limit))
  {
    ScopedRefinesFlat(impl, region, args, chain, limit);
    RegionSafe(impl, region, outer, args, Flatten(chain), limit);
  }
}
