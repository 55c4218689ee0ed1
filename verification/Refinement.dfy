/**
 The growing chain of single-assignment scopes refines one flat environment, for runs
 of every length, and a larger limit never changes an answer.
 */
module Refinement {
  import opened Ir
  import opened Semantics

  /** No block, at any depth, defines a value twice. */
  ghost predicate UniqueDefs(region: Region)
    decreases region
  {
    forall b :: b in region.blocks ==>
      && Distinct(Defs(b))
      && UniqueBelow(b.ops)
  }

  ghost predicate UniqueBelow(ops: seq<Op>)
    decreases ops
  {
    forall op :: op in ops ==> forall r :: r in op.regions ==> UniqueDefs(r)
  }

  function Names(s: seq<Value>): set<Value>
  {
    set v | v in s
  }

  // ----- binding -----

  lemma {:induction false} BindOver(base: Env, scope: Env, names: seq<Value>, vals: PyValues)
    ensures Bind(base + scope, names, vals) == base + Bind(scope, names, vals)
    ensures Bind(scope, names, vals).Keys <= scope.Keys + Names(names)
    decreases names
  {
    if names != [] && vals != [] {
      assert (base + scope)[names[0] := vals[0]] == base + scope[names[0] := vals[0]];
      BindOver(base, scope[names[0] := vals[0]], names[1..], vals[1..]);
    }
  }

  lemma {:induction false} DefineIsBind(scope: Env, names: seq<Value>, vals: PyValues)
    requires Distinct(names)
    requires forall v :: v in names ==> v !in scope
    ensures Define(scope, names, vals) == Done(Bind(scope, names, vals))
    decreases names
  {
    if names != [] && vals != [] {
      var scope' := scope[names[0] := vals[0]];
      DefineIsBind(scope', names[1..], vals[1..]);
    }
  }

  lemma FlattenPush(chain: Chain, scope: Env)
    ensures Flatten(chain + [scope]) == Flatten(chain) + scope
  {
    assert (chain + [scope])[..|chain|] == chain;
  }

  // ----- refinement -----

  /** The flat outcome that corresponds to a scoped one above `base`. */
  function Lift(base: Env, o: Outcome<(Next, Env)>): Outcome<(Next, Env)>
  {
    var (next, scope) :- o;
    Done((next, base + scope))
  }

  /** Region results agree, whatever the scopes below and however many blocks are entered. */
  lemma {:induction false} ScopedRefinesFlat(impl: Impl, region: Region, args: PyValues, chain: Chain, limit: nat)
    requires UniqueDefs(region)
    ensures ScopedRegion(impl, region, args, chain, limit) == RunRegion(impl, region, args, Flatten(chain), limit)
    decreases region, 2
  {
    if region.blocks != [] {
      BlocksRefine(impl, region, 0, args, chain, limit, limit);
    }
  }

  /** Every block entry of the run, loops included, keeps the two environments equal. */
  lemma {:induction false} BlocksRefine(impl: Impl, region: Region, b: nat, args: PyValues, chain: Chain, limit: nat, left: nat)
    requires UniqueDefs(region)
    ensures ScopedBlocks(impl, region, b, args, chain, limit, left)
         == RunBlocks(impl, region, b, args, Flatten(chain), limit, left)
    decreases region, 1, left
  {
    if b < |region.blocks| && left > 0 {
      assert region.blocks[b] in region.blocks;
      BlockRefines(impl, region.blocks[b], args, chain, limit);
      var o := ScopedBlock(impl, region.blocks[b], args, chain, limit);
      if o.Done? && o.value.0.Goto? {
        FlattenPush(chain, o.value.1);
        BlocksRefine(impl, region, o.value.0.block, o.value.0.args, chain + [o.value.1], limit, left - 1);
      }
    }
  }

  lemma {:induction false} BlockRefines(impl: Impl, block: Block, args: PyValues, chain: Chain, limit: nat)
    requires Distinct(Defs(block)) && UniqueBelow(block.ops)
    ensures RunBlock(impl, block, args, Flatten(chain), limit)
         == Lift(Flatten(chain), ScopedBlock(impl, block, args, chain, limit))
    decreases block, 0
  {
    DistinctSplit(block.args, Results(block.ops));
    DefineIsBind(map[], block.args, args);
    BindOver(Flatten(chain), map[], block.args, args);
    assert Flatten(chain) + map[] == Flatten(chain);
    OpsRefine(impl, block.ops, chain, Bind(map[], block.args, args), limit);
  }

  lemma {:induction false} OpsRefine(impl: Impl, ops: seq<Op>, chain: Chain, scope: Env, limit: nat)
    requires UniqueBelow(ops) && Distinct(Results(ops))
    requires forall v :: v in Results(ops) ==> v !in scope
    ensures RunOps(impl, ops, Flatten(chain) + scope, limit)
         == Lift(Flatten(chain), ScopedOps(impl, ops, chain, scope, limit))
    decreases ops, 0
  {
    if ops != [] {
      DistinctSplit(ops[0].results, Results(ops[1..]));
      assert ops[0] in ops;
      OpRefines(impl, ops[0], chain, scope, limit);
      var o := ScopedOp(impl, ops[0], chain, scope, limit);
      if o.Done? && o.value.0.Continue? {
        OpsRefine(impl, ops[1..], chain, o.value.1, limit);
      }
    }
  }

  lemma {:induction false} OpRefines(impl: Impl, op: Op, chain: Chain, scope: Env, limit: nat)
    requires forall r :: r in op.regions ==> UniqueDefs(r)
    requires Distinct(op.results) && forall v :: v in op.results ==> v !in scope
    ensures RunOp(impl, op, Flatten(chain) + scope, limit)
         == Lift(Flatten(chain), ScopedOp(impl, op, chain, scope, limit))
    ensures var o := ScopedOp(impl, op, chain, scope, limit);
            o.Done? ==> o.value.1.Keys <= scope.Keys + Names(op.results)
    decreases op, 1
  {
    FlattenPush(chain, scope);
    var inputs := LookupAll(Flatten(chain + [scope]), op.operands);
    if inputs.Done? {
      ImplRefines(impl, op, inputs.value, [], chain + [scope], limit);
      var o := ScopedImpl(impl, op, inputs.value, [], chain + [scope], limit);
      if o.Done? {
        StoreRefines(op, o.value.0, o.value.1, Flatten(chain), scope);
      }
    }
  }

  lemma StoreRefines(op: Op, values: PyValues, terminator: Terminator, base: Env, scope: Env)
    requires Distinct(op.results) && forall v :: v in op.results ==> v !in scope
    ensures StoreResults(op, values, terminator, base + scope) == Lift(base, ScopedStore(op, values, terminator, scope))
    ensures var o := ScopedStore(op, values, terminator, scope);
            o.Done? ==> o.value.1.Keys <= scope.Keys + Names(op.results)
  {
    DefineIsBind(scope, op.results, values);
    BindOver(base, scope, op.results, values);
  }

  lemma {:induction false} ImplRefines(impl: Impl, op: Op, inputs: PyValues, history: seq<PyValues>, chain: Chain, limit: nat)
    requires |history| <= limit
    requires forall r :: r in op.regions ==> UniqueDefs(r)
    ensures RunImpl(impl, op, inputs, history, Flatten(chain), limit)
         == ScopedImpl(impl, op, inputs, history, chain, limit)
    decreases op, 0, limit - |history|
  {
    var action := impl(op.code, inputs, history);
    if action.RunRegionOf? && action.region < |op.regions| && |history| < limit {
      ScopedRefinesFlat(impl, op.regions[action.region], action.args, chain, limit);
      var r := ScopedRegion(impl, op.regions[action.region], action.args, chain, limit);
      if r.Done? {
        ImplRefines(impl, op, inputs, history + [r.value], chain, limit);
      }
    }
  }

  // ----- the limit is only a bound -----

  /** An answer reached under one limit is the answer under every larger limit. */
  lemma {:induction false} LimitIrrelevant(impl: Impl, region: Region, args: PyValues, env: Env, limit: nat, limit': nat)
    requires limit <= limit'
    requires RunRegion(impl, region, args, env, limit) != OutOfLimit
    ensures RunRegion(impl, region, args, env, limit') == RunRegion(impl, region, args, env, limit)
    decreases region, 2
  {
    if region.blocks != [] {
      BlocksLimit(impl, region, 0, args, env, limit, limit, limit', limit');
    }
  }

  lemma {:induction false} BlocksLimit(impl: Impl, region: Region, b: nat, args: PyValues, env: Env,
                                       limit: nat, left: nat, limit': nat, left': nat)
    requires limit <= limit' && left <= left'
    requires RunBlocks(impl, region, b, args, env, limit, left) != OutOfLimit
    ensures RunBlocks(impl, region, b, args, env, limit', left') == RunBlocks(impl, region, b, args, env, limit, left)
    decreases region, 1, left
  {
    if b < |region.blocks| {
      var block := region.blocks[b];
      OpsLimit(impl, block.ops, Bind(env, block.args, args), limit, limit');
      var o := RunBlock(impl, block, args, env, limit);
      if o.Done? && o.value.0.Goto? {
        BlocksLimit(impl, region, o.value.0.block, o.value.0.args, o.value.1, limit, left - 1, limit', left' - 1);
      }
    }
  }

  lemma {:induction false} OpsLimit(impl: Impl, ops: seq<Op>, env: Env, limit: nat, limit': nat)
    requires limit <= limit'
    requires RunOps(impl, ops, env, limit) != OutOfLimit
    ensures RunOps(impl, ops, env, limit') == RunOps(impl, ops, env, limit)
    decreases ops, 0
  {
    if ops != [] {
      OpLimit(impl, ops[0], env, limit, limit');
      var o := RunOp(impl, ops[0], env, limit);
      if o.Done? && o.value.0.Continue? {
        OpsLimit(impl, ops[1..], o.value.1, limit, limit');
      }
    }
  }

  lemma {:induction false} OpLimit(impl: Impl, op: Op, env: Env, limit: nat, limit': nat)
    requires limit <= limit'
    requires RunOp(impl, op, env, limit) != OutOfLimit
    ensures RunOp(impl, op, env, limit') == RunOp(impl, op, env, limit)
    decreases op, 1
  {
    var inputs := LookupAll(env, op.operands);
    if inputs.Done? {
      ImplLimit(impl, op, inputs.value, [], env, limit, limit');
    }
  }

  lemma {:induction false} ImplLimit(impl: Impl, op: Op, inputs: PyValues, history: seq<PyValues>, env: Env,
                                     limit: nat, limit': nat)
    requires |history| <= limit <= limit'
    requires RunImpl(impl, op, inputs, history, env, limit) != OutOfLimit
    ensures RunImpl(impl, op, inputs, history, env, limit') == RunImpl(impl, op, inputs, history, env, limit)
    decreases op, 0, limit - |history|
  {
    var action := impl(op.code, inputs, history);
    if action.RunRegionOf? && action.region < |op.regions| {
      LimitIrrelevant(impl, op.regions[action.region], action.args, env, limit, limit');
      var r := RunRegion(impl, op.regions[action.region], action.args, env, limit);
      if r.Done? {
        ImplLimit(impl, op, inputs, history + [r.value], env, limit, limit');
      }
    }
  }
}
