/**
 Two semantics of regions. The flat one keeps a single environment in which entering
 a block again overwrites its old values. The scoped one is what the interpreter does:
 every block entry pushes a scope, a scope refuses a second assignment of a value, and
 look-ups search from the innermost scope outwards.

 `limit` bounds how many blocks one region run may enter and how many region runs one
 operation may ask for; every terminating run fits under some limit.
 */
module Semantics {
  import opened Ir

  type Env = map<Value, PyValue>

  /** `zip` of names and values, later entries winning. */
  function Bind(env: Env, names: seq<Value>, vals: PyValues): Env
    decreases names
  {
    if names == [] || vals == [] then env
    else Bind(env[names[0] := vals[0]], names[1..], vals[1..])
  }

  function LookupAll(env: Env, vs: seq<Value>): Outcome<PyValues>
  {
    if vs == [] then Done([])
    else if vs[0] !in env then Failed(ValueNotFound(vs[0]))
    else
      var rest :- LookupAll(env, vs[1..]);
      Done([env[vs[0]]] + rest)
  }

  /** Look-up stops at the first value without a binding. */
  lemma {:induction false} LookupMissing(env: Env, vs: seq<Value>, i: nat)
    requires i < |vs| && vs[i] !in env
    requires forall j :: 0 <= j < i ==> vs[j] in env
    ensures LookupAll(env, vs) == Failed(ValueNotFound(vs[i]))
  {
    if i > 0 {
      LookupMissing(env, vs[1..], i - 1);
    }
  }

  lemma {:induction false} LookupPresent(env: Env, vs: seq<Value>, got: PyValues)
    requires |got| == |vs| && forall j :: 0 <= j < |vs| ==> vs[j] in env && env[vs[j]] == got[j]
    ensures LookupAll(env, vs) == Done(got)
  {
    if vs != [] {
      LookupPresent(env, vs[1..], got[1..]);
      assert got == [got[0]] + got[1..];
    }
  }

  // ----- flat semantics -----

  function RunRegion(impl: Impl, region: Region, args: PyValues, env: Env, limit: nat): Outcome<PyValues>
    decreases region, 2
  {
    if region.blocks == [] then Done([])
    else RunBlocks(impl, region, 0, args, env, limit, limit)
  }

  function RunBlocks(impl: Impl, region: Region, b: nat, args: PyValues, env: Env, limit: nat, left: nat): Outcome<PyValues>
    decreases region, 1, left
  {
    if b >= |region.blocks| then Failed(NoSuchBlock)
    else if left == 0 then OutOfLimit
    else
      var (next, env') :- RunBlock(impl, region.blocks[b], args, env, limit);
      match next
      case Continue => Done([])
      case Exit(values) => Done(values)
      case Goto(c, args') => RunBlocks(impl, region, c, args', env', limit, left - 1)
  }

  function RunBlock(impl: Impl, block: Block, args: PyValues, env: Env, limit: nat): Outcome<(Next, Env)>
    decreases block, 0
  {
    RunOps(impl, block.ops, Bind(env, block.args, args), limit)
  }

  function RunOps(impl: Impl, ops: seq<Op>, env: Env, limit: nat): Outcome<(Next, Env)>
    decreases ops, 0
  {
    if ops == [] then Done((Continue, env))
    else
      var (next, env') :- RunOp(impl, ops[0], env, limit);
      if next.Continue? then RunOps(impl, ops[1..], env', limit) else Done((next, env'))
  }

  function RunOp(impl: Impl, op: Op, env: Env, limit: nat): Outcome<(Next, Env)>
    decreases op, 1
  {
    var inputs :- LookupAll(env, op.operands);
    var (values, terminator) :- RunImpl(impl, op, inputs, [], env, limit);
    StoreResults(op, values, terminator, env)
  }

  function StoreResults(op: Op, values: PyValues, terminator: Terminator, env: Env): Outcome<(Next, Env)>
  {
    if |values| != |op.results| then Failed(WrongResultCount)
    else
      var next :- Continuation(op, terminator);
      Done((next, Bind(env, op.results, values)))
  }

  function RunImpl(impl: Impl, op: Op, inputs: PyValues, history: seq<PyValues>, env: Env, limit: nat)
    : Outcome<(PyValues, Terminator)>
    requires |history| <= limit
    decreases op, 0, limit - |history|
  {
    match impl(op.code, inputs, history)
    case Raise(e) => Failed(Raised(e))
    case Finish(values, terminator) => Done((values, terminator))
    case RunRegionOf(k, args) =>
      if k >= |op.regions| then Failed(NoSuchRegion)
      else if |history| == limit then OutOfLimit
      else
        var results :- RunRegion(impl, op.regions[k], args, env, limit);
        RunImpl(impl, op, inputs, history + [results], env, limit)
  }

  function Continuation(op: Op, terminator: Terminator): Outcome<Next>
  {
    match terminator
    case NoTerminator => Done(Continue)
    case ReturnedValues(values) => Done(Exit(values))
    case Successor(k, args) => if k < |op.successors| then Done(Goto(op.successors[k], args)) else Failed(NoSuchBlock)
  }

  // ----- scoped semantics -----

  /** Scopes, the root scope first and the current scope last. */
  type Chain = seq<Env>

  /** The look-ups a chain answers: inner scopes shadow outer ones. */
  function Flatten(chain: Chain): Env
  {
    if chain == [] then map[] else Flatten(chain[..|chain| - 1]) + chain[|chain| - 1]
  }

  /** `set_values`: assign in order, refusing a value the scope already holds. */
  function Define(scope: Env, names: seq<Value>, vals: PyValues): Outcome<Env>
    decreases names
  {
    if names == [] || vals == [] then Done(scope)
    else if names[0] in scope then Failed(AlreadyAssigned(names[0]))
    else Define(scope[names[0] := vals[0]], names[1..], vals[1..])
  }

  function ScopedRegion(impl: Impl, region: Region, args: PyValues, chain: Chain, limit: nat): Outcome<PyValues>
    decreases region, 2
  {
    if region.blocks == [] then Done([])
    else ScopedBlocks(impl, region, 0, args, chain, limit, limit)
  }

  function ScopedBlocks(impl: Impl, region: Region, b: nat, args: PyValues, chain: Chain, limit: nat, left: nat)
    : Outcome<PyValues>
    decreases region, 1, left
  {
    if b >= |region.blocks| then Failed(NoSuchBlock)
    else if left == 0 then OutOfLimit
    else
      var (next, scope) :- ScopedBlock(impl, region.blocks[b], args, chain, limit);
      match next
      case Continue => Done([])
      case Exit(values) => Done(values)
      case Goto(c, args') => ScopedBlocks(impl, region, c, args', chain + [scope], limit, left - 1)
  }

  /** Runs a block in a new scope above `chain` and gives back that scope. */
  function ScopedBlock(impl: Impl, block: Block, args: PyValues, chain: Chain, limit: nat): Outcome<(Next, Env)>
    decreases block, 0
  {
    var scope :- Define(map[], block.args, args);
    ScopedOps(impl, block.ops, chain, scope, limit)
  }

  /** Runs operations in `scope`, the current scope above `chain`. */
  function ScopedOps(impl: Impl, ops: seq<Op>, chain: Chain, scope: Env, limit: nat): Outcome<(Next, Env)>
    decreases ops, 0
  {
    if ops == [] then Done((Continue, scope))
    else
      var (next, scope') :- ScopedOp(impl, ops[0], chain, scope, limit);
      if next.Continue? then ScopedOps(impl, ops[1..], chain, scope', limit) else Done((next, scope'))
  }

  function ScopedOp(impl: Impl, op: Op, chain: Chain, scope: Env, limit: nat): Outcome<(Next, Env)>
    decreases op, 1
  {
    var inputs :- LookupAll(Flatten(chain + [scope]), op.operands);
    var (values, terminator) :- ScopedImpl(impl, op, inputs, [], chain + [scope], limit);
    ScopedStore(op, values, terminator, scope)
  }

  function ScopedStore(op: Op, values: PyValues, terminator: Terminator, scope: Env): Outcome<(Next, Env)>
  {
    if |values| != |op.results| then Failed(WrongResultCount)
    else
      var scope' :- Define(scope, op.results, values);
      var next :- Continuation(op, terminator);
      Done((next, scope'))
  }

  function ScopedImpl(impl: Impl, op: Op, inputs: PyValues, history: seq<PyValues>, chain: Chain, limit: nat)
    : Outcome<(PyValues, Terminator)>
    requires |history| <= limit
    decreases op, 0, limit - |history|
  {
    match impl(op.code, inputs, history)
    case Raise(e) => Failed(Raised(e))
    case Finish(values, terminator) => Done((values, terminator))
    case RunRegionOf(k, args) =>
      if k >= |op.regions| then Failed(NoSuchRegion)
      else if |history| == limit then OutOfLimit
      else
        var results :- ScopedRegion(impl, op.regions[k], args, chain, limit);
        ScopedImpl(impl, op, inputs, history + [results], chain, limit)
  }
}
