/**
 The interpreter as it runs: linked scopes filled in place and a current scope that
 `push_scope` and `pop_scope` move. Every method is proved against the scoped semantics.
 */
module Interpreter {
  import opened Ir
  import opened Semantics
  import opened Refinement
  import opened Safety
  import opened Dominance
  import opened Options
  import Machine
  import MachineRuns

  class InterpreterContext {
    const parent: InterpreterContext?
    var env: Env
    /** This scope and all scopes it can reach. */
    ghost const repr: set<InterpreterContext>
    /** The environments of the scopes below this one, root first. */
    ghost const below: Chain

    constructor (parent: InterpreterContext?)
      requires parent == null || parent.Valid()
      ensures Valid() && this.parent == parent && env == map[]
      ensures below == if parent == null then [] else parent.Scopes()
      ensures repr == {this} + (if parent == null then {} else parent.repr)
    {
      this.parent := parent;
      this.env := map[];
      this.repr := {this} + (if parent == null then {} else parent.repr);
      this.below := if parent == null then [] else parent.below + [parent.env];
    }

    ghost predicate Valid()
      reads repr
      decreases repr
    {
      && this in repr
      && if parent == null then below == []
         else parent in repr && this !in parent.repr && parent.repr < repr
              && parent.Valid() && below == parent.Scopes()
    }

    /** The scopes as a value, root first. */
    ghost function Scopes(): (c: Chain)
      reads this
    {
      below + [env]
    }

    /** `__getitem__`: this scope first, then the parents. */
    method Get(key: Value) returns (r: Outcome<PyValue>)
      requires Valid()
      ensures r == if key in Flatten(Scopes()) then Done(Flatten(Scopes())[key]) else Failed(ValueNotFound(key))
      decreases repr
    {
      FlattenPush(below, env);
      if key in env {
        r := Done(env[key]);
      } else if parent != null {
        r := parent.Get(key);
      } else {
        r := Failed(ValueNotFound(key));
      }
    }

    /** `__setitem__`: refuses a key this scope already holds. */
    method Set(key: Value, value: PyValue) returns (r: Outcome<()>)
      modifies this`env
      ensures r == if key in old(env) then Failed(AlreadyAssigned(key)) else Done(())
      ensures env == if key in old(env) then old(env) else old(env)[key := value]
    {
      if key in env {
        return Failed(AlreadyAssigned(key));
      }
      env := env[key := value];
      r := Done(());
    }
  }

  /** `c` was reached from `base` by `n` pushes. */
  ghost predicate Pushed(c: InterpreterContext, base: InterpreterContext, n: nat)
  {
    if n == 0 then c == base else c.parent != null && Pushed(c.parent, base, n - 1)
  }

  ghost predicate Above(c: InterpreterContext, base: InterpreterContext)
  {
    exists n :: Pushed(c, base, n)
  }

  lemma {:induction false} PushedTransitive(c: InterpreterContext, mid: InterpreterContext, base: InterpreterContext, m: nat, n: nat)
    requires Pushed(c, mid, m) && Pushed(mid, base, n)
    ensures Pushed(c, base, m + n)
    decreases m
  {
    if m > 0 {
      PushedTransitive(c.parent, mid, base, m - 1, n);
    }
  }

  lemma AboveTransitive(c: InterpreterContext, mid: InterpreterContext, base: InterpreterContext)
    requires Above(c, mid) && Above(mid, base)
    ensures Above(c, base)
  {
    var m :| Pushed(c, mid, m);
    var n :| Pushed(mid, base, n);
    PushedTransitive(c, mid, base, m, n);
  }

  class Interpreter {
    var ctx: InterpreterContext
    const impl: Impl

    constructor (impl: Impl)
      ensures Valid() && ctx.Scopes() == [map[]] && this.impl == impl
    {
      ctx := new InterpreterContext(null);
      this.impl := impl;
    }

    ghost predicate Valid()
      reads this, ctx.repr
    {
      ctx.Valid()
    }

    method PushScope()
      requires Valid()
      modifies this`ctx
      ensures Valid() && fresh(ctx) && ctx.parent == old(ctx) && ctx.env == map[]
      ensures ctx.Scopes() == old(ctx.Scopes()) + [map[]]
    {
      ctx := new InterpreterContext(ctx);
    }

    /** Fails, changing nothing, exactly when the current scope is the root. */
    method PopScope() returns (ok: bool)
      requires Valid()
      modifies this`ctx
      ensures Valid() && ok == (old(ctx).parent != null)
      ensures ctx == if ok then old(ctx).parent else old(ctx)
      ensures ok ==> ctx.Scopes() == old(ctx.Scopes())[..|old(ctx.Scopes())| - 1]
    {
      if ctx.parent == null {
        return false;
      }
      ctx := ctx.parent;
      ok := true;
    }

    /** Pops as many scopes as were pushed since `base` was current. */
    method PopScopes(count: nat, ghost base: InterpreterContext)
      requires Valid() && Pushed(ctx, base, count)
      modifies this`ctx
      ensures Valid() && ctx == base
    {
      for popped := 0 to count
        invariant Valid() && Pushed(ctx, base, count - popped)
      {
        var _ := PopScope();
      }
    }

    method GetValues(vs: seq<Value>) returns (r: Outcome<PyValues>)
      requires Valid()
      ensures r == LookupAll(Flatten(ctx.Scopes()), vs)
    {
      ghost var env := Flatten(ctx.Scopes());
      var got: PyValues := [];
      for i := 0 to |vs|
        invariant |got| == i
        invariant forall j :: 0 <= j < i ==> vs[j] in env && env[vs[j]] == got[j]
      {
        var v := ctx.Get(vs[i]);
        if v.Failed? {
          LookupMissing(env, vs, i);
          return Failed(v.error);
        }
        got := got + [v.value];
      }
      LookupPresent(env, vs, got);
      r := Done(got);
    }

    /** `set_values`: on an exception the pairs before it stay stored. */
    method SetValues(names: seq<Value>, vals: PyValues) returns (r: Outcome<()>)
      requires Valid()
      modifies ctx`env
      ensures var d := Define(old(ctx.env), names, vals);
              if d.Done? then r == Done(()) && ctx.env == d.value else r == d.PropagateFailure()
    {
      var n := if |names| < |vals| then |names| else |vals|;
      for i := 0 to n
        invariant Define(old(ctx.env), names, vals) == Define(ctx.env, names[i..], vals[i..])
      {
        assert names[i..][1..] == names[i + 1..] && vals[i..][1..] == vals[i + 1..];
        r := ctx.Set(names[i], vals[i]);
        if r.Failed? {
          return;
        }
      }
      r := Done(());
    }

    /** The implementation of an operation, with the region runs it asks for. */
    method RunImplementation(op: Op, inputs: PyValues, limit: nat) returns (r: Outcome<(PyValues, Terminator)>)
      requires Valid()
      modifies this`ctx
      ensures Valid()
      ensures r == ScopedImpl(impl, op, inputs, [], old(ctx.Scopes()), limit)
      ensures r.Done? ==> ctx == old(ctx)
      ensures Above(ctx, old(ctx))
      decreases op, 0
    {
      assert Pushed(ctx, ctx, 0);
      var action := impl(op.code, inputs, []);
      var history: seq<PyValues> := [];
      ghost var chain := ctx.Scopes();
      while action.RunRegionOf?
        invariant Valid() && ctx == old(ctx) && ctx.Scopes() == chain
        invariant |history| <= limit && action == impl(op.code, inputs, history)
        invariant ScopedImpl(impl, op, inputs, [], chain, limit) == ScopedImpl(impl, op, inputs, history, chain, limit)
        decreases limit - |history|
      {
        if action.region >= |op.regions| {
          return Failed(NoSuchRegion);
        }
        if |history| == limit {
          return OutOfLimit;
        }
        var results := RunSsaCfgRegion(op.regions[action.region], action.args, limit);
        if !results.Done? {
          return results.PropagateFailure();
        }
        history := history + [results.value];
        action := impl(op.code, inputs, history);
      }
      r := if action.Raise? then Failed(Raised(action.code)) else Done((action.values, action.terminator));
    }

    /** One operation: inputs, implementation, results, terminator. */
    method RunOperation(op: Op, limit: nat) returns (r: Outcome<Next>)
      requires Valid() && ctx.parent != null
      modifies this`ctx, ctx`env
      ensures Valid()
      ensures var o := ScopedOp(impl, op, old(ctx.below), old(ctx.env), limit);
              if o.Done? then r == Done(o.value.0) && ctx == old(ctx) && ctx.env == o.value.1
              else r == o.PropagateFailure() && Above(ctx, old(ctx))
      decreases op, 1
    {
      assert Pushed(ctx, ctx, 0);
      var inputs := GetValues(op.operands);
      if !inputs.Done? {
        return inputs.PropagateFailure();
      }
      var o := RunImplementation(op, inputs.value, limit);
      if !o.Done? {
        return o.PropagateFailure();
      }
      var (values, terminator) := o.value;
      if |op.results| != |values| {
        return Failed(WrongResultCount);
      }
      var stored := SetValues(op.results, values);
      if !stored.Done? {
        return stored.PropagateFailure();
      }
      r := Continuation(op, terminator);
    }

    /** Enters one block in a new scope and runs it up to its terminator. */
    method RunBlock(block: Block, args: PyValues, limit: nat) returns (r: Outcome<Next>)
      requires Valid()
      modifies this`ctx
      ensures Valid()
      ensures var o := ScopedBlock(impl, block, args, old(ctx.Scopes()), limit);
              if o.Done? then
                r == Done(o.value.0) && ctx.parent == old(ctx) && ctx.env == o.value.1
              else r == o.PropagateFailure()
      ensures Above(ctx, old(ctx))
      decreases block, 0
    {
      ghost var chain := ctx.Scopes();
      PushScope();
      ghost var top := ctx;
      assert Pushed(top.parent, old(ctx), 0);
      assert Pushed(top, old(ctx), 1);
      var stored := SetValues(block.args, args);
      if !stored.Done? {
        return stored.PropagateFailure();
      }
      r := RunOperations(block.ops, limit);
      if !r.Done? {
        AboveTransitive(ctx, top, old(ctx));
      }
    }

    /** The operations of a block, up to the first that transfers control. */
    method RunOperations(ops: seq<Op>, limit: nat) returns (r: Outcome<Next>)
      requires Valid() && ctx.parent != null
      modifies this`ctx, ctx`env
      ensures Valid()
      ensures var o := ScopedOps(impl, ops, old(ctx.below), old(ctx.env), limit);
              if o.Done? then r == Done(o.value.0) && ctx == old(ctx) && ctx.env == o.value.1
              else r == o.PropagateFailure() && Above(ctx, old(ctx))
      decreases ops, 0
    {
      ghost var chain := ctx.below;
      ghost var spec := ScopedOps(impl, ops, chain, ctx.env, limit);
      assert ops[0..] == ops;
      for i := 0 to |ops|
        invariant Valid() && ctx == old(ctx) && ctx.below == chain
        invariant spec == ScopedOps(impl, ops[i..], chain, ctx.env, limit)
      {
        assert ops[i..][0] == ops[i] && ops[i..][1..] == ops[i + 1..];
        r := RunOperation(ops[i], limit);
        if !r.Done? || !r.value.Continue? {
          return;
        }
      }
      r := Done(Continue);
    }

    /**
     Returns what the scoped semantics returns, and ends as the machine does, which takes one
     operation at a time. On return the scope stack is the very one of the call, unchanged; on an
     exception the entered scopes are left on top of it.
     */
    method RunSsaCfgRegion(region: Region, args: PyValues, limit: nat) returns (r: Outcome<PyValues>)
      requires Valid()
      modifies this`ctx
      ensures Valid()
      ensures r == ScopedRegion(impl, region, args, old(ctx.Scopes()), limit)
      ensures !r.OutOfLimit? ==> Machine.RegionEnds(impl, region, args, old(ctx.Scopes()), r)
      ensures r.Done? ==> ctx == old(ctx)
      ensures Above(ctx, old(ctx))
      decreases region, 2
    {
      ghost var base := ctx;
      ghost var spec := ScopedRegion(impl, region, args, ctx.Scopes(), limit);
      assert Pushed(ctx, base, 0);
      if !spec.OutOfLimit? {
        MachineRuns.RegionAnswers(impl, region, args, ctx.Scopes(), limit);
      }
      if region.blocks == [] {
        return Done([]);
      }
      r := Done([]);
      var scopeCount := 0;
      var block: Option<nat> := Some(0);
      var next := args;
      var left := limit;
      while block.Some?
        invariant Valid() && Pushed(ctx, base, scopeCount)
        invariant block.Some? ==> spec == ScopedBlocks(impl, region, block.value, next, ctx.Scopes(), limit, left)
        invariant r.Done? && (block.None? ==> spec == r)
        invariant block.Some? ==> r == Done([])
        decreases block.Some?, left
      {
        if block.value >= |region.blocks| {
          return Failed(NoSuchBlock);
        }
        if left == 0 {
          return OutOfLimit;
        }
        left := left - 1;
        ghost var below := ctx;
        var o := RunBlock(region.blocks[block.value], next, limit);
        if !o.Done? {
          AboveTransitive(ctx, below, base);
          return o.PropagateFailure();
        }
        assert ctx.Scopes() == below.Scopes() + [ctx.env];
        scopeCount := scopeCount + 1;
        block := None;
        match o.value {
          case Continue =>
          case Exit(values) => r := Done(values);
          case Goto(c, args') => block, next := Some(c), args';
        }
      }
      PopScopes(scopeCount, base);
    }

    /**
     The SSA guarantee for the running interpreter: with unique definitions that dominate
     their uses, a run returns, raises an implementation error, or reaches the limit, and
     its answer is the one of the flat semantics.
     */
    method RunWellFormedRegion(region: Region, args: PyValues, limit: nat) returns (r: Outcome<PyValues>)
      requires Valid()
      requires UniqueDefs(region) && WellFormed(region, Flatten(ctx.Scopes()).Keys) && Conforms(impl, region)
      requires Supplies(region, 0, args)
      modifies this`ctx
      ensures Valid() && NoSsaError(r)
      ensures r == RunRegion(impl, region, args, Flatten(old(ctx.Scopes())), limit)
      ensures !r.OutOfLimit? ==> Machine.RegionEnds(impl, region, args, old(ctx.Scopes()), r)
      ensures r.Done? ==> ctx == old(ctx) && ctx.Scopes() == old(ctx.Scopes())
    {
      ghost var chain := ctx.Scopes();
      ScopedRegionSafe(impl, region, Flatten(chain).Keys, args, chain, limit);
      ScopedRefinesFlat(impl, region, args, chain, limit);
      r := RunSsaCfgRegion(region, args, limit);
    }
  }
}
