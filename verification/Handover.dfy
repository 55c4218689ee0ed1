/**
 What a terminator hands over: the arguments of a branch are bound, one by one, to the arguments of
 the block it goes to, and returned values are what the region returns. With a loop that carries a
 counter and a sum as its instance.
 */
module Handover {
  import opened Ir
  import opened Semantics
  import opened Refinement
  import opened Preservation

  /** The environment with argument `j` of the block bound to `args[j]`, for every `j`, and otherwise as it was. */
  ghost predicate Bound(env: Env, block: Block, args: PyValues, entered: Env)
    requires |block.args| <= |args|
  {
    && entered.Keys == env.Keys + Names(block.args)
    && (forall j :: 0 <= j < |block.args| ==> entered[block.args[j]] == args[j])
    && forall v :: v in env && v !in block.args ==> entered[v] == env[v]
  }

  lemma {:induction false} BindsEach(env: Env, names: seq<Value>, vals: PyValues)
    requires Distinct(names) && |names| <= |vals|
    ensures var e := Bind(env, names, vals);
            && e.Keys == env.Keys + Names(names)
            && (forall j :: 0 <= j < |names| ==> e[names[j]] == vals[j])
            && forall v :: v in env && v !in names ==> e[v] == env[v]
    decreases names
  {
    if names != [] {
      var more := env[names[0] := vals[0]];
      BindsEach(more, names[1..], vals[1..]);
      assert names == [names[0]] + names[1..];
      var e := Bind(env, names, vals);
      forall j | 0 <= j < |names| ensures e[names[j]] == vals[j] {
        if j > 0 {
          assert names[1..][j - 1] == names[j] && vals[1..][j - 1] == vals[j];
        }
      }
    }
  }

  lemma BoundIsBind(env: Env, block: Block, args: PyValues, entered: Env)
    requires Distinct(block.args) && |block.args| <= |args| && Bound(env, block, args, entered)
    ensures entered == Bind(env, block.args, args)
  {
    BindsEach(env, block.args, args);
    var e := Bind(env, block.args, args);
    forall v | v in entered ensures e[v] == entered[v] {
      if v in block.args {
        var j :| 0 <= j < |block.args| && block.args[j] == v;
      }
    }
  }

  /** What running the operations of a block leads to, `left` more blocks allowed. */
  function Onwards(impl: Impl, region: Region, o: Outcome<(Next, Env)>, limit: nat, left: nat): Outcome<PyValues>
  {
    var (next, env) :- o;
    match next
    case Continue => Done([])
    case Exit(values) => Done(values)
    case Goto(c, args) => RunBlocks(impl, region, c, args, env, limit, left)
  }

  lemma LastOp(impl: Impl, block: Block, args: PyValues, env: Env, limit: nat, before: Env)
    requires block.ops != []
    requires RunOps(impl, block.ops[..|block.ops| - 1], Bind(env, block.args, args), limit) == Done((Continue, before))
    ensures RunBlock(impl, block, args, env, limit) == RunOp(impl, block.ops[|block.ops| - 1], before, limit)
  {
    var n := |block.ops| - 1;
    assert block.ops == block.ops[..n] + [block.ops[n]];
    RunOpsAppend(impl, block.ops[..n], [block.ops[n]], Bind(env, block.args, args), limit);
    RunOne(impl, block.ops[n], before, limit);
  }

  /**
   When the last operation of a block finishes with a branch, the run goes on with the operations of
   the successor it names, whose arguments hold the arguments of the branch in their order.
   */
  lemma BranchHandsOver(impl: Impl, region: Region, b: nat, args: PyValues, env: Env, limit: nat, left: nat,
                        before: Env, inputs: PyValues, k: nat, passed: PyValues, entered: Env)
    requires b < |region.blocks| && region.blocks[b].ops != [] && left > 1
    requires RunOps(impl, region.blocks[b].ops[..|region.blocks[b].ops| - 1], Bind(env, region.blocks[b].args, args), limit)
          == Done((Continue, before))
    requires var op := region.blocks[b].ops[|region.blocks[b].ops| - 1];
             && op.results == [] && LookupAll(before, op.operands) == Done(inputs)
             && impl(op.code, inputs, []) == Finish([], Successor(k, passed))
             && k < |op.successors| && op.successors[k] < |region.blocks|
             && var c := region.blocks[op.successors[k]];
                Distinct(c.args) && |c.args| <= |passed| && Bound(before, c, passed, entered)
    ensures var op := region.blocks[b].ops[|region.blocks[b].ops| - 1];
            RunBlocks(impl, region, b, args, env, limit, left)
            == Onwards(impl, region, RunOps(impl, region.blocks[op.successors[k]].ops, entered, limit), limit, left - 2)
  {
    var block := region.blocks[b];
    var op := block.ops[|block.ops| - 1];
    var c := op.successors[k];
    LastOp(impl, block, args, env, limit, before);
    BoundIsBind(before, region.blocks[c], passed, entered);
    assert Bind(before, [], []) == before;
    assert RunOp(impl, op, before, limit) == Done((Goto(c, passed), before));
    assert RunBlock(impl, region.blocks[c], passed, before, limit) == RunOps(impl, region.blocks[c].ops, entered, limit);
  }

  /** The same over the scopes of the interpreter: a new scope that holds the arguments and nothing else. */
  lemma ScopedBranchHandsOver(impl: Impl, region: Region, b: nat, args: PyValues, chain: Chain, limit: nat, left: nat,
                              scope: Env, k: nat, passed: PyValues, c: nat, entered: Env)
    requires b < |region.blocks| && left > 1 && c < |region.blocks|
    requires ScopedBlock(impl, region.blocks[b], args, chain, limit) == Done((Goto(c, passed), scope))
    requires Distinct(region.blocks[c].args) && |region.blocks[c].args| <= |passed| && Bound(map[], region.blocks[c], passed, entered)
    ensures ScopedBlocks(impl, region, b, args, chain, limit, left)
         == var (next, scope') :- ScopedOps(impl, region.blocks[c].ops, chain + [scope], entered, limit);
            match next
            case Continue => Done([])
            case Exit(values) => Done(values)
            case Goto(d, args') => ScopedBlocks(impl, region, d, args', chain + [scope] + [scope'], limit, left - 2)
  {
    DefineIsBind(map[], region.blocks[c].args, passed);
    BoundIsBind(map[], region.blocks[c], passed, entered);
    assert ScopedBlocks(impl, region, b, args, chain, limit, left)
        == ScopedBlocks(impl, region, c, passed, chain + [scope], limit, left - 1);
    assert ScopedBlock(impl, region.blocks[c], passed, chain + [scope], limit)
        == ScopedOps(impl, region.blocks[c].ops, chain + [scope], entered, limit);
  }

  /** Values returned by the last operation of a block are returned by the region, in their order. */
  lemma ReturnHandsBack(impl: Impl, region: Region, b: nat, args: PyValues, env: Env, limit: nat, left: nat,
                        before: Env, inputs: PyValues, values: PyValues)
    requires b < |region.blocks| && region.blocks[b].ops != [] && left > 0
    requires RunOps(impl, region.blocks[b].ops[..|region.blocks[b].ops| - 1], Bind(env, region.blocks[b].args, args), limit)
          == Done((Continue, before))
    requires var op := region.blocks[b].ops[|region.blocks[b].ops| - 1];
             && op.results == [] && LookupAll(before, op.operands) == Done(inputs)
             && impl(op.code, inputs, []) == Finish([], ReturnedValues(values))
    ensures RunBlocks(impl, region, b, args, env, limit, left) == Done(values)
  {
    var block := region.blocks[b];
    var op := block.ops[|block.ops| - 1];
    LastOp(impl, block, args, env, limit, before);
    assert RunOp(impl, op, before, limit) == Done((Exit(values), before));
  }

  // ----- an instance -----

  const ZERO := Op(Code("zero", []), [], [1], [], [])
  const ENTER := Op(Code("br", []), [0, 1], [], [1], [])
  const ADD := Op(Code("add", []), [3, 2], [4], [], [])
  const DECREMENT := Op(Code("decrement", []), [2], [5], [], [])
  const AGAIN := Op(Code("again", []), [5, 4], [], [1, 2], [])
  const RETURN := Op(Code("return", []), [6], [], [], [])

  /** Value 2 counts down from the argument while value 3 sums up what was counted. */
  const SUM := Region([Block([0], [ZERO, ENTER]), Block([2, 3], [ADD, DECREMENT, AGAIN]), Block([6], [RETURN])])

  function Implementation(code: Code, inputs: PyValues, history: seq<PyValues>): Action
  {
    if code.name == "zero" then Finish([PyInt(0)], NoTerminator)
    else if code.name == "br" then Finish([], Successor(0, inputs))
    else if code.name == "return" then Finish([], ReturnedValues(inputs))
    else if inputs == [] || exists x :: x in inputs && !x.PyInt? then Raise(0)
    else if code.name == "decrement" then Finish([PyInt(inputs[0].i - 1)], NoTerminator)
    else if |inputs| != 2 then Raise(0)
    else if code.name == "add" then Finish([PyInt(inputs[0].i + inputs[1].i)], NoTerminator)
    else if code.name == "again" then Finish([], if inputs[0].i > 0 then Successor(0, inputs) else Successor(1, [inputs[1]]))
    else Raise(0)
  }

  lemma Runs(op: Op, inputs: PyValues, env: Env, limit: nat)
    requires |op.operands| == |inputs| && forall j :: 0 <= j < |inputs| ==> op.operands[j] in env && env[op.operands[j]] == inputs[j]
    requires Implementation(op.code, inputs, []).Finish? && |Implementation(op.code, inputs, []).values| == |op.results| <= 1
    ensures var action := Implementation(op.code, inputs, []);
            RunOp(Implementation, op, env, limit)
            == var next :- Continuation(op, action.terminator);
               Done((next, if op.results == [] then env else env[op.results[0] := action.values[0]]))
  {
    LookupPresent(env, op.operands, inputs);
    var action := Implementation(op.code, inputs, []);
    if op.results != [] {
      assert op.results[1..] == [];
      assert Bind(env, op.results, action.values) == Bind(env[op.results[0] := action.values[0]], op.results[1..], action.values[1..]);
    }
  }

  lemma Three(a: Op, b: Op, c: Op, env0: Env, env1: Env, env2: Env, limit: nat)
    requires RunOp(Implementation, a, env0, limit) == Done((Continue, env1))
    requires RunOp(Implementation, b, env1, limit) == Done((Continue, env2))
    ensures RunOps(Implementation, [a, b, c], env0, limit) == RunOp(Implementation, c, env2, limit)
  {
    assert [a, b, c][1..] == [b, c] && [b, c][1..] == [c];
    RunOne(Implementation, c, env2, limit);
    assert RunOps(Implementation, [b, c], env1, limit) == RunOps(Implementation, [c], env2, limit);
  }

  lemma Entering(i: int, sum: int, env: Env) returns (entered: Env)
    ensures entered == Bind(env, [2, 3], [PyInt(i), PyInt(sum)])
    ensures 2 in entered && 3 in entered && entered[2] == PyInt(i) && entered[3] == PyInt(sum)
  {
    BindsEach(env, [2, 3], [PyInt(i), PyInt(sum)]);
    entered := Bind(env, [2, 3], [PyInt(i), PyInt(sum)]);
    assert entered[[2, 3][0]] == PyInt(i) && entered[[2, 3][1]] == PyInt(sum);
    assert 2 in Names([2, 3]) && 3 in Names([2, 3]);
  }

  /** One round of the loop: counter and sum give way to their next values. */
  lemma Round(i: int, sum: int, env: Env, limit: nat) returns (after: Env)
    ensures RunBlock(Implementation, SUM.blocks[1], [PyInt(i), PyInt(sum)], env, limit)
         == Done((if i > 1 then Goto(1, [PyInt(i - 1), PyInt(sum + i)]) else Goto(2, [PyInt(sum + i)]), after))
  {
    var env0 := Entering(i, sum, env);
    Runs(ADD, [PyInt(sum), PyInt(i)], env0, limit);
    var env1 := env0[4 := PyInt(sum + i)];
    Runs(DECREMENT, [PyInt(i)], env1, limit);
    after := env1[5 := PyInt(i - 1)];
    Three(ADD, DECREMENT, AGAIN, env0, env1, after, limit);
    Branches(i, sum + i, after, limit);
  }

  lemma Branches(i: int, sum: int, env: Env, limit: nat)
    requires 5 in env && env[5] == PyInt(i - 1) && 4 in env && env[4] == PyInt(sum)
    ensures RunOp(Implementation, AGAIN, env, limit)
         == Done((if i > 1 then Goto(1, [PyInt(i - 1), PyInt(sum)]) else Goto(2, [PyInt(sum)]), env))
  {
    Runs(AGAIN, [PyInt(i - 1), PyInt(sum)], env, limit);
  }

  lemma {:induction false} LoopSums(i: int, sum: int, env: Env, limit: nat, left: nat)
    requires i >= 1 && left > i
    ensures RunBlocks(Implementation, SUM, 1, [PyInt(i), PyInt(sum)], env, limit, left) == Done([PyInt(sum + i * (i + 1) / 2)])
    decreases i
  {
    var after := Round(i, sum, env, limit);
    if i > 1 {
      LoopSums(i - 1, sum + i, after, limit, left - 1);
      assert i * (i + 1) == (i - 1) * i + 2 * i;
    } else {
      Last(sum + i, after, limit, left - 1);
    }
  }

  lemma Last(x: int, env: Env, limit: nat, left: nat)
    requires left > 0
    ensures RunBlocks(Implementation, SUM, 2, [PyInt(x)], env, limit, left) == Done([PyInt(x)])
  {
    BindsEach(env, [6], [PyInt(x)]);
    var env0 := Bind(env, [6], [PyInt(x)]);
    assert env0[[6][0]] == PyInt(x) && 6 in Names([6]);
    Runs(RETURN, [PyInt(x)], env0, limit);
    assert SUM.blocks[2].ops[1..] == [];
    assert RunOps(Implementation, SUM.blocks[2].ops, env0, limit) == RunOp(Implementation, RETURN, env0, limit);
  }

  /** The loop returns the sum of the numbers up to its argument. */
  lemma SumsUp(n: int, env: Env, limit: nat)
    requires n >= 1 && limit > n + 1
    ensures RunRegion(Implementation, SUM, [PyInt(n)], env, limit) == Done([PyInt(n * (n + 1) / 2)])
  {
    var ops := SUM.blocks[0].ops;
    BindsEach(env, [0], [PyInt(n)]);
    var env0 := Bind(env, [0], [PyInt(n)]);
    assert env0[[0][0]] == PyInt(n) && 0 in Names([0]);
    Runs(ZERO, [], env0, limit);
    var env1 := env0[1 := PyInt(0)];
    Runs(ENTER, [PyInt(n), PyInt(0)], env1, limit);
    assert ops[1..] == [ENTER] && [ENTER][1..] == [];
    assert RunOps(Implementation, [ENTER], env1, limit) == RunOp(Implementation, ENTER, env1, limit);
    assert RunOps(Implementation, ops, env0, limit) == RunOps(Implementation, [ENTER], env1, limit);
    assert RunBlock(Implementation, SUM.blocks[0], [PyInt(n)], env, limit) == Done((Goto(1, [PyInt(n), PyInt(0)]), env1));
    LoopSums(n, 0, env1, limit, limit - 1);
  }

  lemma {:induction false} AllDifferent(s: seq<Value>)
    requires forall i, j :: 0 <= i < j < |s| ==> s[i] != s[j]
    ensures Distinct(s)
  {
    if s != [] {
      AllDifferent(s[1..]);
    }
  }

  lemma SumDefs()
    ensures Defs(SUM.blocks[0]) == [0, 1] && Defs(SUM.blocks[1]) == [2, 3, 4, 5] && Defs(SUM.blocks[2]) == [6]
  {
    assert SUM.blocks[0].ops[1..] == [ENTER] && SUM.blocks[1].ops[1..] == [DECREMENT, AGAIN] && [DECREMENT, AGAIN][1..] == [AGAIN];
    assert Results([RETURN]) == [] && Results([ENTER]) == [] && Results([AGAIN]) == [] && Results([DECREMENT, AGAIN]) == [5];
  }

  lemma PlainUnique(ops: seq<Op>)
    requires forall i :: 0 <= i < |ops| ==> ops[i].regions == []
    ensures UniqueBelow(ops)
  {
  }

  lemma BlockUnique(b: nat)
    requires b < |SUM.blocks|
    ensures Distinct(Defs(SUM.blocks[b])) && UniqueBelow(SUM.blocks[b].ops)
  {
    SumDefs();
    AllDifferent(if b == 0 then [0, 1] else if b == 1 then [2, 3, 4, 5] else [6]);
    PlainUnique(SUM.blocks[b].ops);
  }

  lemma SumUnique()
    ensures UniqueDefs(SUM)
  {
    forall block | block in SUM.blocks ensures Distinct(Defs(block)) && UniqueBelow(block.ops) {
      var b :| 0 <= b < |SUM.blocks| && SUM.blocks[b] == block;
      BlockUnique(b);
    }
  }

  /** And so it does over the scopes of the interpreter. */
  lemma ScopedSumsUp(n: int, chain: Chain, limit: nat)
    requires n >= 1 && limit > n + 1
    ensures ScopedRegion(Implementation, SUM, [PyInt(n)], chain, limit) == Done([PyInt(n * (n + 1) / 2)])
  {
    SumUnique();
    ScopedRefinesFlat(Implementation, SUM, [PyInt(n)], chain, limit);
    SumsUp(n, Flatten(chain), limit);
  }
}
