/**
 The scoped semantics and the machine end alike: whatever a bounded run answers, the machine ends
 with, and whatever the machine ends with is answered under some bound.
 */
module MachineRuns {
  import opened Ir
  import opened Semantics
  import opened Refinement
  import opened Machine

  // ----- every answer is an end of the machine -----

  lemma {:induction false} RegionAnswers(impl: Impl, region: Region, args: PyValues, chain: Chain, limit: nat)
    requires ScopedRegion(impl, region, args, chain, limit) != OutOfLimit
    ensures RegionEnds(impl, region, args, chain, ScopedRegion(impl, region, args, chain, limit))
    decreases region, 3
  {
    if region.blocks != [] {
      BlocksAnswer(impl, region, 0, args, chain, limit, limit);
    }
  }

  lemma {:induction false} BlocksAnswer(impl: Impl, region: Region, b: nat, args: PyValues, chain: Chain, limit: nat, left: nat)
    requires ScopedBlocks(impl, region, b, args, chain, limit, left) != OutOfLimit
    ensures EndsFrom(impl, region, b, args, chain, ScopedBlocks(impl, region, b, args, chain, limit, left))
    decreases region, 2, left, 0
  {
    if b < |region.blocks| {
      var block := region.blocks[b];
      StoredExactly(map[], block.args, args);
      var entered := Define(map[], block.args, args);
      if entered.Done? {
        var s := State(b, 0, chain + [entered.value]);
        assert s.chain[..|chain|] == chain;
        assert Enters(region, b, args, chain, s);
        assert block.ops[0..] == block.ops;
        var n := RestAnswers(impl, region, b, 0, chain, entered.value, limit, left - 1);
        assert Runs(impl, region, s, ScopedBlocks(impl, region, b, args, chain, limit, left), n);
      }
    }
  }

  /** What is left of a run: the rest of a block, and then the blocks it goes to. */
  function Rest(impl: Impl, region: Region, ops: seq<Op>, chain: Chain, scope: Env, limit: nat, left: nat): Outcome<PyValues>
  {
    var (next, scope') :- ScopedOps(impl, ops, chain, scope, limit);
    match next
    case Continue => Done([])
    case Exit(values) => Done(values)
    case Goto(c, args) => ScopedBlocks(impl, region, c, args, chain + [scope'], limit, left)
  }

  /** After one operation. */
  function AfterOp(impl: Impl, region: Region, ops: seq<Op>, chain: Chain, o: Outcome<(Next, Env)>, limit: nat, left: nat)
    : Outcome<PyValues>
  {
    var (next, scope') :- o;
    match next
    case Continue => Rest(impl, region, ops, chain, scope', limit, left)
    case Exit(values) => Done(values)
    case Goto(c, args) => ScopedBlocks(impl, region, c, args, chain + [scope'], limit, left)
  }

  lemma RestUnfolds(impl: Impl, region: Region, ops: seq<Op>, i: nat, chain: Chain, scope: Env, limit: nat, left: nat)
    requires i < |ops|
    ensures Rest(impl, region, ops[i..], chain, scope, limit, left)
         == AfterOp(impl, region, ops[i + 1..], chain, ScopedOp(impl, ops[i], chain, scope, limit), limit, left)
  {
    assert ops[i..][0] == ops[i] && ops[i..][1..] == ops[i + 1..];
  }

  lemma {:induction false} RestAnswers(impl: Impl, region: Region, b: nat, i: nat, chain: Chain, scope: Env, limit: nat, left: nat)
    returns (n: nat)
    requires b < |region.blocks| && i <= |region.blocks[b].ops|
    requires Rest(impl, region, region.blocks[b].ops[i..], chain, scope, limit, left) != OutOfLimit
    ensures Runs(impl, region, State(b, i, chain + [scope]), Rest(impl, region, region.blocks[b].ops[i..], chain, scope, limit, left), n)
    decreases region, 2, left, 1 + |region.blocks[b].ops| - i
  {
    var ops := region.blocks[b].ops;
    var s := State(b, i, chain + [scope]);
    if i == |ops| {
      return 0;
    }
    RestUnfolds(impl, region, ops, i, chain, scope, limit, left);
    OpAnswers(impl, ops[i], chain, scope, limit);
    var o := ScopedOp(impl, ops[i], chain, scope, limit);
    var rest := AfterOp(impl, region, ops[i + 1..], chain, o, limit, left);
    n := 0;
    if o.Done? && o.value.0.Continue? {
      n := RestAnswers(impl, region, b, i + 1, chain, o.value.1, limit, left);
    } else if o.Done? && o.value.0.Goto? {
      BlocksAnswer(impl, region, o.value.0.block, o.value.0.args, chain + [o.value.1], limit, left);
    }
    n := MoveRuns(impl, region, s, chain, o, rest, n);
  }

  /** A run that goes on, one operation later, in a way the machine does. */
  lemma MoveRuns(impl: Impl, region: Region, s: State, chain: Chain, o: Outcome<(Next, Env)>, rest: Outcome<PyValues>, m: nat)
    returns (n: nat)
    requires InBlock(region, s) && s.index < |region.blocks[s.block].ops| && |s.chain| == |chain| + 1 && s.chain[..|chain|] == chain
    requires Moves(impl, region.blocks[s.block].ops[s.index], s.chain, o)
    requires match o
             case OutOfLimit => false
             case Failed(error) => rest == Failed(error)
             case Done((Continue, scope)) => Runs(impl, region, State(s.block, s.index + 1, chain + [scope]), rest, m)
             case Done((Exit(values), _)) => rest == Done(values)
             case Done((Goto(c, args), scope)) => EndsFrom(impl, region, c, args, chain + [scope], rest)
    ensures Runs(impl, region, s, rest, n)
  {
    match o
    case Failed(error) =>
      FailureStops(impl, region, s, error);
      n := 0;
    case Done((Exit(values), scope)) =>
      ReturnStops(impl, region, s, values, scope);
      n := 0;
    case Done((Continue, scope)) =>
      NextRuns(impl, region, s, chain, scope, rest, m);
      n := m + 1;
    case Done((Goto(c, args), scope)) =>
      n := GoesOn(impl, region, s, chain, scope, c, args, rest);
  }

  /** What an operation of the scoped semantics amounts to in the machine. */
  ghost predicate Moves(impl: Impl, op: Op, chain: Chain, o: Outcome<(Next, Env)>)
    requires chain != []
  {
    match o
    case OutOfLimit => false
    case Done((next, scope)) => exists terminator :: OpDone(impl, op, chain, terminator, scope) && Continuation(op, terminator) == Done(next)
    case Failed(error) => OpFails(impl, op, chain, error) || (error == NoSuchBlock && BranchesAway(impl, op, chain))
  }

  ghost predicate BranchesAway(impl: Impl, op: Op, chain: Chain)
    requires chain != []
  {
    exists terminator, scope :: OpDone(impl, op, chain, terminator, scope) && Continuation(op, terminator) == Failed(NoSuchBlock)
  }

  lemma LeadsTo(impl: Impl, op: Op, chain: Chain, next: Next, scope: Env) returns (terminator: Terminator)
    requires chain != [] && Moves(impl, op, chain, Done((next, scope)))
    ensures OpDone(impl, op, chain, terminator, scope) && Continuation(op, terminator) == Done(next)
  {
    terminator :| OpDone(impl, op, chain, terminator, scope) && Continuation(op, terminator) == Done(next);
  }

  lemma FailureStops(impl: Impl, region: Region, s: State, error: Error)
    requires InBlock(region, s) && s.index < |region.blocks[s.block].ops|
    requires Moves(impl, region.blocks[s.block].ops[s.index], s.chain, Failed(error))
    ensures Runs(impl, region, s, Failed(error), 0)
  {
    var op := region.blocks[s.block].ops[s.index];
    if !OpFails(impl, op, s.chain, error) {
      var terminator, scope :| OpDone(impl, op, s.chain, terminator, scope) && Continuation(op, terminator) == Failed(NoSuchBlock);
      assert Stops(impl, region, s, Failed(error));
    }
  }

  lemma ReturnStops(impl: Impl, region: Region, s: State, values: PyValues, scope: Env)
    requires InBlock(region, s) && s.index < |region.blocks[s.block].ops|
    requires Moves(impl, region.blocks[s.block].ops[s.index], s.chain, Done((Exit(values), scope)))
    ensures Runs(impl, region, s, Done(values), 0)
  {
    var op := region.blocks[s.block].ops[s.index];
    var terminator := LeadsTo(impl, op, s.chain, Exit(values), scope);
    assert Halts(region, op, terminator, Done(values));
  }

  lemma NextRuns(impl: Impl, region: Region, s: State, chain: Chain, scope: Env, o: Outcome<PyValues>, m: nat)
    requires InBlock(region, s) && s.index < |region.blocks[s.block].ops| && |s.chain| == |chain| + 1 && s.chain[..|chain|] == chain
    requires Moves(impl, region.blocks[s.block].ops[s.index], s.chain, Done((Continue, scope)))
    requires Runs(impl, region, State(s.block, s.index + 1, chain + [scope]), o, m)
    ensures Runs(impl, region, s, o, m + 1)
  {
    var op, s' := region.blocks[s.block].ops[s.index], State(s.block, s.index + 1, chain + [scope]);
    var terminator := LeadsTo(impl, op, s.chain, Continue, scope);
    assert Goes(region, s, op, terminator, scope, s');
    assert Step(impl, region, s, s');
  }

  /** A branch either fails to enter its block, or is a step. */
  lemma GoesOn(impl: Impl, region: Region, s: State, chain: Chain, scope: Env, c: nat, args: PyValues, o: Outcome<PyValues>) returns (n: nat)
    requires InBlock(region, s) && s.index < |region.blocks[s.block].ops| && |s.chain| == |chain| + 1 && s.chain[..|chain|] == chain
    requires Moves(impl, region.blocks[s.block].ops[s.index], s.chain, Done((Goto(c, args), scope)))
    requires EndsFrom(impl, region, c, args, chain + [scope], o)
    ensures Runs(impl, region, s, o, n)
  {
    var op := region.blocks[s.block].ops[s.index];
    var terminator := LeadsTo(impl, op, s.chain, Goto(c, args), scope);
    if o.Failed? && EntryFails(region, c, args, o.error) {
      assert Halts(region, op, terminator, o);
      return 0;
    }
    var s', m: nat :| Enters(region, c, args, chain + [scope], s') && Runs(impl, region, s', o, m);
    assert Goes(region, s, op, terminator, scope, s');
    assert Step(impl, region, s, s');
    n := m + 1;
  }

  lemma {:induction false} OpAnswers(impl: Impl, op: Op, chain: Chain, scope: Env, limit: nat)
    requires ScopedOp(impl, op, chain, scope, limit) != OutOfLimit
    ensures Moves(impl, op, chain + [scope], ScopedOp(impl, op, chain, scope, limit))
    decreases op, 1
  {
    var whole := chain + [scope];
    MissingExactly(whole, op.operands);
    var inputs := LookupAll(Flatten(whole), op.operands);
    if inputs.Done? {
      InputsExactly(whole, op.operands, inputs.value);
      ImplAnswers(impl, op, inputs.value, [], whole, limit);
      var o := ScopedImpl(impl, op, inputs.value, [], whole, limit);
      if o.Done? {
        StoreMoves(impl, op, chain, scope, inputs.value, o.value.0, o.value.1);
      } else {
        assert OpFails(impl, op, whole, o.error);
      }
    }
  }

  lemma StoreMoves(impl: Impl, op: Op, chain: Chain, scope: Env, inputs: PyValues, values: PyValues, terminator: Terminator)
    requires Inputs(chain + [scope], op.operands, inputs)
    requires Implements(impl, op, inputs, chain + [scope], Done((values, terminator)))
    ensures Moves(impl, op, chain + [scope], ScopedStore(op, values, terminator, scope))
  {
    var whole := chain + [scope];
    StoredExactly(scope, op.results, values);
    var stored := Define(scope, op.results, values);
    if |values| == |op.results| && stored.Done? {
      assert OpDone(impl, op, whole, terminator, stored.value);
    } else {
      assert Misfits(scope, op.results, values, ScopedStore(op, values, terminator, scope).error);
    }
  }

  lemma {:induction false} ImplAnswers(impl: Impl, op: Op, inputs: PyValues, history: seq<PyValues>, chain: Chain, limit: nat)
    requires |history| <= limit && Asked(impl, op, inputs, chain, history)
    requires ScopedImpl(impl, op, inputs, history, chain, limit) != OutOfLimit
    ensures Implements(impl, op, inputs, chain, ScopedImpl(impl, op, inputs, history, chain, limit))
    decreases op, 0, limit - |history|
  {
    var action := impl(op.code, inputs, history);
    var o := ScopedImpl(impl, op, inputs, history, chain, limit);
    if action.RunRegionOf? && action.region < |op.regions| {
      var r := ScopedRegion(impl, op.regions[action.region], action.args, chain, limit);
      RegionAnswers(impl, op.regions[action.region], action.args, chain, limit);
      if r.Done? {
        var longer := history + [r.value];
        assert longer[..|history|] == history;
        forall h | 0 <= h < |longer|
          ensures var a := impl(op.code, inputs, longer[..h]);
                  a.RunRegionOf? && a.region < |op.regions| && RegionEnds(impl, op.regions[a.region], a.args, chain, Done(longer[h]))
        {
          if h < |history| {
            assert longer[..h] == history[..h];
          }
        }
        ImplAnswers(impl, op, inputs, longer, chain, limit);
        return;
      }
    }
    assert Answers(impl, op, inputs, chain, history, o);
  }

  // ----- a larger bound never changes an answer -----

  lemma {:induction false} RegionKeeps(impl: Impl, region: Region, args: PyValues, chain: Chain, limit: nat, limit': nat)
    requires limit <= limit'
    requires ScopedRegion(impl, region, args, chain, limit) != OutOfLimit
    ensures ScopedRegion(impl, region, args, chain, limit') == ScopedRegion(impl, region, args, chain, limit)
    decreases region, 2
  {
    if region.blocks != [] {
      BlocksKeep(impl, region, 0, args, chain, limit, limit, limit', limit');
    }
  }

  lemma {:induction false} BlocksKeep(impl: Impl, region: Region, b: nat, args: PyValues, chain: Chain,
                                      limit: nat, left: nat, limit': nat, left': nat)
    requires limit <= limit' && left <= left'
    requires ScopedBlocks(impl, region, b, args, chain, limit, left) != OutOfLimit
    ensures ScopedBlocks(impl, region, b, args, chain, limit', left') == ScopedBlocks(impl, region, b, args, chain, limit, left)
    decreases region, 1, left
  {
    if b < |region.blocks| {
      var block := region.blocks[b];
      var entered := Define(map[], block.args, args);
      if entered.Done? {
        OpsKeep(impl, block.ops, chain, entered.value, limit, limit');
        var o := ScopedOps(impl, block.ops, chain, entered.value, limit);
        if o.Done? && o.value.0.Goto? {
          BlocksKeep(impl, region, o.value.0.block, o.value.0.args, chain + [o.value.1], limit, left - 1, limit', left' - 1);
        }
      }
    }
  }

  lemma {:induction false} OpsKeep(impl: Impl, ops: seq<Op>, chain: Chain, scope: Env, limit: nat, limit': nat)
    requires limit <= limit'
    requires ScopedOps(impl, ops, chain, scope, limit) != OutOfLimit
    ensures ScopedOps(impl, ops, chain, scope, limit') == ScopedOps(impl, ops, chain, scope, limit)
    decreases ops, 0
  {
    if ops != [] {
      OpKeeps(impl, ops[0], chain, scope, limit, limit');
      var o := ScopedOp(impl, ops[0], chain, scope, limit);
      if o.Done? && o.value.0.Continue? {
        OpsKeep(impl, ops[1..], chain, o.value.1, limit, limit');
      }
    }
  }

  lemma {:induction false} OpKeeps(impl: Impl, op: Op, chain: Chain, scope: Env, limit: nat, limit': nat)
    requires limit <= limit'
    requires ScopedOp(impl, op, chain, scope, limit) != OutOfLimit
    ensures ScopedOp(impl, op, chain, scope, limit') == ScopedOp(impl, op, chain, scope, limit)
    decreases op, 1
  {
    var inputs := LookupAll(Flatten(chain + [scope]), op.operands);
    if inputs.Done? {
      ImplKeeps(impl, op, inputs.value, [], chain + [scope], limit, limit');
    }
  }

  lemma {:induction false} ImplKeeps(impl: Impl, op: Op, inputs: PyValues, history: seq<PyValues>, chain: Chain,
                                     limit: nat, limit': nat)
    requires |history| <= limit <= limit'
    requires ScopedImpl(impl, op, inputs, history, chain, limit) != OutOfLimit
    ensures ScopedImpl(impl, op, inputs, history, chain, limit') == ScopedImpl(impl, op, inputs, history, chain, limit)
    decreases op, 0, limit - |history|
  {
    var action := impl(op.code, inputs, history);
    if action.RunRegionOf? && action.region < |op.regions| {
      RegionKeeps(impl, op.regions[action.region], action.args, chain, limit, limit');
      var r := ScopedRegion(impl, op.regions[action.region], action.args, chain, limit);
      if r.Done? {
        ImplKeeps(impl, op, inputs, history + [r.value], chain, limit, limit');
      }
    }
  }

  lemma RestKeeps(impl: Impl, region: Region, ops: seq<Op>, chain: Chain, scope: Env, limit: nat, left: nat, limit': nat, left': nat)
    requires limit <= limit' && left <= left'
    requires Rest(impl, region, ops, chain, scope, limit, left) != OutOfLimit
    ensures Rest(impl, region, ops, chain, scope, limit', left') == Rest(impl, region, ops, chain, scope, limit, left)
  {
    OpsKeep(impl, ops, chain, scope, limit, limit');
    var o := ScopedOps(impl, ops, chain, scope, limit);
    if o.Done? && o.value.0.Goto? {
      BlocksKeep(impl, region, o.value.0.block, o.value.0.args, chain + [o.value.1], limit, left, limit', left');
    }
  }

  // ----- every end of the machine is an answer under some bound -----

  function Larger(a: nat, b: nat): (r: nat)
    ensures r >= a && r >= b
  {
    if a < b then b else a
  }

  lemma {:induction false} RegionIsAnswered(impl: Impl, region: Region, args: PyValues, chain: Chain, o: Outcome<PyValues>)
    returns (limit: nat)
    requires RegionEnds(impl, region, args, chain, o)
    ensures ScopedRegion(impl, region, args, chain, limit) == o && !o.OutOfLimit?
    decreases region, 4
  {
    limit := 0;
    if region.blocks != [] {
      var most, left := BlocksAreAnswered(impl, region, 0, args, chain, o);
      limit := Larger(most, left);
      BlocksKeep(impl, region, 0, args, chain, most, left, limit, limit);
    }
  }

  lemma {:induction false} BlocksAreAnswered(impl: Impl, region: Region, b: nat, args: PyValues, chain: Chain, o: Outcome<PyValues>)
    returns (limit: nat, left: nat)
    requires EndsFrom(impl, region, b, args, chain, o)
    ensures ScopedBlocks(impl, region, b, args, chain, limit, left) == o && !o.OutOfLimit?
    decreases region, 3
  {
    if o.Failed? && EntryFails(region, b, args, o.error) {
      EntryErrs(impl, region, b, args, chain, o.error, 0, 1);
      return 0, 1;
    }
    var s, n: nat :| Enters(region, b, args, chain, s) && Runs(impl, region, s, o, n);
    var rest;
    limit, rest := RunsAreAnswered(impl, region, s, o, n);
    left := rest + 1;
    EntryGoesOn(impl, region, b, args, chain, s, limit, left);
  }

  lemma EntryErrs(impl: Impl, region: Region, b: nat, args: PyValues, chain: Chain, error: Error, limit: nat, left: nat)
    requires EntryFails(region, b, args, error) && left > 0
    ensures ScopedBlocks(impl, region, b, args, chain, limit, left) == Failed(error)
  {
    if b < |region.blocks| {
      StoredIsDefine(map[], region.blocks[b].args, args);
    }
  }

  lemma EntryGoesOn(impl: Impl, region: Region, b: nat, args: PyValues, chain: Chain, s: State, limit: nat, left: nat)
    requires Enters(region, b, args, chain, s) && left > 0
    ensures ScopedBlocks(impl, region, b, args, chain, limit, left)
         == Rest(impl, region, region.blocks[b].ops[0..], chain, s.chain[|chain|], limit, left - 1)
    ensures s.chain[..|s.chain| - 1] == chain
  {
    StoredIsDefine(map[], region.blocks[b].args, args);
    assert region.blocks[b].ops[0..] == region.blocks[b].ops;
  }

  /** What is left of the run from a state. */
  function From(impl: Impl, region: Region, s: State, limit: nat, left: nat): Outcome<PyValues>
    requires InBlock(region, s)
  {
    var n := |s.chain| - 1;
    Rest(impl, region, region.blocks[s.block].ops[s.index..], s.chain[..n], s.chain[n], limit, left)
  }

  lemma {:induction false} RunsAreAnswered(impl: Impl, region: Region, s: State, o: Outcome<PyValues>, n: nat)
    returns (limit: nat, left: nat)
    requires Runs(impl, region, s, o, n)
    ensures InBlock(region, s) && From(impl, region, s, limit, left) == o && !o.OutOfLimit?
    decreases region, 2, n
  {
    if n == 0 {
      limit := StopIsAnswered(impl, region, s, o);
      left := 1;
    } else {
      var s' :| Step(impl, region, s, s') && Runs(impl, region, s', o, n - 1);
      var most, rest := RunsAreAnswered(impl, region, s', o, n - 1);
      limit, left := StepIsAnswered(impl, region, s, s', o, most, rest);
    }
  }

  lemma Splits(chain: Chain)
    requires chain != []
    ensures chain[..|chain| - 1] + [chain[|chain| - 1]] == chain
  {
  }

  lemma {:induction false} StopIsAnswered(impl: Impl, region: Region, s: State, o: Outcome<PyValues>) returns (limit: nat)
    requires Stops(impl, region, s, o)
    ensures From(impl, region, s, limit, 1) == o && !o.OutOfLimit?
    decreases region, 1
  {
    var ops, n := region.blocks[s.block].ops, |s.chain| - 1;
    limit := 0;
    if s.index < |ops| {
      var op := ops[s.index];
      Splits(s.chain);
      if o.Failed? && OpFails(impl, op, s.chain, o.error) {
        limit := FailureIsAnswered(impl, op, s.chain[..n], s.chain[n], o.error);
      } else {
        var terminator, scope :| OpDone(impl, op, s.chain, terminator, scope) && Halts(region, op, terminator, o);
        limit := OpIsAnswered(impl, op, s.chain[..n], s.chain[n], terminator, scope);
        if terminator.Successor? && terminator.index < |op.successors| {
          EntryErrs(impl, region, op.successors[terminator.index], terminator.args, s.chain[..n] + [scope], o.error, limit, 1);
        }
      }
      RestUnfolds(impl, region, ops, s.index, s.chain[..n], s.chain[n], limit, 1);
    }
  }

  lemma {:induction false} StepIsAnswered(impl: Impl, region: Region, s: State, s': State, o: Outcome<PyValues>, most: nat, rest: nat)
    returns (limit: nat, left: nat)
    requires Step(impl, region, s, s')
    requires InBlock(region, s') && From(impl, region, s', most, rest) == o && !o.OutOfLimit?
    ensures From(impl, region, s, limit, left) == o
    decreases region, 1
  {
    var n := |s.chain| - 1;
    var op := region.blocks[s.block].ops[s.index];
    Splits(s.chain);
    var terminator, scope :| OpDone(impl, op, s.chain, terminator, scope) && Goes(region, s, op, terminator, scope, s');
    var least := OpIsAnswered(impl, op, s.chain[..n], s.chain[n], terminator, scope);
    limit, left := Larger(least, most), rest + 1;
    OpKeeps(impl, op, s.chain[..n], s.chain[n], least, limit);
    FromKeeps(impl, region, s', most, rest, limit, rest);
    FromKeeps(impl, region, s', limit, rest, limit, left);
    StepGoesOn(impl, region, s, s', terminator, scope, limit, left);
  }

  lemma StepGoesOn(impl: Impl, region: Region, s: State, s': State, terminator: Terminator, scope: Env, limit: nat, left: nat)
    requires InBlock(region, s) && s.index < |region.blocks[s.block].ops| && InBlock(region, s') && left > 0
    requires Goes(region, s, region.blocks[s.block].ops[s.index], terminator, scope, s')
    requires var op, n := region.blocks[s.block].ops[s.index], |s.chain| - 1;
             var next := Continuation(op, terminator);
             next.Done? && ScopedOp(impl, op, s.chain[..n], s.chain[n], limit) == Done((next.value, scope))
    ensures From(impl, region, s, limit, left) == From(impl, region, s', limit, if terminator.Successor? then left - 1 else left)
  {
    var ops, n := region.blocks[s.block].ops, |s.chain| - 1;
    RestUnfolds(impl, region, ops, s.index, s.chain[..n], s.chain[n], limit, left);
    if terminator.Successor? {
      EntryGoesOn(impl, region, ops[s.index].successors[terminator.index], terminator.args, Under(s.chain, scope), s', limit, left);
    } else {
      assert s'.chain[..|s'.chain| - 1] == s.chain[..n];
    }
  }

  lemma FromKeeps(impl: Impl, region: Region, s: State, limit: nat, left: nat, limit': nat, left': nat)
    requires InBlock(region, s) && limit <= limit' && left <= left'
    requires From(impl, region, s, limit, left) != OutOfLimit
    ensures From(impl, region, s, limit', left') == From(impl, region, s, limit, left)
  {
    var m := |s.chain| - 1;
    RestKeeps(impl, region, region.blocks[s.block].ops[s.index..], s.chain[..m], s.chain[m], limit, left, limit', left');
  }

  lemma {:induction false} OpIsAnswered(impl: Impl, op: Op, chain: Chain, scope: Env, terminator: Terminator, scope': Env)
    returns (limit: nat)
    requires OpDone(impl, op, chain + [scope], terminator, scope')
    ensures var next := Continuation(op, terminator);
            ScopedOp(impl, op, chain, scope, limit) == if next.Done? then Done((next.value, scope')) else Failed(NoSuchBlock)
    decreases op, 3
  {
    var whole := chain + [scope];
    var inputs, values :|
      && Inputs(whole, op.operands, inputs) && Implements(impl, op, inputs, whole, Done((values, terminator)))
      && |values| == |op.results| && Stored(scope, op.results, values, scope');
    InputsExactly(whole, op.operands, inputs);
    StoredIsDefine(scope, op.results, values);
    limit := ImplIsAnswered(impl, op, inputs, whole, Done((values, terminator)));
  }

  lemma {:induction false} FailureIsAnswered(impl: Impl, op: Op, chain: Chain, scope: Env, error: Error) returns (limit: nat)
    requires OpFails(impl, op, chain + [scope], error)
    ensures ScopedOp(impl, op, chain, scope, limit) == Failed(error)
    decreases op, 3
  {
    var whole := chain + [scope];
    limit := 0;
    if j: nat :| Missing(whole, op.operands, j) && error == ValueNotFound(op.operands[j]) {
      MissingExactly(whole, op.operands);
    } else if inputs :| Inputs(whole, op.operands, inputs) && Implements(impl, op, inputs, whole, Failed(error)) {
      InputsExactly(whole, op.operands, inputs);
      limit := ImplIsAnswered(impl, op, inputs, whole, Failed(error));
    } else {
      var inputs, values, terminator :|
        && Inputs(whole, op.operands, inputs) && Implements(impl, op, inputs, whole, Done((values, terminator)))
        && Misfits(scope, op.results, values, error);
      limit := ImplIsAnswered(impl, op, inputs, whole, Done((values, terminator)));
      MisfitErrs(impl, op, chain, scope, inputs, values, terminator, error, limit);
    }
  }

  lemma MisfitErrs(impl: Impl, op: Op, chain: Chain, scope: Env, inputs: PyValues, values: PyValues, terminator: Terminator,
                   error: Error, limit: nat)
    requires Inputs(chain + [scope], op.operands, inputs) && Misfits(scope, op.results, values, error)
    requires ScopedImpl(impl, op, inputs, [], chain + [scope], limit) == Done((values, terminator))
    ensures ScopedOp(impl, op, chain, scope, limit) == Failed(error)
  {
    InputsExactly(chain + [scope], op.operands, inputs);
    StoredIsDefine(scope, op.results, values);
  }

  lemma {:induction false} ImplIsAnswered(impl: Impl, op: Op, inputs: PyValues, chain: Chain, o: Outcome<(PyValues, Terminator)>)
    returns (limit: nat)
    requires Implements(impl, op, inputs, chain, o)
    ensures ScopedImpl(impl, op, inputs, [], chain, limit) == o && !o.OutOfLimit?
    decreases op, 2
  {
    var history :| Asked(impl, op, inputs, chain, history) && Answers(impl, op, inputs, chain, history, o);
    limit := RequestsAreAnswered(impl, op, inputs, chain, history, 0, o);
    assert history[..0] == [];
  }

  lemma {:induction false} RequestsAreAnswered(impl: Impl, op: Op, inputs: PyValues, chain: Chain, history: seq<PyValues>, h: nat,
                                               o: Outcome<(PyValues, Terminator)>)
    returns (limit: nat)
    requires h <= |history|
    requires Asked(impl, op, inputs, chain, history) && Answers(impl, op, inputs, chain, history, o)
    ensures h <= limit && ScopedImpl(impl, op, inputs, history[..h], chain, limit) == o && !o.OutOfLimit?
    decreases op, 1, |history| - h
  {
    var action := impl(op.code, inputs, history[..h]);
    if h == |history| {
      assert history[..h] == history;
      limit := h;
      if action.RunRegionOf? && action.region < |op.regions| {
        var inner := RegionIsAnswered(impl, op.regions[action.region], action.args, chain, Failed(o.error));
        limit := Larger(inner, h + 1);
        RegionKeeps(impl, op.regions[action.region], action.args, chain, inner, limit);
      }
    } else {
      var inner := RegionIsAnswered(impl, op.regions[action.region], action.args, chain, Done(history[h]));
      var more := RequestsAreAnswered(impl, op, inputs, chain, history, h + 1, o);
      assert history[..h + 1] == history[..h] + [history[h]];
      limit := Larger(inner, more);
      RegionKeeps(impl, op.regions[action.region], action.args, chain, inner, limit);
      ImplKeeps(impl, op, inputs, history[..h + 1], chain, more, limit);
    }
  }

  // ----- both together -----

  ghost predicate Answered(impl: Impl, region: Region, args: PyValues, chain: Chain, o: Outcome<PyValues>)
  {
    !o.OutOfLimit? && exists limit: nat :: ScopedRegion(impl, region, args, chain, limit) == o
  }

  /** What some bounded run answers is exactly what the machine ends with, values and errors alike. */
  lemma EndsExactly(impl: Impl, region: Region, args: PyValues, chain: Chain, o: Outcome<PyValues>)
    ensures Answered(impl, region, args, chain, o) <==> RegionEnds(impl, region, args, chain, o)
  {
    if Answered(impl, region, args, chain, o) {
      var limit: nat :| ScopedRegion(impl, region, args, chain, limit) == o;
      RegionAnswers(impl, region, args, chain, limit);
    }
    if RegionEnds(impl, region, args, chain, o) {
      var limit := RegionIsAnswered(impl, region, args, chain, o);
    }
  }

  /** So the machine ends in one way only. */
  lemma EndsOnce(impl: Impl, region: Region, args: PyValues, chain: Chain, o: Outcome<PyValues>, o': Outcome<PyValues>)
    requires RegionEnds(impl, region, args, chain, o) && RegionEnds(impl, region, args, chain, o')
    ensures o == o'
  {
    var limit := RegionIsAnswered(impl, region, args, chain, o);
    var limit' := RegionIsAnswered(impl, region, args, chain, o');
    RegionKeeps(impl, region, args, chain, limit, Larger(limit, limit'));
    RegionKeeps(impl, region, args, chain, limit', Larger(limit, limit'));
  }
}
