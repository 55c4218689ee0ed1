/**
 The interpreter as a machine that takes one operation at a time. A state names the block and the
 operation, and holds the scopes; the conditions on a step are written out over scopes, operands and
 results. `EndsExactly` says that the scoped semantics answers exactly what this machine ends with,
 returned values and errors alike.
 */
module Machine {
  import opened Ir
  import opened Semantics

  /** A run of a region stands in front of an operation of a block; the current scope is the last. */
  datatype State = State(block: nat, index: nat, chain: Chain)

  // ----- scopes -----

  /** The innermost scope that binds `v` is scope `i`. */
  predicate Innermost(chain: Chain, i: nat, v: Value)
  {
    i < |chain| && v in chain[i] && forall j :: i < j < |chain| ==> v !in chain[j]
  }

  ghost predicate Holds(chain: Chain, v: Value, x: PyValue)
  {
    exists i: nat :: Innermost(chain, i, v) && chain[i][v] == x
  }

  predicate Unbound(chain: Chain, v: Value)
  {
    forall i :: 0 <= i < |chain| ==> v !in chain[i]
  }

  ghost predicate Inputs(chain: Chain, operands: seq<Value>, inputs: PyValues)
  {
    |inputs| == |operands| && forall j :: 0 <= j < |operands| ==> Holds(chain, operands[j], inputs[j])
  }

  /** Operand `j` is the first one without a value. */
  predicate Missing(chain: Chain, operands: seq<Value>, j: nat)
  {
    j < |operands| && Unbound(chain, operands[j]) && forall i :: 0 <= i < j ==> !Unbound(chain, operands[i])
  }

  /** How many pairs two lists make. */
  function Pairs(names: seq<Value>, vals: PyValues): nat
  {
    if |names| < |vals| then |names| else |vals|
  }

  /** The name of pair `j` is new to the scope. */
  predicate Fresh(scope: Env, names: seq<Value>, j: nat)
    requires j < |names|
  {
    names[j] !in scope && forall i :: 0 <= i < j ==> names[i] != names[j]
  }

  /** Each name has got its value, and nothing else has changed. */
  predicate Stored(scope: Env, names: seq<Value>, vals: PyValues, scope': Env)
  {
    && (forall j :: 0 <= j < Pairs(names, vals) ==> Fresh(scope, names, j) && names[j] in scope' && scope'[names[j]] == vals[j])
    && (forall v :: v in scope ==> v in scope' && scope'[v] == scope[v])
    && (forall v :: v in scope' ==> v in scope || v in names[..Pairs(names, vals)])
  }

  /** Pair `j` is the first whose name is taken. */
  predicate Taken(scope: Env, names: seq<Value>, vals: PyValues, j: nat)
  {
    j < Pairs(names, vals) && !Fresh(scope, names, j) && forall i :: 0 <= i < j ==> Fresh(scope, names, i)
  }

  // ----- operations -----

  /** Each earlier request of the implementation was a run of a region, and `history` lists what they returned. */
  ghost predicate Asked(impl: Impl, op: Op, inputs: PyValues, chain: Chain, history: seq<PyValues>)
    decreases op, 0
  {
    forall h :: 0 <= h < |history| ==>
      var action := impl(op.code, inputs, history[..h]);
      action.RunRegionOf? && action.region < |op.regions| && RegionEnds(impl, op.regions[action.region], action.args, chain, Done(history[h]))
  }

  ghost predicate Answers(impl: Impl, op: Op, inputs: PyValues, chain: Chain, history: seq<PyValues>, o: Outcome<(PyValues, Terminator)>)
    decreases op, 0
  {
    match impl(op.code, inputs, history)
    case Finish(values, terminator) => o == Done((values, terminator))
    case Raise(code) => o == Failed(Raised(code))
    case RunRegionOf(k, args) =>
      if k >= |op.regions| then o == Failed(NoSuchRegion)
      else o.Failed? && RegionEnds(impl, op.regions[k], args, chain, Failed(o.error))
  }

  /** The implementation of the operation, with the region runs it asks for one after the other. */
  ghost predicate Implements(impl: Impl, op: Op, inputs: PyValues, chain: Chain, o: Outcome<(PyValues, Terminator)>)
    decreases op, 1
  {
    exists history :: Asked(impl, op, inputs, chain, history) && Answers(impl, op, inputs, chain, history, o)
  }

  /** The operation has read its operands, run, and stored its results in the current scope. */
  ghost predicate OpDone(impl: Impl, op: Op, chain: Chain, terminator: Terminator, scope: Env)
    requires chain != []
    decreases op, 2
  {
    exists inputs, values ::
      && Inputs(chain, op.operands, inputs) && Implements(impl, op, inputs, chain, Done((values, terminator)))
      && |values| == |op.results| && Stored(chain[|chain| - 1], op.results, values, scope)
  }

  ghost predicate OpFails(impl: Impl, op: Op, chain: Chain, error: Error)
    requires chain != []
    decreases op, 2
  {
    || (exists j: nat :: Missing(chain, op.operands, j) && error == ValueNotFound(op.operands[j]))
    || (exists inputs :: Inputs(chain, op.operands, inputs) && Implements(impl, op, inputs, chain, Failed(error)))
    || (exists inputs, values, terminator ::
          && Inputs(chain, op.operands, inputs) && Implements(impl, op, inputs, chain, Done((values, terminator)))
          && Misfits(chain[|chain| - 1], op.results, values, error))
  }

  /** The values do not fit the results: too many or too few, or a result that already has a value. */
  ghost predicate Misfits(scope: Env, results: seq<Value>, values: PyValues, error: Error)
  {
    if |values| != |results| then error == WrongResultCount
    else exists j: nat :: Taken(scope, results, values, j) && error == AlreadyAssigned(results[j])
  }

  // ----- control flow -----

  /** Block `b` is entered: a new scope in which argument `j` of the block is bound to `args[j]`. */
  predicate Enters(region: Region, b: nat, args: PyValues, chain: Chain, s: State)
  {
    && b < |region.blocks| && s.block == b && s.index == 0
    && |s.chain| == |chain| + 1 && s.chain[..|chain|] == chain
    && Stored(map[], region.blocks[b].args, args, s.chain[|chain|])
  }

  ghost predicate EntryFails(region: Region, b: nat, args: PyValues, error: Error)
  {
    if b >= |region.blocks| then error == NoSuchBlock
    else exists j: nat :: Taken(map[], region.blocks[b].args, args, j) && error == AlreadyAssigned(region.blocks[b].args[j])
  }

  predicate InBlock(region: Region, s: State)
  {
    s.block < |region.blocks| && s.index <= |region.blocks[s.block].ops| && s.chain != []
  }

  /** The scopes with the current one replaced. */
  function Under(chain: Chain, scope: Env): Chain
    requires chain != []
  {
    chain[..|chain| - 1] + [scope]
  }

  /** Where control goes once an operation is done: on to the next operation, or into a successor block. */
  predicate Goes(region: Region, s: State, op: Op, terminator: Terminator, scope: Env, s': State)
    requires s.chain != []
  {
    match terminator
    case NoTerminator => s' == State(s.block, s.index + 1, Under(s.chain, scope))
    case Successor(k, args) => k < |op.successors| && Enters(region, op.successors[k], args, Under(s.chain, scope), s')
    case ReturnedValues(_) => false
  }

  /** How an operation that is done can end the run. */
  ghost predicate Halts(region: Region, op: Op, terminator: Terminator, o: Outcome<PyValues>)
  {
    match terminator
    case NoTerminator => false
    case Successor(k, args) =>
      if k >= |op.successors| then o == Failed(NoSuchBlock) else o.Failed? && EntryFails(region, op.successors[k], args, o.error)
    case ReturnedValues(values) => o == Done(values)
  }

  ghost predicate Step(impl: Impl, region: Region, s: State, s': State)
    decreases region, 0
  {
    && InBlock(region, s) && s.index < |region.blocks[s.block].ops|
    && var op := region.blocks[s.block].ops[s.index];
       exists terminator, scope :: OpDone(impl, op, s.chain, terminator, scope) && Goes(region, s, op, terminator, scope, s')
  }

  /** The run is over: at the end of a block without a terminator, by an error, or by what an operation asks for. */
  ghost predicate Stops(impl: Impl, region: Region, s: State, o: Outcome<PyValues>)
    decreases region, 0
  {
    && InBlock(region, s)
    && if s.index == |region.blocks[s.block].ops| then o == Done([])
       else
         var op := region.blocks[s.block].ops[s.index];
         || (o.Failed? && OpFails(impl, op, s.chain, o.error))
         || exists terminator, scope :: OpDone(impl, op, s.chain, terminator, scope) && Halts(region, op, terminator, o)
  }

  /** From `s` the run is over after `n` steps. */
  ghost predicate Runs(impl: Impl, region: Region, s: State, o: Outcome<PyValues>, n: nat)
    decreases region, 1, n
  {
    if n == 0 then Stops(impl, region, s, o)
    else exists s' :: Step(impl, region, s, s') && Runs(impl, region, s', o, n - 1)
  }

  /** A run that starts by entering block `b`. */
  ghost predicate EndsFrom(impl: Impl, region: Region, b: nat, args: PyValues, chain: Chain, o: Outcome<PyValues>)
    decreases region, 2
  {
    || (o.Failed? && EntryFails(region, b, args, o.error))
    || exists s, n: nat :: Enters(region, b, args, chain, s) && Runs(impl, region, s, o, n)
  }

  /** What a run of the region ends with. */
  ghost predicate RegionEnds(impl: Impl, region: Region, args: PyValues, chain: Chain, o: Outcome<PyValues>)
    decreases region, 3
  {
    if region.blocks == [] then o == Done([]) else EndsFrom(impl, region, 0, args, chain, o)
  }

  // ----- scopes as environments -----

  lemma {:induction false} HoldsExactly(chain: Chain, v: Value)
    ensures v in Flatten(chain) ==> Holds(chain, v, Flatten(chain)[v])
    ensures v !in Flatten(chain) <==> Unbound(chain, v)
    ensures forall x :: Holds(chain, v, x) ==> v in Flatten(chain) && Flatten(chain)[v] == x
  {
    if chain != [] {
      var n := |chain| - 1;
      HoldsExactly(chain[..n], v);
      if v in chain[n] {
        assert Innermost(chain, n, v);
      } else if v in Flatten(chain) {
        var i: nat :| Innermost(chain[..n], i, v) && chain[..n][i][v] == Flatten(chain)[v];
        assert Innermost(chain, i, v) && chain[i] == chain[..n][i];
      } else {
        assert forall i :: 0 <= i < n ==> chain[i] == chain[..n][i];
      }
      forall x | Holds(chain, v, x) ensures v in Flatten(chain) && Flatten(chain)[v] == x {
        var i: nat :| Innermost(chain, i, v) && chain[i][v] == x;
        if v !in chain[n] {
          assert Innermost(chain[..n], i, v) && chain[..n][i] == chain[i];
        }
      }
    }
  }

  lemma {:induction false} InputsExactly(chain: Chain, operands: seq<Value>, inputs: PyValues)
    ensures Inputs(chain, operands, inputs) <==> LookupAll(Flatten(chain), operands) == Done(inputs)
  {
    if operands == [] {
    } else {
      HoldsExactly(chain, operands[0]);
      if inputs != [] {
        InputsExactly(chain, operands[1..], inputs[1..]);
        assert inputs == [inputs[0]] + inputs[1..];
        InputsFirst(chain, operands, inputs);
      }
    }
  }

  lemma InputsFirst(chain: Chain, operands: seq<Value>, inputs: PyValues)
    requires operands != [] && inputs != []
    ensures Inputs(chain, operands, inputs) <==> Holds(chain, operands[0], inputs[0]) && Inputs(chain, operands[1..], inputs[1..])
  {
    if Holds(chain, operands[0], inputs[0]) && Inputs(chain, operands[1..], inputs[1..]) {
      forall j | 0 <= j < |operands| ensures Holds(chain, operands[j], inputs[j]) {
        if j > 0 {
          assert Holds(chain, operands[1..][j - 1], inputs[1..][j - 1]);
        }
      }
    }
  }

  lemma {:induction false} MissingExactly(chain: Chain, operands: seq<Value>)
    ensures var o := LookupAll(Flatten(chain), operands);
            && !o.OutOfLimit?
            && (o.Failed? ==> exists j: nat :: Missing(chain, operands, j) && o.error == ValueNotFound(operands[j]))
    ensures forall j: nat :: Missing(chain, operands, j) ==> LookupAll(Flatten(chain), operands) == Failed(ValueNotFound(operands[j]))
  {
    forall j: nat | Missing(chain, operands, j)
      ensures LookupAll(Flatten(chain), operands) == Failed(ValueNotFound(operands[j]))
    {
      forall i | 0 <= i <= j ensures operands[i] in Flatten(chain) <==> i < j {
        HoldsExactly(chain, operands[i]);
      }
      LookupMissing(Flatten(chain), operands, j);
    }
    if operands != [] {
      HoldsExactly(chain, operands[0]);
      if operands[0] !in Flatten(chain) {
        assert Missing(chain, operands, 0);
      } else {
        MissingExactly(chain, operands[1..]);
        var o := LookupAll(Flatten(chain), operands[1..]);
        if o.Failed? {
          var j: nat :| Missing(chain, operands[1..], j) && o.error == ValueNotFound(operands[1..][j]);
          assert forall i :: 0 < i <= j + 1 ==> operands[i] == operands[1..][i - 1];
          assert Missing(chain, operands, j + 1);
        }
      }
    }
  }

  /** Storing pair by pair stores all pairs. */
  lemma {:induction false} StoredExactly(scope: Env, names: seq<Value>, vals: PyValues)
    ensures var o := Define(scope, names, vals);
            && !o.OutOfLimit?
            && (o.Done? ==> Stored(scope, names, vals, o.value))
            && (o.Failed? ==> exists j: nat :: Taken(scope, names, vals, j) && o.error == AlreadyAssigned(names[j]))
    decreases names
  {
    if names != [] && vals != [] {
      if names[0] in scope {
        assert Taken(scope, names, vals, 0);
      } else {
        var more := scope[names[0] := vals[0]];
        StoredExactly(more, names[1..], vals[1..]);
        assert Pairs(names, vals) == 1 + Pairs(names[1..], vals[1..]);
        forall j: nat | 0 < j < |names| ensures Fresh(scope, names, j) <==> Fresh(more, names[1..], j - 1) {
          FreshTail(scope, names, vals[0], j);
        }
        var o := Define(more, names[1..], vals[1..]);
        if o.Failed? {
          var j: nat :| Taken(more, names[1..], vals[1..], j) && o.error == AlreadyAssigned(names[1..][j]);
          assert Taken(scope, names, vals, j + 1);
        } else {
          StoredTail(scope, names, vals, o.value);
        }
      }
    }
  }

  lemma FreshTail(scope: Env, names: seq<Value>, x: PyValue, j: nat)
    requires 0 < j < |names|
    ensures Fresh(scope, names, j) <==> Fresh(scope[names[0] := x], names[1..], j - 1)
  {
    assert forall i :: 0 < i < |names| ==> names[i] == names[1..][i - 1];
  }

  lemma StoredTail(scope: Env, names: seq<Value>, vals: PyValues, scope': Env)
    requires names != [] && vals != [] && names[0] !in scope
    requires Stored(scope[names[0] := vals[0]], names[1..], vals[1..], scope')
    ensures Stored(scope, names, vals, scope')
  {
    var n := Pairs(names, vals);
    forall j | 0 <= j < n ensures Fresh(scope, names, j) && names[j] in scope' && scope'[names[j]] == vals[j] {
      if j > 0 {
        FreshTail(scope, names, vals[0], j);
        assert names[j] == names[1..][j - 1] && vals[j] == vals[1..][j - 1];
      }
    }
    forall v | v in scope' ensures v in scope || v in names[..n] {
      if v in names[1..][..n - 1] {
        var i :| 0 <= i < n - 1 && names[1..][i] == v;
        assert names[..n][i + 1] == v;
      } else if v !in scope {
        assert names[..n][0] == v;
      }
    }
  }

  /** There is one way to store, and either all pairs are stored or one is taken. */
  lemma StoredIsDefine(scope: Env, names: seq<Value>, vals: PyValues)
    ensures forall scope' :: Stored(scope, names, vals, scope') ==> Define(scope, names, vals) == Done(scope')
    ensures forall j: nat :: Taken(scope, names, vals, j) ==> Define(scope, names, vals) == Failed(AlreadyAssigned(names[j]))
  {
    StoredExactly(scope, names, vals);
    var o := Define(scope, names, vals);
    forall scope' | Stored(scope, names, vals, scope') ensures o == Done(scope') {
      assert forall j: nat :: j < Pairs(names, vals) ==> Fresh(scope, names, j);
      StoredOnce(scope, names, vals, scope', o.value);
    }
    forall j: nat | Taken(scope, names, vals, j) ensures o == Failed(AlreadyAssigned(names[j])) {
      var i: nat :| Taken(scope, names, vals, i) && o.error == AlreadyAssigned(names[i]);
      assert i == j;
    }
  }

  lemma StoredOnce(scope: Env, names: seq<Value>, vals: PyValues, a: Env, b: Env)
    requires Stored(scope, names, vals, a) && Stored(scope, names, vals, b)
    ensures a == b
  {
    var n := Pairs(names, vals);
    forall v ensures v in a <==> v in b {
      if v in names[..n] {
        var i :| 0 <= i < n && names[i] == v;
        assert names[i] in a && names[i] in b;
      }
    }
    forall v | v in a ensures a[v] == b[v] {
      if v !in scope {
        var i :| 0 <= i < n && names[i] == v;
        assert a[names[i]] == vals[i] && b[names[i]] == vals[i];
      }
    }
  }
}
