/**
 The code generator and its correctness: the emitted operations and nested regions compute
 the value of the source expression.
 */
module CodeGeneration {
  import opened Ir
  import opened Semantics
  import opened Preservation
  import opened Frontend
  import opened Options

  datatype Typed = Typed(value: Value, ty: Ty)

  /** Emitted operations, the value they leave on the operand stack, and the next unused value. */
  datatype Emitted = Emitted(ops: seq<Op>, top: Typed, next: Value)

  function Generate(w: World, symbols: map<string, Ty>, e: Expr, next: Value): Result<Emitted>
  {
    match e
    case Name(id) =>
      if id !in symbols then Err(SymbolNotDefined(id))
      else Ok(Emitted([FetchOp(id, next)], Typed(next, symbols[id]), next + 1))
    case BinOp(op, left, right) =>
      var r :- Generate(w, symbols, right, next);
      var l :- Generate(w, symbols, left, r.next);
      Combine(w, r, l, BinaryMethod(op), [])
    case Compare(first, ops, comparators) =>
      if |comparators| != 1 || |ops| != 1 then Err(NotASingleComparison)
      else if !Supported(ops[0]) then Err(UnsupportedComparison(ops[0]))
      else
        var r :- Generate(w, symbols, comparators[0], next);
        var l :- Generate(w, symbols, first, r.next);
        Combine(w, r, l, ComparisonMethod(ops[0]), Mnemonic(ops[0]))
    case IfExp(test, body, orelse) =>
      var t :- Generate(w, symbols, test, next);
      var y :- Generate(w, symbols, body, t.next);
      var n :- Generate(w, symbols, orelse, y.next);
      if y.top.ty != n.top.ty then Err(BranchTypesDiffer(y.top.ty, n.top.ty))
      else
        var op := IfOp(t.top.value, y.ops + [YieldOp(y.top.value)], n.ops + [YieldOp(n.top.value)], n.next);
        Ok(Emitted(t.ops + [op], Typed(n.next, y.top.ty), n.next + 1))
  }

  /** The right operand is emitted first, then the left one, then the operation on both. */
  function Combine(w: World, r: Emitted, l: Emitted, method_: string, attributes: seq<string>): Result<Emitted>
  {
    if l.top.ty != r.top.ty then Err(OperandTypesDiffer(l.top.ty, r.top.ty))
    else
      var o := w.resolve(method_, l.top.ty);
      if o.None? then Err(NotOverloaded(method_, l.top.ty))
      else
        var op := BinaryOp(o.value.name, attributes, l.top.value, r.top.value, l.next);
        Ok(Emitted(r.ops + l.ops + [op], Typed(l.next, o.value.result), l.next + 1))
  }

  // ----- what is emitted is well typed -----

  /** Code is generated for exactly the well-typed expressions, with their type. */
  lemma {:induction false} GeneratesIffTyped(w: World, symbols: map<string, Ty>, e: Expr, next: Value)
    ensures var g, t := Generate(w, symbols, e, next), TypeOf(w, symbols, e);
            if g.Ok? then t == Ok(g.value.top.ty) else t == Err(g.error)
    ensures var g := Generate(w, symbols, e, next);
            g.Ok? ==> next <= g.value.top.value < g.value.next
  {
    match e
    case Name(_) =>
    case BinOp(_, left, right) =>
      GeneratesIffTyped(w, symbols, right, next);
      var r := Generate(w, symbols, right, next);
      if r.Ok? { GeneratesIffTyped(w, symbols, left, r.value.next); }
    case Compare(first, ops, comparators) =>
      if |comparators| == 1 && |ops| == 1 && Supported(ops[0]) {
        GeneratesIffTyped(w, symbols, comparators[0], next);
        var r := Generate(w, symbols, comparators[0], next);
        if r.Ok? { GeneratesIffTyped(w, symbols, first, r.value.next); }
      }
    case IfExp(test, body, orelse) =>
      GeneratesIffTyped(w, symbols, test, next);
      var t := Generate(w, symbols, test, next);
      if t.Ok? {
        GeneratesIffTyped(w, symbols, body, t.value.next);
        var y := Generate(w, symbols, body, t.value.next);
        if y.Ok? { GeneratesIffTyped(w, symbols, orelse, y.value.next); }
      }
  }

  /** Code of type `ty` is generated exactly for the expressions that the typing rules give that type. */
  lemma GeneratesExactlyTyped(w: World, symbols: map<string, Ty>, e: Expr, ty: Ty, next: Value)
    ensures var g := Generate(w, symbols, e, next); g.Ok? && g.value.top.ty == ty <==> HasType(w, symbols, e, ty)
  {
    GeneratesIffTyped(w, symbols, e, next);
    TypeOfExactly(w, symbols, e, ty);
  }

  /** Whatever error is raised, the expression has that defect, and so no type. */
  lemma FailsForCause(w: World, symbols: map<string, Ty>, e: Expr, next: Value)
    requires Generate(w, symbols, e, next).Err?
    ensures Defect(w, symbols, e, Generate(w, symbols, e, next).error)
    ensures forall ty :: !HasType(w, symbols, e, ty)
  {
    GeneratesIffTyped(w, symbols, e, next);
    ErrorIsDefect(w, symbols, e);
    forall ty ensures !HasType(w, symbols, e, ty) {
      TypeOfExactly(w, symbols, e, ty);
    }
  }

  // ----- correctness -----

  /**
   The outcome of running emitted operations: the operand holds the value of the expression,
   values below `next` are untouched; or, if evaluation raises, so does the run.
   */
  ghost predicate Computes(o: Outcome<(Next, Env)>, value: Option<PyValue>, env: Env, top: Value, next: Value)
  {
    if value.None? then o == Failed(Raised(0))
    else
      && o.Done? && o.value.0.Continue?
      && top in o.value.1 && o.value.1[top] == value.value
      && forall v :: v < next ==> (v in o.value.1 <==> v in env) && (v in env ==> o.value.1[v] == env[v])
  }

  /** One operation with one result, on inputs that are there. */
  lemma RunSimple(impl: Impl, op: Op, inputs: PyValues, env: Env, limit: nat)
    requires |op.results| == 1 && LookupAll(env, op.operands) == Done(inputs)
    ensures var action := impl(op.code, inputs, []);
            && (action.Raise? ==> RunOps(impl, [op], env, limit) == Failed(Raised(action.code)))
            && (action.Finish? && |action.values| == 1 && action.terminator.NoTerminator? ==>
                  RunOps(impl, [op], env, limit) == Done((Continue, env[op.results[0] := action.values[0]])))
  {
    assert [op][1..] == [];
    var action := impl(op.code, inputs, []);
    if action.Finish? && |action.values| == 1 && action.terminator.NoTerminator? {
      assert Bind(env, op.results, action.values)
          == Bind(env[op.results[0] := action.values[0]], op.results[1..], action.values[1..]);
      assert op.results[1..] == [];
      assert RunOp(impl, op, env, limit) == Done((Continue, env[op.results[0] := action.values[0]]));
    } else if action.Raise? {
      assert RunOp(impl, op, env, limit) == Failed(Raised(action.code));
    }
  }

  /** Two operands evaluated right to left, then the operation. */
  lemma CombineComputes(w: World, store: map<string, PyValue>, env: Env, limit: nat, r: Emitted, l: Emitted,
                        rv: Option<PyValue>, lv: Option<PyValue>, op: Op, value: Option<PyValue>, next: Value)
    requires next <= r.top.value < r.next <= l.top.value < l.next
    requires op == BinaryOp(op.code.name, op.code.attributes, l.top.value, r.top.value, l.next) && !Reserved(op.code.name)
    requires var impl := Implementation(w, store);
             var o := RunOps(impl, r.ops, env, limit);
             && Computes(o, rv, env, r.top.value, next)
             && (rv.Some? ==> Computes(RunOps(impl, l.ops, o.value.1, limit), lv, o.value.1, l.top.value, r.next))
    requires value == if lv.Some? && rv.Some? then w.compute(op.code, [lv.value, rv.value]) else None
    ensures Computes(RunOps(Implementation(w, store), r.ops + l.ops + [op], env, limit), value, env, l.next, next)
  {
    var impl := Implementation(w, store);
    RunOpsAppend(impl, r.ops + l.ops, [op], env, limit);
    RunOpsAppend(impl, r.ops, l.ops, env, limit);
    if rv.Some? && lv.Some? {
      var env1 := RunOps(impl, r.ops, env, limit).value.1;
      var env2 := RunOps(impl, l.ops, env1, limit).value.1;
      assert r.top.value in env2 && env2[r.top.value] == rv.value;
      LookupPresent(env2, op.operands, [lv.value, rv.value]);
      RunSimple(impl, op, [lv.value, rv.value], env2, limit);
    }
  }

  /** A branch of a conditional: its value is what the region returns. */
  lemma BranchReturns(w: World, store: map<string, PyValue>, env: Env, limit: nat, g: Emitted, value: Option<PyValue>, next: Value)
    requires limit > 0
    requires Computes(RunOps(Implementation(w, store), g.ops, env, limit), value, env, g.top.value, next)
    ensures RunRegion(Implementation(w, store), Region([Block([], g.ops + [YieldOp(g.top.value)])]), [], env, limit)
         == if value.Some? then Done([value.value]) else Failed(Raised(0))
  {
    var impl := Implementation(w, store);
    var yield_ := YieldOp(g.top.value);
    RunOpsAppend(impl, g.ops, [yield_], env, limit);
    assert Bind(env, [], []) == env;
    if value.Some? {
      var env' := RunOps(impl, g.ops, env, limit).value.1;
      LookupPresent(env', [g.top.value], [value.value]);
      assert RunImpl(impl, yield_, [value.value], [], env', limit) == Done(([], ReturnedValues([value.value])));
      assert RunOp(impl, yield_, env', limit) == Done((Exit([value.value]), env'));
      assert RunOps(impl, [yield_], env', limit) == Done((Exit([value.value]), env'));
    }
    assert RunBlock(impl, Block([], g.ops + [yield_]), [], env, limit) == RunOps(impl, g.ops + [yield_], env, limit);
  }

  /** The conditional operation runs the region its condition selects, and only that one. */
  lemma IfComputes(w: World, store: map<string, PyValue>, env: Env, limit: nat, op: Op, cond: PyValue, value: Option<PyValue>,
                   yes: Region, no: Region, c: Value, v: Value)
    requires limit > 0 && op == Op(Code(IF, []), [c], [v], [], [yes, no])
    requires c in env && env[c] == cond
    requires RunRegion(Implementation(w, store), if Truthy(cond) then yes else no, [], env, limit)
          == if value.Some? then Done([value.value]) else Failed(Raised(0))
    ensures RunOps(Implementation(w, store), [op], env, limit)
         == if value.Some? then Done((Continue, env[v := value.value])) else Failed(Raised(0))
  {
    var impl := Implementation(w, store);
    LookupPresent(env, [c], [cond]);
    assert [op][1..] == [];
    if value.Some? {
      var history := [] + [[value.value]];
      assert RunImpl(impl, op, [cond], history, env, limit) == Done(([value.value], NoTerminator));
      assert RunImpl(impl, op, [cond], [], env, limit) == Done(([value.value], NoTerminator));
      assert Bind(env, [v], [value.value]) == Bind(env[v := value.value], [v][1..], [value.value][1..]);
      assert RunOp(impl, op, env, limit) == Done((Continue, env[v := value.value]));
    } else {
      assert RunImpl(impl, op, [cond], [], env, limit) == Failed(Raised(0));
      assert RunOp(impl, op, env, limit) == Failed(Raised(0));
    }
  }

  /** A binary operator means what the operation it resolves to computes. */
  lemma BinaryValue(w: World, symbols: map<string, Ty>, store: map<string, PyValue>, op: BinaryOperator, left: Expr, right: Expr)
    requires Faithful(w) && symbols.Keys <= store.Keys && TypeOf(w, symbols, BinOp(op, left, right)).Ok?
    ensures var o := w.resolve(BinaryMethod(op), TypeOf(w, symbols, left).value);
            var l, r := Eval(w, symbols, store, left), Eval(w, symbols, store, right);
            && o.Some? && !Reserved(o.value.name)
            && Eval(w, symbols, store, BinOp(op, left, right))
            == if l.Some? && r.Some? then w.compute(Code(o.value.name, []), [l.value, r.value]) else None
  {
    TablesAgree();
    var ty := TypeOf(w, symbols, left).value;
    var o := w.resolve(BinaryMethod(op), ty).value;
    assert FaithfulOverload(w, BinaryMethod(op), ty, o.name);
  }

  /** What the operation of a comparison computes with its mnemonic: the method, asked of the left operand. */
  lemma ComparisonComputes(w: World, op: Comparison, ty: Ty, x: PyValue, y: PyValue)
    requires Faithful(w) && Supported(op) && w.resolve(ComparisonMethod(op), ty).Some?
    ensures var name := w.resolve(ComparisonMethod(op), ty).value.name;
            !Reserved(name) && w.compute(Code(name, Mnemonic(op)), [x, y]) == w.call(ComparisonDunder(op), ty, x, y)
  {
    TablesAgree();
    assert FaithfulOverload(w, ComparisonMethod(op), ty, w.resolve(ComparisonMethod(op), ty).value.name);
  }

  /**
   A comparison means what the comparison operation computes with the chosen mnemonic; `in`, which
   Python asks of the right operand, only if it does not matter which operand is asked.
   */
  lemma ComparisonValue(w: World, symbols: map<string, Ty>, store: map<string, PyValue>, op: Comparison, left: Expr, right: Expr)
    requires Faithful(w) && symbols.Keys <= store.Keys && TypeOf(w, symbols, Compare(left, [op], [right])).Ok?
    requires op == In ==> ContainsCommutes(w)
    ensures var o := w.resolve(ComparisonMethod(op), TypeOf(w, symbols, left).value);
            var l, r := Eval(w, symbols, store, left), Eval(w, symbols, store, right);
            && o.Some? && !Reserved(o.value.name)
            && Eval(w, symbols, store, Compare(left, [op], [right]))
            == if l.Some? && r.Some? then w.compute(Code(o.value.name, Mnemonic(op)), [l.value, r.value]) else None
  {
    var ty := TypeOf(w, symbols, left).value;
    var l, r := Eval(w, symbols, store, left), Eval(w, symbols, store, right);
    forall x, y ensures !Reserved(w.resolve(ComparisonMethod(op), ty).value.name)
                        && w.compute(Code(w.resolve(ComparisonMethod(op), ty).value.name, Mnemonic(op)), [x, y])
                           == w.call(ComparisonDunder(op), ty, x, y) {
      ComparisonComputes(w, op, ty, x, y);
    }
  }

  /**
   The generated code computes the expression: for every well-typed expression, every store,
   every environment and every limit, operands in their order. An expression with `in` needs an
   overload that commutes (`ComputesExactly`).
   */
  lemma {:induction false} GenerateCorrect(w: World, symbols: map<string, Ty>, store: map<string, PyValue>, e: Expr,
                                           next: Value, env: Env, limit: nat)
    requires Faithful(w) && symbols.Keys <= store.Keys && limit > 0
    requires Generate(w, symbols, e, next).Ok? && (UsesIn(e) ==> ContainsCommutes(w))
    ensures TypeOf(w, symbols, e).Ok?
    ensures var g := Generate(w, symbols, e, next).value;
            Computes(RunOps(Implementation(w, store), g.ops, env, limit), Eval(w, symbols, store, e), env, g.top.value, next)
    decreases e, 1
  {
    GeneratesIffTyped(w, symbols, e, next);
    match e
    case Name(id) =>
      RunSimple(Implementation(w, store), FetchOp(id, next), [], env, limit);
    case BinOp(op, left, right) =>
      BinaryValue(w, symbols, store, op, left, right);
      GeneratesIffTyped(w, symbols, left, Generate(w, symbols, right, next).value.next);
      GenerateBinary(w, symbols, store, e, left, right, BinaryMethod(op), [], next, env, limit, Eval(w, symbols, store, e));
    case Compare(first, ops, comparators) =>
      ComparisonValue(w, symbols, store, ops[0], first, comparators[0]);
      assert ops == [ops[0]] && comparators == [comparators[0]];
      GeneratesIffTyped(w, symbols, first, Generate(w, symbols, comparators[0], next).value.next);
      GenerateBinary(w, symbols, store, e, first, comparators[0], ComparisonMethod(ops[0]), Mnemonic(ops[0]),
                     next, env, limit, Eval(w, symbols, store, e));
    case IfExp(test, body, orelse) =>
      GenerateIf(w, symbols, store, test, body, orelse, next, env, limit);
  }

  lemma {:induction false} GenerateBinary(w: World, symbols: map<string, Ty>, store: map<string, PyValue>,
                                          e: Expr, left: Expr, right: Expr, method_: string, attributes: seq<string>,
                                          next: Value, env: Env, limit: nat, value: Option<PyValue>)
    requires Faithful(w) && symbols.Keys <= store.Keys && limit > 0
    requires left < e && right < e && (UsesIn(left) || UsesIn(right) ==> ContainsCommutes(w))
    requires Generate(w, symbols, right, next).Ok?
    requires Generate(w, symbols, left, Generate(w, symbols, right, next).value.next).Ok?
    requires TypeOf(w, symbols, left).Ok? && TypeOf(w, symbols, right).Ok?
    requires var r := Generate(w, symbols, right, next).value;
             var l := Generate(w, symbols, left, r.next).value;
             && Combine(w, r, l, method_, attributes).Ok?
             && !Reserved(w.resolve(method_, l.top.ty).value.name)
             && var lv, rv := Eval(w, symbols, store, left), Eval(w, symbols, store, right);
                value == if lv.Some? && rv.Some?
                         then w.compute(Code(w.resolve(method_, l.top.ty).value.name, attributes), [lv.value, rv.value])
                         else None
    ensures var r := Generate(w, symbols, right, next).value;
            var l := Generate(w, symbols, left, r.next).value;
            var g := Combine(w, r, l, method_, attributes).value;
            Computes(RunOps(Implementation(w, store), g.ops, env, limit), value, env, g.top.value, next)
    decreases e, 0
  {
    var r := Generate(w, symbols, right, next).value;
    var l := Generate(w, symbols, left, r.next).value;
    GeneratesIffTyped(w, symbols, right, next);
    GeneratesIffTyped(w, symbols, left, r.next);
    GenerateCorrect(w, symbols, store, right, next, env, limit);
    var rv, lv := Eval(w, symbols, store, right), Eval(w, symbols, store, left);
    if rv.Some? {
      var env1 := RunOps(Implementation(w, store), r.ops, env, limit).value.1;
      GenerateCorrect(w, symbols, store, left, r.next, env1, limit);
    }
    var op := BinaryOp(w.resolve(method_, l.top.ty).value.name, attributes, l.top.value, r.top.value, l.next);
    CombineComputes(w, store, env, limit, r, l, rv, lv, op, value, next);
  }

  lemma {:induction false} GenerateIf(w: World, symbols: map<string, Ty>, store: map<string, PyValue>,
                                      test: Expr, body: Expr, orelse: Expr, next: Value, env: Env, limit: nat)
    requires Faithful(w) && symbols.Keys <= store.Keys && limit > 0
    requires var e := IfExp(test, body, orelse); Generate(w, symbols, e, next).Ok? && TypeOf(w, symbols, e).Ok?
    requires UsesIn(IfExp(test, body, orelse)) ==> ContainsCommutes(w)
    ensures var e := IfExp(test, body, orelse);
            var g := Generate(w, symbols, e, next).value;
            Computes(RunOps(Implementation(w, store), g.ops, env, limit), Eval(w, symbols, store, e), env, g.top.value, next)
    decreases IfExp(test, body, orelse), 0
  {
    var impl := Implementation(w, store);
    var t := Generate(w, symbols, test, next).value;
    var y := Generate(w, symbols, body, t.next).value;
    var n := Generate(w, symbols, orelse, y.next).value;
    var yes, no := y.ops + [YieldOp(y.top.value)], n.ops + [YieldOp(n.top.value)];
    var op := IfOp(t.top.value, yes, no, n.next);
    GeneratesIffTyped(w, symbols, test, next);
    GeneratesIffTyped(w, symbols, body, t.next);
    GeneratesIffTyped(w, symbols, orelse, y.next);
    GenerateCorrect(w, symbols, store, test, next, env, limit);
    RunOpsAppend(impl, t.ops, [op], env, limit);
    var cond := Eval(w, symbols, store, test);
    if cond.Some? {
      var env1 := RunOps(impl, t.ops, env, limit).value.1;
      var value := Eval(w, symbols, store, if Truthy(cond.value) then body else orelse);
      if Truthy(cond.value) {
        GenerateCorrect(w, symbols, store, body, t.next, env1, limit);
        BranchReturns(w, store, env1, limit, y, value, t.next);
      } else {
        GenerateCorrect(w, symbols, store, orelse, y.next, env1, limit);
        BranchReturns(w, store, env1, limit, n, value, y.next);
      }
      IfComputes(w, store, env1, limit, op, cond.value, value, Region([Block([], yes)]), Region([Block([], no)]),
                 t.top.value, n.next);
      ConditionalValue(w, symbols, store, test, body, orelse, value);
    }
  }

  /** A conditional expression has the value of the branch that its condition selects. */
  lemma ConditionalValue(w: World, symbols: map<string, Ty>, store: map<string, PyValue>, test: Expr, body: Expr, orelse: Expr,
                         value: Option<PyValue>)
    requires symbols.Keys <= store.Keys && TypeOf(w, symbols, IfExp(test, body, orelse)).Ok? && Eval(w, symbols, store, test).Some?
    requires value == Eval(w, symbols, store, if Truthy(Eval(w, symbols, store, test).value) then body else orelse)
    ensures Eval(w, symbols, store, IfExp(test, body, orelse)) == value
  {
  }

  // ----- exactly when -----

  /** The generated code of every well-typed expression computes its value, in every run. */
  ghost predicate AllCompute(w: World)
  {
    forall symbols: map<string, Ty>, store: map<string, PyValue>, e, next, env, limit: nat ::
      symbols.Keys <= store.Keys && Generate(w, symbols, e, next).Ok? && TypeOf(w, symbols, e).Ok? && limit > 0 ==>
        ComputesIn(w, symbols, store, e, next, env, limit)
  }

  ghost predicate ComputesIn(w: World, symbols: map<string, Ty>, store: map<string, PyValue>, e: Expr, next: Value, env: Env, limit: nat)
    requires symbols.Keys <= store.Keys && Generate(w, symbols, e, next).Ok? && TypeOf(w, symbols, e).Ok?
  {
    var g := Generate(w, symbols, e, next).value;
    Computes(RunOps(Implementation(w, store), g.ops, env, limit), Eval(w, symbols, store, e), env, g.top.value, next)
  }

  /** The operand on the left of `in` is asked whether it contains the other one. */
  lemma InAsksTheLeft(w: World, ty: Ty, x: PyValue, y: PyValue)
    requires Faithful(w) && w.resolve("__contains__", ty).Some?
    ensures var symbols, store := map["x" := ty, "y" := ty], map["x" := x, "y" := y];
            var e := Compare(Name("x"), [In], [Name("y")]);
            && TypeOf(w, symbols, e).Ok? && Generate(w, symbols, e, 0).Ok?
            && Eval(w, symbols, store, e) == w.call("__contains__", ty, y, x)
            && Computes(RunOps(Implementation(w, store), Generate(w, symbols, e, 0).value.ops, map[], 1),
                        w.call("__contains__", ty, x, y), map[], Generate(w, symbols, e, 0).value.top.value, 0)
  {
    var symbols, store := map["x" := ty, "y" := ty], map["x" := x, "y" := y];
    var e, right, left := Compare(Name("x"), [In], [Name("y")]), Name("y"), Name("x");
    var r := Generate(w, symbols, right, 0).value;
    var l := Generate(w, symbols, left, r.next).value;
    assert Generate(w, symbols, e, 0) == Combine(w, r, l, "__contains__", []);
    ComparisonComputes(w, In, ty, x, y);
    GenerateCorrect(w, symbols, store, right, 0, map[], 1);
    GenerateCorrect(w, symbols, store, left, r.next, RunOps(Implementation(w, store), r.ops, map[], 1).value.1, 1);
    var op := BinaryOp(w.resolve("__contains__", ty).value.name, [], l.top.value, r.top.value, l.next);
    CombineComputes(w, store, map[], 1, r, l, Some(y), Some(x), op, w.call("__contains__", ty, x, y), 0);
  }

  lemma CommutingComputes(w: World)
    requires Faithful(w) && ContainsCommutes(w)
    ensures AllCompute(w)
  {
    forall symbols: map<string, Ty>, store: map<string, PyValue>, e, next, env, limit: nat
      | symbols.Keys <= store.Keys && Generate(w, symbols, e, next).Ok? && TypeOf(w, symbols, e).Ok? && limit > 0
      ensures ComputesIn(w, symbols, store, e, next, env, limit)
    {
      GenerateCorrect(w, symbols, store, e, next, env, limit);
    }
  }

  lemma ComputingCommutes(w: World)
    requires Faithful(w) && AllCompute(w)
    ensures ContainsCommutes(w)
  {
    forall ty, x, y | w.resolve("__contains__", ty).Some?
      ensures w.call("__contains__", ty, x, y) == w.call("__contains__", ty, y, x)
    {
      InAsksTheLeft(w, ty, x, y);
      assert ComputesIn(w, map["x" := ty, "y" := ty], map["x" := x, "y" := y], Compare(Name("x"), [In], [Name("y")]), 0, map[], 1);
    }
  }

  /** Python asks the operand on the right, so the code is right on all expressions exactly if that does not matter. */
  lemma ComputesExactly(w: World)
    requires Faithful(w)
    ensures AllCompute(w) <==> ContainsCommutes(w)
  {
    if ContainsCommutes(w) {
      CommutingComputes(w);
    }
    if AllCompute(w) {
      ComputingCommutes(w);
    }
  }

  // ----- functions -----

  datatype Param = Param(name: string, ty: Ty)

  /** A function whose body is `return` with or without a value. */
  datatype FunctionDef = FunctionDef(params: seq<Param>, returns_: Option<Ty>, result: Option<Expr>)

  function Arguments(n: nat): (vs: seq<Value>)
    ensures |vs| == n
  {
    if n == 0 then [] else Arguments(n - 1) + [n - 1]
  }

  /** Every argument is declared as a symbol and stored in it. */
  function Prologue(params: seq<Param>, n: nat): seq<Op>
    requires n <= |params|
  {
    if n == 0 then []
    else Prologue(params, n - 1) + [DeclareOp(params[n - 1].name), UpdateOp(params[n - 1].name, n - 1)]
  }

  function Symbols(params: seq<Param>, n: nat): map<string, Ty>
    requires n <= |params|
  {
    if n == 0 then map[] else Symbols(params, n - 1)[params[n - 1].name := params[n - 1].ty]
  }

  function GenerateReturn(w: World, symbols: map<string, Ty>, value: Option<Expr>, returns_: Option<Ty>, next: Value)
    : Result<seq<Op>>
  {
    if value.None? then if returns_.Some? then Err(ReturnTypeMissing) else Ok([ReturnOp([])])
    else
      var g :- Generate(w, symbols, value.value, next);
      if returns_.None? then Err(ReturnTypeUnexpected)
      else if returns_.value != g.top.ty then Err(ReturnTypeDiffers(returns_.value, g.top.ty))
      else Ok(g.ops + [ReturnOp([g.top.value])])
  }

  function GenerateFunction(w: World, def: FunctionDef): Result<Region>
  {
    var n := |def.params|;
    var body :- GenerateReturn(w, Symbols(def.params, n), def.result, def.returns_, n);
    Ok(Region([Block(Arguments(n), Prologue(def.params, n) + body)]))
  }

  /** The symbols after the updates among `ops`, run in order in `env`. */
  function StoreAfter(ops: seq<Op>, env: Env): map<string, PyValue>
  {
    if ops == [] then map[]
    else
      var n := |ops| - 1;
      var store := StoreAfter(ops[..n], env);
      var op := ops[n];
      if op.code.name == UPDATE && |op.code.attributes| == 1 && |op.operands| == 1 && op.operands[0] in env
      then store[op.code.attributes[0] := env[op.operands[0]]] else store
  }

  /** The value each parameter name stands for in Python: that of the last parameter so named. */
  function Actuals(params: seq<Param>, args: PyValues, n: nat): map<string, PyValue>
    requires n <= |params| == |args|
  {
    if n == 0 then map[] else Actuals(params, args, n - 1)[params[n - 1].name := args[n - 1]]
  }

  // ----- which functions are accepted, and what their names stand for -----

  /** Parameter `i` is the last one so named. */
  predicate LastNamed(params: seq<Param>, n: nat, i: nat)
    requires n <= |params|
  {
    i < n && forall j :: i < j < n ==> params[j].name != params[i].name
  }

  /** A name is declared, and has a value, exactly if it is one of a parameter. */
  lemma {:induction false} NamesOfParameters(params: seq<Param>, args: PyValues, n: nat)
    requires n <= |params| == |args|
    ensures forall i :: 0 <= i < n ==> params[i].name in Symbols(params, n)
    ensures forall name :: name in Symbols(params, n) ==> exists i :: 0 <= i < n && params[i].name == name
    ensures Symbols(params, n).Keys == Actuals(params, args, n).Keys
  {
    SameParameters(params, args, n);
    if n > 0 {
      NamesOfParameters(params, args, n - 1);
    }
  }

  /** It stands for the last parameter so named: its type in the generator, its value in the call. */
  lemma {:induction false} NameStandsForLast(params: seq<Param>, args: PyValues, n: nat, i: nat)
    requires n <= |params| == |args| && LastNamed(params, n, i)
    ensures var name := params[i].name;
            && name in Symbols(params, n) && Symbols(params, n)[name] == params[i].ty
            && name in Actuals(params, args, n) && Actuals(params, args, n)[name] == args[i]
    decreases n
  {
    if i < n - 1 {
      assert params[n - 1].name != params[i].name;
      NameStandsForLast(params, args, n - 1, i);
    }
  }

  /** A return statement is accepted exactly if it has a value where the function has a result type, and of that type. */
  lemma ReturnAcceptedExactly(w: World, symbols: map<string, Ty>, value: Option<Expr>, returns_: Option<Ty>, next: Value)
    ensures GenerateReturn(w, symbols, value, returns_, next).Ok?
       <==> if value.None? then returns_.None? else returns_.Some? && HasType(w, symbols, value.value, returns_.value)
  {
    if value.Some? {
      GeneratesIffTyped(w, symbols, value.value, next);
      forall ty ensures HasType(w, symbols, value.value, ty) <==> TypeOf(w, symbols, value.value) == Ok(ty) {
        TypeOfExactly(w, symbols, value.value, ty);
      }
    }
  }

  /** What is wrong with a return statement that is not accepted. */
  ghost predicate ReturnDefect(w: World, symbols: map<string, Ty>, value: Option<Expr>, returns_: Option<Ty>, error: Frontend.Error)
  {
    if value.None? then returns_.Some? && error == ReturnTypeMissing
    else
      || Defect(w, symbols, value.value, error)
      || (returns_.None? && error == ReturnTypeUnexpected)
      || exists ty :: HasType(w, symbols, value.value, ty) && returns_.Some? && ty != returns_.value && error == ReturnTypeDiffers(returns_.value, ty)
  }

  lemma ReturnFailsForCause(w: World, symbols: map<string, Ty>, value: Option<Expr>, returns_: Option<Ty>, next: Value)
    requires GenerateReturn(w, symbols, value, returns_, next).Err?
    ensures ReturnDefect(w, symbols, value, returns_, GenerateReturn(w, symbols, value, returns_, next).error)
  {
    if value.Some? {
      var e := value.value;
      GeneratesIffTyped(w, symbols, e, next);
      if Generate(w, symbols, e, next).Err? {
        ErrorIsDefect(w, symbols, e);
      } else {
        TypeOfExactly(w, symbols, e, Generate(w, symbols, e, next).value.top.ty);
      }
    }
  }

  /** So a function is accepted exactly if what it returns has its result type, the parameters having theirs. */
  lemma FunctionAcceptedExactly(w: World, def: FunctionDef)
    ensures GenerateFunction(w, def).Ok?
       <==> if def.result.None? then def.returns_.None?
            else def.returns_.Some? && HasType(w, Symbols(def.params, |def.params|), def.result.value, def.returns_.value)
  {
    ReturnAcceptedExactly(w, Symbols(def.params, |def.params|), def.result, def.returns_, |def.params|);
  }

  lemma {:induction false} BindLast(env: Env, names: seq<Value>, vals: PyValues, v: Value, x: PyValue)
    requires |names| == |vals|
    ensures Bind(env, names + [v], vals + [x]) == Bind(env, names, vals)[v := x]
    decreases names
  {
    if names == [] {
      assert names + [v] == [v] && vals + [x] == [x];
      assert Bind(env, [v], [x]) == Bind(env[v := x], [v][1..], [x][1..]);
    } else {
      assert (names + [v])[1..] == names[1..] + [v] && (vals + [x])[1..] == vals[1..] + [x];
      BindLast(env[names[0] := vals[0]], names[1..], vals[1..], v, x);
    }
  }

  lemma {:induction false} ArgumentsBound(args: PyValues, n: nat)
    requires n <= |args|
    ensures forall i :: 0 <= i < n ==> i in Bind(map[], Arguments(n), args[..n]) && Bind(map[], Arguments(n), args[..n])[i] == args[i]
  {
    if n > 0 {
      ArgumentsBound(args, n - 1);
      assert args[..n] == args[..n - 1] + [args[n - 1]];
      BindLast(map[], Arguments(n - 1), args[..n - 1], n - 1, args[n - 1]);
    }
  }

  /** The prologue stores the actual arguments, and running it changes no value. */
  lemma PrologueStores(w: World, store: map<string, PyValue>, params: seq<Param>, args: PyValues, env: Env, n: nat, limit: nat)
    requires n <= |params| == |args|
    requires forall i :: 0 <= i < n ==> i in env && env[i] == args[i]
    ensures StoreAfter(Prologue(params, n), env) == Actuals(params, args, n)
    ensures Symbols(params, n).Keys == Actuals(params, args, n).Keys
    ensures RunOps(Implementation(w, store), Prologue(params, n), env, limit) == Done((Continue, env))
  {
    StoredActuals(params, args, env, n);
    SameParameters(params, args, n);
    PrologueDoesNothing(w, store, params, env, n, limit);
  }

  lemma {:induction false} StoredActuals(params: seq<Param>, args: PyValues, env: Env, n: nat)
    requires n <= |params| == |args|
    requires forall i :: 0 <= i < n ==> i in env && env[i] == args[i]
    ensures StoreAfter(Prologue(params, n), env) == Actuals(params, args, n)
  {
    if n > 0 {
      var i := n - 1;
      StoredActuals(params, args, env, i);
      StoredLast(Prologue(params, i), params[i].name, i, env);
    }
  }

  lemma StoredLast(before: seq<Op>, name: string, v: Value, env: Env)
    requires v in env
    ensures StoreAfter(before + [DeclareOp(name), UpdateOp(name, v)], env) == StoreAfter(before, env)[name := env[v]]
  {
    var d, u := DeclareOp(name), UpdateOp(name, v);
    assert (before + [d, u])[..|before| + 1] == before + [d];
    assert (before + [d])[..|before|] == before;
    assert StoreAfter(before + [d], env) == StoreAfter(before, env);
  }

  lemma {:induction false} SameParameters(params: seq<Param>, args: PyValues, n: nat)
    requires n <= |params| == |args|
    ensures Symbols(params, n).Keys == Actuals(params, args, n).Keys
  {
    if n > 0 {
      SameParameters(params, args, n - 1);
    }
  }

  lemma {:induction false} PrologueDoesNothing(w: World, store: map<string, PyValue>, params: seq<Param>, env: Env, n: nat, limit: nat)
    requires n <= |params| && forall i :: 0 <= i < n ==> i in env
    ensures RunOps(Implementation(w, store), Prologue(params, n), env, limit) == Done((Continue, env))
  {
    if n > 0 {
      var i := n - 1;
      PrologueDoesNothing(w, store, params, env, i, limit);
      RunOpsAppend(Implementation(w, store), Prologue(params, i), [DeclareOp(params[i].name), UpdateOp(params[i].name, i)], env, limit);
      SymbolOpsDoNothing(w, store, params[i].name, i, env, limit);
    }
  }

  lemma SymbolOpsDoNothing(w: World, store: map<string, PyValue>, name: string, i: Value, env: Env, limit: nat)
    requires i in env
    ensures RunOps(Implementation(w, store), [DeclareOp(name), UpdateOp(name, i)], env, limit) == Done((Continue, env))
  {
    var impl := Implementation(w, store);
    var d, u := DeclareOp(name), UpdateOp(name, i);
    LookupPresent(env, [i], [env[i]]);
    assert RunOp(impl, d, env, limit) == Done((Continue, env));
    assert RunImpl(impl, u, [env[i]], [], env, limit) == Done(([], NoTerminator));
    assert RunOp(impl, u, env, limit) == Done((Continue, env));
    assert [d, u][1..] == [u] && [u][1..] == [];
    assert RunOps(impl, [u], env, limit) == Done((Continue, env));
  }

  /** Calling the generated function on actual arguments returns the value of its expression. */
  lemma FunctionCorrect(w: World, def: FunctionDef, args: PyValues, limit: nat)
    requires Faithful(w) && limit > 0 && |args| == |def.params|
    requires GenerateFunction(w, def).Ok?
    requires def.result.Some? && UsesIn(def.result.value) ==> ContainsCommutes(w)
    ensures var region := GenerateFunction(w, def).value;
            var n := |def.params|;
            var store := StoreAfter(Prologue(def.params, n), Bind(map[], Arguments(n), args));
            var run := RunRegion(Implementation(w, store), region, args, map[], limit);
            && store == Actuals(def.params, args, n)
            && Symbols(def.params, n).Keys <= store.Keys
            && if def.result.None? then run == Done([])
               else
                 && TypeOf(w, Symbols(def.params, n), def.result.value) == Ok(def.returns_.value)
                 && var value := Eval(w, Symbols(def.params, n), store, def.result.value);
                    run == if value.Some? then Done([value.value]) else Failed(Raised(0))
  {
    var n := |def.params|;
    var env := Bind(map[], Arguments(n), args);
    var symbols, store := Symbols(def.params, n), Actuals(def.params, args, n);
    assert args[..n] == args;
    ArgumentsBound(args, n);
    PrologueStores(w, store, def.params, args, env, n, limit);
    var impl := Implementation(w, store);
    var body := GenerateReturn(w, symbols, def.result, def.returns_, n).value;
    RunOpsAppend(impl, Prologue(def.params, n), body, env, limit);
    BodyReturns(w, symbols, store, def.result, def.returns_, n, env, limit);
    var block := Block(Arguments(n), Prologue(def.params, n) + body);
    assert RunBlock(impl, block, args, map[], limit) == RunOps(impl, body, env, limit);
  }

  lemma BodyReturns(w: World, symbols: map<string, Ty>, store: map<string, PyValue>, result: Option<Expr>, returns_: Option<Ty>,
                    next: Value, env: Env, limit: nat)
    requires Faithful(w) && symbols.Keys <= store.Keys && limit > 0
    requires GenerateReturn(w, symbols, result, returns_, next).Ok?
    requires result.Some? && UsesIn(result.value) ==> ContainsCommutes(w)
    ensures var body := GenerateReturn(w, symbols, result, returns_, next).value;
            var o := RunOps(Implementation(w, store), body, env, limit);
            if result.None? then o.Done? && o.value.0 == Exit([])
            else
              && TypeOf(w, symbols, result.value) == Ok(returns_.value)
              && var value := Eval(w, symbols, store, result.value);
                 if value.Some? then o.Done? && o.value.0 == Exit([value.value]) else o == Failed(Raised(0))
  {
    if result.None? {
      ReturnReturns(w, store, [], [], env, limit);
    } else {
      var impl := Implementation(w, store);
      var g := Generate(w, symbols, result.value, next).value;
      GenerateCorrect(w, symbols, store, result.value, next, env, limit);
      GeneratesIffTyped(w, symbols, result.value, next);
      RunOpsAppend(impl, g.ops, [ReturnOp([g.top.value])], env, limit);
      var value := Eval(w, symbols, store, result.value);
      if value.Some? {
        var env' := RunOps(impl, g.ops, env, limit).value.1;
        LookupPresent(env', [g.top.value], [value.value]);
        ReturnReturns(w, store, [g.top.value], [value.value], env', limit);
      }
    }
  }

  lemma ReturnReturns(w: World, store: map<string, PyValue>, vs: seq<Value>, vals: PyValues, env: Env, limit: nat)
    requires LookupAll(env, vs) == Done(vals)
    ensures RunOps(Implementation(w, store), [ReturnOp(vs)], env, limit) == Done((Exit(vals), env))
  {
    var impl := Implementation(w, store);
    var op := ReturnOp(vs);
    assert RunImpl(impl, op, vals, [], env, limit) == Done(([], ReturnedValues(vals)));
    assert RunOp(impl, op, env, limit) == Done((Exit(vals), env));
  }
}
