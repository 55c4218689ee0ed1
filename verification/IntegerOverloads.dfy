/**
 An instance of the code generator: the overloads of integers, the operations they resolve to, and
 what functions on integers return.
 */
module IntegerOverloads {
  import opened Ir
  import opened Semantics
  import opened Frontend
  import opened CodeGeneration
  import opened Options

  /** The overloads that have an implementation in the interpreter. */
  function Resolve(method_: string, ty: Ty): Option<Overload>
  {
    if ty !in {"i1", "i32", "i64"} then None
    else if method_ == "__add__" then Some(Overload("arith.addi", ty))
    else if method_ == "__sub__" then Some(Overload("arith.subi", ty))
    else if method_ == "__mul__" then Some(Overload("arith.muli", ty))
    else if method_ in {"__eq__", "__ge__", "__gt__", "__le__", "__lt__", "__ne__"} then Some(Overload("arith.cmpi", "i1"))
    else None
  }

  /** The implementations, on Python integers. */
  function Compute(code: Code, inputs: PyValues): Option<PyValue>
  {
    if |inputs| != 2 || !inputs[0].PyInt? || !inputs[1].PyInt? then None
    else
      var x, y := inputs[0].i, inputs[1].i;
      if code.name == "arith.addi" then Some(PyInt(x + y))
      else if code.name == "arith.subi" then Some(PyInt(x - y))
      else if code.name == "arith.muli" then Some(PyInt(x * y))
      else if code.name == "arith.cmpi" && |code.attributes| == 1 then CompareWith(code.attributes[0], x, y)
      else None
  }

  function CompareWith(predicate_: string, x: int, y: int): Option<PyValue>
  {
    if predicate_ == "eq" then Some(PyBool(x == y))
    else if predicate_ == "ne" then Some(PyBool(x != y))
    else if predicate_ == "slt" then Some(PyBool(x < y))
    else if predicate_ == "sle" then Some(PyBool(x <= y))
    else if predicate_ == "sgt" then Some(PyBool(x > y))
    else if predicate_ == "sge" then Some(PyBool(x >= y))
    else None
  }

  /** The methods of Python integers. */
  function CallInteger(method_: string, ty: Ty, x: PyValue, y: PyValue): Option<PyValue>
  {
    if !x.PyInt? || !y.PyInt? then None
    else if method_ == "__add__" then Some(PyInt(x.i + y.i))
    else if method_ == "__sub__" then Some(PyInt(x.i - y.i))
    else if method_ == "__mul__" then Some(PyInt(x.i * y.i))
    else if method_ == "__eq__" then Some(PyBool(x.i == y.i))
    else if method_ == "__ne__" then Some(PyBool(x.i != y.i))
    else if method_ == "__lt__" then Some(PyBool(x.i < y.i))
    else if method_ == "__le__" then Some(PyBool(x.i <= y.i))
    else if method_ == "__gt__" then Some(PyBool(x.i > y.i))
    else if method_ == "__ge__" then Some(PyBool(x.i >= y.i))
    else None
  }

  const INTEGERS := World(Resolve, Compute, CallInteger)

  lemma IntegersFaithful()
    ensures Faithful(INTEGERS) && ContainsCommutes(INTEGERS)
  {
    forall method_, ty, o | INTEGERS.resolve(method_, ty) == Some(o) ensures FaithfulOverload(INTEGERS, method_, ty, o.name) {
      forall x, y
        ensures INTEGERS.compute(Code(o.name, OverloadAttributes(method_)), [x, y]) == INTEGERS.call(method_, ty, x, y)
      {
        OverloadComputes(method_, ty, o, x, y);
      }
    }
  }

  lemma OverloadComputes(method_: string, ty: Ty, o: Overload, x: PyValue, y: PyValue)
    requires Resolve(method_, ty) == Some(o)
    ensures Compute(Code(o.name, OverloadAttributes(method_)), [x, y]) == CallInteger(method_, ty, x, y)
  {
  }

  /** A function of two integers that returns `e`. */
  function OfTwo(e: Expr, returns_: Ty): FunctionDef
  {
    FunctionDef([Param("a", "i32"), Param("b", "i32")], Some(returns_), Some(e))
  }

  /** What the generated code of a function returns, with `a` and `b` holding the arguments. */
  ghost predicate Returned(def: FunctionDef, x: int, y: int, value: PyValue)
  {
    && GenerateFunction(INTEGERS, def).Ok?
    && forall limit: nat :: limit > 0 ==>
         RunRegion(Implementation(INTEGERS, map["a" := PyInt(x), "b" := PyInt(y)]), GenerateFunction(INTEGERS, def).value,
                   [PyInt(x), PyInt(y)], map[], limit) == Done([value])
  }

  lemma TwoParameters(x: int, y: int)
    ensures var params := OfTwo(Name("a"), "i32").params;
            && Symbols(params, 2) == map["a" := "i32", "b" := "i32"]
            && Actuals(params, [PyInt(x), PyInt(y)], 2) == map["a" := PyInt(x), "b" := PyInt(y)]
  {
    var params, args := OfTwo(Name("a"), "i32").params, [PyInt(x), PyInt(y)];
    assert Symbols(params, 1) == Symbols(params, 0)["a" := "i32"] && Symbols(params, 2) == Symbols(params, 1)["b" := "i32"];
    assert Actuals(params, args, 1) == Actuals(params, args, 0)["a" := PyInt(x)];
    assert Actuals(params, args, 2) == Actuals(params, args, 1)["b" := PyInt(y)];
  }

  lemma FunctionReturns(e: Expr, ty: Ty, x: int, y: int, value: PyValue)
    requires TypeOf(INTEGERS, map["a" := "i32", "b" := "i32"], e) == Ok(ty)
    requires Eval(INTEGERS, map["a" := "i32", "b" := "i32"], map["a" := PyInt(x), "b" := PyInt(y)], e) == Some(value)
    ensures Returned(OfTwo(e, ty), x, y, value)
  {
    var def := OfTwo(e, ty);
    IntegersFaithful();
    TwoParameters(x, y);
    TypeOfExactly(INTEGERS, Symbols(def.params, 2), e, ty);
    FunctionAcceptedExactly(INTEGERS, def);
    forall limit: nat | limit > 0
      ensures RunRegion(Implementation(INTEGERS, map["a" := PyInt(x), "b" := PyInt(y)]), GenerateFunction(INTEGERS, def).value,
                        [PyInt(x), PyInt(y)], map[], limit) == Done([value])
    {
      FunctionCorrect(INTEGERS, def, [PyInt(x), PyInt(y)], limit);
    }
  }

  /** `return a + b` returns the sum, `return a - b` the difference and `return a * b` the product. */
  lemma ArithmeticReturns(x: int, y: int)
    ensures Returned(OfTwo(BinOp(Add, Name("a"), Name("b")), "i32"), x, y, PyInt(x + y))
    ensures Returned(OfTwo(BinOp(Sub, Name("a"), Name("b")), "i32"), x, y, PyInt(x - y))
    ensures Returned(OfTwo(BinOp(Mult, Name("a"), Name("b")), "i32"), x, y, PyInt(x * y))
  {
    FunctionReturns(BinOp(Add, Name("a"), Name("b")), "i32", x, y, PyInt(x + y));
    FunctionReturns(BinOp(Sub, Name("a"), Name("b")), "i32", x, y, PyInt(x - y));
    FunctionReturns(BinOp(Mult, Name("a"), Name("b")), "i32", x, y, PyInt(x * y));
  }

  function Comparing(op: Comparison): Expr
  {
    Compare(Name("a"), [op], [Name("b")])
  }

  /** What a comparison says of two integers. */
  predicate Says(op: Comparison, x: int, y: int)
  {
    match op
    case Lt => x < y
    case LtE => x <= y
    case Gt => x > y
    case GtE => x >= y
    case Eq => x == y
    case NotEq => x != y
    case _ => false
  }

  /** And `return a < b` returns whether the first is smaller, and so on. */
  lemma ComparisonReturns(op: Comparison, x: int, y: int)
    requires Supported(op) && op != In
    ensures Returned(OfTwo(Comparing(op), "i1"), x, y, PyBool(Says(op, x, y)))
  {
    ComparisonTyped(op, x, y);
    FunctionReturns(Comparing(op), "i1", x, y, PyBool(Says(op, x, y)));
  }

  lemma ComparisonTyped(op: Comparison, x: int, y: int)
    requires Supported(op) && op != In
    ensures var symbols, store := map["a" := "i32", "b" := "i32"], map["a" := PyInt(x), "b" := PyInt(y)];
            && TypeOf(INTEGERS, symbols, Comparing(op)) == Ok("i1")
            && Eval(INTEGERS, symbols, store, Comparing(op)) == Some(PyBool(Says(op, x, y)))
  {
    var symbols, store := map["a" := "i32", "b" := "i32"], map["a" := PyInt(x), "b" := PyInt(y)];
    assert TypeOf(INTEGERS, symbols, Name("a")) == TypeOf(INTEGERS, symbols, Name("b")) == Ok("i32");
    assert Eval(INTEGERS, symbols, store, Name("a")) == Some(PyInt(x)) && Eval(INTEGERS, symbols, store, Name("b")) == Some(PyInt(y));
    TablesAgree();
    assert CallInteger(ComparisonDunder(op), "i32", PyInt(x), PyInt(y)) == Some(PyBool(Says(op, x, y)));
  }

  /** `return a if a < b else b` returns the smaller argument. */
  lemma ConditionalReturnsSmaller(x: int, y: int)
    ensures Returned(OfTwo(IfExp(Comparing(Lt), Name("a"), Name("b")), "i32"), x, y, PyInt(if x < y then x else y))
  {
    var symbols, store := map["a" := "i32", "b" := "i32"], map["a" := PyInt(x), "b" := PyInt(y)];
    ComparisonTyped(Lt, x, y);
    assert TypeOf(INTEGERS, symbols, Name("a")) == TypeOf(INTEGERS, symbols, Name("b")) == Ok("i32");
    assert Eval(INTEGERS, symbols, store, Name("a")) == Some(PyInt(x)) && Eval(INTEGERS, symbols, store, Name("b")) == Some(PyInt(y));
    FunctionReturns(IfExp(Comparing(Lt), Name("a"), Name("b")), "i32", x, y, PyInt(if x < y then x else y));
  }

  /** Arguments are stored; `b` is fetched before `a`; the difference is returned. */
  const DIFFERENCE := [
    Op(Code("symref.declare", ["a"]), [], [], [], []),
    Op(Code("symref.update", ["a"]), [0], [], [], []),
    Op(Code("symref.declare", ["b"]), [], [], [], []),
    Op(Code("symref.update", ["b"]), [1], [], [], []),
    Op(Code("symref.fetch", ["b"]), [], [2], [], []),
    Op(Code("symref.fetch", ["a"]), [], [3], [], []),
    Op(Code("arith.subi", []), [3, 2], [4], [], []),
    Op(Code("func.return", []), [4], [], [], [])]

  /** What is emitted for `return a - b`. */
  lemma EmittedDifference()
    ensures GenerateFunction(INTEGERS, OfTwo(BinOp(Sub, Name("a"), Name("b")), "i32")) == Ok(Region([Block([0, 1], DIFFERENCE)]))
  {
    var def := OfTwo(BinOp(Sub, Name("a"), Name("b")), "i32");
    TwoParameters(0, 0);
    assert Arguments(1) == Arguments(0) + [0] && Arguments(2) == Arguments(1) + [1] == [0, 1];
    assert Prologue(def.params, 1) == Prologue(def.params, 0) + [DeclareOp("a"), UpdateOp("a", 0)];
    assert Prologue(def.params, 2) == Prologue(def.params, 1) + [DeclareOp("b"), UpdateOp("b", 1)];
    var symbols := map["a" := "i32", "b" := "i32"];
    var r, l := Emitted([FetchOp("b", 2)], Typed(2, "i32"), 3), Emitted([FetchOp("a", 3)], Typed(3, "i32"), 4);
    assert Generate(INTEGERS, symbols, Name("b"), 2) == Ok(r) && Generate(INTEGERS, symbols, Name("a"), 3) == Ok(l);
    var e := def.result.value;
    assert Generate(INTEGERS, symbols, e, 2) == Combine(INTEGERS, r, l, "__sub__", []);
    var op := BinaryOp("arith.subi", [], 3, 2, 4);
    assert Generate(INTEGERS, symbols, e, 2) == Ok(Emitted([FetchOp("b", 2)] + [FetchOp("a", 3)] + [op], Typed(4, "i32"), 5));
    assert GenerateReturn(INTEGERS, symbols, def.result, def.returns_, 2)
        == Ok([FetchOp("b", 2)] + [FetchOp("a", 3)] + [op] + [ReturnOp([4])]);
    assert GenerateFunction(INTEGERS, def).Ok?;
    assert GenerateFunction(INTEGERS, def).value.blocks[0].args == [0, 1];
    assert GenerateFunction(INTEGERS, def).value.blocks[0].ops
        == Prologue(def.params, 2) + ([FetchOp("b", 2)] + [FetchOp("a", 3)] + [op] + [ReturnOp([4])]) == DIFFERENCE;
  }
}
