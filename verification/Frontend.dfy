/**
 The Python expressions the front end translates, their typing and their meaning, and the
 operations it translates them to.
 */
module Frontend {
  import opened Ir
  import opened Semantics
  import opened Options

  /** An xDSL type, by name. */
  type Ty = string

  datatype BinaryOperator =
    | Add | Sub | Mult | Div | FloorDiv | Mod | Pow | LShift | RShift | BitOr | BitXor | BitAnd | MatMult

  datatype Comparison = Eq | Gt | GtE | Lt | LtE | NotEq | In | NotIn | Is | IsNot

  datatype Expr =
    | Name(id: string)
    | BinOp(op: BinaryOperator, left: Expr, right: Expr)
    | Compare(first: Expr, ops: seq<Comparison>, comparators: seq<Expr>)
    | IfExp(test: Expr, body: Expr, orelse: Expr)

  datatype Error =
    | SymbolNotDefined(id: string)
    | OperandTypesDiffer(left: Ty, right: Ty)
    | NotOverloaded(method_: string, ty: Ty)
    | NotASingleComparison
    | UnsupportedComparison(op: Comparison)
    | BranchTypesDiffer(yes: Ty, no: Ty)
    | ReturnTypeMissing
    | ReturnTypeUnexpected
    | ReturnTypeDiffers(expected: Ty, actual: Ty)
    | ReturnMisplaced
    | EmptyStack

  datatype Result<+T> = Ok(value: T) | Err(error: Error) {
    predicate IsFailure() { Err? }
    function PropagateFailure<U>(): Result<U>
      requires Err?
    {
      Err(error)
    }
    function Extract(): T
      requires Ok?
    {
      value
    }
  }

  function BinaryMethod(op: BinaryOperator): string
  {
    match op
    case Add => "__add__"
    case Sub => "__sub__"
    case Mult => "__mul__"
    case Div => "__truediv__"
    case FloorDiv => "__floordiv__"
    case Mod => "__mod__"
    case Pow => "__pow__"
    case LShift => "__lshift__"
    case RShift => "__rshift__"
    case BitOr => "__or__"
    case BitXor => "__xor__"
    case BitAnd => "__and__"
    case MatMult => "__matmul__"
  }

  predicate Supported(op: Comparison)
  {
    op !in {Is, IsNot, NotIn}
  }

  function ComparisonMethod(op: Comparison): string
    requires Supported(op)
  {
    match op
    case Eq => "__eq__"
    case Gt => "__gt__"
    case GtE => "__ge__"
    case Lt => "__lt__"
    case LtE => "__le__"
    case NotEq => "__ne__"
    case In => "__contains__"
  }

  /** `in` takes no mnemonic. */
  function Mnemonic(op: Comparison): seq<string>
    requires Supported(op)
  {
    match op
    case Eq => ["eq"]
    case Gt => ["sgt"]
    case GtE => ["sge"]
    case Lt => ["slt"]
    case LtE => ["sle"]
    case NotEq => ["ne"]
    case In => []
  }

  /** The operation an overload resolves to, and the type of its result. */
  datatype Overload = Overload(name: string, result: Ty)

  /**
   The world around the generator: overload resolution, what the resolved operations compute
   (nothing, if they raise), and what a Python method returns for `self` and `other` of a type
   (nothing, if it raises).
   */
  datatype World = World(
    resolve: (string, Ty) -> Option<Overload>,
    compute: (Code, PyValues) -> Option<PyValue>,
    call: (string, Ty, PyValue, PyValue) -> Option<PyValue>)

  // ----- the Python data model -----

  /** The method that `x op y` calls on `x`: section 3.3.8 of the Python language reference. */
  function Dunder(op: BinaryOperator): string
  {
    match op
    case Add => "__add__"
    case Sub => "__sub__"
    case Mult => "__mul__"
    case MatMult => "__matmul__"
    case Div => "__truediv__"
    case FloorDiv => "__floordiv__"
    case Mod => "__mod__"
    case Pow => "__pow__"
    case LShift => "__lshift__"
    case RShift => "__rshift__"
    case BitAnd => "__and__"
    case BitXor => "__xor__"
    case BitOr => "__or__"
  }

  /** The rich comparison methods of section 3.3.1, and `__contains__` of section 3.3.7. */
  function ComparisonDunder(op: Comparison): string
    requires Supported(op)
  {
    match op
    case Lt => "__lt__"
    case LtE => "__le__"
    case Eq => "__eq__"
    case NotEq => "__ne__"
    case Gt => "__gt__"
    case GtE => "__ge__"
    case In => "__contains__"
  }

  /** `x in y` calls the method on `y`; every other comparison calls it on `x`. */
  function ComparePython(w: World, op: Comparison, ty: Ty, x: PyValue, y: PyValue): Option<PyValue>
    requires Supported(op)
  {
    if op == In then w.call("__contains__", ty, y, x) else w.call(ComparisonDunder(op), ty, x, y)
  }

  /** What counts as false in a condition: section 4.1 of the library reference. */
  predicate IsFalse(v: PyValue)
  {
    v == PyBool(false) || v == PyInt(0)
  }

  /** The attributes that the body of an overload passes on to the operation it stands for. */
  function OverloadAttributes(method_: string): seq<string>
  {
    if method_ == "__eq__" then ["eq"]
    else if method_ == "__ge__" then ["sge"]
    else if method_ == "__gt__" then ["sgt"]
    else if method_ == "__le__" then ["sle"]
    else if method_ == "__lt__" then ["slt"]
    else if method_ == "__ne__" then ["ne"]
    else []
  }

  // ----- typing and meaning of expressions -----

  function TypeOf(w: World, symbols: map<string, Ty>, e: Expr): Result<Ty>
  {
    match e
    case Name(id) => if id in symbols then Ok(symbols[id]) else Err(SymbolNotDefined(id))
    case BinOp(op, left, right) =>
      var rightTy :- TypeOf(w, symbols, right);
      var leftTy :- TypeOf(w, symbols, left);
      if leftTy != rightTy then Err(OperandTypesDiffer(leftTy, rightTy))
      else
        var o := w.resolve(BinaryMethod(op), leftTy);
        if o.None? then Err(NotOverloaded(BinaryMethod(op), leftTy)) else Ok(o.value.result)
    case Compare(first, ops, comparators) =>
      if |comparators| != 1 || |ops| != 1 then Err(NotASingleComparison)
      else if !Supported(ops[0]) then Err(UnsupportedComparison(ops[0]))
      else
        var rightTy :- TypeOf(w, symbols, comparators[0]);
        var leftTy :- TypeOf(w, symbols, first);
        if leftTy != rightTy then Err(OperandTypesDiffer(leftTy, rightTy))
        else
          var o := w.resolve(ComparisonMethod(ops[0]), leftTy);
          if o.None? then Err(NotOverloaded(ComparisonMethod(ops[0]), leftTy)) else Ok(o.value.result)
    case IfExp(test, body, orelse) =>
      var _ :- TypeOf(w, symbols, test);
      var yes :- TypeOf(w, symbols, body);
      var no :- TypeOf(w, symbols, orelse);
      if yes != no then Err(BranchTypesDiffer(yes, no)) else Ok(yes)
  }

  /** The typing rules, in no particular order of checking. */
  ghost predicate HasType(w: World, symbols: map<string, Ty>, e: Expr, ty: Ty)
  {
    match e
    case Name(id) => id in symbols && symbols[id] == ty
    case BinOp(op, left, right) =>
      exists t :: HasType(w, symbols, left, t) && HasType(w, symbols, right, t) && Overloads(w, Dunder(op), t, ty)
    case Compare(first, ops, comparators) =>
      && |comparators| == 1 && |ops| == 1 && Supported(ops[0])
      && exists t :: HasType(w, symbols, first, t) && HasType(w, symbols, comparators[0], t)
                     && Overloads(w, ComparisonDunder(ops[0]), t, ty)
    case IfExp(test, body, orelse) =>
      (exists t :: HasType(w, symbols, test, t)) && HasType(w, symbols, body, ty) && HasType(w, symbols, orelse, ty)
  }

  predicate Overloads(w: World, method_: string, operand: Ty, result: Ty)
  {
    var o := w.resolve(method_, operand);
    o.Some? && o.value.result == result
  }

  /** The error speaks of the expression or of one inside it. */
  ghost predicate Defect(w: World, symbols: map<string, Ty>, e: Expr, error: Error)
  {
    match e
    case Name(id) => id !in symbols && error == SymbolNotDefined(id)
    case BinOp(op, left, right) =>
      Defect(w, symbols, left, error) || Defect(w, symbols, right, error)
      || OperandDefect(w, symbols, left, right, Dunder(op), error)
    case Compare(first, ops, comparators) =>
      if |comparators| != 1 || |ops| != 1 then error == NotASingleComparison
      else if !Supported(ops[0]) then error == UnsupportedComparison(ops[0])
      else Defect(w, symbols, first, error) || Defect(w, symbols, comparators[0], error)
           || OperandDefect(w, symbols, first, comparators[0], ComparisonDunder(ops[0]), error)
    case IfExp(test, body, orelse) =>
      Defect(w, symbols, test, error) || Defect(w, symbols, body, error) || Defect(w, symbols, orelse, error)
      || exists yes, no :: HasType(w, symbols, body, yes) && HasType(w, symbols, orelse, no) && yes != no
                           && error == BranchTypesDiffer(yes, no)
  }

  ghost predicate OperandDefect(w: World, symbols: map<string, Ty>, left: Expr, right: Expr, method_: string, error: Error)
  {
    exists l, r :: HasType(w, symbols, left, l) && HasType(w, symbols, right, r)
                   && if l != r then error == OperandTypesDiffer(l, r)
                      else w.resolve(method_, l).None? && error == NotOverloaded(method_, l)
  }

  /** The tables of the generator name the methods of the data model. */
  lemma TablesAgree()
    ensures forall op :: BinaryMethod(op) == Dunder(op) && OverloadAttributes(BinaryMethod(op)) == []
    ensures forall op :: Supported(op) ==> ComparisonMethod(op) == ComparisonDunder(op) && OverloadAttributes(ComparisonMethod(op)) == Mnemonic(op)
  {
  }

  lemma {:induction false} TypeOfExactly(w: World, symbols: map<string, Ty>, e: Expr, ty: Ty)
    ensures HasType(w, symbols, e, ty) <==> TypeOf(w, symbols, e) == Ok(ty)
  {
    match e
    case Name(_) =>
    case BinOp(_, left, right) =>
      forall t ensures HasType(w, symbols, left, t) <==> TypeOf(w, symbols, left) == Ok(t) { TypeOfExactly(w, symbols, left, t); }
      forall t ensures HasType(w, symbols, right, t) <==> TypeOf(w, symbols, right) == Ok(t) { TypeOfExactly(w, symbols, right, t); }
    case Compare(first, ops, comparators) =>
      if |comparators| == 1 && |ops| == 1 && Supported(ops[0]) {
        var second := comparators[0];
        forall t ensures HasType(w, symbols, first, t) <==> TypeOf(w, symbols, first) == Ok(t) { TypeOfExactly(w, symbols, first, t); }
        forall t ensures HasType(w, symbols, second, t) <==> TypeOf(w, symbols, second) == Ok(t) { TypeOfExactly(w, symbols, second, t); }
      }
    case IfExp(test, body, orelse) =>
      forall t ensures HasType(w, symbols, test, t) <==> TypeOf(w, symbols, test) == Ok(t) { TypeOfExactly(w, symbols, test, t); }
      TypeOfExactly(w, symbols, body, ty);
      TypeOfExactly(w, symbols, orelse, ty);
  }

  /** Which error is reported depends on the order of checking, but it is always of a defect that is there. */
  lemma {:induction false} ErrorIsDefect(w: World, symbols: map<string, Ty>, e: Expr)
    requires TypeOf(w, symbols, e).Err?
    ensures Defect(w, symbols, e, TypeOf(w, symbols, e).error)
    decreases e, 1
  {
    match e
    case Name(_) =>
    case BinOp(op, left, right) => OperandErrorIsDefect(w, symbols, e, left, right, BinaryMethod(op));
    case Compare(first, ops, comparators) =>
      if |comparators| == 1 && |ops| == 1 && Supported(ops[0]) {
        OperandErrorIsDefect(w, symbols, e, first, comparators[0], ComparisonMethod(ops[0]));
      }
    case IfExp(test, body, orelse) =>
      if TypeOf(w, symbols, test).Err? {
        ErrorIsDefect(w, symbols, test);
      } else if TypeOf(w, symbols, body).Err? {
        ErrorIsDefect(w, symbols, body);
      } else if TypeOf(w, symbols, orelse).Err? {
        ErrorIsDefect(w, symbols, orelse);
      } else {
        TypeOfExactly(w, symbols, body, TypeOf(w, symbols, body).value);
        TypeOfExactly(w, symbols, orelse, TypeOf(w, symbols, orelse).value);
      }
  }

  lemma {:induction false} OperandErrorIsDefect(w: World, symbols: map<string, Ty>, e: Expr, left: Expr, right: Expr, method_: string)
    requires left < e && right < e
    ensures TypeOf(w, symbols, right).Err? ==> Defect(w, symbols, right, TypeOf(w, symbols, right).error)
    ensures TypeOf(w, symbols, left).Err? ==> Defect(w, symbols, left, TypeOf(w, symbols, left).error)
    ensures TypeOf(w, symbols, right).Ok? && TypeOf(w, symbols, left).Ok? ==>
              var l, r := TypeOf(w, symbols, left).value, TypeOf(w, symbols, right).value;
              && (l != r ==> OperandDefect(w, symbols, left, right, method_, OperandTypesDiffer(l, r)))
              && (l == r && w.resolve(method_, l).None? ==> OperandDefect(w, symbols, left, right, method_, NotOverloaded(method_, l)))
    decreases e, 0
  {
    if TypeOf(w, symbols, right).Err? {
      ErrorIsDefect(w, symbols, right);
    } else {
      TypeOfExactly(w, symbols, right, TypeOf(w, symbols, right).value);
    }
    if TypeOf(w, symbols, left).Err? {
      ErrorIsDefect(w, symbols, left);
    } else {
      TypeOfExactly(w, symbols, left, TypeOf(w, symbols, left).value);
    }
  }

  /** The test of the implementation of the conditional operation. */
  predicate Truthy(v: PyValue)
  {
    match v
    case PyBool(b) => b
    case PyInt(i) => i != 0
    case PyObject(_) => true
  }

  /** The value of a well-typed expression, or nothing if an operator it evaluates raises. */
  function Eval(w: World, symbols: map<string, Ty>, store: map<string, PyValue>, e: Expr): Option<PyValue>
    requires TypeOf(w, symbols, e).Ok? && symbols.Keys <= store.Keys
  {
    match e
    case Name(id) => Some(store[id])
    case BinOp(op, left, right) =>
      var l :- Eval(w, symbols, store, left);
      var r :- Eval(w, symbols, store, right);
      w.call(Dunder(op), TypeOf(w, symbols, left).value, l, r)
    case Compare(first, ops, comparators) =>
      var l :- Eval(w, symbols, store, first);
      var r :- Eval(w, symbols, store, comparators[0]);
      ComparePython(w, ops[0], TypeOf(w, symbols, first).value, l, r)
    case IfExp(test, body, orelse) =>
      var t :- Eval(w, symbols, store, test);
      if IsFalse(t) then Eval(w, symbols, store, orelse) else Eval(w, symbols, store, body)
  }

  // ----- the operations and what they do -----

  const FETCH := "symref.fetch"
  const DECLARE := "symref.declare"
  const UPDATE := "symref.update"
  const IF := "scf.if"
  const YIELD := "scf.yield"
  const RETURN := "func.return"

  predicate Reserved(name: string)
  {
    name in {FETCH, DECLARE, UPDATE, IF, YIELD, RETURN}
  }

  /** Each overload resolves to an operation that computes the method it overloads, on `self` and then `other`. */
  ghost predicate Faithful(w: World)
  {
    forall method_, ty, o :: w.resolve(method_, ty) == Some(o) ==> FaithfulOverload(w, method_, ty, o.name)
  }

  ghost predicate FaithfulOverload(w: World, method_: string, ty: Ty, name: string)
  {
    !Reserved(name) && forall x, y :: w.compute(Code(name, OverloadAttributes(method_)), [x, y]) == w.call(method_, ty, x, y)
  }

  /** Where `__contains__` is overloaded it does not matter which operand is asked. */
  ghost predicate ContainsCommutes(w: World)
  {
    forall ty, x, y :: w.resolve("__contains__", ty).Some? ==> w.call("__contains__", ty, x, y) == w.call("__contains__", ty, y, x)
  }

  predicate UsesIn(e: Expr)
  {
    match e
    case Name(_) => false
    case BinOp(_, left, right) => UsesIn(left) || UsesIn(right)
    case Compare(first, ops, comparators) => UsesIn(first) || In in ops || exists c :: c in comparators && UsesIn(c)
    case IfExp(test, body, orelse) => UsesIn(test) || UsesIn(body) || UsesIn(orelse)
  }

  /** Implementations of the emitted operations; the symbols hold `store`. */
  function Implementation(w: World, store: map<string, PyValue>): Impl
  {
    (code: Code, inputs: PyValues, history: seq<PyValues>) =>
      if code.name == FETCH then
        if |code.attributes| == 1 && code.attributes[0] in store
        then Finish([store[code.attributes[0]]], NoTerminator) else Raise(0)
      else if code.name == DECLARE || code.name == UPDATE then Finish([], NoTerminator)
      else if code.name == IF then
        if history != [] then Finish(history[0], NoTerminator)
        else if |inputs| == 1 then RunRegionOf(if Truthy(inputs[0]) then 0 else 1, [])
        else Raise(0)
      else if code.name == YIELD || code.name == RETURN then Finish([], ReturnedValues(inputs))
      else
        var v := w.compute(code, inputs);
        if v.Some? then Finish([v.value], NoTerminator) else Raise(0)
  }

  function FetchOp(id: string, v: Value): Op { Op(Code(FETCH, [id]), [], [v], [], []) }
  function DeclareOp(id: string): Op { Op(Code(DECLARE, [id]), [], [], [], []) }
  function UpdateOp(id: string, v: Value): Op { Op(Code(UPDATE, [id]), [v], [], [], []) }
  function BinaryOp(name: string, attributes: seq<string>, l: Value, r: Value, v: Value): Op
  {
    Op(Code(name, attributes), [l, r], [v], [], [])
  }
  function YieldOp(v: Value): Op { Op(Code(YIELD, []), [v], [], [], []) }
  function ReturnOp(vs: seq<Value>): Op { Op(Code(RETURN, []), vs, [], [], []) }
  function IfOp(cond: Value, yes: seq<Op>, no: seq<Op>, v: Value): Op
  {
    Op(Code(IF, []), [cond], [v], [], [Region([Block([], yes)]), Region([Block([], no)])])
  }
}
