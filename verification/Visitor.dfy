/**
 The code generator as it runs: a visitor that moves an insertion point between blocks and
 passes operands over a stack.
 */
module Visitor {
  import opened Ir
  import opened Semantics
  import opened Preservation
  import opened Frontend
  import opened CodeGeneration
  import opened Options

  class BlockCell {
    var ops: seq<Op>

    constructor ()
      ensures ops == []
    {
      ops := [];
    }
  }

  lemma TopOfStack<T>(below: seq<T>, top: T)
    ensures var stack := below + [top]; stack[|stack| - 1] == top && stack[..|stack| - 1] == below
  {
  }

  lemma AppendAssociative(a: seq<Op>, b: seq<Op>, c: seq<Op>)
    ensures a + b + c == a + (b + c)
  {
  }

  class OpInserter {
    var insertionPoint: BlockCell
    var stack: seq<Typed>

    constructor (block: BlockCell)
      ensures insertionPoint == block && stack == []
    {
      insertionPoint, stack := block, [];
    }

    /** Pops the operand stack; an empty one raises. */
    method GetOperand() returns (r: Result<Typed>)
      modifies this`stack
      ensures if old(stack) == [] then r == Err(EmptyStack) && stack == []
              else r == Ok(old(stack)[|old(stack)| - 1]) && stack == old(stack)[..|old(stack)| - 1]
    {
      if stack == [] {
        return Err(EmptyStack);
      }
      r := Ok(stack[|stack| - 1]);
      stack := stack[..|stack| - 1];
    }

    /** Appends to the current block and pushes the results. */
    method InsertOp(op: Op, results: seq<Typed>)
      requires |results| == |op.results| && forall i :: 0 <= i < |results| ==> results[i].value == op.results[i]
      modifies this`stack, insertionPoint
      ensures insertionPoint.ops == old(insertionPoint.ops) + [op] && stack == old(stack) + results
    {
      insertionPoint.ops := insertionPoint.ops + [op];
      stack := stack + results;
    }
  }

  /** The operation around the insertion point. */
  datatype Parent = FuncOp(returns_: Option<Ty>) | NotAFunction

  class CodeGenerationVisitor {
    const world: World
    const inserter: OpInserter
    var symbolTable: map<string, Ty>
    /** The next SSA value to be created. */
    var next: Value

    constructor (world: World, block: BlockCell)
      ensures this.world == world && fresh(inserter) && inserter.insertionPoint == block && inserter.stack == []
      ensures symbolTable == map[] && next == 0
    {
      this.world := world;
      symbolTable, next := map[], 0;
      inserter := new OpInserter(block);
    }

    /**
     On success one operand more is on the stack, and exactly the operations of the
     specification were appended to the block that was current and is current again.
     */
    method Visit(e: Expr) returns (r: Result<()>)
      modifies this`next, inserter, inserter.insertionPoint
      ensures var g := Generate(world, symbolTable, e, old(next));
              if g.Ok? then
                && r == Ok(())
                && inserter.insertionPoint == old(inserter.insertionPoint)
                && inserter.stack == old(inserter.stack) + [g.value.top]
                && inserter.insertionPoint.ops == old(inserter.insertionPoint.ops) + g.value.ops
                && next == g.value.next
              else r == Err(g.error)
      decreases e, 2
    {
      match e
      case Name(id) =>
        if id !in symbolTable {
          return Err(SymbolNotDefined(id));
        }
        inserter.InsertOp(FetchOp(id, next), [Typed(next, symbolTable[id])]);
        next := next + 1;
        r := Ok(());
      case BinOp(op, left, right) =>
        r := VisitOperands(e, left, right, BinaryMethod(op), []);
      case Compare(first, ops, comparators) =>
        if |comparators| != 1 || |ops| != 1 {
          return Err(NotASingleComparison);
        }
        if !Supported(ops[0]) {
          return Err(UnsupportedComparison(ops[0]));
        }
        r := VisitOperands(e, first, comparators[0], ComparisonMethod(ops[0]), Mnemonic(ops[0]));
      case IfExp(test, body, orelse) =>
        r := VisitIfExp(test, body, orelse);
    }

    /** The common part of `visit_BinOp` and `visit_Compare`: right, left, then the operation. */
    method VisitOperands(ghost e: Expr, left: Expr, right: Expr, method_: string, attributes: seq<string>)
      returns (r: Result<()>)
      requires left < e && right < e
      modifies this`next, inserter, inserter.insertionPoint
      ensures var gr := Generate(world, symbolTable, right, old(next));
              var gl := if gr.Ok? then Generate(world, symbolTable, left, gr.value.next) else gr;
              var g := if gl.Ok? then Combine(world, gr.value, gl.value, method_, attributes) else gl;
              if g.Ok? then
                && r == Ok(())
                && inserter.insertionPoint == old(inserter.insertionPoint)
                && inserter.stack == old(inserter.stack) + [g.value.top]
                && inserter.insertionPoint.ops == old(inserter.insertionPoint.ops) + g.value.ops
                && next == g.value.next
              else r == Err(g.error)
      decreases e, 1
    {
      var operands := PopOperands(e, left, right);
      if operands.Err? {
        return Err(operands.error);
      }
      r := InsertBinary(method_, attributes, operands.value.0, operands.value.1);
    }

    /** Visits the right operand, then the left one, and pops both. */
    method PopOperands(ghost e: Expr, left: Expr, right: Expr) returns (r: Result<(Typed, Typed)>)
      requires left < e && right < e
      modifies this`next, inserter, inserter.insertionPoint
      ensures var gr := Generate(world, symbolTable, right, old(next));
              var gl := if gr.Ok? then Generate(world, symbolTable, left, gr.value.next) else gr;
              if gl.Ok? then
                && r == Ok((gl.value.top, gr.value.top))
                && inserter.insertionPoint == old(inserter.insertionPoint)
                && inserter.stack == old(inserter.stack)
                && inserter.insertionPoint.ops == old(inserter.insertionPoint.ops) + (gr.value.ops + gl.value.ops)
                && next == gl.value.next
              else r == Err(gl.error)
      decreases e, 0
    {
      ghost var gr := Generate(world, symbolTable, right, next);
      var rhs := VisitOperand(right);
      if rhs.Err? {
        return Err(rhs.error);
      }
      ghost var gl := Generate(world, symbolTable, left, next);
      var lhs := VisitOperand(left);
      if lhs.Err? {
        return Err(lhs.error);
      }
      AppendAssociative(old(inserter.insertionPoint.ops), gr.value.ops, gl.value.ops);
      r := Ok((lhs.value, rhs.value));
    }

    /** Visits an expression and pops its value. */
    method VisitOperand(e: Expr) returns (r: Result<Typed>)
      modifies this`next, inserter, inserter.insertionPoint
      ensures var g := Generate(world, symbolTable, e, old(next));
              if g.Ok? then
                && r == Ok(g.value.top)
                && inserter.insertionPoint == old(inserter.insertionPoint)
                && inserter.stack == old(inserter.stack)
                && inserter.insertionPoint.ops == old(inserter.insertionPoint.ops) + g.value.ops
                && next == g.value.next
              else r == Err(g.error)
      decreases e, 3
    {
      ghost var g := Generate(world, symbolTable, e, next);
      var visited := Visit(e);
      if visited.Err? {
        return Err(visited.error);
      }
      TopOfStack(old(inserter.stack), g.value.top);
      r := inserter.GetOperand();
    }

    /** Overload resolution, and the operation it gives. */
    method InsertBinary(method_: string, attributes: seq<string>, lhs: Typed, rhs: Typed) returns (r: Result<()>)
      modifies this`next, inserter`stack, inserter.insertionPoint
      ensures var o := world.resolve(method_, lhs.ty);
              if lhs.ty != rhs.ty then r == Err(OperandTypesDiffer(lhs.ty, rhs.ty))
              else if o.None? then r == Err(NotOverloaded(method_, lhs.ty))
              else
                && r == Ok(())
                && inserter.stack == old(inserter.stack) + [Typed(old(next), o.value.result)]
                && inserter.insertionPoint.ops == old(inserter.insertionPoint.ops)
                     + [BinaryOp(o.value.name, attributes, lhs.value, rhs.value, old(next))]
                && next == old(next) + 1
    {
      if lhs.ty != rhs.ty {
        return Err(OperandTypesDiffer(lhs.ty, rhs.ty));
      }
      var o := world.resolve(method_, lhs.ty);
      if o.None? {
        return Err(NotOverloaded(method_, lhs.ty));
      }
      inserter.InsertOp(BinaryOp(o.value.name, attributes, lhs.value, rhs.value, next), [Typed(next, o.value.result)]);
      next := next + 1;
      r := Ok(());
    }

    /** A branch: its own block, ended by a yield of its value. The insertion point stays in that block. */
    method VisitBranch(e: Expr) returns (r: Result<(Ty, seq<Op>)>)
      modifies this`next, inserter
      ensures var g := Generate(world, symbolTable, e, old(next));
              if g.Ok? then
                && r == Ok((g.value.top.ty, g.value.ops + [YieldOp(g.value.top.value)]))
                && inserter.stack == old(inserter.stack)
                && next == g.value.next
              else r == Err(g.error)
      decreases e, 4
    {
      var block := new BlockCell();
      inserter.insertionPoint := block;
      ghost var g := Generate(world, symbolTable, e, next);
      var result := VisitOperand(e);
      if result.Err? {
        return Err(result.error);
      }
      assert block.ops == g.value.ops;
      inserter.InsertOp(YieldOp(result.value.value), []);
      assert inserter.stack == old(inserter.stack);
      r := Ok((result.value.ty, block.ops));
    }

    method VisitIfExp(test: Expr, body: Expr, orelse: Expr) returns (r: Result<()>)
      modifies this`next, inserter, inserter.insertionPoint
      ensures var g := Generate(world, symbolTable, IfExp(test, body, orelse), old(next));
              if g.Ok? then
                && r == Ok(())
                && inserter.insertionPoint == old(inserter.insertionPoint)
                && inserter.stack == old(inserter.stack) + [g.value.top]
                && inserter.insertionPoint.ops == old(inserter.insertionPoint.ops) + g.value.ops
                && next == g.value.next
              else r == Err(g.error)
      decreases IfExp(test, body, orelse), 0
    {
      var operand := VisitOperand(test);
      if operand.Err? {
        return Err(operand.error);
      }
      var cond := operand.value;
      var condBlock := inserter.insertionPoint;
      var yes := VisitBranch(body);
      if yes.Err? {
        return Err(yes.error);
      }
      var no := VisitBranch(orelse);
      if no.Err? {
        return Err(no.error);
      }
      if yes.value.0 != no.value.0 {
        return Err(BranchTypesDiffer(yes.value.0, no.value.0));
      }
      inserter.insertionPoint := condBlock;
      inserter.InsertOp(IfOp(cond.value, yes.value.1, no.value.1, next), [Typed(next, yes.value.0)]);
      next := next + 1;
      r := Ok(());
    }

    /** `visit_FunctionDef` for a function whose body is one return statement. */
    method VisitFunctionDef(def: FunctionDef) returns (r: Result<Region>)
      requires inserter.stack == []
      modifies this, inserter
      ensures r == GenerateFunction(world, def)
      ensures r.Ok? ==> inserter.stack == [] && inserter.insertionPoint == old(inserter.insertionPoint)
    {
      var parent := inserter.insertionPoint;
      var entry := new BlockCell();
      inserter.insertionPoint := entry;
      symbolTable := map[];
      var args: seq<Value> := [];
      for i := 0 to |def.params|
        invariant inserter.insertionPoint == entry && inserter.stack == [] && fresh(entry)
        invariant args == Arguments(i) && entry.ops == Prologue(def.params, i) && symbolTable == Symbols(def.params, i)
      {
        args := args + [i];
        symbolTable := symbolTable[def.params[i].name := def.params[i].ty];
        inserter.InsertOp(DeclareOp(def.params[i].name), []);
        inserter.InsertOp(UpdateOp(def.params[i].name, i), []);
        assert entry.ops == Prologue(def.params, i) + [DeclareOp(def.params[i].name), UpdateOp(def.params[i].name, i)];
      }
      next := |def.params|;
      var ret := VisitReturn(def.result, FuncOp(def.returns_));
      if ret.Err? {
        return Err(ret.error);
      }
      r := Ok(Region([Block(args, entry.ops)]));
      inserter.insertionPoint := parent;
    }

    /** `visit_Return`, which raises unless the insertion point is directly inside a function. */
    method VisitReturn(value: Option<Expr>, parent: Parent) returns (r: Result<()>)
      requires inserter.stack == []
      modifies this`next, inserter, inserter.insertionPoint
      ensures parent.NotAFunction? ==> r == Err(ReturnMisplaced) && inserter.insertionPoint.ops == old(inserter.insertionPoint.ops)
      ensures parent.FuncOp? ==>
                var g := GenerateReturn(world, symbolTable, value, parent.returns_, old(next));
                if g.Ok? then
                  && r == Ok(()) && inserter.stack == [] && inserter.insertionPoint == old(inserter.insertionPoint)
                  && inserter.insertionPoint.ops == old(inserter.insertionPoint.ops) + g.value
                else r == Err(g.error)
    {
      if parent.NotAFunction? {
        return Err(ReturnMisplaced);
      }
      var returns_ := parent.returns_;
      if value.None? {
        if returns_.Some? {
          return Err(ReturnTypeMissing);
        }
        inserter.InsertOp(ReturnOp([]), []);
        return Ok(());
      }
      ghost var g := Generate(world, symbolTable, value.value, next);
      var popped := VisitOperand(value.value);
      if popped.Err? {
        return Err(popped.error);
      }
      var operand := popped.value;
      if returns_.None? {
        return Err(ReturnTypeUnexpected);
      }
      if returns_.value != operand.ty {
        return Err(ReturnTypeDiffers(returns_.value, operand.ty));
      }
      inserter.InsertOp(ReturnOp([operand.value]), []);
      r := Ok(());
      assert inserter.insertionPoint.ops == old(inserter.insertionPoint.ops) + (g.value.ops + [ReturnOp([operand.value])]);
    }
  }
}
