/**
 A small SSA intermediate representation: operations with operand and result
 values, blocks as operation sequences, regions as block lists, nested to any depth.
 */
module Ir {

  /** An SSA value, compared by identity. */
  type Value = nat

  /** The name of an operation together with its attributes. */
  datatype Code = Code(name: string, attributes: seq<string>)

  /** `successors` are positions in the block list of the enclosing region. */
  datatype Op = Op(code: Code, operands: seq<Value>, results: seq<Value>,
                   successors: seq<nat>, regions: seq<Region>)

  datatype Block = Block(args: seq<Value>, ops: seq<Op>)

  datatype Region = Region(blocks: seq<Block>)

  /** Run-time values of the interpreter. */
  datatype PyValue = PyInt(i: int) | PyBool(b: bool) | PyObject(id: nat)

  type PyValues = seq<PyValue>

  /** What a terminator asks the interpreter to do next. */
  datatype Terminator = NoTerminator | ReturnedValues(values: PyValues) | Successor(index: nat, args: PyValues)

  /**
   One move of an operation implementation: finish with result values, run one of the
   regions of the operation and look at what it returns, or raise.
   */
  datatype Action =
    | Finish(values: PyValues, terminator: Terminator)
    | RunRegionOf(region: nat, args: PyValues)
    | Raise(code: nat)

  /**
   An implementation chooses its next move from the operation, its inputs and the
   results of the region runs it has asked for so far.
   */
  type Impl = (Code, PyValues, seq<PyValues>) -> Action

  datatype Error =
    | ValueNotFound(value: Value)
    | AlreadyAssigned(value: Value)
    | WrongResultCount
    | NoSuchBlock
    | NoSuchRegion
    | Raised(code: nat)

  /**
   The outcome of a bounded run. `OutOfLimit` means the bound was too small, and says
   nothing about the program.
   */
  datatype Outcome<+T> = Done(value: T) | Failed(error: Error) | OutOfLimit {
    predicate IsFailure() { !Done? }
    function PropagateFailure<U>(): Outcome<U>
      requires IsFailure()
    {
      match this
      case Failed(e) => Failed(e)
      case OutOfLimit => OutOfLimit
    }
    function Extract(): T
      requires !IsFailure()
    {
      value
    }
  }

  /** Where control goes after an operation. */
  datatype Next = Continue | Exit(values: PyValues) | Goto(block: nat, args: PyValues)

  /** All values defined by a list of operations, in order, not looking into their regions. */
  function Results(ops: seq<Op>): (vs: seq<Value>)
  {
    if ops == [] then [] else ops[0].results + Results(ops[1..])
  }

  /** The values defined by a block: its arguments, then the results of its operations. */
  function Defs(b: Block): seq<Value>
  {
    b.args + Results(b.ops)
  }

  predicate Distinct<T(==)>(s: seq<T>)
  {
    s == [] || (s[0] !in s[1..] && Distinct(s[1..]))
  }

  lemma {:induction false} DistinctSplit<T>(a: seq<T>, b: seq<T>)
    requires Distinct(a + b)
    ensures Distinct(a) && Distinct(b)
    ensures forall x :: x in a ==> x !in b
  {
    if a == [] {
      assert a + b == b;
    } else {
      assert (a + b)[1..] == a[1..] + b;
      DistinctSplit(a[1..], b);
      assert a == [a[0]] + a[1..];
    }
  }

  lemma {:induction false} DistinctAt<T>(s: seq<T>, i: nat, j: nat)
    requires Distinct(s) && i < j < |s|
    ensures s[i] != s[j]
  {
    if i == 0 {
      assert s[1..][j - 1] == s[j];
    } else {
      DistinctAt(s[1..], i - 1, j - 1);
    }
  }

  lemma {:induction false} ResultsAppend(a: seq<Op>, b: seq<Op>)
    ensures Results(a + b) == Results(a) + Results(b)
  {
    if a == [] {
      assert a + b == b;
    } else {
      assert (a + b)[1..] == a[1..] + b;
      ResultsAppend(a[1..], b);
    }
  }
}
