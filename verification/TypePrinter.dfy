/**
 The syntax of builtin types, as tokens: what `print_attribute` emits, and a reader that gets
 every type back.
 */
module TypePrinter {

  import opened Options
  import opened TokenStreams

  datatype Signedness = Signless | Signed | Unsigned

  datatype FloatKind = BF16 | F16 | F32 | F64 | F80 | F128

  datatype Type =
    | Integer(signedness: Signedness, width: int)
    | Index
    | Float(kind: FloatKind)
    | Complex(element: Type)
    | Function(inputs: seq<Type>, outputs: seq<Type>)
    | Tensor(shape: seq<int>, element: Type, encoding: Option<Type>)
    | UnrankedTensor(element: Type)
    | Vector(shape: seq<int>, element: Type, scalable: nat)

  /** What the verifier of vector types guarantees. */
  predicate Verified(t: Type)
  {
    match t
    case Integer(_, _) => true
    case Index => true
    case Float(_) => true
    case Complex(e) => Verified(e)
    case Function(inputs, outputs) =>
      (forall x :: x in inputs ==> Verified(x)) && (forall x :: x in outputs ==> Verified(x))
    case Tensor(_, e, encoding) => Verified(e) && (encoding.Some? ==> Verified(encoding.value))
    case UnrankedTensor(e) => Verified(e)
    case Vector(shape, e, scalable) => Verified(e) && scalable <= |shape|
  }

  datatype Word = IndexWord | ComplexWord | TensorWord | VectorWord

  datatype Token =
    | IntegerName(signedness: Signedness, width: int)
    | FloatName(kind: FloatKind)
    | Keyword(word: Word)
    | Number(n: int)
    | Question | Star | Times | Comma | Arrow
    | LParen | RParen | LAngle | RAngle | LSquare | RSquare

  type Tokens = seq<Token>

  // ----- printing -----

  /** Dimensions, each followed by `x`; a dynamic tensor dimension is stored as -1. */
  function PrintDims(shape: seq<int>, rest: Tokens): Tokens
  {
    if shape == [] then rest
    else Put(if shape[0] == -1 then Question else Number(shape[0]), Put(Times, PrintDims(shape[1..], rest)))
  }

  function PrintNumbers(shape: seq<int>, rest: Tokens): Tokens
  {
    if shape == [] then rest else Put(Number(shape[0]), Put(Times, PrintNumbers(shape[1..], rest)))
  }

  /** Numbers with `x` between them. */
  function PrintScalable(shape: seq<int>, rest: Tokens): Tokens
  {
    if shape == [] then rest
    else if |shape| == 1 then Put(Number(shape[0]), rest)
    else Put(Number(shape[0]), Put(Times, PrintScalable(shape[1..], rest)))
  }

  /** The tokens of a type, in front of what is printed after it. */
  function Print(t: Type, rest: Tokens): Tokens
    requires Verified(t)
    decreases t, 1
  {
    match t
    case Integer(s, w) => Put(IntegerName(s, w), rest)
    case Index => Put(Keyword(IndexWord), rest)
    case Float(k) => Put(FloatName(k), rest)
    case Complex(e) => Put(Keyword(ComplexWord), Put(LAngle, Print(e, Put(RAngle, rest))))
    case Function(inputs, outputs) => Put(LParen, PrintList(inputs, Put(RParen, Put(Arrow, PrintOutputs(t, rest)))))
    case Tensor(shape, e, encoding) =>
      Put(Keyword(TensorWord), Put(LAngle, PrintDims(shape, Print(e, PrintEncoding(t, rest)))))
    case UnrankedTensor(e) =>
      Put(Keyword(TensorWord), Put(LAngle, Put(Star, Put(Times, Print(e, Put(RAngle, rest))))))
    case Vector(shape, e, scalable) =>
      Put(Keyword(VectorWord), Put(LAngle, PrintNumbers(shape[..|shape| - scalable], PrintScaled(t, rest))))
  }

  /** A single result is bare, unless it is itself a function type. */
  function PrintOutputs(t: Type, rest: Tokens): Tokens
    requires t.Function? && Verified(t)
    decreases t, 0
  {
    if |t.outputs| == 1 && !t.outputs[0].Function? then Print(t.outputs[0], rest)
    else Put(LParen, PrintList(t.outputs, Put(RParen, rest)))
  }

  function PrintEncoding(t: Type, rest: Tokens): Tokens
    requires t.Tensor? && Verified(t)
    decreases t, 0
  {
    if t.encoding.Some? then Put(Comma, Print(t.encoding.value, Put(RAngle, rest))) else Put(RAngle, rest)
  }

  /** The scalable dimensions, in brackets, and the element type. */
  function PrintScaled(t: Type, rest: Tokens): Tokens
    requires t.Vector? && Verified(t)
    decreases t, 0
  {
    var element := Print(t.element, Put(RAngle, rest));
    if t.scalable == 0 then element
    else Put(LSquare, PrintScalable(t.shape[|t.shape| - t.scalable..], Put(RSquare, Put(Times, element))))
  }

  function PrintList(ts: seq<Type>, rest: Tokens): Tokens
    requires forall t :: t in ts ==> Verified(t)
    decreases ts, 0
  {
    if ts == [] then rest
    else if |ts| == 1 then Print(ts[0], rest)
    else Print(ts[0], Put(Comma, PrintList(ts[1..], rest)))
  }

  // ----- reading -----

  function Expect(ts: Tokens, t: Token): (r: Option<Tokens>)
    ensures r.Some? ==> |r.value| < |ts|
  {
    if Next(ts, t) then Some(ts[1..]) else None
  }

  function ReadDims(ts: Tokens): (r: Option<(seq<int>, Tokens)>)
    ensures r.Some? ==> |r.value.1| <= |ts|
  {
    if ts == [] || !(ts[0].Number? || ts[0].Question?) then Some(([], ts))
    else
      var rest :- Expect(ts[1..], Times);
      var (dims, rest') :- ReadDims(rest);
      Some(([if ts[0].Question? then -1 else ts[0].n] + dims, rest'))
  }

  function ReadNumbers(ts: Tokens): (r: Option<(seq<int>, Tokens)>)
    ensures r.Some? ==> |r.value.1| <= |ts|
  {
    if ts == [] || !ts[0].Number? then Some(([], ts))
    else
      var rest :- Expect(ts[1..], Times);
      var (dims, rest') :- ReadNumbers(rest);
      Some(([ts[0].n] + dims, rest'))
  }

  function ReadScalable(ts: Tokens): (r: Option<(seq<int>, Tokens)>)
    ensures r.Some? ==> |r.value.1| < |ts|
  {
    if ts == [] || !ts[0].Number? then None
    else if Next(ts[1..], Times) then
      var (dims, rest) :- ReadScalable(ts[2..]);
      Some(([ts[0].n] + dims, rest))
    else
      var rest :- Expect(ts[1..], RSquare);
      Some(([ts[0].n], rest))
  }

  /** Reads one type and gives back the tokens behind it. */
  function Read(ts: Tokens): (r: Option<(Type, Tokens)>)
    ensures r.Some? ==> |r.value.1| < |ts|
    decreases |ts|, 0
  {
    if ts == [] then None
    else match ts[0]
      case IntegerName(s, w) => Some((Integer(s, w), ts[1..]))
      case FloatName(k) => Some((Float(k), ts[1..]))
      case LParen =>
        var (inputs, afterInputs) :- ReadList(ts[1..]);
        var afterArrow :- Expect(afterInputs, Arrow);
        if Next(afterArrow, LParen) then
          var (outputs, rest) :- ReadList(afterArrow[1..]);
          Some((Function(inputs, outputs), rest))
        else
          var (output, rest) :- Read(afterArrow);
          Some((Function(inputs, [output]), rest))
      case Keyword(word) =>
        if word == IndexWord then Some((Index, ts[1..]))
        else
          var inside :- Expect(ts[1..], LAngle);
          if word == ComplexWord then
            var (e, afterElement) :- Read(inside);
            var rest :- Expect(afterElement, RAngle);
            Some((Complex(e), rest))
          else if word == VectorWord then ReadVector(inside)
          else ReadTensor(inside)
      case _ => None
  }

  function ReadTensor(ts: Tokens): (r: Option<(Type, Tokens)>)
    ensures r.Some? ==> |r.value.1| < |ts|
    decreases |ts|, 1
  {
    if Next(ts, Star) then
      var afterStar :- Expect(ts[1..], Times);
      var (e, afterElement) :- Read(afterStar);
      var rest :- Expect(afterElement, RAngle);
      Some((UnrankedTensor(e), rest))
    else
      var (shape, afterShape) :- ReadDims(ts);
      var (e, afterElement) :- Read(afterShape);
      if Next(afterElement, Comma) then
        var (encoding, afterEncoding) :- Read(afterElement[1..]);
        var rest :- Expect(afterEncoding, RAngle);
        Some((Tensor(shape, e, Some(encoding)), rest))
      else
        var rest :- Expect(afterElement, RAngle);
        Some((Tensor(shape, e, None), rest))
  }

  function ReadVector(ts: Tokens): (r: Option<(Type, Tokens)>)
    ensures r.Some? ==> |r.value.1| < |ts|
    decreases |ts|, 1
  {
    var (fixed, afterFixed) :- ReadNumbers(ts);
    if Next(afterFixed, LSquare) then
      var (scalable, afterScalable) :- ReadScalable(afterFixed[1..]);
      var afterTimes :- Expect(afterScalable, Times);
      var (e, afterElement) :- Read(afterTimes);
      var rest :- Expect(afterElement, RAngle);
      Some((Vector(fixed + scalable, e, |scalable|), rest))
    else
      var (e, afterElement) :- Read(afterFixed);
      var rest :- Expect(afterElement, RAngle);
      Some((Vector(fixed, e, 0), rest))
  }

  /** A list up to and including its closing parenthesis. */
  function ReadList(ts: Tokens): (r: Option<(seq<Type>, Tokens)>)
    ensures r.Some? ==> |r.value.1| < |ts|
    decreases |ts|, 2
  {
    if Next(ts, RParen) then Some(([], ts[1..])) else ReadSome(ts)
  }

  function ReadSome(ts: Tokens): (r: Option<(seq<Type>, Tokens)>)
    ensures r.Some? ==> |r.value.1| < |ts|
    decreases |ts|, 1
  {
    var (t, rest) :- Read(ts);
    if Next(rest, Comma) then
      var (more, rest') :- ReadSome(rest[1..]);
      Some(([t] + more, rest'))
    else
      var rest' :- Expect(rest, RParen);
      Some(([t], rest'))
  }

  // ----- reading undoes printing -----

  lemma {:induction false} DimsRoundTrip(shape: seq<int>, rest: Tokens)
    requires rest != [] && !rest[0].Number? && !rest[0].Question?
    ensures ReadDims(PrintDims(shape, rest)) == Some((shape, rest))
  {
    if shape != [] {
      DimsRoundTrip(shape[1..], rest);
      assert shape == [shape[0]] + shape[1..];
    }
  }

  lemma {:induction false} NumbersRoundTrip(shape: seq<int>, rest: Tokens)
    requires rest != [] && !rest[0].Number?
    ensures ReadNumbers(PrintNumbers(shape, rest)) == Some((shape, rest))
  {
    if shape != [] {
      NumbersRoundTrip(shape[1..], rest);
      assert shape == [shape[0]] + shape[1..];
    }
  }

  lemma {:induction false} ScalableRoundTrip(shape: seq<int>, rest: Tokens)
    requires shape != []
    ensures ReadScalable(PrintScalable(shape, Put(RSquare, rest))) == Some((shape, rest))
  {
    var ts := PrintScalable(shape, Put(RSquare, rest));
    if |shape| == 1 {
      assert shape == [shape[0]];
    } else {
      ScalableRoundTrip(shape[1..], rest);
      assert ts[2..] == ts[1..][1..];
      assert shape == [shape[0]] + shape[1..];
    }
  }

  /** How a printed type can start. */
  lemma PrintStarts(t: Type, rest: Tokens)
    requires Verified(t)
    ensures Print(t, rest) != []
    ensures var first := Print(t, rest)[0];
            (first.IntegerName? || first.FloatName? || first.Keyword? || first.LParen?) && (first.LParen? <==> t.Function?)
  {
  }

  /** Every verified type is read back, whatever follows it. */
  lemma {:induction false} RoundTrip(t: Type, rest: Tokens)
    requires Verified(t)
    ensures Read(Print(t, rest)) == Some((t, rest))
    decreases t, 2
  {
    match t
    case Integer(_, _) =>
    case Index =>
    case Float(_) =>
    case Complex(e) =>
      RoundTrip(e, Put(RAngle, rest));
      ComplexReads(e, rest);
    case Function(_, _) => FunctionRoundTrip(t, rest);
    case Tensor(_, _, _) =>
      TensorRoundTrip(t, rest);
      TensorReads(t, rest);
    case UnrankedTensor(e) =>
      RoundTrip(e, Put(RAngle, rest));
      UnrankedReads(e, rest);
    case Vector(shape, _, scalable) =>
      VectorRoundTrip(t, shape[..|shape| - scalable], shape[|shape| - scalable..], rest);
      VectorTypeReads(t, rest);
  }

  lemma {:induction false} TensorReads(t: Type, rest: Tokens)
    requires t.Tensor? && Verified(t)
    requires ReadTensor(PrintDims(t.shape, Print(t.element, PrintEncoding(t, rest)))) == Some((t, rest))
    ensures Read(Print(t, rest)) == Some((t, rest))
  {
    var inside := PrintDims(t.shape, Print(t.element, PrintEncoding(t, rest)));
    ReadKeyword(inside);
    assert Print(t, rest) == Put(Keyword(TensorWord), Put(LAngle, inside));
  }

  lemma {:induction false} VectorTypeReads(t: Type, rest: Tokens)
    requires t.Vector? && Verified(t)
    requires ReadVector(PrintNumbers(t.shape[..|t.shape| - t.scalable], PrintScaled(t, rest))) == Some((t, rest))
    ensures Read(Print(t, rest)) == Some((t, rest))
  {
    VectorPrinted(t, rest);
    KeywordRead(Print(t, rest), VectorWord, PrintNumbers(t.shape[..|t.shape| - t.scalable], PrintScaled(t, rest)));
  }

  lemma {:induction false} VectorPrinted(t: Type, rest: Tokens)
    requires t.Vector? && Verified(t)
    ensures Print(t, rest)
            == Put(Keyword(VectorWord), Put(LAngle, PrintNumbers(t.shape[..|t.shape| - t.scalable], PrintScaled(t, rest))))
  {
  }

  lemma {:induction false} ComplexReads(e: Type, rest: Tokens)
    requires Verified(e) && Read(Print(e, Put(RAngle, rest))) == Some((e, Put(RAngle, rest)))
    ensures Read(Print(Complex(e), rest)) == Some((Complex(e), rest))
  {
    ComplexPrinted(e, rest);
    ReadComplex(Print(e, Put(RAngle, rest)), e, rest);
  }

  lemma {:induction false} ComplexPrinted(e: Type, rest: Tokens)
    requires Verified(e)
    ensures Print(Complex(e), rest) == Put(Keyword(ComplexWord), Put(LAngle, Print(e, Put(RAngle, rest))))
  {
  }

  lemma {:induction false} ReadComplex(element: Tokens, e: Type, rest: Tokens)
    requires Read(element) == Some((e, Put(RAngle, rest)))
    ensures Read(Put(Keyword(ComplexWord), Put(LAngle, element))) == Some((Complex(e), rest))
  {
  }

  lemma {:induction false} UnrankedReads(e: Type, rest: Tokens)
    requires Verified(e) && Read(Print(e, Put(RAngle, rest))) == Some((e, Put(RAngle, rest)))
    ensures Read(Print(UnrankedTensor(e), rest)) == Some((UnrankedTensor(e), rest))
  {
    UnrankedPrinted(e, rest);
    ReadUnranked(Print(e, Put(RAngle, rest)), e, rest);
    KeywordRead(Print(UnrankedTensor(e), rest), TensorWord, Put(Star, Put(Times, Print(e, Put(RAngle, rest)))));
  }

  lemma {:induction false} UnrankedPrinted(e: Type, rest: Tokens)
    requires Verified(e)
    ensures Print(UnrankedTensor(e), rest)
            == Put(Keyword(TensorWord), Put(LAngle, Put(Star, Put(Times, Print(e, Put(RAngle, rest))))))
  {
  }

  /** Behind a keyword and its bracket the rest is read by the reader of that keyword. */
  lemma {:induction false} KeywordRead(printed: Tokens, word: Word, inside: Tokens)
    requires word == TensorWord || word == VectorWord
    requires printed == Put(Keyword(word), Put(LAngle, inside))
    ensures Read(printed) == if word == TensorWord then ReadTensor(inside) else ReadVector(inside)
  {
    ReadKeyword(inside);
  }

  lemma {:induction false} ReadKeyword(inside: Tokens)
    ensures Read(Put(Keyword(TensorWord), Put(LAngle, inside))) == ReadTensor(inside)
    ensures Read(Put(Keyword(VectorWord), Put(LAngle, inside))) == ReadVector(inside)
  {
  }

  lemma {:induction false} ReadUnranked(element: Tokens, e: Type, rest: Tokens)
    requires Read(element) == Some((e, Put(RAngle, rest)))
    ensures ReadTensor(Put(Star, Put(Times, element))) == Some((UnrankedTensor(e), rest))
  {
  }

  lemma {:induction false} ReadRanked(ts: Tokens, shape: seq<int>, element: Tokens, e: Type, rest: Tokens)
    requires !Next(ts, Star)
    requires ReadDims(ts) == Some((shape, element))
    requires Read(element) == Some((e, Put(RAngle, rest)))
    ensures ReadTensor(ts) == Some((Tensor(shape, e, None), rest))
  {
  }

  lemma ReadEncoded(ts: Tokens, shape: seq<int>, element: Tokens, e: Type, after: Tokens, encoding: Type, rest: Tokens)
    requires !Next(ts, Star)
    requires ReadDims(ts) == Some((shape, element))
    requires Read(element) == Some((e, Put(Comma, after)))
    requires Read(after) == Some((encoding, Put(RAngle, rest)))
    ensures ReadTensor(ts) == Some((Tensor(shape, e, Some(encoding)), rest))
  {
  }

  lemma {:induction false} TensorRoundTrip(t: Type, rest: Tokens)
    requires t.Tensor? && Verified(t)
    ensures ReadTensor(PrintDims(t.shape, Print(t.element, PrintEncoding(t, rest)))) == Some((t, rest))
    decreases t, 0
  {
    var afterShape := Print(t.element, PrintEncoding(t, rest));
    PrintStarts(t.element, PrintEncoding(t, rest));
    DimsRoundTrip(t.shape, afterShape);
    RoundTrip(t.element, PrintEncoding(t, rest));
    var ts := PrintDims(t.shape, afterShape);
    if t.encoding.Some? {
      var after := Print(t.encoding.value, Put(RAngle, rest));
      RoundTrip(t.encoding.value, Put(RAngle, rest));
      ReadEncoded(ts, t.shape, afterShape, t.element, after, t.encoding.value, rest);
    } else {
      ReadRanked(ts, t.shape, afterShape, t.element, rest);
    }
  }

  lemma ReadVectorFixed(ts: Tokens, fixed: seq<int>, after: Tokens, e: Type, rest: Tokens)
    requires ReadNumbers(ts) == Some((fixed, after))
    requires !Next(after, LSquare)
    requires Read(after) == Some((e, Put(RAngle, rest)))
    ensures ReadVector(ts) == Some((Vector(fixed, e, 0), rest))
  {
  }

  lemma ReadVectorScaled(ts: Tokens, fixed: seq<int>, after: Tokens, dims: seq<int>, element: Tokens, e: Type, rest: Tokens)
    requires ReadNumbers(ts) == Some((fixed, Put(LSquare, after)))
    requires ReadScalable(after) == Some((dims, Put(Times, element)))
    requires Read(element) == Some((e, Put(RAngle, rest)))
    ensures ReadVector(ts) == Some((Vector(fixed + dims, e, |dims|), rest))
  {
  }

  lemma {:induction false} VectorRoundTrip(t: Type, fixed: seq<int>, dims: seq<int>, rest: Tokens)
    requires t.Vector? && Verified(t)
    requires fixed == t.shape[..|t.shape| - t.scalable] && dims == t.shape[|t.shape| - t.scalable..]
    ensures ReadVector(PrintNumbers(fixed, PrintScaled(t, rest))) == Some((t, rest))
    decreases t, 0
  {
    assert fixed + dims == t.shape;
    RoundTrip(t.element, Put(RAngle, rest));
    VectorReads(fixed, dims, t.element, rest);
    assert t.scalable == 0 ==> fixed == t.shape;
  }

  /** The body of a vector type whose element type is read back. */
  lemma VectorReads(fixed: seq<int>, dims: seq<int>, e: Type, rest: Tokens)
    requires Verified(e) && Read(Print(e, Put(RAngle, rest))) == Some((e, Put(RAngle, rest)))
    ensures var element := Print(e, Put(RAngle, rest));
            var scaled := if dims == [] then element else Put(LSquare, PrintScalable(dims, Put(RSquare, Put(Times, element))));
            ReadVector(PrintNumbers(fixed, scaled)) == Some((Vector(fixed + dims, e, |dims|), rest))
  {
    var element := Print(e, Put(RAngle, rest));
    PrintStarts(e, Put(RAngle, rest));
    if dims == [] {
      NumbersRoundTrip(fixed, element);
      ReadVectorFixed(PrintNumbers(fixed, element), fixed, element, e, rest);
      assert fixed + dims == fixed;
    } else {
      var after := PrintScalable(dims, Put(RSquare, Put(Times, element)));
      NumbersRoundTrip(fixed, Put(LSquare, after));
      ScalableRoundTrip(dims, Put(Times, element));
      ReadVectorScaled(PrintNumbers(fixed, Put(LSquare, after)), fixed, after, dims, element, e, rest);
    }
  }

  lemma ReadBareResult(ts: Tokens, inputs: seq<Type>, after: Tokens, output: Type, rest: Tokens)
    requires ReadList(ts) == Some((inputs, Put(Arrow, after)))
    requires !Next(after, LParen) && Read(after) == Some((output, rest))
    ensures Read(Put(LParen, ts)) == Some((Function(inputs, [output]), rest))
  {
  }

  lemma ReadResults(ts: Tokens, inputs: seq<Type>, after: Tokens, outputs: seq<Type>, rest: Tokens)
    requires ReadList(ts) == Some((inputs, Put(Arrow, Put(LParen, after))))
    requires ReadList(after) == Some((outputs, rest))
    ensures Read(Put(LParen, ts)) == Some((Function(inputs, outputs), rest))
  {
  }

  lemma {:induction false} FunctionRoundTrip(t: Type, rest: Tokens)
    requires t.Function? && Verified(t)
    ensures Read(Print(t, rest)) == Some((t, rest))
    decreases t, 0
  {
    var ts := PrintList(t.inputs, Put(RParen, Put(Arrow, PrintOutputs(t, rest))));
    ListRoundTrip(t.inputs, Put(Arrow, PrintOutputs(t, rest)));
    if |t.outputs| == 1 && !t.outputs[0].Function? {
      assert [t.outputs[0]] == t.outputs;
      PrintStarts(t.outputs[0], rest);
      RoundTrip(t.outputs[0], rest);
      ReadBareResult(ts, t.inputs, Print(t.outputs[0], rest), t.outputs[0], rest);
    } else {
      ListRoundTrip(t.outputs, rest);
      ReadResults(ts, t.inputs, PrintList(t.outputs, Put(RParen, rest)), t.outputs, rest);
    }
  }

  lemma {:induction false} ListRoundTrip(ts: seq<Type>, rest: Tokens)
    requires forall t :: t in ts ==> Verified(t)
    ensures ReadList(PrintList(ts, Put(RParen, rest))) == Some((ts, rest))
    decreases ts, 1
  {
    if ts != [] {
      PrintStarts(ts[0], Put(RParen, rest));
      PrintStarts(ts[0], Put(Comma, PrintList(ts[1..], Put(RParen, rest))));
      SomeRoundTrip(ts, rest);
    }
  }

  lemma ReadSomeLast(ts: Tokens, t: Type, rest: Tokens)
    requires Read(ts) == Some((t, Put(RParen, rest)))
    ensures ReadSome(ts) == Some(([t], rest))
  {
  }

  lemma ReadSomeMore(ts: Tokens, t: Type, after: Tokens, more: seq<Type>, rest: Tokens)
    requires Read(ts) == Some((t, Put(Comma, after)))
    requires ReadSome(after) == Some((more, rest))
    ensures ReadSome(ts) == Some(([t] + more, rest))
  {
  }

  lemma {:induction false} HeadRoundTrip(t: Type, later: Tokens, more: seq<Type>, rest: Tokens)
    requires Verified(t) && ReadSome(later) == Some((more, rest))
    ensures ReadSome(Print(t, Put(Comma, later))) == Some(([t] + more, rest))
    decreases t, 3
  {
    RoundTrip(t, Put(Comma, later));
    ReadSomeMore(Print(t, Put(Comma, later)), t, later, more, rest);
  }

  lemma {:induction false} SomeRoundTrip(ts: seq<Type>, rest: Tokens)
    requires ts != [] && forall t :: t in ts ==> Verified(t)
    ensures ReadSome(PrintList(ts, Put(RParen, rest))) == Some((ts, rest))
    decreases ts, 0
  {
    if |ts| == 1 {
      assert ts == [ts[0]];
      RoundTrip(ts[0], Put(RParen, rest));
      ReadSomeLast(Print(ts[0], Put(RParen, rest)), ts[0], rest);
    } else {
      assert ts == [ts[0]] + ts[1..];
      SomeRoundTrip(ts[1..], rest);
      HeadRoundTrip(ts[0], PrintList(ts[1..], Put(RParen, rest)), ts[1..], rest);
    }
  }

  /** Printing is injective on verified types. */
  lemma PrintInjective(t: Type, u: Type)
    requires Verified(t) && Verified(u) && Print(t, []) == Print(u, [])
    ensures t == u
  {
    RoundTrip(t, []);
    RoundTrip(u, []);
  }

  // ----- what the tokens are -----

  /** A dimension is written as a number or, if it is dynamic, as a question mark; no other number is negative. */
  predicate Dimensioned(t: Type)
  {
    match t
    case Integer(_, _) => true
    case Index => true
    case Float(_) => true
    case Complex(e) => Dimensioned(e)
    case Function(inputs, outputs) =>
      (forall x :: x in inputs ==> Dimensioned(x)) && (forall x :: x in outputs ==> Dimensioned(x))
    case Tensor(shape, e, encoding) =>
      (forall i :: 0 <= i < |shape| ==> shape[i] >= -1) && Dimensioned(e) && (encoding.Some? ==> Dimensioned(encoding.value))
    case UnrankedTensor(e) => Dimensioned(e)
    case Vector(shape, e, _) => (forall i :: 0 <= i < |shape| ==> shape[i] >= 0) && Dimensioned(e)
  }

  /** The numbers among the tokens have no sign, which the syntax of shapes does not know. */
  predicate Unsigned(ts: Tokens)
  {
    forall i :: 0 <= i < |ts| && ts[i].Number? ==> ts[i].n >= 0
  }

  lemma UnsignedPut(t: Token, rest: Tokens)
    ensures Unsigned(Put(t, rest)) <==> (t.Number? ==> t.n >= 0) && Unsigned(rest)
  {
    var ts := Put(t, rest);
    assert forall i :: 0 <= i < |rest| ==> rest[i] == ts[i + 1];
    assert forall i :: 0 < i < |ts| ==> ts[i] == rest[i - 1];
  }

  lemma {:induction false} UnsignedDims(shape: seq<int>, rest: Tokens)
    ensures Unsigned(PrintDims(shape, rest)) <==> (forall i :: 0 <= i < |shape| ==> shape[i] >= -1) && Unsigned(rest)
  {
    if shape != [] {
      UnsignedDims(shape[1..], rest);
      UnsignedPut(Times, PrintDims(shape[1..], rest));
      UnsignedPut(if shape[0] == -1 then Question else Number(shape[0]), Put(Times, PrintDims(shape[1..], rest)));
      assert (forall i :: 0 <= i < |shape| ==> shape[i] >= -1)
        <==> shape[0] >= -1 && forall i :: 0 <= i < |shape[1..]| ==> shape[1..][i] >= -1;
    }
  }

  predicate Natural(shape: seq<int>)
  {
    forall i :: 0 <= i < |shape| ==> shape[i] >= 0
  }

  lemma NaturalFirst(shape: seq<int>)
    requires shape != []
    ensures Natural(shape) <==> shape[0] >= 0 && Natural(shape[1..])
  {
    assert shape == [shape[0]] + shape[1..];
  }

  lemma {:induction false} UnsignedNumbers(shape: seq<int>, rest: Tokens)
    ensures Unsigned(PrintNumbers(shape, rest)) <==> Natural(shape) && Unsigned(rest)
  {
    if shape != [] {
      UnsignedNumbers(shape[1..], rest);
      UnsignedPut(Times, PrintNumbers(shape[1..], rest));
      UnsignedPut(Number(shape[0]), Put(Times, PrintNumbers(shape[1..], rest)));
      NaturalFirst(shape);
    }
  }

  lemma {:induction false} UnsignedScalable(shape: seq<int>, rest: Tokens)
    ensures Unsigned(PrintScalable(shape, rest)) <==> Natural(shape) && Unsigned(rest)
  {
    if |shape| == 1 {
      UnsignedPut(Number(shape[0]), rest);
    } else if shape != [] {
      UnsignedScalable(shape[1..], rest);
      UnsignedPut(Times, PrintScalable(shape[1..], rest));
      UnsignedPut(Number(shape[0]), Put(Times, PrintScalable(shape[1..], rest)));
      NaturalFirst(shape);
    }
  }

  /** The printed type is within the syntax exactly if no dimension is negative, dynamic ones of tensors apart. */
  lemma {:induction false} UnsignedExactly(t: Type, rest: Tokens)
    requires Verified(t)
    ensures Unsigned(Print(t, rest)) <==> Dimensioned(t) && Unsigned(rest)
    decreases t, 2
  {
    match t
    case Integer(s, w) => UnsignedPut(IntegerName(s, w), rest);
    case Index => UnsignedPut(Keyword(IndexWord), rest);
    case Float(k) => UnsignedPut(FloatName(k), rest);
    case Complex(e) => UnsignedBracketed(ComplexWord, e, rest);
    case Function(_, _) => UnsignedFunction(t, rest);
    case Tensor(_, _, _) => UnsignedTensor(t, rest);
    case UnrankedTensor(e) =>
      UnsignedExactly(e, Put(RAngle, rest));
      UnsignedPut(RAngle, rest);
      UnsignedPut(Times, Print(e, Put(RAngle, rest)));
      UnsignedPut(Star, Put(Times, Print(e, Put(RAngle, rest))));
      UnsignedPut(LAngle, Put(Star, Put(Times, Print(e, Put(RAngle, rest)))));
      UnsignedPut(Keyword(TensorWord), Put(LAngle, Put(Star, Put(Times, Print(e, Put(RAngle, rest))))));
    case Vector(_, _, _) => UnsignedVector(t, rest);
  }

  lemma {:induction false} UnsignedBracketed(word: Word, e: Type, rest: Tokens)
    requires Verified(e)
    ensures Unsigned(Put(Keyword(word), Put(LAngle, Print(e, Put(RAngle, rest))))) <==> Dimensioned(e) && Unsigned(rest)
    decreases e, 3
  {
    UnsignedExactly(e, Put(RAngle, rest));
    UnsignedPut(RAngle, rest);
    UnsignedPut(LAngle, Print(e, Put(RAngle, rest)));
    UnsignedPut(Keyword(word), Put(LAngle, Print(e, Put(RAngle, rest))));
  }

  lemma {:induction false} UnsignedTensor(t: Type, rest: Tokens)
    requires t.Tensor? && Verified(t)
    ensures Unsigned(Print(t, rest)) <==> Dimensioned(t) && Unsigned(rest)
    decreases t, 1
  {
    var end := PrintEncoding(t, rest);
    var dims := PrintDims(t.shape, Print(t.element, end));
    if t.encoding.Some? {
      UnsignedExactly(t.encoding.value, Put(RAngle, rest));
      UnsignedPut(Comma, Print(t.encoding.value, Put(RAngle, rest)));
    }
    UnsignedPut(RAngle, rest);
    UnsignedExactly(t.element, end);
    UnsignedDims(t.shape, Print(t.element, end));
    UnsignedPut(LAngle, dims);
    UnsignedPut(Keyword(TensorWord), Put(LAngle, dims));
  }

  lemma NaturalSplit(shape: seq<int>, k: nat)
    requires k <= |shape|
    ensures Natural(shape) <==> Natural(shape[..k]) && Natural(shape[k..])
  {
    assert shape == shape[..k] + shape[k..];
  }

  lemma {:induction false} UnsignedScaled(t: Type, rest: Tokens)
    requires t.Vector? && Verified(t)
    ensures Unsigned(PrintScaled(t, rest)) <==>
              Natural(t.shape[|t.shape| - t.scalable..]) && Dimensioned(t.element) && Unsigned(rest)
    decreases t, 0
  {
    UnsignedExactly(t.element, Put(RAngle, rest));
    UnsignedPut(RAngle, rest);
    UnsignedBrackets(t.shape[|t.shape| - t.scalable..], Print(t.element, Put(RAngle, rest)));
  }

  lemma {:induction false} UnsignedBrackets(dims: seq<int>, element: Tokens)
    ensures dims == [] ==> Natural(dims)
    ensures Unsigned(Put(LSquare, PrintScalable(dims, Put(RSquare, Put(Times, element))))) <==> Natural(dims) && Unsigned(element)
  {
    UnsignedPut(Times, element);
    UnsignedPut(RSquare, Put(Times, element));
    UnsignedScalable(dims, Put(RSquare, Put(Times, element)));
    UnsignedPut(LSquare, PrintScalable(dims, Put(RSquare, Put(Times, element))));
  }

  lemma {:induction false} UnsignedVector(t: Type, rest: Tokens)
    requires t.Vector? && Verified(t)
    ensures Unsigned(Print(t, rest)) <==> Dimensioned(t) && Unsigned(rest)
    decreases t, 1
  {
    var split := |t.shape| - t.scalable;
    UnsignedScaled(t, rest);
    UnsignedNumbers(t.shape[..split], PrintScaled(t, rest));
    UnsignedPut(LAngle, PrintNumbers(t.shape[..split], PrintScaled(t, rest)));
    UnsignedPut(Keyword(VectorWord), Put(LAngle, PrintNumbers(t.shape[..split], PrintScaled(t, rest))));
    NaturalSplit(t.shape, split);
  }

  lemma {:induction false} UnsignedFunction(t: Type, rest: Tokens)
    requires t.Function? && Verified(t)
    ensures Unsigned(Print(t, rest)) <==> Dimensioned(t) && Unsigned(rest)
    decreases t, 1
  {
    var outputs := PrintOutputs(t, rest);
    if |t.outputs| == 1 && !t.outputs[0].Function? {
      UnsignedExactly(t.outputs[0], rest);
      assert t.outputs == [t.outputs[0]];
    } else {
      UnsignedPut(RParen, rest);
      UnsignedList(t.outputs, Put(RParen, rest));
      UnsignedPut(LParen, PrintList(t.outputs, Put(RParen, rest)));
    }
    UnsignedPut(Arrow, outputs);
    UnsignedPut(RParen, Put(Arrow, outputs));
    UnsignedList(t.inputs, Put(RParen, Put(Arrow, outputs)));
    UnsignedPut(LParen, PrintList(t.inputs, Put(RParen, Put(Arrow, outputs))));
  }

  lemma {:induction false} UnsignedList(ts: seq<Type>, rest: Tokens)
    requires forall t :: t in ts ==> Verified(t)
    ensures Unsigned(PrintList(ts, rest)) <==> (forall t :: t in ts ==> Dimensioned(t)) && Unsigned(rest)
    decreases ts, 0
  {
    if |ts| == 1 {
      assert ts == [ts[0]];
      UnsignedExactly(ts[0], rest);
    } else if ts != [] {
      assert ts == [ts[0]] + ts[1..];
      UnsignedList(ts[1..], rest);
      UnsignedPut(Comma, PrintList(ts[1..], rest));
      UnsignedExactly(ts[0], Put(Comma, PrintList(ts[1..], rest)));
    }
  }

  /** A single result that is not a function stands bare behind the arrow; all other results are in parentheses. */
  lemma ResultsAfterArrow(t: Type, rest: Tokens) returns (after: Tokens)
    requires t.Function? && Verified(t)
    ensures Print(t, rest) == Put(LParen, PrintList(t.inputs, Put(RParen, Put(Arrow, after))))
    ensures Next(after, LParen) <==> |t.outputs| != 1 || t.outputs[0].Function?
    ensures |t.outputs| == 1 && !t.outputs[0].Function? ==> after == Print(t.outputs[0], rest)
  {
    after := PrintOutputs(t, rest);
    if |t.outputs| == 1 && !t.outputs[0].Function? {
      PrintStarts(t.outputs[0], rest);
    }
  }

  // ----- the printer -----

  class Printer {
    var out: Tokens

    constructor ()
      ensures out == []
    {
      out := [];
    }

    /** `print` of one token; `rest` is what will be printed after it. */
    method Emit(t: Token, ghost rest: Tokens)
      modifies this
      ensures out + rest == old(out) + Put(t, rest)
    {
      out := out + [t];
    }

    /** `print_attribute` on a type. */
    method PrintType(t: Type, ghost rest: Tokens)
      requires Verified(t)
      modifies this
      ensures out + rest == old(out) + Print(t, rest)
      decreases t, 1
    {
      match t
      case Integer(s, w) => Emit(IntegerName(s, w), rest);
      case Index => Emit(Keyword(IndexWord), rest);
      case Float(k) => Emit(FloatName(k), rest);
      case Complex(e) =>
        Emit(Keyword(ComplexWord), Put(LAngle, Print(e, Put(RAngle, rest))));
        Emit(LAngle, Print(e, Put(RAngle, rest)));
        PrintType(e, Put(RAngle, rest));
        Emit(RAngle, rest);
      case Function(_, _) => PrintFunction(t, rest);
      case UnrankedTensor(e) =>
        Emit(Keyword(TensorWord), Put(LAngle, Put(Star, Put(Times, Print(e, Put(RAngle, rest))))));
        Emit(LAngle, Put(Star, Put(Times, Print(e, Put(RAngle, rest)))));
        Emit(Star, Put(Times, Print(e, Put(RAngle, rest))));
        Emit(Times, Print(e, Put(RAngle, rest)));
        PrintType(e, Put(RAngle, rest));
        Emit(RAngle, rest);
      case Tensor(_, _, _) => PrintTensor(t, rest);
      case Vector(_, _, _) => PrintVector(t, rest);
    }

    method PrintFunction(t: Type, ghost rest: Tokens)
      requires t.Function? && Verified(t)
      modifies this
      ensures out + rest == old(out) + Print(t, rest)
      decreases t, 0
    {
      ghost var outputs := PrintOutputs(t, rest);
      Emit(LParen, PrintList(t.inputs, Put(RParen, Put(Arrow, outputs))));
      PrintTypes(t.inputs, Put(RParen, Put(Arrow, outputs)));
      Emit(RParen, Put(Arrow, outputs));
      Emit(Arrow, outputs);
      if |t.outputs| == 1 && !t.outputs[0].Function? {
        PrintType(t.outputs[0], rest);
      } else {
        Emit(LParen, PrintList(t.outputs, Put(RParen, rest)));
        PrintTypes(t.outputs, Put(RParen, rest));
        Emit(RParen, rest);
      }
    }

    method PrintTensor(t: Type, ghost rest: Tokens)
      requires t.Tensor? && Verified(t)
      modifies this
      ensures out + rest == old(out) + Print(t, rest)
      decreases t, 0
    {
      ghost var element := Print(t.element, PrintEncoding(t, rest));
      Emit(Keyword(TensorWord), Put(LAngle, PrintDims(t.shape, element)));
      Emit(LAngle, PrintDims(t.shape, element));
      for i := 0 to |t.shape|
        invariant out + PrintDims(t.shape[i..], element) == old(out) + Print(t, rest)
      {
        assert t.shape[i..][1..] == t.shape[i + 1..];
        ghost var later := PrintDims(t.shape[i + 1..], element);
        Emit(if t.shape[i] != -1 then Number(t.shape[i]) else Question, Put(Times, later));
        Emit(Times, later);
      }
      PrintType(t.element, PrintEncoding(t, rest));
      if t.encoding.Some? {
        Emit(Comma, Print(t.encoding.value, Put(RAngle, rest)));
        PrintType(t.encoding.value, Put(RAngle, rest));
      }
      Emit(RAngle, rest);
    }

    method PrintVector(t: Type, ghost rest: Tokens)
      requires t.Vector? && Verified(t)
      modifies this
      ensures out + rest == old(out) + Print(t, rest)
      decreases t, 0
    {
      var split := |t.shape| - t.scalable;
      var fixed := t.shape[..split];
      ghost var scaled := PrintScaled(t, rest);
      Emit(Keyword(VectorWord), Put(LAngle, PrintNumbers(fixed, scaled)));
      Emit(LAngle, PrintNumbers(fixed, scaled));
      for i := 0 to |fixed|
        invariant out + PrintNumbers(fixed[i..], scaled) == old(out) + Print(t, rest)
      {
        assert fixed[i..][1..] == fixed[i + 1..];
        ghost var later := PrintNumbers(fixed[i + 1..], scaled);
        Emit(Number(fixed[i]), Put(Times, later));
        Emit(Times, later);
      }
      if t.scalable != 0 {
        PrintScalableDims(t.shape[split..], Print(t.element, Put(RAngle, rest)));
      }
      PrintType(t.element, Put(RAngle, rest));
      Emit(RAngle, rest);
    }

    method PrintScalableDims(dims: seq<int>, ghost rest: Tokens)
      requires dims != []
      modifies this
      ensures out + rest == old(out) + Put(LSquare, PrintScalable(dims, Put(RSquare, Put(Times, rest))))
    {
      ghost var end := Put(RSquare, Put(Times, rest));
      Emit(LSquare, PrintScalable(dims, end));
      for i := 0 to |dims|
        invariant out + (if i == 0 then PrintScalable(dims, end)
                         else if i < |dims| then Put(Times, PrintScalable(dims[i..], end)) else end)
               == old(out) + Put(LSquare, PrintScalable(dims, end))
      {
        assert dims[i..][1..] == dims[i + 1..] && dims[0..] == dims;
        if i > 0 {
          Emit(Times, PrintScalable(dims[i..], end));
        }
        Emit(Number(dims[i]), if i + 1 < |dims| then Put(Times, PrintScalable(dims[i + 1..], end)) else end);
      }
      Emit(RSquare, Put(Times, rest));
      Emit(Times, rest);
    }

    /** `print_list` of types, with commas between them. */
    method PrintTypes(ts: seq<Type>, ghost rest: Tokens)
      requires forall t :: t in ts ==> Verified(t)
      modifies this
      ensures out + rest == old(out) + PrintList(ts, rest)
      decreases ts, 0
    {
      for i := 0 to |ts|
        invariant out + (if i == 0 then PrintList(ts, rest)
                         else if i < |ts| then Put(Comma, PrintList(ts[i..], rest)) else rest)
               == old(out) + PrintList(ts, rest)
      {
        assert ts[i..][1..] == ts[i + 1..] && ts[0..] == ts;
        if i > 0 {
          Emit(Comma, PrintList(ts[i..], rest));
        }
        PrintType(ts[i], if i + 1 < |ts| then Put(Comma, PrintList(ts[i + 1..], rest)) else rest);
      }
    }
  }
}
