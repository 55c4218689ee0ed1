/**
 Dense literals: what `print_attribute` emits for the data of a dense attribute, the reader of
 tensor literals, and exactly when the data come back.
 */
module DenseLiterals {

  import opened Options
  import opened TokenStreams
  import opened Shapes

  datatype Token = LSquare | RSquare | Comma | Minus | Numeral(n: nat) | RAngle

  type Tokens = seq<Token>

  /** The list holds one entry for each index of the shape. */
  predicate Fits(entries: seq<int>, shape: seq<int>)
  {
    Positive(shape) && Product(shape) == |entries|
  }

  /** Every stored entry is the first one. */
  predicate Constant(data: seq<int>)
  {
    forall i :: 0 <= i < |data| ==> data[i] == data[0]
  }

  lemma {:induction false} ProductAppend(shape: seq<int>, dim: int)
    ensures Product(shape + [dim]) == Product(shape) * dim
  {
    if shape == [] {
      assert [dim][1..] == [];
    } else {
      assert (shape + [dim])[1..] == shape[1..] + [dim];
      ProductAppend(shape[1..], dim);
    }
  }

  /** `shape_is_complete`. */
  method ShapeIsComplete(shape: seq<int>, data: seq<int>) returns (complete: bool)
    ensures complete <==> shape != [] && Fits(data, shape)
  {
    if |shape| == 0 {
      return false;
    }
    var n := 1;
    for i := 0 to |shape|
      invariant Positive(shape[..i]) && n == Product(shape[..i])
    {
      if shape[i] < 1 {
        return false;
      }
      ProductAppend(shape[..i], shape[i]);
      assert shape[..i + 1] == shape[..i] + [shape[i]];
      n := n * shape[i];
    }
    assert shape[..|shape|] == shape;
    return n == |data|;
  }

  // ----- printing -----

  function PrintElement(n: int, rest: Tokens): Tokens
  {
    if n < 0 then Put(Minus, Put(Numeral(-n), rest)) else Put(Numeral(n), rest)
  }

  /** Entries of the given shape as nested lists, in front of what follows. */
  function PrintNested(entries: seq<int>, shape: seq<int>, rest: Tokens): Tokens
    requires Fits(entries, shape)
    decreases |shape|, 0
  {
    if shape == [] then PrintElement(entries[0], rest)
    else Put(LSquare, PrintRows(entries, shape[0], shape[1..], Put(RSquare, rest)))
  }

  /** `n` rows of one shape, with commas between them. */
  function PrintRows(entries: seq<int>, n: int, shape: seq<int>, rest: Tokens): Tokens
    requires n >= 1 && Positive(shape) && |entries| == n * Product(shape)
    decreases |shape|, 1, n
  {
    if n == 1 then PrintNested(entries, shape, rest)
    else
      var k := Product(shape);
      RowSplit(n, shape);
      PrintNested(entries[..k], shape, Put(Comma, PrintRows(entries[k..], n - 1, shape, rest)))
  }

  lemma RowSplit(n: int, shape: seq<int>)
    requires n >= 1 && Positive(shape)
    ensures 1 <= Product(shape) <= n * Product(shape)
    ensures n * Product(shape) - Product(shape) == (n - 1) * Product(shape)
  {
    ProductPositive(shape);
    assert (n - 1) * Product(shape) >= 0;
  }

  /** What is printed between `dense<` and the type, with the closing `>`. */
  function PrintDense(data: seq<int>, shape: seq<int>): Tokens
  {
    if data == [] then [RAngle]
    else if Constant(data) then PrintElement(data[0], [RAngle])
    else if shape != [] && Fits(data, shape) then PrintNested(data, shape, [RAngle])
    else
      ProductOfOne(|data|);
      PrintNested(data, [|data|], [RAngle])
  }

  lemma ProductOfOne(n: int)
    ensures Product([n]) == n
  {
    assert [n][1..] == [];
  }

  // ----- reading -----

  datatype Element = Element(negative: bool, value: int)

  datatype Literal = Literal(values: seq<Element>, shape: seq<int>)

  /** `_parse_tensor_literal`: the flattened entries and the shape of the nesting. */
  function ParseLiteral(ts: Tokens): (r: Option<(Literal, Tokens)>)
    ensures r.Some? ==> |r.value.1| < |ts|
    decreases |ts|, 0
  {
    if Next(ts, LSquare) then
      if Next(ts[1..], RSquare) then Some((Literal([], [0]), ts[2..]))
      else
        var (items, rest) :- ParseItems(ts[1..]);
        if forall i :: 0 <= i < |items| ==> items[i].shape == items[0].shape then
          Some((Literal(Concat(items), [|items|] + items[0].shape), rest))
        else None
    else ParseElement(ts)
  }

  /** The items of a list, up to and including its closing bracket. */
  function ParseItems(ts: Tokens): (r: Option<(seq<Literal>, Tokens)>)
    ensures r.Some? ==> |r.value.1| < |ts| && r.value.0 != []
    decreases |ts|, 1
  {
    var (item, after) :- ParseLiteral(ts);
    if Next(after, Comma) then
      var (more, rest) :- ParseItems(after[1..]);
      Some(([item] + more, rest))
    else if Next(after, RSquare) then Some(([item], after[1..]))
    else None
  }

  function ParseElement(ts: Tokens): (r: Option<(Literal, Tokens)>)
    ensures r.Some? ==> |r.value.1| < |ts|
  {
    var negative := Next(ts, Minus);
    var digits := if negative then ts[1..] else ts;
    if digits != [] && digits[0].Numeral? then
      var value: int := digits[0].n;
      Some((Literal([Element(negative, if negative then -value else value)], []), digits[1..]))
    else None
  }

  function Concat(items: seq<Literal>): seq<Element>
  {
    if items == [] then [] else items[0].values + Concat(items[1..])
  }

  /** `to_type` on every value: a sign is refused for unsigned types. */
  function ToType(values: seq<Element>, signed: bool): (r: Option<seq<int>>)
    ensures r.Some? <==> forall i :: 0 <= i < |values| ==> signed || !values[i].negative
    ensures r.Some? ==> |r.value| == |values| && forall i :: 0 <= i < |values| ==> r.value[i] == values[i].value
  {
    if values == [] then Some([])
    else if values[0].negative && !signed then None
    else
      var rest :- ToType(values[1..], signed);
      Some([values[0].value] + rest)
  }

  /** `_parse_builtin_dense_attr` on what stands between `dense<` and the type. */
  function ParseDense(ts: Tokens, shape: seq<int>, signed: bool): Option<seq<int>>
  {
    if ts == [RAngle] then
      if Product(shape) != 0 || -1 in shape then None else Some([])
    else
      var (literal, rest) :- ParseLiteral(ts);
      if rest != [RAngle] || (literal.shape != [] && literal.shape != shape) || -1 in shape then None
      else
        var values :- ToType(literal.values, signed);
        if literal.shape != [] then Some(values)
        else if |values| != 1 then None
        else Some(Repeat(values[0], Product(shape)))
  }

  function Repeat(x: int, n: int): seq<int>
  {
    seq(if n < 0 then 0 else n, _ => x)
  }

  // ----- reading what was printed -----

  function Elements(entries: seq<int>): seq<Element>
  {
    seq(|entries|, i requires 0 <= i < |entries| => Element(entries[i] < 0, entries[i]))
  }

  lemma {:induction false} NestedRoundTrip(entries: seq<int>, shape: seq<int>, rest: Tokens)
    requires Fits(entries, shape)
    ensures ParseLiteral(PrintNested(entries, shape, rest)) == Some((Literal(Elements(entries), shape), rest))
    decreases |shape|, 0
  {
    if shape == [] {
      assert Elements(entries) == [Element(entries[0] < 0, entries[0])];
    } else {
      var inside := PrintRows(entries, shape[0], shape[1..], Put(RSquare, rest));
      var items := RowsRoundTrip(entries, shape[0], shape[1..], rest);
      RowsDoNotClose(entries, shape[0], shape[1..], Put(RSquare, rest));
      assert shape == [shape[0]] + shape[1..];
      ParseList(inside, items, shape[1..], rest);
    }
  }

  lemma ParseList(inside: Tokens, items: seq<Literal>, shape: seq<int>, rest: Tokens)
    requires !Next(inside, RSquare)
    requires items != [] && ParseItems(inside) == Some((items, rest))
    requires forall i :: 0 <= i < |items| ==> items[i].shape == shape
    ensures ParseLiteral(Put(LSquare, inside)) == Some((Literal(Concat(items), [|items|] + shape), rest))
  {
  }

  lemma ParseLast(ts: Tokens, item: Literal, rest: Tokens)
    requires ParseLiteral(ts) == Some((item, Put(RSquare, rest)))
    ensures ParseItems(ts) == Some(([item], rest)) && Concat([item]) == item.values
  {
    assert [item][1..] == [] && item.values + [] == item.values;
  }

  lemma ParseMore(ts: Tokens, first: Literal, later: Tokens, more: seq<Literal>, rest: Tokens)
    requires ParseLiteral(ts) == Some((first, Put(Comma, later)))
    requires ParseItems(later) == Some((more, rest))
    ensures ParseItems(ts) == Some(([first] + more, rest))
    ensures Concat([first] + more) == first.values + Concat(more)
  {
    assert ([first] + more)[1..] == more;
  }

  /** A printed row opens a list or starts a number. */
  lemma {:induction false} RowsDoNotClose(entries: seq<int>, n: int, shape: seq<int>, rest: Tokens)
    requires n >= 1 && Positive(shape) && |entries| == n * Product(shape)
    ensures !Next(PrintRows(entries, n, shape, rest), RSquare)
  {
    RowSplit(n, shape);
  }

  lemma {:induction false} RowsRoundTrip(entries: seq<int>, n: int, shape: seq<int>, rest: Tokens) returns (items: seq<Literal>)
    requires n >= 1 && Positive(shape) && |entries| == n * Product(shape)
    ensures |items| == n && ParseItems(PrintRows(entries, n, shape, Put(RSquare, rest))) == Some((items, rest))
    ensures forall i :: 0 <= i < n ==> items[i].shape == shape
    ensures Concat(items) == Elements(entries)
    decreases |shape|, 1, n
  {
    if n == 1 {
      NestedRoundTrip(entries, shape, Put(RSquare, rest));
      items := [Literal(Elements(entries), shape)];
      ParseLast(PrintNested(entries, shape, Put(RSquare, rest)), items[0], rest);
    } else {
      var k := Product(shape);
      RowSplit(n, shape);
      var more := RowsRoundTrip(entries[k..], n - 1, shape, rest);
      items := [Literal(Elements(entries[..k]), shape)] + more;
      var later := PrintRows(entries[k..], n - 1, shape, Put(RSquare, rest));
      FirstRow(entries[..k], shape, later, more, rest);
      ElementsSplit(entries, k);
    }
  }

  lemma {:induction false} FirstRow(entries: seq<int>, shape: seq<int>, later: Tokens, more: seq<Literal>, rest: Tokens)
    requires Fits(entries, shape) && ParseItems(later) == Some((more, rest))
    ensures var items := [Literal(Elements(entries), shape)] + more;
            ParseItems(PrintNested(entries, shape, Put(Comma, later))) == Some((items, rest))
            && Concat(items) == Elements(entries) + Concat(more)
    decreases |shape|, 1, 0
  {
    NestedRoundTrip(entries, shape, Put(Comma, later));
    ParseMore(PrintNested(entries, shape, Put(Comma, later)), Literal(Elements(entries), shape), later, more, rest);
  }

  lemma ElementsSplit(entries: seq<int>, k: nat)
    requires k <= |entries|
    ensures Elements(entries[..k]) + Elements(entries[k..]) == Elements(entries)
  {
  }

  lemma ToTypeOfElements(entries: seq<int>, signed: bool)
    ensures ToType(Elements(entries), signed) ==
            if signed || (forall x :: x in entries ==> x >= 0) then Some(entries) else None
  {
    var values := Elements(entries);
    if ToType(values, signed).Some? {
      assert ToType(values, signed).value == entries;
      forall x | x in entries && !signed
        ensures x >= 0
      {
        var i :| 0 <= i < |entries| && entries[i] == x;
        assert !values[i].negative;
      }
    } else {
      var i :| 0 <= i < |values| && !signed && values[i].negative;
      assert entries[i] in entries;
    }
  }

  /**
   The data of a dense attribute come back exactly when the type has no dynamic dimension, the
   signs suit the element type, and: no data for a type with no entries; one repeated value for as
   many entries as the type has; or any data for a complete shape.
   */
  ghost predicate Survives(data: seq<int>, shape: seq<int>, signed: bool)
  {
    && -1 !in shape
    && (signed || forall x :: x in data ==> x >= 0)
    && if Constant(data) then Product(shape) == |data| else shape != [] && Fits(data, shape)
  }

  lemma DenseRoundTripExactly(data: seq<int>, shape: seq<int>, signed: bool)
    ensures ParseDense(PrintDense(data, shape), shape, signed) == Some(data) <==> Survives(data, shape, signed)
  {
    if data != [] {
      if Constant(data) {
        SplatRoundTrip(data, shape, signed);
      } else {
        ListedRoundTrip(data, shape, signed);
      }
    }
  }

  lemma SplatRoundTrip(data: seq<int>, shape: seq<int>, signed: bool)
    requires data != [] && Constant(data)
    ensures ParseDense(PrintDense(data, shape), shape, signed) == Some(data) <==> Survives(data, shape, signed)
  {
    var x := data[0];
    var ts := PrintElement(x, [RAngle]);
    assert Elements([x]) == [Element(x < 0, x)];
    assert ParseLiteral(ts) == Some((Literal(Elements([x]), []), [RAngle]));
    ToTypeOfElements([x], signed);
    assert Product(shape) == |data| ==> Repeat(x, Product(shape)) == data;
    assert (forall y :: y in data ==> y >= 0) <==> x >= 0 by {
      assert x in data;
    }
  }

  lemma ListedRoundTrip(data: seq<int>, shape: seq<int>, signed: bool)
    requires !Constant(data)
    ensures ParseDense(PrintDense(data, shape), shape, signed) == Some(data) <==> Survives(data, shape, signed)
  {
    var used := if shape != [] && Fits(data, shape) then shape else [|data|];
    ProductOfOne(|data|);
    NestedRoundTrip(data, used, [RAngle]);
    ToTypeOfElements(data, signed);
    if used == shape {
      assert Fits(data, shape);
    }
  }

  /** Nothing is lost for complete shapes, splat or listed. */
  lemma CompleteRoundTrip(data: seq<int>, shape: seq<int>)
    requires shape != [] && Fits(data, shape)
    ensures ParseDense(PrintDense(data, shape), shape, true) == Some(data)
  {
    DenseRoundTripExactly(data, shape, true);
  }

  // ----- the printer -----

  /** What follows a row when `n` rows are left. */
  ghost function AfterRow(entries: seq<int>, n: int, row: seq<int>, rest: Tokens): Tokens
    requires n >= 0 && Positive(row) && |entries| == n * Product(row)
  {
    if n == 0 then rest else Put(Comma, PrintRows(entries, n, row, rest))
  }

  lemma RowsStep(entries: seq<int>, n: int, row: seq<int>, rest: Tokens)
    requires n >= 1 && Positive(row) && |entries| == n * Product(row)
    ensures 1 <= Product(row) <= |entries| && |entries| - Product(row) == (n - 1) * Product(row)
    ensures PrintRows(entries, n, row, rest)
         == PrintNested(entries[..Product(row)], row, AfterRow(entries[Product(row)..], n - 1, row, rest))
  {
    RowSplit(n, row);
    if n == 1 {
      assert entries[..Product(row)] == entries;
    }
  }

  /** Single entries, with commas between them. */
  ghost function Listed(entries: seq<int>, rest: Tokens): Tokens
    requires entries != []
  {
    PrintElement(entries[0], if |entries| == 1 then rest else Put(Comma, Listed(entries[1..], rest)))
  }

  lemma {:induction false} ListedIsRows(entries: seq<int>, row: seq<int>, rest: Tokens)
    requires entries != [] && row == []
    ensures Listed(entries, rest) == PrintRows(entries, |entries|, row, rest)
  {
    if |entries| > 1 {
      ListedIsRows(entries[1..], row, rest);
    }
  }

  lemma ChunkSize(entries: seq<int>, shape: seq<int>)
    requires shape != [] && Fits(entries, shape)
    ensures |entries| / shape[0] == Product(shape[1..]) >= 1
  {
    ProductPositive(shape[1..]);
    DivModUnique(shape[0], Product(shape[1..]), 0);
  }

  /** `data.count(data[0]) == len(data)`. */
  lemma {:induction false} ConstantCounts(data: seq<int>)
    requires data != []
    ensures multiset(data)[data[0]] == |data| <==> Constant(data)
  {
    CountBound(data, data[0]);
  }

  lemma {:induction false} CountBound(data: seq<int>, x: int)
    ensures multiset(data)[x] <= |data|
    ensures multiset(data)[x] == |data| <==> forall i :: 0 <= i < |data| ==> data[i] == x
  {
    if data != [] {
      var n := |data| - 1;
      CountBound(data[..n], x);
      assert data == data[..n] + [data[n]];
    }
  }

  class Printer {
    var out: Tokens

    constructor ()
      ensures out == []
    {
      out := [];
    }

    method Emit(t: Token, ghost rest: Tokens)
      modifies this
      ensures out + rest == old(out) + Put(t, rest)
    {
      out := out + [t];
    }

    method PrintOneElem(n: int, ghost rest: Tokens)
      modifies this
      ensures out + rest == old(out) + PrintElement(n, rest)
    {
      if n < 0 {
        Emit(Minus, Put(Numeral(-n), rest));
        Emit(Numeral(-n), rest);
      } else {
        Emit(Numeral(n), rest);
      }
    }

    /** `print_dense_list`; the step of its range is the number of entries of a row, never zero. */
    method PrintDenseList(entries: seq<int>, shape: seq<int>, ghost rest: Tokens)
      requires shape != [] && Fits(entries, shape)
      modifies this
      ensures out + rest == old(out) + PrintNested(entries, shape, rest)
      decreases |shape|, 1
    {
      ghost var end := Put(RSquare, rest);
      Emit(LSquare, PrintRows(entries, shape[0], shape[1..], end));
      if |shape| > 1 {
        ChunkSize(entries, shape);
        var k := |entries| / shape[0];
        PrintChunks(entries, k, shape, end);
      } else {
        ListedIsRows(entries, shape[1..], end);
        PrintElements(entries, end);
      }
      Emit(RSquare, rest);
    }

    /** `print_list` over the chunks of `k` entries. */
    method PrintChunks(entries: seq<int>, k: nat, shape: seq<int>, ghost rest: Tokens)
      requires |shape| > 1 && Fits(entries, shape) && k == Product(shape[1..]) > 0
      modifies this
      ensures out + rest == old(out) + PrintRows(entries, shape[0], shape[1..], rest)
      decreases |shape|, 0
    {
      ghost var row := shape[1..];
      var i, left := 0, shape[0];
      while i < |entries|
        invariant 0 <= i <= |entries| && left >= 0 && |entries[i..]| == left * k
        invariant out + (if i == 0 then PrintRows(entries, shape[0], row, rest) else AfterRow(entries[i..], left, row, rest))
               == old(out) + PrintRows(entries, shape[0], row, rest)
        invariant i == 0 ==> left == shape[0]
        decreases left
      {
        assert left > 0;
        RowsStep(entries[i..], left, row, rest);
        assert entries[0..] == entries;
        if i > 0 {
          Emit(Comma, PrintRows(entries[i..], left, row, rest));
        }
        assert entries[i..][..k] == entries[i..i + k] && entries[i..][k..] == entries[i + k..];
        PrintDenseList(entries[i..i + k], shape[1..], AfterRow(entries[i + k..], left - 1, row, rest));
        i, left := i + k, left - 1;
      }
      RowSplit(shape[0], row);
      if left > 0 {
        RowSplit(left, row);
      }
    }

    /** `print_list` over single entries. */
    method PrintElements(entries: seq<int>, ghost rest: Tokens)
      requires entries != []
      modifies this
      ensures out + rest == old(out) + Listed(entries, rest)
    {
      for i := 0 to |entries|
        invariant out + (if i == 0 then Listed(entries, rest)
                         else if i < |entries| then Put(Comma, Listed(entries[i..], rest)) else rest)
               == old(out) + Listed(entries, rest)
      {
        assert entries[0..] == entries && entries[i..][1..] == entries[i + 1..];
        if i != 0 {
          Emit(Comma, Listed(entries[i..], rest));
        }
        PrintOneElem(entries[i], if i + 1 < |entries| then Put(Comma, Listed(entries[i + 1..], rest)) else rest);
      }
    }

    /** The dense branch of `print_attribute`, up to the closing `>`. */
    method PrintDenseData(data: seq<int>, shape: seq<int>)
      modifies this
      ensures out == old(out) + PrintDense(data, shape)
    {
      var complete := ShapeIsComplete(shape, data);
      var used := if complete then shape else [|data|];
      ghost var end := [RAngle];
      assert Put(RAngle, []) == end;
      if |data| != 0 {
        if multiset(data)[data[0]] == |data| {
          ConstantCounts(data);
          PrintOneElem(data[0], end);
        } else {
          ConstantCounts(data);
          ProductOfOne(|data|);
          PrintDenseList(data, used, end);
        }
      }
      Emit(RAngle, []);
      assert out + [] == out;
    }
  }
}
