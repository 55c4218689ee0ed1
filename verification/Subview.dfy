/**
 `memref.subview` with static parameters: the layout arithmetic and the addresses it means.
 */
module Subview {

  import opened Options
  import opened Shapes

  /** A strided layout may leave strides or the offset dynamic; other layouts are not looked at. */
  datatype Layout = Strided(strides: seq<Option<int>>, offset: Option<int>) | OtherLayout

  /** Strides and offset of a statically laid-out memref. */
  datatype Addressing = Addressing(strides: seq<int>, offset: int)

  /** The stride of a dimension is the number of elements behind one step in it. */
  function RowMajor(shape: seq<int>): (strides: seq<int>)
    ensures |strides| == if shape == [] then 1 else |shape|
    ensures strides[0] == if shape == [] then 1 else Product(shape[1..])
  {
    if |shape| <= 1 then [1] else [Product(shape[1..])] + RowMajor(shape[1..])
  }

  function Dot(a: seq<int>, b: seq<int>): int
  {
    if a == [] || b == [] then 0 else a[0] * b[0] + Dot(a[1..], b[1..])
  }

  function Address(l: Addressing, index: seq<int>): int
  {
    l.offset + Dot(l.strides, index)
  }

  function Min(a: nat, b: nat): nat
  {
    if a < b then a else b
  }

  /** Element-wise product, cut to the shorter sequence. */
  function Times(a: seq<int>, b: seq<int>): (r: seq<int>)
    ensures |r| == Min(|a|, |b|)
  {
    seq(Min(|a|, |b|), i requires 0 <= i < Min(|a|, |b|) => a[i] * b[i])
  }

  function Plus(a: seq<int>, b: seq<int>): (r: seq<int>)
    ensures |r| == Min(|a|, |b|)
  {
    seq(Min(|a|, |b|), i requires 0 <= i < Min(|a|, |b|) => a[i] + b[i])
  }

  predicate AllStatic(strides: seq<Option<int>>)
  {
    forall i :: 0 <= i < |strides| ==> strides[i].Some?
  }

  /** How the source is addressed: its own static strides, or row-major ones. */
  function SourceAddressing(shape: seq<int>, layout: Layout): Addressing
  {
    Addressing(
      if layout.Strided? && AllStatic(layout.strides)
      then seq(|layout.strides|, i requires 0 <= i < |layout.strides| => layout.strides[i].value) else RowMajor(shape),
      if layout.Strided? && layout.offset.Some? then layout.offset.value else 0)
  }

  /** The view at `offsets`, stepping by `strides`. */
  function View(source: Addressing, offsets: seq<int>, strides: seq<int>): Addressing
  {
    Addressing(Times(strides, source.strides), Dot(source.strides, offsets) + source.offset)
  }

  /** What remains of `xs` when the dimensions of size one are dropped. */
  function DropUnits(xs: seq<int>, sizes: seq<int>): seq<int>
    decreases xs
  {
    if xs == [] || sizes == [] then []
    else if sizes[0] == 1 then DropUnits(xs[1..], sizes[1..])
    else [xs[0]] + DropUnits(xs[1..], sizes[1..])
  }

  // ----- the construction -----

  /** The loop over the reversed shape. */
  method SourceStrides(shape: seq<int>) returns (strides: seq<int>)
    ensures strides == RowMajor(shape)
  {
    strides := [1];
    if shape == [] {
      return;
    }
    var k := |shape| - 1;
    while k > 0
      invariant 0 <= k < |shape|
      invariant strides == RowMajor(shape[k..])
    {
      assert shape[k..][1..] == shape[k + 1..] && shape[k - 1..][1..] == shape[k..];
      strides := [strides[0] * shape[k]] + strides;
      assert Product(shape[k..]) == shape[k] * Product(shape[k + 1..]);
      k := k - 1;
    }
    assert shape[0..] == shape;
  }

  /** `Subview.from_static_parameters`: layout and sizes of the result type. */
  method FromStaticParameters(shape: seq<int>, layout: Layout, offsets: seq<int>, sizes: seq<int>, strides: seq<int>, reduceRank: bool)
    returns (result: Addressing, resultSizes: seq<int>)
    ensures var view := View(SourceAddressing(shape, layout), offsets, strides);
            if reduceRank then
              && result == Addressing(DropUnits(view.strides, sizes), view.offset)
              && resultSizes == DropUnits(sizes[..Min(|view.strides|, |sizes|)], sizes)
            else result == view && resultSizes == sizes
  {
    var sourceStrides := SourceStrides(shape);
    var sourceOffset := 0;
    if layout.Strided? {
      if layout.offset.Some? {
        sourceOffset := layout.offset.value;
      }
      if AllStatic(layout.strides) {
        sourceStrides := seq(|layout.strides|, i requires 0 <= i < |layout.strides| => layout.strides[i].value);
      }
    }
    var layoutStrides := Times(strides, sourceStrides);
    var sum := SumProducts(sourceStrides, offsets);
    var layoutOffset := sum + sourceOffset;
    resultSizes := sizes;
    if reduceRank {
      layoutStrides, resultSizes := ReduceRank(layoutStrides, sizes);
    }
    result := Addressing(layoutStrides, layoutOffset);
  }

  /** The loop that skips the dimensions of size one. */
  method ReduceRank(composed: seq<int>, sizes: seq<int>) returns (strides: seq<int>, kept: seq<int>)
    ensures strides == DropUnits(composed, sizes)
    ensures kept == DropUnits(sizes[..Min(|composed|, |sizes|)], sizes)
  {
    strides, kept := [], [];
    var n := Min(|composed|, |sizes|);
    assert composed[0..] == composed && sizes[0..] == sizes && sizes[0..n] == sizes[..n];
    for i := 0 to n
      invariant strides + DropUnits(composed[i..], sizes[i..]) == DropUnits(composed, sizes)
      invariant kept + DropUnits(sizes[i..n], sizes[i..]) == DropUnits(sizes[..n], sizes)
    {
      assert composed[i..][1..] == composed[i + 1..] && sizes[i..][1..] == sizes[i + 1..];
      assert sizes[i..n][1..] == sizes[i + 1..n];
      if sizes[i] != 1 {
        strides := strides + [composed[i]];
        kept := kept + [sizes[i]];
      }
    }
  }

  method SumProducts(a: seq<int>, b: seq<int>) returns (sum: int)
    ensures sum == Dot(a, b)
  {
    sum := 0;
    for i := 0 to Min(|a|, |b|)
      invariant sum + Dot(a[i..], b[i..]) == Dot(a, b)
    {
      assert a[i..][1..] == a[i + 1..] && b[i..][1..] == b[i + 1..];
      sum := sum + a[i] * b[i];
    }
  }

  // ----- addresses -----

  lemma {:induction false} DotSteps(strides: seq<int>, source: seq<int>, offsets: seq<int>, index: seq<int>)
    requires |strides| == |source| == |offsets| == |index|
    ensures Dot(source, offsets) + Dot(Times(strides, source), index) == Dot(source, Plus(offsets, Times(strides, index)))
  {
    if source != [] {
      DotSteps(strides[1..], source[1..], offsets[1..], index[1..]);
      assert Times(strides, source)[1..] == Times(strides[1..], source[1..]);
      assert Plus(offsets, Times(strides, index))[1..] == Plus(offsets[1..], Times(strides[1..], index[1..]));
      Distribute(source[0], offsets[0], strides[0], index[0]);
    }
  }

  lemma Distribute(s: int, o: int, t: int, i: int)
    ensures s * o + (t * s) * i == s * (o + t * i)
  {
  }

  /** An element of the view is the element of the source at `offsets + strides * index`. */
  lemma AddressLaw(source: Addressing, offsets: seq<int>, strides: seq<int>, index: seq<int>)
    requires |source.strides| == |offsets| == |strides| == |index|
    ensures Address(View(source, offsets, strides), index) == Address(source, Plus(offsets, Times(strides, index)))
  {
    DotSteps(strides, source.strides, offsets, index);
  }

  /** A view of a view is one view, with composed offsets and strides. */
  lemma ViewOfView(source: Addressing, o1: seq<int>, s1: seq<int>, o2: seq<int>, s2: seq<int>)
    requires |source.strides| == |o1| == |s1| == |o2| == |s2|
    ensures View(View(source, o1, s1), o2, s2) == View(source, Plus(o1, Times(s1, o2)), Times(s1, s2))
  {
    DotSteps(s1, source.strides, o1, o2);
    var l, r := Times(s2, Times(s1, source.strides)), Times(Times(s1, s2), source.strides);
    forall i | 0 <= i < |l| ensures l[i] == r[i] {
      Reorder(s2[i], s1[i], source.strides[i]);
    }
  }

  lemma Reorder(a: int, b: int, c: int)
    ensures a * (b * c) == (b * a) * c
  {
  }

  predicate InBounds(index: seq<int>, sizes: seq<int>)
  {
    |index| == |sizes| && forall i :: 0 <= i < |sizes| ==> 0 <= index[i] < sizes[i]
  }

  /** Puts the dropped dimensions back, at index zero. */
  function Expand(index: seq<int>, sizes: seq<int>): (full: seq<int>)
    ensures |full| == |sizes|
    decreases sizes
  {
    if sizes == [] then []
    else if sizes[0] == 1 then [0] + Expand(index, sizes[1..])
    else if index == [] then [0] + Expand([], sizes[1..])
    else [index[0]] + Expand(index[1..], sizes[1..])
  }

  /** Dropping unit dimensions keeps every address: the reduced index and its expansion meet. */
  lemma {:induction false} RankReductionKeepsAddresses(strides: seq<int>, sizes: seq<int>, index: seq<int>)
    requires |strides| == |sizes| && |index| == |DropUnits(sizes, sizes)|
    ensures Dot(DropUnits(strides, sizes), index) == Dot(strides, Expand(index, sizes))
    decreases sizes
  {
    if sizes != [] {
      if sizes[0] == 1 {
        RankReductionKeepsAddresses(strides[1..], sizes[1..], index);
      } else {
        RankReductionKeepsAddresses(strides[1..], sizes[1..], index[1..]);
      }
    }
  }

  lemma InBoundsTail(index: seq<int>, sizes: seq<int>)
    requires index != [] && sizes != []
    ensures InBounds(index, sizes) <==> 0 <= index[0] < sizes[0] && InBounds(index[1..], sizes[1..])
  {
    if 0 <= index[0] < sizes[0] && InBounds(index[1..], sizes[1..]) {
      forall i | 0 <= i < |sizes| ensures 0 <= index[i] < sizes[i] {
        if i > 0 {
          assert index[1..][i - 1] == index[i] && sizes[1..][i - 1] == sizes[i];
        }
      }
    }
  }

  /** In-bounds indices of the full view are the expansions of in-bounds indices of the reduced view... */
  lemma {:induction false} ReduceThenExpand(sizes: seq<int>, full: seq<int>)
    requires InBounds(full, sizes)
    ensures InBounds(DropUnits(full, sizes), DropUnits(sizes, sizes)) && Expand(DropUnits(full, sizes), sizes) == full
    decreases sizes
  {
    if sizes != [] {
      InBoundsTail(full, sizes);
      ReduceThenExpand(sizes[1..], full[1..]);
      assert full == [full[0]] + full[1..];
      if sizes[0] != 1 {
        var reduced := DropUnits(full, sizes);
        assert reduced[1..] == DropUnits(full[1..], sizes[1..]);
        assert DropUnits(sizes, sizes)[1..] == DropUnits(sizes[1..], sizes[1..]);
        InBoundsTail(reduced, DropUnits(sizes, sizes));
      }
    }
  }

  /** ... and each of those comes from exactly one. */
  lemma {:induction false} ExpandThenReduce(sizes: seq<int>, reduced: seq<int>)
    requires InBounds(reduced, DropUnits(sizes, sizes))
    ensures InBounds(Expand(reduced, sizes), sizes) && DropUnits(Expand(reduced, sizes), sizes) == reduced
    decreases sizes
  {
    if sizes != [] {
      if sizes[0] == 1 {
        ExpandThenReduce(sizes[1..], reduced);
        assert Expand(reduced, sizes)[1..] == Expand(reduced, sizes[1..]);
      } else {
        assert DropUnits(sizes, sizes)[1..] == DropUnits(sizes[1..], sizes[1..]);
        InBoundsTail(reduced, DropUnits(sizes, sizes));
        ExpandThenReduce(sizes[1..], reduced[1..]);
        assert Expand(reduced, sizes)[1..] == Expand(reduced[1..], sizes[1..]);
      }
      InBoundsTail(Expand(reduced, sizes), sizes);
    }
  }

  /** The address law for a view that drops its unit dimensions. */
  lemma ReducedAddressLaw(source: Addressing, offsets: seq<int>, sizes: seq<int>, strides: seq<int>, index: seq<int>)
    requires |source.strides| == |offsets| == |strides| == |sizes|
    requires InBounds(index, DropUnits(sizes, sizes))
    ensures var view := View(source, offsets, strides);
            Address(source, Plus(offsets, Times(strides, Expand(index, sizes))))
            == Address(Addressing(DropUnits(view.strides, sizes), view.offset), index)
  {
    var view := View(source, offsets, strides);
    RankReductionKeepsAddresses(view.strides, sizes, index);
    AddressLaw(source, offsets, strides, Expand(index, sizes));
  }

  // ----- row-major addresses number the elements -----

  /** The index of the element with number `a`. */
  function Delinearize(a: int, shape: seq<int>): (index: seq<int>)
    requires Positive(shape)
    ensures |index| == |shape|
    decreases shape
  {
    if shape == [] then []
    else
      ProductPositive(shape[1..]);
      [a / Product(shape[1..])] + Delinearize(a % Product(shape[1..]), shape[1..])
  }

  lemma RowMajorTail(shape: seq<int>, index: seq<int>)
    requires shape != [] && |index| == |shape|
    ensures Dot(RowMajor(shape), index) == Product(shape[1..]) * index[0] + Dot(RowMajor(shape[1..]), index[1..])
  {
    if |shape| == 1 {
      assert index[1..] == [] && RowMajor(shape)[1..] == [];
    } else {
      assert RowMajor(shape)[1..] == RowMajor(shape[1..]);
    }
  }

  /** In-bounds indices get numbers below the size, and the number gives the index back. */
  lemma {:induction false} RowMajorNumbers(shape: seq<int>, index: seq<int>)
    requires InBounds(index, shape)
    ensures forall i :: 0 <= i < |shape| ==> shape[i] > 0
    ensures 0 <= Dot(RowMajor(shape), index) < Product(shape)
    ensures Delinearize(Dot(RowMajor(shape), index), shape) == index
  {
    assert forall i :: 0 <= i < |shape| ==> shape[i] > index[i] >= 0;
    if shape != [] {
      assert InBounds(index[1..], shape[1..]);
      RowMajorNumbers(shape[1..], index[1..]);
      RowMajorTail(shape, index);
      var p, r := Product(shape[1..]), Dot(RowMajor(shape[1..]), index[1..]);
      NumberBound(p, index[0], shape[0], r);
      DivModUnique(p, index[0], r);
      assert index == [index[0]] + index[1..];
    }
  }

  lemma NumberBound(p: int, q: int, n: int, r: int)
    requires 0 <= r < p && 0 <= q < n
    ensures 0 <= p * q + r < n * p
  {
    assert p * q >= 0;
    assert p * (q + 1) <= p * n;
  }

  /** Every number below the size is the address of an in-bounds index. */
  lemma {:induction false} NumbersAreIndices(shape: seq<int>, a: int)
    requires forall i :: 0 <= i < |shape| ==> shape[i] > 0
    requires 0 <= a < Product(shape)
    ensures InBounds(Delinearize(a, shape), shape)
    ensures Dot(RowMajor(shape), Delinearize(a, shape)) == a
  {
    if shape != [] {
      ProductPositive(shape[1..]);
      var p := Product(shape[1..]);
      NumbersAreIndices(shape[1..], a % p);
      RowMajorTail(shape, Delinearize(a, shape));
      QuotientBound(p, shape[0], a);
      assert Delinearize(a, shape)[1..] == Delinearize(a % p, shape[1..]);
    }
  }

  lemma QuotientBound(p: int, n: int, a: int)
    requires p > 0 && 0 <= a < n * p
    ensures 0 <= a / p < n && p * (a / p) + a % p == a
  {
    MulMonotone(p, n, a / p);
  }

  /** Distinct in-bounds indices have distinct addresses. */
  lemma RowMajorInjective(shape: seq<int>, i: seq<int>, j: seq<int>)
    requires InBounds(i, shape) && InBounds(j, shape)
    requires Dot(RowMajor(shape), i) == Dot(RowMajor(shape), j)
    ensures i == j
  {
    RowMajorNumbers(shape, i);
    RowMajorNumbers(shape, j);
  }

  // ----- where the elements of the source are -----

  predicate Static(layout: Layout)
  {
    layout.Strided? && forall i :: 0 <= i < |layout.strides| ==> layout.strides[i].Some?
  }

  /** The offset the layout gives, or none. */
  function Origin(layout: Layout): int
  {
    match layout
    case Strided(_, Some(offset)) => offset
    case _ => 0
  }

  lemma {:induction false} DotZeros(strides: seq<int>, n: nat)
    ensures Dot(strides, seq(n, _ => 0)) == 0
    decreases n
  {
    if n > 0 && strides != [] {
      assert seq(n, _ => 0)[1..] == seq(n - 1, _ => 0);
      DotZeros(strides[1..], n - 1);
    }
  }

  lemma {:induction false} DotStep(strides: seq<int>, index: seq<int>, i: nat)
    requires i < |strides| == |index|
    ensures Dot(strides, index[i := index[i] + 1]) == Dot(strides, index) + strides[i]
  {
    if i == 0 {
      assert index[0 := index[0] + 1][1..] == index[1..];
      Distribute(strides[0], index[0], 1, 1);
    } else {
      assert index[i := index[i] + 1][1..] == index[1..][i - 1 := index[1..][i - 1] + 1];
      DotStep(strides[1..], index[1..], i - 1);
    }
  }

  /** The first element of the source is at the offset of its layout. */
  lemma FirstElement(shape: seq<int>, layout: Layout, n: nat)
    ensures Address(SourceAddressing(shape, layout), seq(n, _ => 0)) == Origin(layout)
  {
    DotZeros(SourceAddressing(shape, layout).strides, n);
  }

  /** In a static layout, one step in a dimension is as far as its stride says. */
  lemma StrideOfDimension(shape: seq<int>, layout: Layout, index: seq<int>, i: nat)
    requires Static(layout) && i < |layout.strides| == |index|
    ensures Address(SourceAddressing(shape, layout), index[i := index[i] + 1])
         == Address(SourceAddressing(shape, layout), index) + layout.strides[i].value
  {
    DotStep(SourceAddressing(shape, layout).strides, index, i);
  }

  /** In any other one, elements follow each other in row-major order, from the offset on. */
  lemma RowMajorSource(shape: seq<int>, layout: Layout, index: seq<int>)
    requires !Static(layout) && InBounds(index, shape)
    ensures Positive(shape)
    ensures var n := Address(SourceAddressing(shape, layout), index) - Origin(layout);
            0 <= n < Product(shape) && Delinearize(n, shape) == index
  {
    RowMajorNumbers(shape, index);
  }
}
