/**
 `TypeConversionPattern`: converting the types of an operation, through structured attributes
 if asked to, and when one application is enough.
 */
module TypeConversion {

  import opened Options

  datatype Attr =
    | Data(tag: string)
    | Parametrized(name: string, parameters: seq<Attr>)
    | ArrayAttr(elements: seq<Attr>)

  type Converter = Attr -> Option<Attr>

  const EMPTY := ArrayAttr([])

  /** Python's `converted or original`: an empty array attribute has length zero and counts as false. */
  function Or(converted: Attr, original: Attr): Attr
  {
    if converted == EMPTY then original else converted
  }

  function Apply(convert: Converter, a: Attr): Attr
  {
    var c := convert(a);
    if c.Some? then c.value else a
  }

  /** `_convert_type_rec`: parameters and elements first, then the attribute itself. */
  function Convert(convert: Converter, recursive: bool, a: Attr): Attr
    decreases a, 1
  {
    Apply(convert, if recursive then Rebuild(convert, a) else a)
  }

  function Rebuild(convert: Converter, a: Attr): Attr
    decreases a, 0
  {
    match a
    case Data(_) => a
    case Parametrized(name, parameters) =>
      Parametrized(name, seq(|parameters|, i requires 0 <= i < |parameters| =>
        Or(Convert(convert, true, parameters[i]), parameters[i])))
    case ArrayAttr(elements) =>
      ArrayAttr(seq(|elements|, i requires 0 <= i < |elements| =>
        Or(Convert(convert, true, elements[i]), elements[i])))
  }

  // ----- what a conversion yields -----

  /** The attribute itself: what the converter gives, or the attribute where it gives nothing. */
  predicate AtTop(convert: Converter, a: Attr, r: Attr)
  {
    match convert(a)
    case Some(c) => r == c
    case None => r == a
  }

  /** Bottom-up: the parts first, by one rule for each kind of attribute, and then the attribute made of them. */
  ghost predicate Becomes(convert: Converter, a: Attr, r: Attr)
    decreases a, 2
  {
    exists inner :: PartsBecome(convert, a, inner) && AtTop(convert, inner, r)
  }

  ghost predicate PartsBecome(convert: Converter, a: Attr, inner: Attr)
    decreases a, 1
  {
    match a
    case Data(_) => inner == a
    case Parametrized(name, parameters) =>
      inner.Parametrized? && inner.name == name && EachBecomes(convert, parameters, inner.parameters)
    case ArrayAttr(elements) => inner.ArrayAttr? && EachBecomes(convert, elements, inner.elements)
  }

  ghost predicate EachBecomes(convert: Converter, parts: seq<Attr>, now: seq<Attr>)
    decreases parts, 0
  {
    |now| == |parts| && forall i :: 0 <= i < |parts| ==> PartBecomes(convert, parts[i], now[i])
  }

  ghost predicate PartBecomes(convert: Converter, part: Attr, now: Attr)
    decreases part, 3
  {
    exists q :: Becomes(convert, part, q) && Kept(part, q, now)
  }

  /** What would become the empty array stays as it is. */
  predicate Kept(part: Attr, q: Attr, now: Attr)
  {
    now == if q == ArrayAttr([]) then part else q
  }

  /** What the rules make of an attribute is what the recursive conversion computes, and nothing else. */
  lemma {:induction false} ConvertExactly(convert: Converter, a: Attr, r: Attr)
    ensures Becomes(convert, a, r) <==> Convert(convert, true, a) == r
    decreases a, 2
  {
    RebuildExactly(convert, a, Rebuild(convert, a));
    if Becomes(convert, a, r) {
      var inner :| PartsBecome(convert, a, inner) && AtTop(convert, inner, r);
      RebuildExactly(convert, a, inner);
    }
  }

  lemma {:induction false} RebuildExactly(convert: Converter, a: Attr, inner: Attr)
    ensures PartsBecome(convert, a, inner) <==> Rebuild(convert, a) == inner
    decreases a, 1
  {
    match a
    case Data(_) =>
    case Parametrized(name, parameters) =>
      if inner.Parametrized? {
        EachExactly(convert, parameters, inner.parameters);
        assert inner == Parametrized(inner.name, inner.parameters);
      }
      EachExactly(convert, parameters, Rebuild(convert, a).parameters);
    case ArrayAttr(elements) =>
      if inner.ArrayAttr? {
        EachExactly(convert, elements, inner.elements);
        assert inner == ArrayAttr(inner.elements);
      }
      EachExactly(convert, elements, Rebuild(convert, a).elements);
  }

  lemma {:induction false} EachExactly(convert: Converter, parts: seq<Attr>, now: seq<Attr>)
    ensures EachBecomes(convert, parts, now) <==> now == ConvertAll(convert, true, parts)
    decreases parts, 0
  {
    forall i, q | 0 <= i < |parts| ensures Becomes(convert, parts[i], q) <==> Convert(convert, true, parts[i]) == q {
      ConvertExactly(convert, parts[i], q);
    }
    var all := ConvertAll(convert, true, parts);
    if EachBecomes(convert, parts, now) {
      forall i | 0 <= i < |parts| ensures now[i] == all[i] {
        assert PartBecomes(convert, parts[i], now[i]);
      }
    }
    forall i | 0 <= i < |parts| ensures PartBecomes(convert, parts[i], all[i]) {
      assert Becomes(convert, parts[i], Convert(convert, true, parts[i])) && Kept(parts[i], Convert(convert, true, parts[i]), all[i]);
    }
  }

  /** Without recursion the attribute alone is converted. */
  ghost predicate Yields(convert: Converter, recursive: bool, a: Attr, r: Attr)
  {
    if recursive then Becomes(convert, a, r) else AtTop(convert, a, r)
  }

  lemma YieldsExactly(convert: Converter, recursive: bool, a: Attr, r: Attr)
    ensures Yields(convert, recursive, a, r) <==> Convert(convert, recursive, a) == r
  {
    if recursive {
      ConvertExactly(convert, a, r);
    }
  }

  /** Every occurrence of one plain type, at any depth, replaced by another one. */
  function Throughout(from: string, to: Attr, a: Attr): Attr
    decreases a
  {
    match a
    case Data(tag) => if tag == from then to else a
    case Parametrized(name, parameters) =>
      Parametrized(name, seq(|parameters|, i requires 0 <= i < |parameters| => Throughout(from, to, parameters[i])))
    case ArrayAttr(elements) =>
      ArrayAttr(seq(|elements|, i requires 0 <= i < |elements| => Throughout(from, to, elements[i])))
  }

  /** A converter of one plain type converts it everywhere when it is recursive, and only at the top when it is not. */
  lemma {:induction false} SingleType(convert: Converter, from: string, to: Attr, a: Attr)
    requires forall x :: convert(x) == if x == Data(from) then Some(to) else None
    requires to != EMPTY
    ensures Convert(convert, true, a) == Throughout(from, to, a)
    ensures Convert(convert, false, a) == if a == Data(from) then to else a
    decreases a
  {
    var parts := match a case Data(_) => [] case Parametrized(_, ps) => ps case ArrayAttr(es) => es;
    forall i | 0 <= i < |parts| ensures Or(Convert(convert, true, parts[i]), parts[i]) == Throughout(from, to, parts[i]) {
      SingleType(convert, from, to, parts[i]);
      if Convert(convert, true, parts[i]) == EMPTY {
        assert Throughout(from, to, parts[i]) == EMPTY;
        assert parts[i] == EMPTY;
      }
    }
    match a
    case Data(_) =>
    case Parametrized(_, _) => assert Rebuild(convert, a).parameters == Throughout(from, to, a).parameters;
    case ArrayAttr(_) => assert Rebuild(convert, a).elements == Throughout(from, to, a).elements;
  }

  // ----- one application is enough -----

  ghost predicate Idempotent(convert: Converter, recursive: bool)
  {
    forall a :: Convert(convert, recursive, Convert(convert, recursive, a)) == Convert(convert, recursive, a)
  }

  /** What the converter produces, on an attribute whose parts need no conversion, needs none either. */
  ghost predicate Closed(convert: Converter, recursive: bool)
  {
    forall a :: (recursive ==> Rebuild(convert, a) == a) && convert(a).Some? ==>
      Convert(convert, recursive, convert(a).value) == convert(a).value
  }

  /** Rebuilding leaves nothing to rebuild. */
  lemma {:induction false} RebuildStable(convert: Converter, a: Attr)
    requires Closed(convert, true)
    ensures Rebuild(convert, Rebuild(convert, a)) == Rebuild(convert, a)
    decreases a, 0
  {
    var parts := match a case Data(_) => [] case Parametrized(_, ps) => ps case ArrayAttr(es) => es;
    forall i | 0 <= i < |parts|
      ensures var p := Or(Convert(convert, true, parts[i]), parts[i]); Or(Convert(convert, true, p), p) == p
    {
      ConvertStable(convert, parts[i]);
    }
    var again := Rebuild(convert, Rebuild(convert, a));
    match a
    case Data(_) =>
    case Parametrized(_, _) => assert again.parameters == Rebuild(convert, a).parameters;
    case ArrayAttr(_) => assert again.elements == Rebuild(convert, a).elements;
  }

  lemma {:induction false} ConvertStable(convert: Converter, a: Attr)
    requires Closed(convert, true)
    ensures Convert(convert, true, Convert(convert, true, a)) == Convert(convert, true, a)
    decreases a, 1
  {
    RebuildStable(convert, a);
    var inner := Rebuild(convert, a);
    if convert(inner).None? {
      assert Convert(convert, true, a) == inner;
    }
  }

  /** Converting twice is converting once, for all attributes, exactly when the converter is closed. */
  lemma IdempotentExactly(convert: Converter, recursive: bool)
    ensures Idempotent(convert, recursive) <==> Closed(convert, recursive)
  {
    if Closed(convert, recursive) && recursive {
      forall a ensures Convert(convert, recursive, Convert(convert, recursive, a)) == Convert(convert, recursive, a) {
        ConvertStable(convert, a);
      }
    }
    if Idempotent(convert, recursive) {
      forall a | (recursive ==> Rebuild(convert, a) == a) && convert(a).Some?
        ensures Convert(convert, recursive, convert(a).value) == convert(a).value
      {
        assert Convert(convert, recursive, a) == convert(a).value;
      }
    }
  }

  /** The converter leaves the attribute and everything inside it alone. */
  ghost predicate LeftAlone(convert: Converter, a: Attr)
    decreases a
  {
    && Apply(convert, a) == a
    && match a
       case Data(_) => true
       case Parametrized(_, ps) => forall p :: p in ps ==> LeftAlone(convert, p)
       case ArrayAttr(es) => forall p :: p in es ==> LeftAlone(convert, p)
  }

  lemma {:induction false} LeftAloneIsFixed(convert: Converter, recursive: bool, a: Attr)
    requires LeftAlone(convert, a)
    ensures Convert(convert, recursive, a) == a
    ensures Rebuild(convert, a) == a
    decreases a
  {
    var parts := match a case Data(_) => [] case Parametrized(_, ps) => ps case ArrayAttr(es) => es;
    forall i | 0 <= i < |parts| ensures Convert(convert, true, parts[i]) == parts[i] {
      assert parts[i] in parts;
      LeftAloneIsFixed(convert, true, parts[i]);
    }
    match a
    case Data(_) =>
    case Parametrized(_, ps) => assert Rebuild(convert, a).parameters == ps;
    case ArrayAttr(es) => assert Rebuild(convert, a).elements == es;
  }

  /** A converter that leaves its own outputs alone, at every depth, converts in one application. */
  lemma OutputsLeftAloneIsIdempotent(convert: Converter, recursive: bool)
    requires forall a :: convert(a).Some? ==> LeftAlone(convert, convert(a).value)
    ensures Idempotent(convert, recursive)
  {
    forall a | convert(a).Some? ensures Convert(convert, recursive, convert(a).value) == convert(a).value {
      LeftAloneIsFixed(convert, recursive, convert(a).value);
    }
    IdempotentExactly(convert, recursive);
  }

  /** Then, if it makes nothing empty, a recursive conversion leaves nothing to convert at any depth. */
  lemma {:induction false} NothingLeftToConvert(convert: Converter, a: Attr)
    requires forall x :: convert(x).Some? ==> LeftAlone(convert, convert(x).value)
    requires forall x :: convert(x) == Some(EMPTY) ==> x == EMPTY
    ensures LeftAlone(convert, Convert(convert, true, a))
    decreases a
  {
    var parts := match a case Data(_) => [] case Parametrized(_, ps) => ps case ArrayAttr(es) => es;
    forall i | 0 <= i < |parts| ensures LeftAlone(convert, Or(Convert(convert, true, parts[i]), parts[i])) {
      NothingLeftToConvert(convert, parts[i]);
      if Convert(convert, true, parts[i]) == EMPTY {
        OnlyEmptyBecomesEmpty(convert, parts[i]);
      }
    }
  }

  lemma OnlyEmptyBecomesEmpty(convert: Converter, a: Attr)
    requires forall x :: convert(x) == Some(EMPTY) ==> x == EMPTY
    requires Convert(convert, true, a) == EMPTY
    ensures a == EMPTY
  {
    assert Rebuild(convert, a) == EMPTY;
    match a
    case Data(_) =>
    case Parametrized(_, _) =>
    case ArrayAttr(es) => assert |Rebuild(convert, a).elements| == |es|;
  }

  /** Wraps "unit" into a vector of "i32" and turns "i32" into "index". */
  function WrapAndNarrow(a: Attr): Option<Attr>
  {
    if a == Data("unit") then Some(Parametrized("vector", [Data("i32")]))
    else if a == Data("i32") then Some(Data("index"))
    else None
  }

  /** Leaving outputs alone only at the top is not enough: the vector it builds still holds an "i32". */
  lemma ShallowIsNotEnough()
    ensures forall a :: WrapAndNarrow(a).Some? ==> Apply(WrapAndNarrow, WrapAndNarrow(a).value) == WrapAndNarrow(a).value
    ensures !Idempotent(WrapAndNarrow, true)
  {
    var once := Convert(WrapAndNarrow, true, Data("unit"));
    assert once == Parametrized("vector", [Data("i32")]);
    assert Convert(WrapAndNarrow, true, Data("i32")) == Data("index");
    var inner := Rebuild(WrapAndNarrow, once);
    assert inner.parameters[0] == Data("index");
    assert Convert(WrapAndNarrow, true, once) == inner != once;
  }

  // ----- the pattern on an operation -----

  /** The class and the typed parts of an operation. */
  datatype TypedOp = TypedOp(class_: string, results: seq<Attr>, attributes: seq<(string, Attr)>,
                             properties: seq<(string, Attr)>, blockArgs: seq<Attr>)

  /**
   The filter `ops`: no classes, or none given, lets every operation pass. Which classes are subclasses
   of which is for `isInstance` to say.
   */
  predicate Selected(isInstance: (string, string) -> bool, ops: Option<seq<string>>, op: TypedOp)
  {
    ops.None? || ops.value == [] || exists class_ :: class_ in ops.value && isInstance(op.class_, class_)
  }

  function ConvertAll(convert: Converter, recursive: bool, types: seq<Attr>): (r: seq<Attr>)
    ensures |r| == |types|
  {
    seq(|types|, i requires 0 <= i < |types| => Or(Convert(convert, recursive, types[i]), types[i]))
  }

  ghost predicate Changes(convert: Converter, recursive: bool, types: seq<Attr>)
  {
    exists i :: 0 <= i < |types| && Convert(convert, recursive, types[i]) != types[i]
  }

  function Values(entries: seq<(string, Attr)>): (r: seq<Attr>)
    ensures |r| == |entries|
  {
    seq(|entries|, i requires 0 <= i < |entries| => entries[i].1)
  }

  function WithValues(entries: seq<(string, Attr)>, values: seq<Attr>): (r: seq<(string, Attr)>)
    requires |entries| == |values|
    ensures |r| == |entries|
  {
    seq(|entries|, i requires 0 <= i < |entries| => (entries[i].0, values[i]))
  }

  /** Block arguments are converted at the top level only. */
  function ConvertArgs(convert: Converter, args: seq<Attr>): (r: seq<Attr>)
    ensures |r| == |args|
  {
    seq(|args|, i requires 0 <= i < |args| => Apply(convert, args[i]))
  }

  /** Every typed part converted. */
  function Converted(convert: Converter, recursive: bool, op: TypedOp): TypedOp
  {
    TypedOp(op.class_, ConvertAll(convert, recursive, op.results),
            WithValues(op.attributes, ConvertAll(convert, recursive, Values(op.attributes))),
            WithValues(op.properties, ConvertAll(convert, recursive, Values(op.properties))),
            ConvertArgs(convert, op.blockArgs))
  }

  /** The three conversion loops share this one. */
  method ConvertList(convert: Converter, recursive: bool, types: seq<Attr>) returns (r: seq<Attr>, changed: bool)
    ensures r == ConvertAll(convert, recursive, types)
    ensures changed <==> Changes(convert, recursive, types)
    ensures EachYields(convert, recursive, types, r) && (changed <==> YieldsOther(convert, recursive, types))
  {
    r, changed := [], false;
    for i := 0 to |types|
      invariant r == ConvertAll(convert, recursive, types[..i])
      invariant changed <==> Changes(convert, recursive, types[..i])
    {
      var converted := Convert(convert, recursive, types[i]);
      assert types[..i + 1] == types[..i] + [types[i]];
      assert forall j :: 0 <= j < i ==> types[..i + 1][j] == types[..i][j];
      assert types[..i + 1][i] == types[i];
      r := r + [Or(converted, types[i])];
      if converted != types[i] {
        changed := true;
      }
    }
    assert types[..|types|] == types;
    ListExactly(convert, recursive, types);
  }

  /** Each type has become what the conversion yields, unless that is the empty array. */
  ghost predicate EachYields(convert: Converter, recursive: bool, types: seq<Attr>, now: seq<Attr>)
  {
    |now| == |types| && forall i :: 0 <= i < |types| ==> TypeYields(convert, recursive, types[i], now[i])
  }

  ghost predicate TypeYields(convert: Converter, recursive: bool, type_: Attr, now: Attr)
  {
    exists q :: Yields(convert, recursive, type_, q) && Kept(type_, q, now)
  }

  /** The conversion yields something else for some type. */
  ghost predicate YieldsOther(convert: Converter, recursive: bool, types: seq<Attr>)
  {
    exists i, q :: 0 <= i < |types| && Yields(convert, recursive, types[i], q) && q != types[i]
  }

  lemma ListExactly(convert: Converter, recursive: bool, types: seq<Attr>)
    ensures EachYields(convert, recursive, types, ConvertAll(convert, recursive, types))
    ensures Changes(convert, recursive, types) <==> YieldsOther(convert, recursive, types)
  {
    forall i, q | 0 <= i < |types| ensures Yields(convert, recursive, types[i], q) <==> Convert(convert, recursive, types[i]) == q {
      YieldsExactly(convert, recursive, types[i], q);
    }
    forall i | 0 <= i < |types| ensures TypeYields(convert, recursive, types[i], ConvertAll(convert, recursive, types)[i]) {
      var q := Convert(convert, recursive, types[i]);
      assert Yields(convert, recursive, types[i], q) && Kept(types[i], q, ConvertAll(convert, recursive, types)[i]);
    }
  }

  /** The names stay, and each entry has become what the conversion yields. */
  ghost predicate EntriesYield(convert: Converter, recursive: bool, entries: seq<(string, Attr)>, now: seq<(string, Attr)>)
  {
    && |now| == |entries| && (forall i :: 0 <= i < |entries| ==> now[i].0 == entries[i].0)
    && EachYields(convert, recursive, Values(entries), Values(now))
  }

  /** Block arguments are converted at the top, whether the pattern is recursive or not. */
  predicate ArgsYield(convert: Converter, args: seq<Attr>, now: seq<Attr>)
  {
    |now| == |args| && forall i :: 0 <= i < |args| ==> AtTop(convert, args[i], now[i])
  }

  lemma EntriesConverted(convert: Converter, recursive: bool, entries: seq<(string, Attr)>)
    ensures EntriesYield(convert, recursive, entries, WithValues(entries, ConvertAll(convert, recursive, Values(entries))))
  {
    ListExactly(convert, recursive, Values(entries));
    var now := WithValues(entries, ConvertAll(convert, recursive, Values(entries)));
    assert Values(now) == ConvertAll(convert, recursive, Values(entries));
  }

  /** `match_and_rewrite`: the operation afterwards, whether it was replaced, whether an argument was retyped. */
  method MatchAndRewrite(convert: Converter, recursive: bool, isInstance: (string, string) -> bool,
                         ops: Option<seq<string>>, op: TypedOp)
    returns (r: TypedOp, replaced: bool, retyped: bool)
    ensures !Selected(isInstance, ops, op) ==> r == op && !replaced && !retyped
    ensures Selected(isInstance, ops, op) ==>
              && (replaced <==> Changes(convert, recursive, op.results) || Changes(convert, recursive, Values(op.attributes))
                                || Changes(convert, recursive, Values(op.properties)))
              && (retyped <==> ConvertArgs(convert, op.blockArgs) != op.blockArgs)
              && r == if replaced then Converted(convert, recursive, op) else op.(blockArgs := ConvertArgs(convert, op.blockArgs))
    ensures ops.None? || ops.value == [] || (exists class_ :: class_ in ops.value && isInstance(op.class_, class_)) ==>
              && (replaced <==> YieldsOther(convert, recursive, op.results) || YieldsOther(convert, recursive, Values(op.attributes))
                                || YieldsOther(convert, recursive, Values(op.properties)))
              && (replaced ==> EachYields(convert, recursive, op.results, r.results)
                               && EntriesYield(convert, recursive, op.attributes, r.attributes)
                               && EntriesYield(convert, recursive, op.properties, r.properties))
              && (!replaced ==> r.results == op.results && r.attributes == op.attributes && r.properties == op.properties)
              && r.class_ == op.class_ && ArgsYield(convert, op.blockArgs, r.blockArgs)
  {
    if !Selected(isInstance, ops, op) {
      return op, false, false;
    }
    var results, c0 := ConvertList(convert, recursive, op.results);
    var attributes, c1 := ConvertList(convert, recursive, Values(op.attributes));
    var properties, c2 := ConvertList(convert, recursive, Values(op.properties));
    var args := op.blockArgs;
    retyped := false;
    for i := 0 to |args|
      invariant |args| == |op.blockArgs|
      invariant forall j :: 0 <= j < |args| ==> args[j] == if j < i then Apply(convert, op.blockArgs[j]) else op.blockArgs[j]
      invariant retyped <==> exists j :: 0 <= j < i && Apply(convert, op.blockArgs[j]) != op.blockArgs[j]
    {
      var converted := convert(args[i]);
      if converted.Some? && converted.value != args[i] {
        args := args[i := converted.value];
        retyped := true;
      }
    }
    assert args == ConvertArgs(convert, op.blockArgs);
    assert retyped ==> exists j :: 0 <= j < |args| && args[j] != op.blockArgs[j];
    replaced := c0 || c1 || c2;
    assert ArgsYield(convert, op.blockArgs, args);
    if replaced {
      EntriesConverted(convert, recursive, op.attributes);
      EntriesConverted(convert, recursive, op.properties);
      r := TypedOp(op.class_, results, WithValues(op.attributes, attributes), WithValues(op.properties, properties), args);
    } else {
      r := op.(blockArgs := args);
    }
  }

  /**
   A second visit reports no change exactly when no type is converted to an empty array: that
   result is dropped by `or` but still counts as a change, on this visit and on every later one.
   */
  lemma SecondVisitExactly(convert: Converter, recursive: bool, types: seq<Attr>)
    requires Closed(convert, recursive)
    ensures !Changes(convert, recursive, ConvertAll(convert, recursive, types))
       <==> forall i :: 0 <= i < |types| && Convert(convert, recursive, types[i]) == EMPTY ==> types[i] == EMPTY
  {
    IdempotentExactly(convert, recursive);
    var once := ConvertAll(convert, recursive, types);
    forall i | 0 <= i < |types|
      ensures Convert(convert, recursive, once[i]) == once[i]
         <==> (Convert(convert, recursive, types[i]) == EMPTY ==> types[i] == EMPTY)
    {
      assert Convert(convert, recursive, Convert(convert, recursive, types[i])) == Convert(convert, recursive, types[i]);
    }
  }

  /** The whole operation is left alone by a second visit. */
  lemma SecondVisitQuiet(convert: Converter, recursive: bool, op: TypedOp, once: TypedOp)
    requires Closed(convert, recursive)
    requires forall a :: Convert(convert, recursive, a) == EMPTY ==> a == EMPTY
    requires forall a :: convert(a).Some? ==> Apply(convert, convert(a).value) == convert(a).value
    requires once == Converted(convert, recursive, op)
    ensures !Changes(convert, recursive, once.results)
    ensures !Changes(convert, recursive, Values(once.attributes)) && !Changes(convert, recursive, Values(once.properties))
    ensures ConvertArgs(convert, once.blockArgs) == once.blockArgs
  {
    SecondVisitExactly(convert, recursive, op.results);
    SecondVisitExactly(convert, recursive, Values(op.attributes));
    SecondVisitExactly(convert, recursive, Values(op.properties));
    assert Values(once.attributes) == ConvertAll(convert, recursive, Values(op.attributes));
    assert Values(once.properties) == ConvertAll(convert, recursive, Values(op.properties));
  }
}
