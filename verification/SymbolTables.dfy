/**
 Symbol tables: the verifier of unique names, lookup by reference path, and insertion, which
 must agree with both.
 */
module SymbolTables {

  import opened Options

  datatype Error =
    | NoTableAncestor | NoRegion | NotSingleBlock
    | BadSymName | NotASymbol | Unnamed | NotATable | AlreadyAttached

  datatype Result<+T> = Ok(value: T) | Raised(error: Error) {
    predicate IsFailure() { Raised? }
    function PropagateFailure<U>(): Result<U>
      requires Raised?
    {
      Raised(error)
    }
    function Extract(): T
      requires Ok?
    {
      value
    }
  }

  /** The `sym_name` attribute or property. */
  datatype SymName = Absent | Str(name: string) | NotString

  datatype Interface = NoInterface | Required | Optional

  type Ops = seq<Op>

  /** Regions are lists of blocks, and blocks lists of operations. */
  datatype Op = Op(id: nat, interface: Interface, symName: SymName, isTable: bool, regions: seq<seq<seq<Op>>>)

  // ----- names -----

  /** `get_sym_attr_name`. */
  function SymAttrName(o: Op): Result<Option<string>>
  {
    if o.symName.Absent? && o.interface.Optional? then Ok(None)
    else if o.symName.Str? then Ok(Some(o.symName.name))
    else Raised(BadSymName)
  }

  /** Lookup sees this operation under that name. */
  predicate Named(o: Op, name: string)
  {
    !o.interface.NoInterface? && o.symName == Str(name)
  }

  /** Lookup stops with an exception at this operation. */
  predicate Broken(o: Op)
  {
    !o.interface.NoInterface? && SymAttrName(o).Raised?
  }

  /** The name must be a string; only an optional symbol may be without one, and then has none. */
  lemma NamesExactly(o: Op)
    ensures SymAttrName(o) ==
            match o.symName
            case Str(name) => Ok(Some(name))
            case NotString => Raised(BadSymName)
            case Absent => if o.interface == Optional then Ok(None) else Raised(BadSymName)
    ensures Broken(o) <==> (o.symName == NotString && o.interface != NoInterface) || (o.symName == Absent && o.interface == Required)
  {
  }

  /** No two operations of a block carry the same `sym_name`. */
  predicate Unique(ops: Ops)
  {
    forall i, j :: 0 <= i < j < |ops| && ops[i].symName.Str? ==> ops[i].symName != ops[j].symName
  }

  // ----- verification -----

  /** `SymbolTable.verify`. */
  method Verify(op: Op) returns (ok: bool)
    ensures ok <==> |op.regions| == 1 && |op.regions[0]| == 1 && Unique(op.regions[0][0])
  {
    if |op.regions| != 1 || |op.regions[0]| != 1 {
      return false;
    }
    var ops := op.regions[0][0];
    var metNames: set<string> := {};
    for i := 0 to |ops|
      invariant Unique(ops[..i])
      invariant metNames == set k | 0 <= k < i && ops[k].symName.Str? :: ops[k].symName.name
    {
      if ops[i].symName.Str? {
        var name := ops[i].symName.name;
        if name in metNames {
          return false;
        }
        metNames := metNames + {name};
      }
    }
    assert ops[..|ops|] == ops;
    return true;
  }

  // ----- lookup -----

  function Body(o: Op): Result<Ops>
  {
    if o.regions == [] then Raised(NoRegion)
    else if |o.regions[0]| != 1 then Raised(NotSingleBlock)
    else Ok(o.regions[0][0])
  }

  /** The first operation that lookup sees under a name. */
  function Scan(ops: Ops, name: string): Result<Option<Op>>
  {
    if ops == [] then Ok(None)
    else if Broken(ops[0]) then Raised(BadSymName)
    else if Named(ops[0], name) then Ok(Some(ops[0]))
    else Scan(ops[1..], name)
  }

  /** How far up the chain of parents the closest symbol table is. */
  function Anchor(chain: seq<Op>): (a: nat)
    ensures a <= |chain| && (a < |chain| ==> chain[a].isTable)
    ensures forall i :: 0 <= i < a ==> !chain[i].isTable
  {
    if chain == [] || chain[0].isTable then 0 else 1 + Anchor(chain[1..])
  }

  /** A reference path looked up from an operation; `chain` is that operation and its ancestors. */
  function Lookup(chain: seq<Op>, path: seq<string>): Result<Option<Op>>
    requires path != []
    decreases |path|
  {
    var a := Anchor(chain);
    if a == |chain| then Raised(NoTableAncestor)
    else
      var ops :- Body(chain[a]);
      var found :- Scan(ops, path[0]);
      if found.None? || |path| == 1 then Ok(found)
      else Lookup([found.value] + chain[a..], path[1..])
  }

  /** `lookup_symbol`. */
  method LookupSymbol(chain: seq<Op>, path: seq<string>) returns (r: Result<Option<Op>>)
    requires path != []
    ensures r == Lookup(chain, path)
    decreases |path|
  {
    var a := 0;
    while a < |chain| && !chain[a].isTable
      invariant 0 <= a <= |chain| && Anchor(chain) == a + Anchor(chain[a..])
    {
      assert chain[a..][1..] == chain[a + 1..];
      a := a + 1;
    }
    if a == |chain| {
      return Raised(NoTableAncestor);
    }
    var ops :- Body(chain[a]);
    for i := 0 to |ops|
      invariant Scan(ops, path[0]) == Scan(ops[i..], path[0])
    {
      assert ops[i..][1..] == ops[i + 1..];
      if !ops[i].interface.NoInterface? {
        var name :- SymAttrName(ops[i]);
        if name == Some(path[0]) {
          if |path| == 1 {
            return Ok(Some(ops[i]));
          }
          r := LookupSymbol([ops[i]] + chain[a..], path[1..]);
          return;
        }
      }
    }
    return Ok(None);
  }

  /** What a successful scan means, in terms of positions. */
  lemma {:induction false} ScanExactly(ops: Ops, name: string, o: Op)
    ensures Scan(ops, name) == Ok(Some(o)) <==>
            exists p :: 0 <= p < |ops| && ops[p] == o && FirstNamed(ops, name, p)
  {
    if ops != [] {
      var rest := ops[1..];
      ScanExactly(rest, name, o);
      if Named(ops[0], name) {
        assert FirstNamed(ops, name, 0);
      }
      if p :| 0 <= p < |rest| && rest[p] == o && FirstNamed(rest, name, p) {
        if !Broken(ops[0]) && !Named(ops[0], name) {
          assert ops[p + 1] == o && FirstNamed(ops, name, p + 1);
        }
      }
      if p :| 0 <= p < |ops| && ops[p] == o && FirstNamed(ops, name, p) && p > 0 {
        assert rest[p - 1] == o && FirstNamed(rest, name, p - 1);
      }
    }
  }

  /** Position `p` has the name; nothing before it has, and nothing before it is broken. */
  ghost predicate FirstNamed(ops: Ops, name: string, p: nat)
  {
    p < |ops| && Named(ops[p], name) && forall q :: 0 <= q < p ==> !Named(ops[q], name) && !Broken(ops[q])
  }

  lemma {:induction false} ScanNothing(ops: Ops, name: string)
    ensures Scan(ops, name) == Ok(None) <==> forall q :: 0 <= q < |ops| ==> !Named(ops[q], name) && !Broken(ops[q])
  {
    if ops != [] {
      ScanNothing(ops[1..], name);
      assert forall q :: 0 < q < |ops| ==> ops[q] == ops[1..][q - 1];
      assert forall q :: 0 <= q < |ops[1..]| ==> ops[1..][q] == ops[q + 1];
    }
  }

  /**
   A component of a path that is not itself a symbol table does not narrow the search: the next
   component is looked up in the table that holds it.
   */
  lemma NonTableIsTransparent(chain: seq<Op>, path: seq<string>, o: Op)
    requires |path| > 1
    requires Lookup(chain, path[..1]) == Ok(Some(o)) && !o.isTable
    ensures Lookup(chain, path) == Lookup(chain, path[1..])
  {
    var a := Anchor(chain);
    var next := [o] + chain[a..];
    assert next[1..] == chain[a..];
    assert Anchor(chain[a..]) == 0;
    assert Anchor(next) == 1;
  }

  /** Through tables, a path is resolved one component at a time. */
  lemma TableNarrows(chain: seq<Op>, path: seq<string>, o: Op)
    requires |path| > 1
    requires Lookup(chain, path[..1]) == Ok(Some(o)) && o.isTable
    ensures Lookup(chain, path) == Lookup([o], path[1..])
  {
    LookupFromTable(o, chain[Anchor(chain)..], path[1..]);
  }

  /** Lookup from a table never looks at the ancestors of that table. */
  lemma {:induction false} LookupFromTable(o: Op, above: seq<Op>, path: seq<string>)
    requires o.isTable && path != []
    ensures Lookup([o] + above, path) == Lookup([o], path)
    decreases |path|
  {
    var chain := [o] + above;
    assert Anchor(chain) == 0 && chain[0..] == chain && [o][0..] == [o];
    if |path| > 1 && Body(o).Ok? && Scan(Body(o).value, path[0]).Ok? && Scan(Body(o).value, path[0]).value.Some? {
      var next := Scan(Body(o).value, path[0]).value.value;
      if next.isTable {
        LookupFromTable(next, chain, path[1..]);
        LookupFromTable(next, [o], path[1..]);
      } else {
        NonTableIsTransparent(chain, path, next);
        NonTableIsTransparent([o], path, next);
        LookupFromTable(o, above, path[1..]);
      }
    }
  }

  /** Entry `a` of the chain is the closest symbol table: a table with none before it. */
  predicate ClosestTable(chain: seq<Op>, a: nat)
  {
    a < |chain| && chain[a].isTable && forall i :: 0 <= i < a ==> !chain[i].isTable
  }

  lemma {:induction false} AnchorClosest(chain: seq<Op>)
    ensures forall a: nat :: ClosestTable(chain, a) ==> Anchor(chain) == a
    ensures Anchor(chain) < |chain| ==> ClosestTable(chain, Anchor(chain))
  {
    if chain != [] && !chain[0].isTable {
      AnchorClosest(chain[1..]);
      forall a: nat | ClosestTable(chain, a) ensures Anchor(chain) == a {
        assert ClosestTable(chain[1..], a - 1);
      }
    }
  }

  /** A name is looked up in the one block of the closest table: the first operation there that carries it. */
  lemma ClosestTableIsSearched(chain: seq<Op>, a: nat, name: string, o: Op)
    requires ClosestTable(chain, a)
    ensures Lookup(chain, [name]) == Ok(Some(o)) <==>
              && |chain[a].regions| > 0 && |chain[a].regions[0]| == 1
              && exists p :: 0 <= p < |chain[a].regions[0][0]| && chain[a].regions[0][0][p] == o && FirstNamed(chain[a].regions[0][0], name, p)
  {
    AnchorClosest(chain);
    if |chain[a].regions| > 0 && |chain[a].regions[0]| == 1 {
      ScanExactly(chain[a].regions[0][0], name, o);
    }
  }

  /** What is below that table, and what is around it, does not matter. */
  lemma OnlyClosestTableMatters(chain: seq<Op>, a: nat, path: seq<string>)
    requires ClosestTable(chain, a) && path != []
    ensures Lookup(chain, path) == Lookup([chain[a]], path)
  {
    AnchorClosest(chain);
    assert ClosestTable(chain[a..], 0);
    AnchorClosest(chain[a..]);
    assert chain[a..][0..] == chain[a..];
    assert Lookup(chain, path) == Lookup(chain[a..], path);
    LookupFromTable(chain[a], chain[a + 1..], path);
    assert chain[a..] == [chain[a]] + chain[a + 1..];
  }

  /** Without a table around it, a look-up raises. */
  lemma NoTableRaises(chain: seq<Op>, path: seq<string>)
    requires path != []
    ensures (forall i :: 0 <= i < |chain| ==> !chain[i].isTable) <==> Lookup(chain, path) == Raised(NoTableAncestor)
  {
    AnchorClosest(chain);
    if Anchor(chain) < |chain| {
      TableIsThere(chain, Anchor(chain), path);
    }
  }

  /** A scan stops at the first operation that is named or broken, and raises in the second case. */
  lemma {:induction false} ScanRaises(ops: Ops, name: string)
    ensures Scan(ops, name).Raised? <==>
              exists p :: 0 <= p < |ops| && Broken(ops[p]) && forall q :: 0 <= q < p ==> !Named(ops[q], name) && !Broken(ops[q])
    ensures Scan(ops, name).Raised? ==> Scan(ops, name).error == BadSymName
  {
    if ops != [] {
      var rest := ops[1..];
      ScanRaises(rest, name);
      if p :| 0 <= p < |rest| && Broken(rest[p]) && forall q :: 0 <= q < p ==> !Named(rest[q], name) && !Broken(rest[q]) {
        assert ops[p + 1] == rest[p] && forall q :: 0 < q < p + 1 ==> ops[q] == rest[q - 1];
      }
      if p :| 0 < p < |ops| && Broken(ops[p]) && forall q :: 0 <= q < p ==> !Named(ops[q], name) && !Broken(ops[q]) {
        assert rest[p - 1] == ops[p] && forall q :: 0 <= q < p - 1 ==> rest[q] == ops[q + 1];
      }
    }
  }

  lemma {:induction false} TableIsThere(chain: seq<Op>, a: nat, path: seq<string>)
    requires a < |chain| && chain[a].isTable && path != []
    ensures Lookup(chain, path) != Raised(NoTableAncestor)
    decreases |path|
  {
    var closest := Anchor(chain);
    if Body(chain[closest]).Ok? {
      ScanRaises(Body(chain[closest]).value, path[0]);
    }
    if |path| > 1 && Body(chain[closest]).Ok? && Scan(Body(chain[closest]).value, path[0]).Ok?
       && Scan(Body(chain[closest]).value, path[0]).value.Some? {
      var next := [Scan(Body(chain[closest]).value, path[0]).value.value] + chain[closest..];
      assert next[1] == chain[closest];
      TableIsThere(next, 1, path[1..]);
    }
  }

  // ----- insertion -----

  /** Where the symbol to be replaced stands, or the end. */
  ghost function Position(ops: Ops, name: string): (p: nat)
    ensures p <= |ops|
  {
    if ops == [] || Named(ops[0], name) then 0 else 1 + Position(ops[1..], name)
  }

  ghost function Updated(ops: Ops, name: string, symbol: Op): Ops
  {
    var p := Position(ops, name);
    ops[..p] + [symbol] + if p < |ops| then ops[p + 1..] else []
  }

  /** The block afterwards, and the operation that was replaced. */
  ghost function InsertOrUpdate(table: Op, symbol: Op, attached: bool): Result<(Ops, Option<Op>)>
  {
    if symbol.interface.NoInterface? then Raised(NotASymbol)
    else
      var name :- SymAttrName(symbol);
      if name.None? then Raised(Unnamed)
      else if !table.isTable then Raised(NotATable)
      else
        var ops :- Body(table);
        var found :- Scan(ops, name.value);
        if attached then Raised(AlreadyAttached)
        else Ok((Updated(ops, name.value, symbol), found))
  }

  /** The scan for a name comes to a malformed operation before any with the name. */
  ghost predicate ScanStuck(ops: Ops, name: string)
  {
    exists p :: 0 <= p < |ops| && Broken(ops[p]) && forall q :: 0 <= q < p ==> !Named(ops[q], name) && !Broken(ops[q])
  }

  /** An insertion is refused exactly for one of these reasons. */
  ghost predicate Refused(table: Op, symbol: Op, attached: bool)
  {
    || symbol.interface == NoInterface || !symbol.symName.Str? || !table.isTable || attached
    || |table.regions| == 0 || |table.regions[0]| != 1 || ScanStuck(table.regions[0][0], symbol.symName.name)
  }

  lemma RefusedExactly(table: Op, symbol: Op, attached: bool)
    ensures InsertOrUpdate(table, symbol, attached).Raised? <==> Refused(table, symbol, attached)
    ensures InsertOrUpdate(table, symbol, attached).Raised? ==> Justified(table, symbol, attached, InsertOrUpdate(table, symbol, attached).error)
  {
    if |table.regions| > 0 && |table.regions[0]| == 1 && symbol.symName.Str? {
      ScanRaises(table.regions[0][0], symbol.symName.name);
    }
  }

  /** The reason an error stands for is there. */
  ghost predicate Justified(table: Op, symbol: Op, attached: bool, error: Error)
  {
    match error
    case NotASymbol => symbol.interface == NoInterface
    case Unnamed => symbol.symName == Absent
    case BadSymName => !symbol.symName.Str?
                       || (|table.regions| > 0 && |table.regions[0]| == 1 && ScanStuck(table.regions[0][0], symbol.symName.name))
    case NotATable => !table.isTable
    case NoRegion => |table.regions| == 0
    case NotSingleBlock => |table.regions| > 0 && |table.regions[0]| != 1
    case AlreadyAttached => attached
    case NoTableAncestor => false
  }

  lemma {:induction false} PositionScanned(ops: Ops, name: string)
    requires Scan(ops, name).Ok?
    ensures var p := Position(ops, name);
            (forall q :: 0 <= q < p ==> !Named(ops[q], name) && !Broken(ops[q]))
            && Scan(ops, name) == Ok(if p < |ops| then Some(ops[p]) else None)
            && (p < |ops| ==> Named(ops[p], name))
  {
    if ops != [] && !Named(ops[0], name) {
      PositionScanned(ops[1..], name);
    }
  }

  /** Scanning past operations that match nothing. */
  lemma {:induction false} ScanSkips(before: Ops, after: Ops, name: string)
    requires forall q :: 0 <= q < |before| ==> !Named(before[q], name) && !Broken(before[q])
    ensures Scan(before + after, name) == Scan(after, name)
  {
    if before == [] {
      assert before + after == after;
    } else {
      assert (before + after)[1..] == before[1..] + after;
      ScanSkips(before[1..], after, name);
    }
  }

  /** Two lists that lookup cannot tell apart behind a common prefix. */
  lemma {:induction false} ScanTail(before: Ops, one: Ops, other: Ops, name: string)
    requires Scan(one, name) == Scan(other, name)
    ensures Scan(before + one, name) == Scan(before + other, name)
  {
    if before == [] {
      assert before + one == one && before + other == other;
    } else {
      assert (before + one)[1..] == before[1..] + one && (before + other)[1..] == before[1..] + other;
      ScanTail(before[1..], one, other, name);
    }
  }

  /** After insertion the name is found, at the position of what it replaced or at the end. */
  lemma InsertedIsFound(ops: Ops, name: string, symbol: Op)
    requires Named(symbol, name) && Scan(ops, name).Ok?
    ensures Scan(Updated(ops, name, symbol), name) == Ok(Some(symbol))
    ensures FirstNamed(Updated(ops, name, symbol), name, Position(ops, name))
  {
    var p := Position(ops, name);
    PositionScanned(ops, name);
    var after := [symbol] + if p < |ops| then ops[p + 1..] else [];
    assert Updated(ops, name, symbol) == ops[..p] + after;
    ScanSkips(ops[..p], after, name);
  }

  /** Every other name resolves as before, exceptions included. */
  lemma OthersUnchanged(ops: Ops, name: string, symbol: Op, other: string)
    requires Named(symbol, name) && Scan(ops, name).Ok? && other != name
    ensures Scan(Updated(ops, name, symbol), other) == Scan(ops, other)
  {
    var p := Position(ops, name);
    PositionScanned(ops, name);
    var tail := if p < |ops| then ops[p + 1..] else [];
    assert Updated(ops, name, symbol) == ops[..p] + ([symbol] + tail);
    assert ([symbol] + tail)[1..] == tail;
    assert ops == ops[..p] + ops[p..];
    if p < |ops| {
      assert ops[p..][1..] == tail;
    }
    ScanTail(ops[..p], [symbol] + tail, ops[p..], other);
  }

  /**
   Names stay unique exactly when no operation outside the symbol interface carries the name:
   the verifier counts such an operation and lookup does not see it.
   */
  lemma UniqueExactly(ops: Ops, name: string, symbol: Op)
    requires Named(symbol, name) && Scan(ops, name).Ok? && Unique(ops)
    ensures Unique(Updated(ops, name, symbol)) <==> !Hidden(ops, name)
  {
    var p := Position(ops, name);
    PositionScanned(ops, name);
    var now := Updated(ops, name, symbol);
    assert now[p] == symbol;
    assert forall i :: 0 <= i < |ops| && i != p ==> now[i] == ops[i];
    if Hidden(ops, name) {
      var h :| 0 <= h < |ops| && ops[h].interface.NoInterface? && ops[h].symName == Str(name);
      HiddenIsNotNamed(ops, name, h);
      assert now[h].symName == now[p].symName;
    } else {
      NothingElseNamed(ops, name);
    }
  }

  ghost predicate Hidden(ops: Ops, name: string)
  {
    exists h :: 0 <= h < |ops| && ops[h].interface.NoInterface? && ops[h].symName == Str(name)
  }

  lemma HiddenIsNotNamed(ops: Ops, name: string, h: nat)
    requires Scan(ops, name).Ok? && h < |ops| && ops[h].interface.NoInterface?
    ensures h != Position(ops, name)
  {
    PositionScanned(ops, name);
  }

  lemma NothingElseNamed(ops: Ops, name: string)
    requires Scan(ops, name).Ok? && Unique(ops) && !Hidden(ops, name)
    ensures forall i :: 0 <= i < |ops| && i != Position(ops, name) ==> ops[i].symName != Str(name)
  {
    var p := Position(ops, name);
    PositionScanned(ops, name);
    forall i | 0 <= i < |ops| && i != p
      ensures ops[i].symName != Str(name)
    {
      assert i < p ==> !Named(ops[i], name);
      if p < i {
        assert ops[p].symName == Str(name);
      }
    }
  }

  /** Putting the replaced operation back undoes an insertion that replaced one. */
  lemma PutBack(ops: Ops, name: string, symbol: Op, replaced: Op)
    requires Named(symbol, name) && Scan(ops, name) == Ok(Some(replaced))
    ensures Updated(Updated(ops, name, symbol), name, replaced) == ops
    ensures Scan(Updated(ops, name, symbol), name) == Ok(Some(symbol))
  {
    InsertedIsFound(ops, name, symbol);
    PositionScanned(ops, name);
    var now := Updated(ops, name, symbol);
    FirstIsPosition(now, name, Position(ops, name));
  }

  lemma {:induction false} FirstIsPosition(ops: Ops, name: string, p: nat)
    requires FirstNamed(ops, name, p)
    ensures Position(ops, name) == p
  {
    if p > 0 {
      FirstIsPosition(ops[1..], name, p - 1);
    }
  }

  /** The table with another list of operations in its block. */
  ghost function WithOps(table: Op, ops: Ops): (r: Op)
    requires Body(table).Ok?
    ensures Body(r) == Ok(ops) && r.isTable == table.isTable
  {
    table.(regions := table.regions[0 := [ops]])
  }

  /** Insertion agrees with lookup: its own name, and every path that does not mention that name. */
  lemma {:induction false} InsertAgreesWithLookup(table: Op, symbol: Op, path: seq<string>)
    requires InsertOrUpdate(table, symbol, false).Ok? && path != []
    ensures var name := symbol.symName.name;
            var after := WithOps(table, InsertOrUpdate(table, symbol, false).value.0);
            Lookup([after], [name]) == Ok(Some(symbol))
            && (name !in path ==> Lookup([after], path) == Lookup([table], path))
    decreases |path|
  {
    var name, ops := symbol.symName.name, Body(table).value;
    var after := WithOps(table, Updated(ops, name, symbol));
    InsertedIsFound(ops, name, symbol);
    if name !in path {
      OthersUnchanged(ops, name, symbol, path[0]);
      var found := Scan(ops, path[0]);
      if |path| > 1 && found.Ok? && found.value.Some? {
        InsertAgreesWithLookup(table, symbol, path[1..]);
        var o := found.value.value;
        if o.isTable {
          TableNarrows([table], path, o);
          TableNarrows([after], path, o);
        } else {
          NonTableIsTransparent([table], path, o);
          NonTableIsTransparent([after], path, o);
        }
      }
    }
  }

  class OpCell {
    var op: Op

    constructor (op: Op)
      ensures this.op == op
    {
      this.op := op;
    }

    /** `insert_or_update` with this operation as the symbol table. */
    method InsertOrUpdateSymbol(symbol: Op, attached: bool) returns (r: Result<Option<Op>>)
      modifies this
      ensures var spec := InsertOrUpdate(old(op), symbol, attached);
              match spec
              case Raised(e) => r == Raised(e) && op == old(op)
              case Ok((ops, replaced)) =>
                r == Ok(replaced) && old(op).regions != []
                && op == old(op).(regions := old(op).regions[0 := [ops]])
    {
      if symbol.interface.NoInterface? {
        return Raised(NotASymbol);
      }
      var name :- SymAttrName(symbol);
      if name.None? {
        return Raised(Unnamed);
      }
      if !op.isTable {
        return Raised(NotATable);
      }
      var defined :- LookupSymbol([op], [name.value]);
      if attached {
        return Raised(AlreadyAttached);
      }
      var ops := op.regions[0][0];
      PositionScanned(ops, name.value);
      match defined
      case None =>
        assert Updated(ops, name.value, symbol) == ops + [symbol];
        op := op.(regions := op.regions[0 := [ops + [symbol]]]);
        return Ok(None);
      case Some(found) =>
        var i := IndexOf(ops, name.value, found);
        var inserted := ops[..i + 1] + [symbol] + ops[i + 1..];
        assert Updated(ops, name.value, symbol) == inserted[..i] + inserted[i + 1..];
        op := op.(regions := op.regions[0 := [inserted[..i] + inserted[i + 1..]]]);
        return Ok(Some(found));
    }
  }

  method IndexOf(ops: Ops, ghost name: string, found: Op) returns (i: nat)
    requires Scan(ops, name) == Ok(Some(found))
    ensures i == Position(ops, name) < |ops| && ops[i] == found
  {
    PositionScanned(ops, name);
    i := 0;
    while ops[i] != found
      invariant i <= Position(ops, name)
      decreases |ops| - i
    {
      i := i + 1;
    }
  }
}
