/**
 What the code generator emits is in SSA form, so the interpreter's own scopes return the value of
 the source expression too.
 */
module GeneratedCode {
  import opened Ir
  import opened Semantics
  import opened Refinement
  import opened Dominance
  import opened Safety
  import opened Passes
  import opened Frontend
  import opened CodeGeneration
  import opened Options

  /** Each operation uses what is visible in front of the list and what earlier ones define. */
  ghost predicate Ordered(ops: seq<Op>, visible: set<Value>)
  {
    forall i :: 0 <= i < |ops| ==> WellPlaced(ops[i], visible + Names(Results(ops[..i])))
  }

  /** Values are defined once, and taken from `lo` up to `hi`. */
  ghost predicate Numbered(ops: seq<Op>, lo: Value, hi: Value)
  {
    Distinct(Results(ops)) && (forall v :: v in Results(ops) ==> lo <= v < hi) && UniqueBelow(ops)
  }

  /** No operation transfers control, and nested regions keep the interpreter's rules. */
  ghost predicate Straight(impl: Impl, ops: seq<Op>)
  {
    forall op :: op in ops ==> StraightOp(impl, op)
  }

  ghost predicate StraightOp(impl: Impl, op: Op)
  {
    && (forall inputs, history :: |inputs| == |op.operands| ==> StraightAction(impl(op.code, inputs, history), op))
    && forall r :: r in op.regions ==> Conforms(impl, r)
  }

  predicate StraightAction(action: Action, op: Op)
  {
    match action
    case Raise(_) => true
    case Finish(_, terminator) => terminator.NoTerminator?
    case RunRegionOf(k, args) => k < |op.regions| ==> Supplies(op.regions[k], 0, args)
  }

  // ----- lists in a row -----

  lemma PrefixOfJoined(a: seq<Op>, b: seq<Op>, i: nat)
    requires i <= |a| + |b|
    ensures (a + b)[..i] == if i <= |a| then a[..i] else a + b[..i - |a|]
  {
  }

  lemma ResultsJoined(a: seq<Op>, b: seq<Op>, visible: set<Value>)
    ensures visible + Names(Results(a + b)) == visible + Names(Results(a)) + Names(Results(b))
  {
    ResultsAppend(a, b);
  }

  lemma OrderedAppend(a: seq<Op>, b: seq<Op>, visible: set<Value>)
    requires Ordered(a, visible) && Ordered(b, visible + Names(Results(a)))
    ensures Ordered(a + b, visible)
  {
    forall i | 0 <= i < |a + b| ensures WellPlaced((a + b)[i], visible + Names(Results((a + b)[..i]))) {
      PrefixOfJoined(a, b, i);
      if i >= |a| {
        assert a + b[..0] == a[..|a|];
        ResultsJoined(a, b[..i - |a|], visible);
      }
    }
  }

  lemma {:induction false} DistinctJoin(a: seq<Value>, b: seq<Value>)
    requires Distinct(a) && Distinct(b) && forall v :: v in a ==> v !in b
    ensures Distinct(a + b)
  {
    if a == [] {
      assert a + b == b;
    } else {
      assert (a + b)[0] == a[0] && (a + b)[1..] == a[1..] + b;
      assert a == [a[0]] + a[1..];
      DistinctJoin(a[1..], b);
    }
  }

  lemma NumberedAppend(a: seq<Op>, b: seq<Op>, lo: Value, mid: Value, hi: Value)
    requires lo <= mid <= hi && Numbered(a, lo, mid) && Numbered(b, mid, hi)
    ensures Numbered(a + b, lo, hi)
  {
    ResultsAppend(a, b);
    DistinctJoin(Results(a), Results(b));
  }

  lemma Single(op: Op, visible: set<Value>, v: Value)
    requires op.results == [v] && WellPlaced(op, visible) && forall r :: r in op.regions ==> UniqueDefs(r)
    ensures Ordered([op], visible) && Numbered([op], v, v + 1) && Results([op]) == [v]
  {
    assert [op][..0] == [] && [op][1..] == [];
    assert Results([op]) == op.results + Results([]);
    assert visible + Names(Results([op][..0])) == visible;
  }

  // ----- blocks that end in a terminator -----

  /** A region of one block: straight operations and a terminator that hands on visible values. */
  ghost predicate Terminated(impl: Impl, args: seq<Value>, ops: seq<Op>, last: Op, outer: set<Value>)
  {
    && Ordered(ops, outer + Names(args)) && Straight(impl, ops)
    && Distinct(args + Results(ops)) && UniqueBelow(ops)
    && last.results == [] && last.regions == [] && Names(last.operands) <= outer + Names(args) + Names(Results(ops))
    && forall inputs, history :: impl(last.code, inputs, history) == Finish([], ReturnedValues(inputs))
  }

  lemma BlockWellFormed(impl: Impl, args: seq<Value>, ops: seq<Op>, last: Op, outer: set<Value>)
    requires Terminated(impl, args, ops, last, outer)
    ensures WellFormed(Region([Block(args, ops + [last])]), outer)
  {
    var all := ops + [last];
    var region := Region([Block(args, all)]);
    assert Ordered([last], outer + Names(args) + Names(Results(ops))) by {
      assert [last][..0] == [];
    }
    OrderedAppend(ops, [last], outer + Names(args));
    forall i | 0 <= i < |all| ensures WellPlaced(all[i], Visible(region, outer, 0, i)) {
      assert Visible(region, outer, 0, i) == outer + Names(args) + Names(Results(all[..i]));
    }
  }

  lemma BlockUniqueDefs(impl: Impl, args: seq<Value>, ops: seq<Op>, last: Op, outer: set<Value>)
    requires Terminated(impl, args, ops, last, outer)
    ensures UniqueDefs(Region([Block(args, ops + [last])]))
  {
    ResultsAppend(ops, [last]);
    assert Results([last]) == [] by { assert [last][1..] == []; }
    assert Defs(Block(args, ops + [last])) == args + Results(ops);
  }

  lemma BlockConforms(impl: Impl, args: seq<Value>, ops: seq<Op>, last: Op, outer: set<Value>)
    requires Terminated(impl, args, ops, last, outer)
    ensures Conforms(impl, Region([Block(args, ops + [last])]))
  {
    var all := ops + [last];
    var region := Region([Block(args, all)]);
    forall i | 0 <= i < |all|
      ensures OpConforms(impl, region, all[i], i + 1 == |all|)
      ensures forall r :: r in all[i].regions ==> Conforms(impl, r)
    {
      if i < |ops| {
        assert all[i] in ops && StraightOp(impl, all[i]);
      }
    }
  }

  ghost predicate Proper(impl: Impl, region: Region, outer: set<Value>)
  {
    WellFormed(region, outer) && UniqueDefs(region) && Conforms(impl, region)
  }

  lemma BlockProper(impl: Impl, args: seq<Value>, ops: seq<Op>, last: Op, outer: set<Value>)
    requires Terminated(impl, args, ops, last, outer)
    ensures Proper(impl, Region([Block(args, ops + [last])]), outer)
  {
    BlockWellFormed(impl, args, ops, last, outer);
    BlockUniqueDefs(impl, args, ops, last, outer);
    BlockConforms(impl, args, ops, last, outer);
  }

  // ----- expressions -----

  ghost predicate Sound(impl: Impl, g: Emitted, visible: set<Value>, next: Value)
  {
    && Ordered(g.ops, visible) && Numbered(g.ops, next, g.next) && Straight(impl, g.ops)
    && g.top.value in Results(g.ops) && next <= g.next
  }

  /** One more operation on what is already there. */
  lemma Extended(impl: Impl, g: Emitted, op: Op, ty: Ty, visible: set<Value>, next: Value, v: Value)
    requires Sound(impl, g, visible, next) && g.next <= v
    requires op.results == [v] && WellPlaced(op, visible + Names(Results(g.ops))) && StraightOp(impl, op)
    requires forall r :: r in op.regions ==> UniqueDefs(r)
    ensures Sound(impl, Emitted(g.ops + [op], Typed(v, ty), v + 1), visible, next)
  {
    Single(op, visible + Names(Results(g.ops)), v);
    OrderedAppend(g.ops, [op], visible);
    NumberedAppend(g.ops, [op], next, v, v + 1);
    ResultsAppend(g.ops, [op]);
  }

  lemma Combined(w: World, store: map<string, PyValue>, r: Emitted, l: Emitted, op: Op, ty: Ty, visible: set<Value>, next: Value)
    requires Sound(Implementation(w, store), r, visible, next)
    requires Sound(Implementation(w, store), l, visible + Names(Results(r.ops)), r.next)
    requires op == BinaryOp(op.code.name, op.code.attributes, l.top.value, r.top.value, l.next) && !Reserved(op.code.name)
    ensures Sound(Implementation(w, store), Emitted(r.ops + l.ops + [op], Typed(l.next, ty), l.next + 1), visible, next)
  {
    var both := Emitted(r.ops + l.ops, l.top, l.next);
    OrderedAppend(r.ops, l.ops, visible);
    NumberedAppend(r.ops, l.ops, next, r.next, l.next);
    ResultsAppend(r.ops, l.ops);
    Extended(Implementation(w, store), both, op, ty, visible, next, l.next);
  }

  lemma BranchSound(w: World, store: map<string, PyValue>, g: Emitted, visible: set<Value>, next: Value)
    requires Sound(Implementation(w, store), g, visible, next)
    ensures var region := Region([Block([], g.ops + [YieldOp(g.top.value)])]);
            Proper(Implementation(w, store), region, visible)
  {
    var impl, last := Implementation(w, store), YieldOp(g.top.value);
    assert visible + Names([]) == visible && [] + Results(g.ops) == Results(g.ops);
    assert Terminated(impl, [], g.ops, last, visible);
    BlockProper(impl, [], g.ops, last, visible);
  }

  lemma IfSound(w: World, store: map<string, PyValue>, t: Emitted, y: Emitted, n: Emitted, visible: set<Value>, next: Value)
    requires Sound(Implementation(w, store), t, visible, next)
    requires Sound(Implementation(w, store), y, visible + Names(Results(t.ops)), t.next)
    requires Sound(Implementation(w, store), n, visible + Names(Results(t.ops)), y.next)
    ensures var op := IfOp(t.top.value, y.ops + [YieldOp(y.top.value)], n.ops + [YieldOp(n.top.value)], n.next);
            Sound(Implementation(w, store), Emitted(t.ops + [op], Typed(n.next, y.top.ty), n.next + 1), visible, next)
  {
    var inside := visible + Names(Results(t.ops));
    BranchSound(w, store, y, inside, t.next);
    BranchSound(w, store, n, inside, y.next);
    var yes, no := y.ops + [YieldOp(y.top.value)], n.ops + [YieldOp(n.top.value)];
    IfOpFits(w, store, t.top.value, yes, no, n.next, inside);
    Extended(Implementation(w, store), t, IfOp(t.top.value, yes, no, n.next), y.top.ty, visible, next, n.next);
  }

  lemma IfOpFits(w: World, store: map<string, PyValue>, cond: Value, yes: seq<Op>, no: seq<Op>, v: Value, visible: set<Value>)
    requires cond in visible
    requires Proper(Implementation(w, store), Region([Block([], yes)]), visible)
    requires Proper(Implementation(w, store), Region([Block([], no)]), visible)
    ensures var op := IfOp(cond, yes, no, v);
            WellPlaced(op, visible) && StraightOp(Implementation(w, store), op) && forall r :: r in op.regions ==> UniqueDefs(r)
  {
  }

  lemma FetchSound(w: World, store: map<string, PyValue>, id: string, ty: Ty, visible: set<Value>, next: Value)
    ensures Sound(Implementation(w, store), Emitted([FetchOp(id, next)], Typed(next, ty), next + 1), visible, next)
  {
    Single(FetchOp(id, next), visible, next);
  }

  /** The emitted operations are in SSA form wherever they are put, and keep the interpreter's rules. */
  lemma {:induction false} GeneratedIsSound(w: World, symbols: map<string, Ty>, store: map<string, PyValue>, e: Expr,
                                            next: Value, visible: set<Value>)
    requires Faithful(w) && Generate(w, symbols, e, next).Ok?
    ensures Sound(Implementation(w, store), Generate(w, symbols, e, next).value, visible, next)
    decreases e, 1
  {
    match e
    case Name(id) => FetchSound(w, store, id, symbols[id], visible, next);
    case BinOp(op, left, right) =>
      BinarySound(w, symbols, store, e, left, right, BinaryMethod(op), [], next, visible);
    case Compare(first, ops, comparators) =>
      BinarySound(w, symbols, store, e, first, comparators[0], ComparisonMethod(ops[0]), Mnemonic(ops[0]), next, visible);
    case IfExp(test, body, orelse) => ConditionalSound(w, symbols, store, test, body, orelse, next, visible);
  }

  lemma {:induction false} ConditionalSound(w: World, symbols: map<string, Ty>, store: map<string, PyValue>,
                                            test: Expr, body: Expr, orelse: Expr, next: Value, visible: set<Value>)
    requires Faithful(w) && Generate(w, symbols, IfExp(test, body, orelse), next).Ok?
    ensures Sound(Implementation(w, store), Generate(w, symbols, IfExp(test, body, orelse), next).value, visible, next)
    decreases IfExp(test, body, orelse), 0
  {
    var t := Generate(w, symbols, test, next).value;
    var y := Generate(w, symbols, body, t.next).value;
    var n := Generate(w, symbols, orelse, y.next).value;
    GeneratedIsSound(w, symbols, store, test, next, visible);
    GeneratedIsSound(w, symbols, store, body, t.next, visible + Names(Results(t.ops)));
    GeneratedIsSound(w, symbols, store, orelse, y.next, visible + Names(Results(t.ops)));
    IfSound(w, store, t, y, n, visible, next);
  }

  /** Overloads do not resolve to the operations the generator emits by itself. */
  lemma NotReserved(w: World, method_: string, ty: Ty)
    requires Faithful(w)
    ensures w.resolve(method_, ty).Some? ==> !Reserved(w.resolve(method_, ty).value.name)
  {
    var o := w.resolve(method_, ty);
    if o.Some? {
      assert FaithfulOverload(w, method_, ty, o.value.name);
    }
  }

  lemma {:induction false} BinarySound(w: World, symbols: map<string, Ty>, store: map<string, PyValue>, e: Expr,
                                       left: Expr, right: Expr, method_: string, attributes: seq<string>,
                                       next: Value, visible: set<Value>)
    requires Faithful(w) && left < e && right < e
    requires Generate(w, symbols, right, next).Ok?
    requires Generate(w, symbols, left, Generate(w, symbols, right, next).value.next).Ok?
    requires var r := Generate(w, symbols, right, next).value;
             Combine(w, r, Generate(w, symbols, left, r.next).value, method_, attributes).Ok?
    ensures var r := Generate(w, symbols, right, next).value;
            var g := Combine(w, r, Generate(w, symbols, left, r.next).value, method_, attributes).value;
            Sound(Implementation(w, store), g, visible, next)
    decreases e, 0
  {
    var r := Generate(w, symbols, right, next).value;
    var l := Generate(w, symbols, left, r.next).value;
    GeneratedIsSound(w, symbols, store, right, next, visible);
    GeneratedIsSound(w, symbols, store, left, r.next, visible + Names(Results(r.ops)));
    NotReserved(w, method_, l.top.ty);
    var o := w.resolve(method_, l.top.ty).value;
    Combined(w, store, r, l, BinaryOp(o.name, attributes, l.top.value, r.top.value, l.next), o.result, visible, next);
  }

  // ----- functions -----

  lemma {:induction false} ArgumentsNumbered(n: nat)
    ensures Distinct(Arguments(n)) && forall v: Value :: v in Arguments(n) <==> v < n
  {
    if n > 0 {
      assert [n - 1][1..] == [];
      ArgumentsNumbered(n - 1);
      DistinctJoin(Arguments(n - 1), [n - 1]);
    }
  }

  /** Operations that define nothing and use what is visible. */
  ghost predicate Quiet(impl: Impl, ops: seq<Op>, visible: set<Value>)
  {
    forall op :: op in ops ==> op.results == [] && op.regions == [] && Names(op.operands) <= visible && StraightOp(impl, op)
  }

  lemma {:induction false} QuietResults(impl: Impl, ops: seq<Op>, visible: set<Value>)
    requires Quiet(impl, ops, visible)
    ensures Results(ops) == []
  {
    if ops != [] {
      assert ops[0] in ops;
      QuietResults(impl, ops[1..], visible);
    }
  }

  lemma QuietIsSound(impl: Impl, ops: seq<Op>, visible: set<Value>)
    requires Quiet(impl, ops, visible)
    ensures Results(ops) == [] && Ordered(ops, visible) && Straight(impl, ops) && UniqueBelow(ops)
  {
    QuietResults(impl, ops, visible);
    forall i | 0 <= i < |ops| ensures WellPlaced(ops[i], visible + Names(Results(ops[..i]))) {
      assert ops[i] in ops;
    }
  }

  lemma DeclareIsQuiet(w: World, store: map<string, PyValue>, name: string)
    ensures StraightOp(Implementation(w, store), DeclareOp(name))
  {
  }

  lemma UpdateIsQuiet(w: World, store: map<string, PyValue>, name: string, v: Value)
    ensures StraightOp(Implementation(w, store), UpdateOp(name, v))
  {
  }

  /** The prologue defines no value and stores only arguments. */
  lemma {:induction false} PrologueQuiet(w: World, store: map<string, PyValue>, params: seq<Param>, n: nat, visible: set<Value>)
    requires n <= |params| && forall i :: 0 <= i < n ==> i in visible
    ensures Quiet(Implementation(w, store), Prologue(params, n), visible)
  {
    if n > 0 {
      PrologueQuiet(w, store, params, n - 1, visible);
      DeclareIsQuiet(w, store, params[n - 1].name);
      UpdateIsQuiet(w, store, params[n - 1].name, n - 1);
    }
  }

  /** Quiet operations in front of others that end in a terminator. */
  lemma Prefixed(impl: Impl, args: seq<Value>, prologue: seq<Op>, ops: seq<Op>, last: Op)
    requires Quiet(impl, prologue, Names(args)) && Terminated(impl, args, ops, last, {})
    ensures Terminated(impl, args, prologue + ops, last, {})
  {
    QuietIsSound(impl, prologue, Names(args));
    assert {} + Names(args) == Names(args) && Names(args) + Names([]) == Names(args);
    OrderedAppend(prologue, ops, Names(args));
    ResultsAppend(prologue, ops);
    assert Results(prologue + ops) == Results(ops);
  }

  /** The return statement ends what computes its value. */
  lemma BodyTerminated(w: World, store: map<string, PyValue>, symbols: map<string, Ty>, def: FunctionDef)
    requires var n := |def.params|; Faithful(w) && GenerateReturn(w, symbols, def.result, def.returns_, n).Ok?
    ensures var n := |def.params|;
            var body := GenerateReturn(w, symbols, def.result, def.returns_, n).value;
            body != [] && Terminated(Implementation(w, store), Arguments(n), body[..|body| - 1], body[|body| - 1], {})
  {
    var n := |def.params|;
    var args := Arguments(n);
    ArgumentsNumbered(n);
    var body := GenerateReturn(w, symbols, def.result, def.returns_, n).value;
    assert {} + Names(args) == Names(args);
    if def.result.None? {
      assert body == [ReturnOp([])] && args + [] == args;
    } else {
      var g := Generate(w, symbols, def.result.value, n).value;
      GeneratedIsSound(w, symbols, store, def.result.value, n, Names(args));
      DistinctJoin(args, Results(g.ops));
      assert body[..|body| - 1] == g.ops && body[|body| - 1] == ReturnOp([g.top.value]);
    }
  }

  lemma FunctionTerminated(w: World, store: map<string, PyValue>, symbols: map<string, Ty>, def: FunctionDef)
    requires Faithful(w) && GenerateReturn(w, symbols, def.result, def.returns_, |def.params|).Ok?
    ensures var n := |def.params|;
            var body := GenerateReturn(w, symbols, def.result, def.returns_, n).value;
            body != [] && Terminated(Implementation(w, store), Arguments(n), Prologue(def.params, n) + body[..|body| - 1],
                                     body[|body| - 1], {})
  {
    var n := |def.params|;
    var body := GenerateReturn(w, symbols, def.result, def.returns_, n).value;
    BodyTerminated(w, store, symbols, def);
    assert Quiet(Implementation(w, store), Prologue(def.params, n), Names(Arguments(n))) by {
      ArgumentsNumbered(n);
      PrologueQuiet(w, store, def.params, n, Names(Arguments(n)));
    }
    Prefixed(Implementation(w, store), Arguments(n), Prologue(def.params, n), body[..|body| - 1], body[|body| - 1]);
  }

  lemma BodyProper(impl: Impl, args: seq<Value>, prologue: seq<Op>, body: seq<Op>)
    requires body != [] && Terminated(impl, args, prologue + body[..|body| - 1], body[|body| - 1], {})
    ensures Proper(impl, Region([Block(args, prologue + body)]), {})
  {
    assert prologue + body == prologue + body[..|body| - 1] + [body[|body| - 1]];
    BlockProper(impl, args, prologue + body[..|body| - 1], body[|body| - 1], {});
  }

  lemma RegionProper(w: World, store: map<string, PyValue>, symbols: map<string, Ty>, def: FunctionDef)
    requires Faithful(w) && GenerateReturn(w, symbols, def.result, def.returns_, |def.params|).Ok?
    ensures var n := |def.params|;
            var body := GenerateReturn(w, symbols, def.result, def.returns_, n).value;
            Proper(Implementation(w, store), Region([Block(Arguments(n), Prologue(def.params, n) + body)]), {})
  {
    var n := |def.params|;
    FunctionTerminated(w, store, symbols, def);
    BodyProper(Implementation(w, store), Arguments(n), Prologue(def.params, n),
               GenerateReturn(w, symbols, def.result, def.returns_, n).value);
  }

  /** A generated function is in SSA form and keeps the interpreter's rules. */
  lemma FunctionIsSound(w: World, def: FunctionDef, store: map<string, PyValue>)
    requires Faithful(w) && GenerateFunction(w, def).Ok?
    ensures Proper(Implementation(w, store), GenerateFunction(w, def).value, {})
  {
    RegionProper(w, store, Symbols(def.params, |def.params|), def);
  }

  /**
   On the interpreter's own single-assignment scopes, as long as they hold no value yet, calling
   the generated function returns the value of its expression.
   */
  lemma FunctionOnScopes(w: World, def: FunctionDef, args: PyValues, chain: Chain, limit: nat)
    requires Faithful(w) && limit > 0 && |args| == |def.params|
    requires GenerateFunction(w, def).Ok?
    requires def.result.Some? && UsesIn(def.result.value) ==> ContainsCommutes(w)
    requires Flatten(chain) == map[]
    ensures var region := GenerateFunction(w, def).value;
            var n := |def.params|;
            var store := Actuals(def.params, args, n);
            var run := ScopedRegion(Implementation(w, store), region, args, chain, limit);
            && NoSsaError(run)
            && Symbols(def.params, n).Keys <= store.Keys
            && if def.result.None? then run == Done([])
               else
                 && TypeOf(w, Symbols(def.params, n), def.result.value) == Ok(def.returns_.value)
                 && var value := Eval(w, Symbols(def.params, n), store, def.result.value);
                    run == if value.Some? then Done([value.value]) else Failed(Raised(0))
  {
    var n := |def.params|;
    var store := Actuals(def.params, args, n);
    var region := GenerateFunction(w, def).value;
    FunctionCorrect(w, def, args, limit);
    FunctionIsSound(w, def, store);
    ScopedRefinesFlat(Implementation(w, store), region, args, chain, limit);
  }
}
