/**
 When names are used once in a walk, told from the pattern and the block alone: each value owns a
 territory of names from which what replaces it may take new ones, and values give way only to values
 that may stand wherever they may.
 */
module Naming {
  import opened Ir
  import opened Refinement
  import opened Substitution
  import opened PatternRewriters
  import opened Measures
  import opened Walks
  import opened Factoring

  // ----- definitions, in order -----

  function Defined(ops: seq<Op>): seq<Value>
    decreases ops
  {
    if ops == [] then [] else OpDefined(ops[0]) + Defined(ops[1..])
  }

  function OpDefined(op: Op): seq<Value>
    decreases op
  {
    op.results + RegionsDefined(op.regions)
  }

  function RegionsDefined(regions: seq<Region>): seq<Value>
    decreases regions
  {
    if regions == [] then [] else BlocksDefined(regions[0].blocks) + RegionsDefined(regions[1..])
  }

  function BlocksDefined(blocks: seq<Block>): seq<Value>
    decreases blocks
  {
    if blocks == [] then [] else BlockDefined(blocks[0]) + BlocksDefined(blocks[1..])
  }

  function BlockDefined(block: Block): seq<Value>
    decreases block
  {
    block.args + Defined(block.ops)
  }

  lemma {:induction false} DefinedAppend(a: seq<Op>, b: seq<Op>)
    ensures Defined(a + b) == Defined(a) + Defined(b)
  {
    if a == [] {
      assert a + b == b;
    } else {
      assert (a + b)[0] == a[0] && (a + b)[1..] == a[1..] + b;
      DefinedAppend(a[1..], b);
    }
  }

  lemma {:induction false} BlocksDefinedAppend(a: seq<Block>, b: seq<Block>)
    ensures BlocksDefined(a + b) == BlocksDefined(a) + BlocksDefined(b)
  {
    if a == [] {
      assert a + b == b;
    } else {
      assert (a + b)[0] == a[0] && (a + b)[1..] == a[1..] + b;
      BlocksDefinedAppend(a[1..], b);
    }
  }

  lemma DefinedOne(op: Op)
    ensures Defined([op]) == OpDefined(op)
  {
    assert [op][1..] == [];
  }

  lemma BlocksDefinedOne(block: Block)
    ensures BlocksDefined([block]) == BlockDefined(block)
  {
    assert [block][1..] == [];
  }

  /** Redirections change no definition. */
  lemma {:induction false} DefinedSubst(s: Redirect, ops: seq<Op>)
    ensures Defined(SubstOps(s, ops)) == Defined(ops)
    decreases ops
  {
    if ops != [] {
      assert SubstOps(s, ops)[1..] == SubstOps(s, ops[1..]);
      OpDefinedSubst(s, ops[0]);
      DefinedSubst(s, ops[1..]);
    }
  }

  lemma {:induction false} OpDefinedSubst(s: Redirect, op: Op)
    ensures OpDefined(SubstOp(s, op)) == OpDefined(op)
    decreases op
  {
    RegionsDefinedSubst(s, op.regions);
    assert SubstOp(s, op).regions == SubstRegions(s, op.regions);
  }

  lemma {:induction false} RegionsDefinedSubst(s: Redirect, regions: seq<Region>)
    ensures RegionsDefined(SubstRegions(s, regions)) == RegionsDefined(regions)
    decreases regions
  {
    if regions != [] {
      assert SubstRegions(s, regions)[1..] == SubstRegions(s, regions[1..]);
      assert SubstRegion(s, regions[0]).blocks == SubstBlocks(s, regions[0].blocks);
      BlocksDefinedSubst(s, regions[0].blocks);
      RegionsDefinedSubst(s, regions[1..]);
    }
  }

  lemma {:induction false} BlocksDefinedSubst(s: Redirect, blocks: seq<Block>)
    ensures BlocksDefined(SubstBlocks(s, blocks)) == BlocksDefined(blocks)
    decreases blocks
  {
    if blocks != [] {
      assert SubstBlocks(s, blocks)[1..] == SubstBlocks(s, blocks[1..]);
      DefinedSubst(s, blocks[0].ops);
      BlocksDefinedSubst(s, blocks[1..]);
    }
  }

  // ----- uses below definitions -----

  /** Which values may be used by an operation that defines which. */
  type Order = (Value, Value) -> bool

  /** Operations use values below those they define, at every depth. */
  ghost predicate Ordered(below: Order, ops: seq<Op>)
    decreases ops
  {
    forall op :: op in ops ==> OrderedOp(below, op)
  }

  ghost predicate OrderedOp(below: Order, op: Op)
    decreases op
  {
    && (forall u, v :: u in op.operands && v in op.results ==> below(u, v))
    && OrderedRegions(below, op.regions)
  }

  ghost predicate OrderedRegions(below: Order, regions: seq<Region>)
    decreases regions
  {
    forall region :: region in regions ==> OrderedBlocks(below, region.blocks)
  }

  ghost predicate OrderedBlocks(below: Order, blocks: seq<Block>)
    decreases blocks
  {
    forall block :: block in blocks ==> Ordered(below, block.ops)
  }

  /** `t` is below whatever `v` is below, so it may take its place. */
  ghost predicate AtMost(below: Order, t: Value, v: Value)
  {
    forall x :: below(v, x) ==> below(t, x)
  }

  /** Values give way to values that may take their place. */
  ghost predicate Descending(below: Order, s: Redirect)
  {
    forall v :: v in s ==> AtMost(below, s[v], v)
  }

  lemma DescendingCompose(below: Order, s: Redirect, t: Redirect)
    requires Descending(below, s) && Descending(below, t)
    ensures Descending(below, Compose(s, t))
  {
    forall v | v in Compose(s, t) ensures AtMost(below, Compose(s, t)[v], v) {
      var u := Target(s, v);
      assert AtMost(below, u, v);
      assert AtMost(below, Target(t, u), u);
    }
  }

  lemma {:induction false} OrderedSubst(below: Order, s: Redirect, ops: seq<Op>)
    requires Descending(below, s) && Ordered(below, ops)
    ensures Ordered(below, SubstOps(s, ops))
    decreases ops
  {
    forall op' | op' in SubstOps(s, ops) ensures OrderedOp(below, op') {
      var i :| 0 <= i < |ops| && SubstOps(s, ops)[i] == op';
      assert ops[i] in ops;
      OrderedOpSubst(below, s, ops[i]);
    }
  }

  lemma {:induction false} OrderedOpSubst(below: Order, s: Redirect, op: Op)
    requires Descending(below, s) && OrderedOp(below, op)
    ensures OrderedOp(below, SubstOp(s, op))
    decreases op
  {
    var op' := SubstOp(s, op);
    forall u', v | u' in op'.operands && v in op'.results ensures below(u', v) {
      var i :| 0 <= i < |op.operands| && op'.operands[i] == u';
      assert op.operands[i] in op.operands && below(op.operands[i], v);
      assert op.operands[i] in s ==> AtMost(below, s[op.operands[i]], op.operands[i]);
    }
    OrderedRegionsSubst(below, s, op.regions);
    assert op'.regions == SubstRegions(s, op.regions);
  }

  lemma {:induction false} OrderedRegionsSubst(below: Order, s: Redirect, regions: seq<Region>)
    requires Descending(below, s) && OrderedRegions(below, regions)
    ensures OrderedRegions(below, SubstRegions(s, regions))
    decreases regions
  {
    forall region' | region' in SubstRegions(s, regions) ensures OrderedBlocks(below, region'.blocks) {
      var i :| 0 <= i < |regions| && SubstRegions(s, regions)[i] == region';
      assert regions[i] in regions && region'.blocks == SubstBlocks(s, regions[i].blocks);
      OrderedBlocksSubst(below, s, regions[i].blocks);
    }
  }

  lemma {:induction false} OrderedBlocksSubst(below: Order, s: Redirect, blocks: seq<Block>)
    requires Descending(below, s) && OrderedBlocks(below, blocks)
    ensures OrderedBlocks(below, SubstBlocks(s, blocks))
    decreases blocks
  {
    forall block' | block' in SubstBlocks(s, blocks) ensures Ordered(below, block'.ops) {
      var i :| 0 <= i < |blocks| && SubstBlocks(s, blocks)[i] == block';
      assert blocks[i] in blocks;
      OrderedSubst(below, s, blocks[i].ops);
    }
  }

  // ----- territories -----

  /** The names that a value owns: itself, and those that may be given to values made from it. */
  type Territory = Value -> iset<Value>

  ghost function Land(own: Territory, vs: seq<Value>): iset<Value>
  {
    iset v, x | v in vs && x in own(v) :: x
  }

  ghost predicate Apart(own: Territory, vs: seq<Value>)
  {
    forall i, j :: 0 <= i < j < |vs| ==> own(vs[i]) !! own(vs[j])
  }

  lemma LandAppend(own: Territory, a: seq<Value>, b: seq<Value>)
    ensures Land(own, a + b) == Land(own, a) + Land(own, b)
  {
  }

  lemma ApartAppend(own: Territory, a: seq<Value>, b: seq<Value>)
    ensures Apart(own, a + b) <==> Apart(own, a) && Apart(own, b) && Land(own, a) !! Land(own, b)
  {
    var ab := a + b;
    if Apart(own, ab) {
      forall i, j | 0 <= i < j < |a| ensures own(a[i]) !! own(a[j]) {
        assert ab[i] == a[i] && ab[j] == a[j];
      }
      forall i, j | 0 <= i < j < |b| ensures own(b[i]) !! own(b[j]) {
        assert ab[|a| + i] == b[i] && ab[|a| + j] == b[j];
      }
      forall x | x in Land(own, a) ensures x !in Land(own, b) {
        var i :| 0 <= i < |a| && x in own(a[i]);
        forall j | 0 <= j < |b| ensures x !in own(b[j]) {
          assert ab[i] == a[i] && ab[|a| + j] == b[j];
        }
      }
    }
    if Apart(own, a) && Apart(own, b) && Land(own, a) !! Land(own, b) {
      forall i, j | 0 <= i < j < |ab| ensures own(ab[i]) !! own(ab[j]) {
        if i < |a| && j >= |a| {
          assert forall x :: x in own(ab[i]) ==> x in Land(own, a);
          assert forall x :: x in own(ab[j]) ==> x in Land(own, b);
        }
      }
    }
  }

  /** The territories are apart, and free of the values that are gone. */
  ghost predicate Clear(own: Territory, gone: set<Value>, vs: seq<Value>)
  {
    Apart(own, vs) && forall v :: v in gone ==> v !in Land(own, vs)
  }

  /** From the definitions `was` to `now` by the actions in `log`. */
  ghost predicate Tidy(own: Territory, gone: set<Value>, was: seq<Value>, log: seq<Visit>, now: seq<Value>)
  {
    && Proper(gone, log) && Apart(own, now) && Land(own, now) <= Land(own, was)
    && forall v :: v in Replaced(log) ==> v in Land(own, was) && v !in Land(own, now)
  }

  lemma TidyNothing(own: Territory, gone: set<Value>, vs: seq<Value>)
    requires Clear(own, gone, vs)
    ensures Tidy(own, gone, vs, [], vs)
  {
  }

  lemma TidyClear(own: Territory, gone: set<Value>, was: seq<Value>, log: seq<Visit>, now: seq<Value>)
    requires Clear(own, gone, was) && Tidy(own, gone, was, log, now)
    ensures Clear(own, gone + Replaced(log), now)
  {
  }

  lemma ClearPart(own: Territory, gone: set<Value>, p: seq<Value>, x: seq<Value>, q: seq<Value>)
    requires Clear(own, gone, p + x + q)
    ensures Clear(own, gone, x)
  {
    ApartAppend(own, p + x, q);
    ApartAppend(own, p, x);
    LandAppend(own, p + x, q);
    LandAppend(own, p, x);
  }

  /** What happens in one territory leaves the others alone. */
  lemma TidyFrame(own: Territory, gone: set<Value>, p: seq<Value>, x: seq<Value>, q: seq<Value>, log: seq<Visit>, x': seq<Value>)
    requires Clear(own, gone, p + x + q) && Tidy(own, gone, x, log, x')
    ensures Tidy(own, gone, p + x + q, log, p + x' + q)
  {
    ApartAppend(own, p + x, q);
    ApartAppend(own, p, x);
    LandAppend(own, p + x, q);
    LandAppend(own, p, x);
    LandAppend(own, p + x', q);
    LandAppend(own, p, x');
    ApartAppend(own, p, x');
    ApartAppend(own, p + x', q);
  }

  lemma TidyAgain(own: Territory, gone: set<Value>, was: seq<Value>, l: seq<Visit>, mid: seq<Value>, m: seq<Visit>, now: seq<Value>)
    requires Tidy(own, gone, was, l, mid) && Tidy(own, gone + Replaced(l), mid, m, now)
    ensures Tidy(own, gone, was, l + m, now)
  {
    ProperAppend(gone, l, m);
  }

  // ----- patterns -----

  /**
   The condition on a pattern: what it leaves takes its names from the territories of what the
   operation defined, the replaced results are in none of them any more, and each gives way to a value
   that may take its place and is not one of them.
   */
  ghost predicate Tame(pattern: Pattern, own: Territory, below: Order)
    requires LegalPattern(pattern)
  {
    (forall v :: v in own(v)) && forall op :: TameAt(pattern, own, below, op)
  }

  ghost predicate TameAt(pattern: Pattern, own: Territory, below: Order, op: Op)
    requires LegalPattern(pattern)
  {
    Acts(pattern, op) && Apart(own, OpDefined(op)) && OrderedOp(below, op) ==>
      var rw, land := Rewritten(pattern, op), Land(own, OpDefined(op));
      && Apart(own, Defined(rw.Affected())) && Land(own, Defined(rw.Affected())) <= land
      && (forall v :: v in CallsDefs(pattern(op)) ==> v in land)
      && |rw.replaced| == |rw.targets| && Distinct(rw.replaced)
      && (forall v :: v in rw.replaced ==> v in land && v !in Land(own, Defined(rw.Affected())))
      && (forall t :: t in rw.targets ==> t !in rw.replaced)
      && (forall j :: 0 <= j < |rw.targets| ==> AtMost(below, rw.targets[j], rw.replaced[j]))
      && Ordered(below, rw.Affected())
  }

  lemma TameVisit(pattern: Pattern, own: Territory, below: Order, op: Op, gone: set<Value>)
    requires LegalPattern(pattern) && Tame(pattern, own, below) && Acts(pattern, op)
    requires Clear(own, gone, OpDefined(op)) && OrderedOp(below, op)
    ensures var rw := Rewritten(pattern, op);
            && Tidy(own, gone, OpDefined(op), [VisitOf(pattern, op)], Defined(rw.Left()))
            && Descending(below, rw.Redirection()) && Ordered(below, rw.Left())
  {
    assert TameAt(pattern, own, below, op);
    var rw, visit := Rewritten(pattern, op), VisitOf(pattern, op);
    assert CleanReplacement(rw);
    assert [visit][1..] == [] && Replaced([visit]) == visit.replaced + {};
    RedirectionDescends(below, rw.replaced, rw.targets);
    OrderedSubst(below, rw.Redirection(), rw.Affected());
    DefinedSubst(rw.Redirection(), rw.Affected());
  }

  lemma RedirectionDescends(below: Order, results: seq<Value>, targets: seq<Value>)
    requires |results| == |targets| && Distinct(results) && forall t :: t in targets ==> t !in results
    requires forall j :: 0 <= j < |targets| ==> AtMost(below, targets[j], results[j])
    ensures Descending(below, Redirections(results, targets, |targets|))
  {
    AtOnce(results, targets);
    var s := Redirections(results, targets, |targets|);
    forall v | v in s ensures AtMost(below, s[v], v) {
      var j :| 0 <= j < |results| && results[j] == v;
      assert s[results[j]] == targets[j];
    }
  }
}
