/**
 A replacement keeps the SSA discipline, so passes made of any number of replacements preserve
 meaning.
 */
module Passes {
  import opened Ir
  import opened Semantics
  import opened Refinement
  import opened Dominance
  import opened Substitution
  import opened Replacement
  import opened Preservation
  import opened Simulation

  function After(e: Edit): (r: Region)
    requires At(e.region, e.b, e.i)
    ensures |r.blocks| == |e.region.blocks|
  {
    Replaced(e.region, e.b, e.i, e.newOps, e.s)
  }

  // ----- what the new operations have to respect -----

  /** Neither the old operation nor the new ones branch. */
  ghost predicate Plain(e: Edit)
    requires At(e.region, e.b, e.i)
  {
    e.Old().successors == [] && forall op :: op in e.newOps ==> op.successors == []
  }

  /** The values visible to new operation `k`. */
  ghost function VisibleTo(e: Edit, k: nat): set<Value>
    requires At(e.region, e.b, e.i) && k <= |e.newOps|
  {
    Visible(e.region, e.outer, e.b, e.i) + Names(Results(e.newOps[..k]))
  }

  /** The new operations use what is visible where the old one stood, and each other in order. */
  ghost predicate Placed(e: Edit)
    requires At(e.region, e.b, e.i)
  {
    forall k :: 0 <= k < |e.newOps| ==>
      && Names(e.newOps[k].operands) <= VisibleTo(e, k)
      && forall r :: r in e.newOps[k].regions ==> WellFormed(r, VisibleTo(e, k))
  }

  /** What the new operations define is new; they may take over what was nested in the old one. */
  ghost predicate New(e: Edit)
    requires At(e.region, e.b, e.i)
  {
    && (forall k :: 0 <= k < |e.newOps| ==> NewOp(e, e.newOps[k]))
    && (forall k, m :: 0 <= k < |e.newOps| && 0 <= m < |e.newOps| && k != m ==> AllDefs(e.newOps[k]) !! AllDefs(e.newOps[m]))
  }

  ghost predicate NewOp(e: Edit, op: Op)
    requires At(e.region, e.b, e.i)
  {
    && AllDefs(op) !! e.outer + Names(e.Old().results)
    && Names(op.results) !! NestedDefs(op)
    && (forall c :: 0 <= c < |e.region.blocks| ==> Names(e.region.blocks[c].args) !! AllDefs(op))
    && (forall c: nat, j: nat :: At(e.region, c, j) && (c, j) != (e.b, e.i) ==> AllDefs(e.region.blocks[c].ops[j]) !! AllDefs(op))
  }

  /** Some walk from the entry block reaches `b`. */
  ghost predicate Reachable(region: Region, b: nat)
  {
    exists p :: IsPath(region, p) && p[|p| - 1] == b
  }

  ghost predicate Disciplined(e: Edit)
    requires At(e.region, e.b, e.i)
  {
    Reachable(e.region, e.b) && Plain(e) && Placed(e) && New(e)
  }

  // ----- where operations are afterwards -----

  /** The position of operation `j` of block `c` afterwards. */
  function Moved(e: Edit, c: nat, j: nat): nat
  {
    if c == e.b && j > e.i then j - 1 + |e.newOps| else j
  }

  lemma AfterBlock(e: Edit, c: nat)
    requires At(e.region, e.b, e.i) && c < |e.region.blocks|
    ensures After(e).blocks[c].args == e.region.blocks[c].args
    ensures After(e).blocks[c].ops
         == SubstOps(e.s, if c == e.b then Splice(e.region.blocks[c].ops, e.i, e.newOps) else e.region.blocks[c].ops)
  {
    ReplacedBlock(e, c);
  }

  lemma AfterAt(e: Edit, c: nat, j: nat)
    requires At(e.region, e.b, e.i) && At(e.region, c, j) && (c, j) != (e.b, e.i)
    ensures At(After(e), c, Moved(e, c, j))
    ensures After(e).blocks[c].ops[Moved(e, c, j)] == SubstOp(e.s, e.region.blocks[c].ops[j])
  {
    AfterBlock(e, c);
  }

  lemma AfterNew(e: Edit, k: nat)
    requires At(e.region, e.b, e.i) && k < |e.newOps|
    ensures At(After(e), e.b, e.i + k)
    ensures After(e).blocks[e.b].ops[e.i + k] == SubstOp(e.s, e.newOps[k])
  {
    AfterBlock(e, e.b);
  }

  /** Every operation afterwards was there before, or is new. */
  lemma AfterFrom(e: Edit, c: nat, m: nat) returns (kept: bool, j: nat)
    requires At(e.region, e.b, e.i) && At(After(e), c, m)
    ensures kept ==> At(e.region, c, j) && (c, j) != (e.b, e.i) && m == Moved(e, c, j)
    ensures !kept ==> c == e.b && j < |e.newOps| && m == e.i + j
  {
    AfterBlock(e, c);
    var n := |e.newOps|;
    if c != e.b || m < e.i {
      kept, j := true, m;
    } else if m < e.i + n {
      kept, j := false, m - e.i;
    } else {
      kept, j := true, m + 1 - n;
    }
  }

  // ----- the graph is the same -----

  lemma SameEdge(e: Edit, a: nat, c: nat)
    requires At(e.region, e.b, e.i) && Plain(e)
    ensures Edge(After(e), a, c) <==> Edge(e.region, a, c)
  {
    if Edge(e.region, a, c) {
      var op :| op in e.region.blocks[a].ops && c in op.successors;
      var j :| 0 <= j < |e.region.blocks[a].ops| && e.region.blocks[a].ops[j] == op;
      AfterAt(e, a, j);
    }
    if Edge(After(e), a, c) {
      var op :| op in After(e).blocks[a].ops && c in op.successors;
      var m :| 0 <= m < |After(e).blocks[a].ops| && After(e).blocks[a].ops[m] == op;
      var kept, j := AfterFrom(e, a, m);
      if kept {
        AfterAt(e, a, j);
        assert e.region.blocks[a].ops[j] in e.region.blocks[a].ops;
      } else {
        AfterNew(e, j);
        assert e.newOps[j] in e.newOps;
      }
    }
  }

  lemma SamePath(e: Edit, p: seq<nat>)
    requires At(e.region, e.b, e.i) && Plain(e)
    ensures IsPath(After(e), p) <==> IsPath(e.region, p)
  {
    SameGraphPath(e.region, After(e), p) by {
      forall a, c ensures Edge(After(e), a, c) <==> Edge(e.region, a, c) {
        SameEdge(e, a, c);
      }
    }
  }

  lemma SameGraphPath(region: Region, other: Region, p: seq<nat>)
    requires |region.blocks| == |other.blocks|
    requires forall a, c :: Edge(other, a, c) <==> Edge(region, a, c)
    ensures IsPath(other, p) <==> IsPath(region, p)
  {
  }

  lemma SameDominance(e: Edit, d: nat, c: nat)
    requires At(e.region, e.b, e.i) && Plain(e)
    ensures Dominates(After(e), d, c) <==> Dominates(e.region, d, c)
  {
    forall p ensures IsPath(After(e), p) <==> IsPath(e.region, p) {
      SamePath(e, p);
    }
  }

  // ----- what is visible afterwards -----

  /** A block still defines what it defined, the old results aside. */
  lemma StillDefined(e: Edit, c: nat, v: Value)
    requires At(e.region, e.b, e.i) && c < |e.region.blocks|
    requires v in Defs(e.region.blocks[c]) && v !in e.Old().results
    ensures v in Defs(After(e).blocks[c])
  {
    AfterBlock(e, c);
    if v !in e.region.blocks[c].args {
      var k := ResultOf(e.region.blocks[c].ops, v);
      AfterAt(e, c, k);
      ResultInBlock(After(e).blocks[c].ops, Moved(e, c, k), v);
    }
  }

  lemma NewlyDefined(e: Edit, v: Value)
    requires At(e.region, e.b, e.i) && v in Results(e.newOps)
    ensures v in Defs(After(e).blocks[e.b])
  {
    var k := ResultOf(e.newOps, v);
    AfterNew(e, k);
    ResultInBlock(After(e).blocks[e.b].ops, e.i + k, v);
  }

  lemma InPrefix(ops: seq<Op>, k: nat, n: nat, v: Value)
    requires k < n <= |ops| && v in ops[k].results
    ensures v in Results(ops[..n])
  {
    ResultInBlock(ops[..n], k, v);
  }

  /** What dominated the end of the preceding blocks still does. */
  lemma StillDominating(e: Edit, c: nat, v: Value)
    requires At(e.region, e.b, e.i) && Plain(e) && c < |e.region.blocks|
    requires v in DominatingDefs(e.region, c) && v !in e.Old().results
    ensures v in DominatingDefs(After(e), c)
  {
    var d :| 0 <= d < |e.region.blocks| && d != c && Dominates(e.region, d, c) && v in Defs(e.region.blocks[d]);
    StillDefined(e, d, v);
    SameDominance(e, d, c);
  }

  /** Values visible to an operation that stays remain visible to it, the old results aside. */
  lemma StillVisible(e: Edit, c: nat, j: nat, v: Value)
    requires At(e.region, e.b, e.i) && Plain(e) && At(e.region, c, j) && (c, j) != (e.b, e.i)
    requires v in Visible(e.region, e.outer, c, j) && v !in e.Old().results
    ensures At(After(e), c, Moved(e, c, j)) && v in Visible(After(e), e.outer, c, Moved(e, c, j))
  {
    AfterAt(e, c, j);
    AfterBlock(e, c);
    if v in Results(e.region.blocks[c].ops[..j]) {
      StillEarlier(e, c, j, v);
    } else if v in DominatingDefs(e.region, c) {
      StillDominating(e, c, v);
    }
  }

  lemma StillEarlier(e: Edit, c: nat, j: nat, v: Value)
    requires At(e.region, e.b, e.i) && At(e.region, c, j) && (c, j) != (e.b, e.i)
    requires v in Results(e.region.blocks[c].ops[..j]) && v !in e.Old().results
    ensures At(After(e), c, Moved(e, c, j)) && v in Results(After(e).blocks[c].ops[..Moved(e, c, j)])
  {
    var k := ResultOf(e.region.blocks[c].ops[..j], v);
    AfterAt(e, c, j);
    AfterAt(e, c, k);
    InPrefix(After(e).blocks[c].ops, Moved(e, c, k), Moved(e, c, j), v);
  }

  /** New results are visible wherever the old ones were available. */
  lemma NewlyVisible(e: Edit, c: nat, j: nat, v: Value)
    requires At(e.region, e.b, e.i) && Plain(e) && At(e.region, c, j) && (c, j) != (e.b, e.i)
    requires v in Results(e.newOps) && e.Available(c, j)
    ensures At(After(e), c, Moved(e, c, j)) && v in Visible(After(e), e.outer, c, Moved(e, c, j))
  {
    AfterAt(e, c, j);
    if c == e.b {
      NewlyEarlier(e, j, v);
    } else {
      NewlyDefined(e, v);
      SameDominance(e, e.b, c);
    }
  }

  lemma NewlyEarlier(e: Edit, j: nat, v: Value)
    requires At(e.region, e.b, e.i) && At(e.region, e.b, j) && j > e.i && v in Results(e.newOps)
    ensures At(After(e), e.b, Moved(e, e.b, j)) && v in Results(After(e).blocks[e.b].ops[..Moved(e, e.b, j)])
  {
    AfterAt(e, e.b, j);
    var k := ResultOf(e.newOps, v);
    AfterNew(e, k);
    InPrefix(After(e).blocks[e.b].ops, e.i + k, Moved(e, e.b, j), v);
  }

  /** What is visible at a reachable operation is visible wherever its results are available. */
  lemma VisibleFurther(e: Edit, c: nat, j: nat, v: Value)
    requires At(e.region, e.b, e.i) && Reachable(e.region, e.b) && At(e.region, c, j) && e.Available(c, j)
    requires v in Visible(e.region, e.outer, e.b, e.i)
    ensures v in Visible(e.region, e.outer, c, j)
  {
    if c == e.b {
      if v in Results(e.region.blocks[c].ops[..e.i]) {
        var k := ResultOf(e.region.blocks[c].ops[..e.i], v);
        InPrefix(e.region.blocks[c].ops, k, j, v);
      }
    } else if v !in e.outer {
      var d := VisibleIn(e.region, e.outer, e.b, e.i, v);
      DominanceTransitive(e.region, d, e.b, c);
      if d == c {
        var p :| IsPath(e.region, p) && p[|p| - 1] == e.b;
        DominanceAntisymmetric(e.region, p, d);
      }
    }
  }

  lemma DominanceTransitive(region: Region, a: nat, b: nat, c: nat)
    requires Dominates(region, a, b) && Dominates(region, b, c)
    ensures Dominates(region, a, c)
  {
    forall p | IsPath(region, p) && p[|p| - 1] == c ensures a in p {
      var k := First(p, b);
      PathPrefix(region, p, k);
      var m :| 0 <= m < k + 1 && p[..k + 1][m] == a;
      assert p[m] == a;
    }
  }

  /** A use that is redirected finds its target, and any other use its value. */
  lemma TargetVisible(e: Edit, impl: Impl, c: nat, j: nat, v: Value)
    requires e.Valid(impl) && Plain(e) && Reachable(e.region, e.b)
    requires At(e.region, c, j) && (c, j) != (e.b, e.i)
    requires v in Visible(e.region, e.outer, c, j) && v in RegionUses(e.region)
    ensures At(After(e), c, Moved(e, c, j)) && Target(e.s, v) in Visible(After(e), e.outer, c, Moved(e, c, j))
  {
    if v in e.Old().results {
      assert v in Names(e.Old().results) * RegionUses(e.region);
      VisibleIsAvailable(e, impl, c, j, v);
      if e.s[v] in Names(Results(e.newOps)) {
        NewlyVisible(e, c, j, e.s[v]);
      } else {
        VisibleFurther(e, c, j, e.s[v]);
        StillVisible(e, c, j, e.s[v]);
      }
    } else {
      StillVisible(e, c, j, v);
    }
  }

  // ----- regions under a redirection -----

  lemma SubstRegionBlock(s: Redirect, region: Region, b: nat)
    requires b < |region.blocks|
    ensures SubstRegion(s, region).blocks[b] == SubstBlock(s, region.blocks[b])
  {
  }

  lemma {:induction false} SameResults(s: Redirect, ops: seq<Op>, i: nat)
    requires i <= |ops|
    ensures Results(SubstOps(s, ops)[..i]) == Results(ops[..i])
  {
    if i > 0 {
      SameResults(s, ops, i - 1);
      ResultsPrefix(ops, i - 1);
      ResultsPrefix(SubstOps(s, ops), i - 1);
    } else {
      assert ops[..0] == SubstOps(s, ops)[..0] == [];
    }
  }

  lemma SubstSameEdge(s: Redirect, region: Region, a: nat, c: nat)
    ensures Edge(SubstRegion(s, region), a, c) <==> Edge(region, a, c)
  {
    if a < |region.blocks| {
      SubstRegionBlock(s, region, a);
      var ops, ops' := region.blocks[a].ops, SubstRegion(s, region).blocks[a].ops;
      assert forall j :: 0 <= j < |ops| ==> ops'[j].successors == ops[j].successors;
      if j :| 0 <= j < |ops| && c in ops[j].successors {
        assert ops'[j] in ops';
      }
    }
  }

  lemma SubstSameVisible(s: Redirect, region: Region, outer: set<Value>, b: nat, i: nat)
    requires b < |region.blocks| && i <= |region.blocks[b].ops|
    ensures Visible(SubstRegion(s, region), outer, b, i) == Visible(region, outer, b, i)
  {
    var other := SubstRegion(s, region);
    forall p ensures IsPath(other, p) <==> IsPath(region, p) {
      SameGraphPath(region, other, p) by {
        forall a, c ensures Edge(other, a, c) <==> Edge(region, a, c) {
          SubstSameEdge(s, region, a, c);
        }
      }
    }
    assert forall d, c :: Dominates(other, d, c) <==> Dominates(region, d, c);
    forall d | 0 <= d < |region.blocks| ensures Defs(other.blocks[d]) == Defs(region.blocks[d]) {
      SubstSameDefs(s, region, d);
    }
    assert DominatingDefs(other, b) == DominatingDefs(region, b);
    SubstRegionBlock(s, region, b);
    SameResults(s, region.blocks[b].ops, i);
  }

  lemma SubstSameDefs(s: Redirect, region: Region, d: nat)
    requires d < |region.blocks|
    ensures Defs(SubstRegion(s, region).blocks[d]) == Defs(region.blocks[d])
  {
    var ops := region.blocks[d].ops;
    SubstRegionBlock(s, region, d);
    SameResults(s, ops, |ops|);
    assert ops[..|ops|] == ops && SubstOps(s, ops)[..|ops|] == SubstOps(s, ops);
  }

  /** A nested region stays well formed when what it uses from outside is redirected to visible values. */
  lemma {:induction false} RedirectedWellFormed(s: Redirect, region: Region, outer: set<Value>, outer': set<Value>)
    requires WellFormed(region, outer) && RegionDefs(region) !! s.Keys
    requires forall v :: v in outer && v in RegionUses(region) ==> Target(s, v) in outer'
    ensures WellFormed(SubstRegion(s, region), outer')
    decreases region
  {
    var other := SubstRegion(s, region);
    forall b, i | 0 <= b < |other.blocks| && 0 <= i < |other.blocks[b].ops|
      ensures Names(other.blocks[b].ops[i].operands) <= Visible(other, outer', b, i)
      ensures forall r :: r in other.blocks[b].ops[i].regions ==> WellFormed(r, Visible(other, outer', b, i))
    {
      SubstRegionBlock(s, region, b);
      SubstSameVisible(s, region, outer', b, i);
      var op, op' := region.blocks[b].ops[i], other.blocks[b].ops[i];
      assert op' == SubstOp(s, op);
      OperandsRedirected(s, region, outer, outer', b, i);
      forall r' | r' in op'.regions ensures WellFormed(r', Visible(other, outer', b, i)) {
        var k :| 0 <= k < |op'.regions| && op'.regions[k] == r';
        assert op.regions[k] in op.regions;
        NestedRedirected(s, region, outer, outer', b, i, op.regions[k]);
        RedirectedWellFormed(s, op.regions[k], Visible(region, outer, b, i), Visible(region, outer', b, i));
      }
    }
  }

  /** A value used and visible inside: its target is visible inside as well. */
  lemma TargetInside(s: Redirect, region: Region, outer: set<Value>, outer': set<Value>, b: nat, i: nat, v: Value)
    requires b < |region.blocks| && i <= |region.blocks[b].ops| && RegionDefs(region) !! s.Keys
    requires v in outer ==> Target(s, v) in outer'
    requires v in Visible(region, outer, b, i)
    ensures Target(s, v) in Visible(region, outer', b, i)
  {
    if v !in outer {
      VisibleDefined(region, {}, b, i);
      assert v in Visible(region, {}, b, i);
    }
  }

  lemma OperandsRedirected(s: Redirect, region: Region, outer: set<Value>, outer': set<Value>, b: nat, i: nat)
    requires WellFormed(region, outer) && RegionDefs(region) !! s.Keys && At(region, b, i)
    requires forall v :: v in outer && v in RegionUses(region) ==> Target(s, v) in outer'
    ensures Names(SubstOp(s, region.blocks[b].ops[i]).operands) <= Visible(region, outer', b, i)
  {
    var op := region.blocks[b].ops[i];
    forall w | w in SubstOp(s, op).operands ensures w in Visible(region, outer', b, i) {
      var k :| 0 <= k < |op.operands| && SubstOp(s, op).operands[k] == w;
      var v := op.operands[k];
      assert v in Names(op.operands);
      UsedInRegion(region, b, i, v);
      TargetInside(s, region, outer, outer', b, i, v);
    }
  }

  lemma UsedInRegion(region: Region, b: nat, i: nat, v: Value)
    requires At(region, b, i) && v in OpUses(region.blocks[b].ops[i])
    ensures v in RegionUses(region)
  {
    assert region.blocks[b].ops[i] in region.blocks[b].ops && region.blocks[b] in region.blocks;
    assert v in OpsUses(region.blocks[b].ops);
  }

  lemma NestedRedirected(s: Redirect, region: Region, outer: set<Value>, outer': set<Value>, b: nat, i: nat, r: Region)
    requires At(region, b, i) && r in region.blocks[b].ops[i].regions
    requires RegionDefs(region) !! s.Keys
    requires forall v :: v in outer && v in RegionUses(region) ==> Target(s, v) in outer'
    ensures RegionDefs(r) !! s.Keys
    ensures forall v :: v in Visible(region, outer, b, i) && v in RegionUses(r) ==> Target(s, v) in Visible(region, outer', b, i)
  {
    var op := region.blocks[b].ops[i];
    OpDefsInRegion(region, b, i);
    assert forall v :: v in RegionDefs(r) ==> v in NestedDefs(op);
    forall v | v in Visible(region, outer, b, i) && v in RegionUses(r) ensures Target(s, v) in Visible(region, outer', b, i) {
      assert v in OpUses(op);
      UsedInRegion(region, b, i, v);
      TargetInside(s, region, outer, outer', b, i, v);
    }
  }

  // ----- well-formedness is kept -----

  lemma KeptWellPlaced(e: Edit, impl: Impl, c: nat, j: nat)
    requires e.Valid(impl) && Plain(e) && Reachable(e.region, e.b)
    requires At(e.region, c, j) && (c, j) != (e.b, e.i)
    ensures OpPlaced(After(e), e.outer, c, Moved(e, c, j))
  {
    AfterAt(e, c, j);
    var op, m := e.region.blocks[c].ops[j], Moved(e, c, j);
    var visible, visible' := Visible(e.region, e.outer, c, j), Visible(After(e), e.outer, c, m);
    forall v | v in visible && v in OpUses(op) ensures Target(e.s, v) in visible' {
      UsedInRegion(e.region, c, j, v);
      TargetVisible(e, impl, c, j, v);
    }
    TargetsNotNested(e, impl, c, j);
    assert WellPlaced(op, visible);
    RedirectedOp(e.s, op, visible, visible');
  }

  ghost predicate WellPlaced(op: Op, visible: set<Value>)
  {
    Names(op.operands) <= visible && forall r :: r in op.regions ==> WellFormed(r, visible)
  }

  /** There is an operation at position `m` of block `c`, and it uses what is visible there. */
  ghost predicate OpPlaced(region: Region, outer: set<Value>, c: nat, m: nat)
  {
    At(region, c, m) && WellPlaced(region.blocks[c].ops[m], Visible(region, outer, c, m))
  }

  lemma RedirectedOp(s: Redirect, op: Op, visible: set<Value>, visible': set<Value>)
    requires WellPlaced(op, visible) && NestedDefs(op) !! s.Keys
    requires forall v :: v in visible && v in OpUses(op) ==> Target(s, v) in visible'
    ensures WellPlaced(SubstOp(s, op), visible')
  {
    var op' := SubstOp(s, op);
    forall w | w in op'.operands ensures w in visible' {
      var k :| 0 <= k < |op.operands| && op'.operands[k] == w;
      assert op.operands[k] in Names(op.operands);
    }
    forall r' | r' in op'.regions ensures WellFormed(r', visible') {
      var k :| 0 <= k < |op'.regions| && op'.regions[k] == r';
      var r := op.regions[k];
      assert r in op.regions;
      assert forall v :: v in RegionDefs(r) ==> v in NestedDefs(op);
      assert forall v :: v in RegionUses(r) ==> v in OpUses(op);
      RedirectedWellFormed(s, r, visible, visible');
    }
  }

  lemma NewWellPlaced(e: Edit, impl: Impl, k: nat)
    requires e.Valid(impl) && Disciplined(e) && k < |e.newOps|
    ensures OpPlaced(After(e), e.outer, e.b, e.i + k)
  {
    AfterNew(e, k);
    var op := e.newOps[k];
    assert op in e.newOps && NewOp(e, op);
    assert NestedDefs(op) !! Names(e.Old().results);
    forall v | v in VisibleTo(e, k) && v in OpUses(op) ensures Target(e.s, v) in Visible(After(e), e.outer, e.b, e.i + k) {
      assert v in OpsUses(e.newOps);
      VisibleToNew(e, k, v);
    }
    assert WellPlaced(op, VisibleTo(e, k));
    RedirectedOp(e.s, op, VisibleTo(e, k), Visible(After(e), e.outer, e.b, e.i + k));
  }

  lemma VisibleToNew(e: Edit, k: nat, v: Value)
    requires At(e.region, e.b, e.i) && Plain(e) && k < |e.newOps|
    requires v in VisibleTo(e, k) && v !in e.Old().results
    ensures At(After(e), e.b, e.i + k) && v in Visible(After(e), e.outer, e.b, e.i + k)
  {
    AfterNew(e, k);
    AfterBlock(e, e.b);
    if v in Results(e.newOps[..k]) {
      EarlierNew(e, k, v);
    } else if v in Results(e.region.blocks[e.b].ops[..e.i]) {
      EarlierKept(e, k, v);
    } else if v in DominatingDefs(e.region, e.b) {
      StillDominating(e, e.b, v);
    }
  }

  lemma EarlierNew(e: Edit, k: nat, v: Value)
    requires At(e.region, e.b, e.i) && k < |e.newOps| && v in Results(e.newOps[..k])
    ensures At(After(e), e.b, e.i + k) && v in Results(After(e).blocks[e.b].ops[..e.i + k])
  {
    AfterNew(e, k);
    var m := ResultOf(e.newOps[..k], v);
    AfterNew(e, m);
    InPrefix(After(e).blocks[e.b].ops, e.i + m, e.i + k, v);
  }

  lemma EarlierKept(e: Edit, k: nat, v: Value)
    requires At(e.region, e.b, e.i) && k < |e.newOps| && v in Results(e.region.blocks[e.b].ops[..e.i])
    ensures At(After(e), e.b, e.i + k) && v in Results(After(e).blocks[e.b].ops[..e.i + k])
  {
    AfterNew(e, k);
    var m := ResultOf(e.region.blocks[e.b].ops[..e.i], v);
    AfterAt(e, e.b, m);
    InPrefix(After(e).blocks[e.b].ops, m, e.i + k, v);
  }

  /** Operation `m` of block `c` afterwards is an old one, or the new operation `j`. */
  predicate ComesFrom(e: Edit, c: nat, m: nat, kept: bool, j: nat)
    requires At(e.region, e.b, e.i)
  {
    if kept then At(e.region, c, j) && (c, j) != (e.b, e.i) && m == Moved(e, c, j)
    else c == e.b && j < |e.newOps| && m == e.i + j
  }

  lemma OpWellPlaced(e: Edit, impl: Impl, c: nat, m: nat, kept: bool, j: nat)
    requires e.Valid(impl) && Disciplined(e) && ComesFrom(e, c, m, kept, j)
    ensures OpPlaced(After(e), e.outer, c, m)
  {
    if kept {
      KeptWellPlaced(e, impl, c, j);
    } else {
      NewWellPlaced(e, impl, j);
    }
  }

  lemma EveryOpPlaced(e: Edit)
    requires At(e.region, e.b, e.i)
    requires forall c, m, kept, j :: ComesFrom(e, c, m, kept, j) ==> OpPlaced(After(e), e.outer, c, m)
    ensures WellFormed(After(e), e.outer)
  {
    forall c: nat, m: nat | At(After(e), c, m) ensures OpPlaced(After(e), e.outer, c, m) {
      var kept, j := AfterFrom(e, c, m);
      assert ComesFrom(e, c, m, kept, j);
    }
    AllWellPlaced(After(e), e.outer);
  }

  lemma AllWellPlaced(region: Region, outer: set<Value>)
    requires forall c: nat, m: nat :: At(region, c, m) ==> OpPlaced(region, outer, c, m)
    ensures WellFormed(region, outer)
  {
    forall c, m | 0 <= c < |region.blocks| && 0 <= m < |region.blocks[c].ops|
      ensures WellPlaced(region.blocks[c].ops[m], Visible(region, outer, c, m))
    {
      assert At(region, c, m) && OpPlaced(region, outer, c, m);
    }
  }

  /** Definitions still dominate uses, at every depth. */
  lemma ReplacedWellFormed(e: Edit, impl: Impl)
    requires e.Valid(impl) && Disciplined(e)
    ensures WellFormed(After(e), e.outer)
  {
    forall c: nat, m: nat, kept, j: nat | ComesFrom(e, c, m, kept, j) ensures OpPlaced(After(e), e.outer, c, m) {
      OpWellPlaced(e, impl, c, m, kept, j);
    }
    EveryOpPlaced(e);
  }

  // ----- uniqueness is kept -----

  lemma {:induction false} SubstSameNested(s: Redirect, op: Op)
    ensures NestedDefs(SubstOp(s, op)) == NestedDefs(op)
    decreases op
  {
    var op' := SubstOp(s, op);
    forall k | 0 <= k < |op.regions| ensures RegionDefs(op'.regions[k]) == RegionDefs(op.regions[k]) {
      SubstSameRegionDefs(s, op.regions[k]);
    }
    forall v | v in NestedDefs(op) ensures v in NestedDefs(op') {
      var k :| 0 <= k < |op.regions| && v in RegionDefs(op.regions[k]);
      assert op'.regions[k] in op'.regions;
    }
    forall v | v in NestedDefs(op') ensures v in NestedDefs(op) {
      var k :| 0 <= k < |op'.regions| && v in RegionDefs(op'.regions[k]);
      assert op.regions[k] in op.regions;
    }
  }

  lemma {:induction false} SubstSameRegionDefs(s: Redirect, region: Region)
    ensures RegionDefs(SubstRegion(s, region)) == RegionDefs(region)
    decreases region
  {
    var other := SubstRegion(s, region);
    forall v | v in RegionDefs(region) ensures v in RegionDefs(other) {
      var b :| 0 <= b < |region.blocks| && v in Names(region.blocks[b].args) + OpsDefs(region.blocks[b].ops);
      SubstRegionBlock(s, region, b);
      SubstSameOpsDefs(s, region.blocks[b].ops);
      assert other.blocks[b] in other.blocks;
    }
    forall v | v in RegionDefs(other) ensures v in RegionDefs(region) {
      var b :| 0 <= b < |other.blocks| && v in Names(other.blocks[b].args) + OpsDefs(other.blocks[b].ops);
      SubstRegionBlock(s, region, b);
      SubstSameOpsDefs(s, region.blocks[b].ops);
      assert region.blocks[b] in region.blocks;
    }
  }

  lemma {:induction false} SubstSameOpsDefs(s: Redirect, ops: seq<Op>)
    ensures OpsDefs(SubstOps(s, ops)) == OpsDefs(ops)
    decreases ops
  {
    var ops' := SubstOps(s, ops);
    forall k | 0 <= k < |ops| ensures NestedDefs(ops'[k]) == NestedDefs(ops[k]) && ops'[k].results == ops[k].results {
      SubstSameNested(s, ops[k]);
    }
    forall v | v in OpsDefs(ops) ensures v in OpsDefs(ops') {
      var k :| 0 <= k < |ops| && v in Names(ops[k].results) + NestedDefs(ops[k]);
      assert ops'[k] in ops';
    }
    forall v | v in OpsDefs(ops') ensures v in OpsDefs(ops) {
      var k :| 0 <= k < |ops'| && v in Names(ops'[k].results) + NestedDefs(ops'[k]);
      assert ops[k] in ops;
    }
  }

  /** The operation before the redirection that now stands at a position. */
  ghost function Source(e: Edit, c: nat, m: nat): (op: Op)
    requires At(e.region, e.b, e.i) && At(After(e), c, m)
    ensures After(e).blocks[c].ops[m] == SubstOp(e.s, op)
    ensures AllDefs(After(e).blocks[c].ops[m]) == AllDefs(op) && NestedDefs(After(e).blocks[c].ops[m]) == NestedDefs(op)
  {
    AfterBlock(e, c);
    var op := if c == e.b then Splice(e.region.blocks[c].ops, e.i, e.newOps)[m] else e.region.blocks[c].ops[m];
    SubstSameNested(e.s, op);
    op
  }

  lemma SourceIs(e: Edit, c: nat, m: nat) returns (kept: bool, j: nat)
    requires At(e.region, e.b, e.i) && At(After(e), c, m)
    ensures kept ==> At(e.region, c, j) && (c, j) != (e.b, e.i) && m == Moved(e, c, j) && Source(e, c, m) == e.region.blocks[c].ops[j]
    ensures !kept ==> c == e.b && j < |e.newOps| && m == e.i + j && Source(e, c, m) == e.newOps[j]
  {
    kept, j := AfterFrom(e, c, m);
    SpliceAt(e.region.blocks[e.b].ops, e.i, e.newOps);
    AfterBlock(e, c);
  }

  lemma SpliceAt(ops: seq<Op>, i: nat, newOps: seq<Op>)
    requires i < |ops|
    ensures |Splice(ops, i, newOps)| == |ops| - 1 + |newOps|
    ensures forall m :: 0 <= m < i ==> Splice(ops, i, newOps)[m] == ops[m]
    ensures forall j :: 0 <= j < |newOps| ==> Splice(ops, i, newOps)[i + j] == newOps[j]
    ensures forall m :: i + |newOps| <= m < |Splice(ops, i, newOps)| ==> Splice(ops, i, newOps)[m] == ops[m + 1 - |newOps|]
  {
  }

  /** Different operations define different values. */
  lemma SourcesDisjoint(e: Edit, c: nat, m: nat, d: nat, n: nat)
    requires At(e.region, e.b, e.i) && UniqueValues(e.region, e.outer) && New(e)
    requires At(After(e), c, m) && At(After(e), d, n) && (c, m) != (d, n)
    ensures AllDefs(Source(e, c, m)) !! AllDefs(Source(e, d, n))
  {
    var kept, j := SourceIs(e, c, m);
    var kept', k := SourceIs(e, d, n);
    if kept && kept' {
      assert (c, j) != (d, k);
    } else if kept {
      assert NewOp(e, e.newOps[k]);
    } else if kept' {
      assert NewOp(e, e.newOps[j]);
    }
  }

  /** What one operation defines is new to the surroundings, and its results to what it holds. */
  lemma SourceFresh(e: Edit, c: nat, m: nat)
    requires At(e.region, e.b, e.i) && UniqueValues(e.region, e.outer) && New(e) && At(After(e), c, m)
    ensures AllDefs(Source(e, c, m)) !! e.outer
    ensures Names(Source(e, c, m).results) !! NestedDefs(Source(e, c, m))
    ensures forall b :: 0 <= b < |e.region.blocks| ==> Names(e.region.blocks[b].args) !! AllDefs(Source(e, c, m))
  {
    var kept, j := SourceIs(e, c, m);
    if kept {
      OpDefsInRegion(e.region, c, j);
    } else {
      assert NewOp(e, e.newOps[j]);
    }
  }

  lemma DefinedWhere(region: Region, v: Value) returns (b: nat, inArgs: bool, i: nat)
    requires v in RegionDefs(region)
    ensures b < |region.blocks|
    ensures if inArgs then v in region.blocks[b].args else At(region, b, i) && v in AllDefs(region.blocks[b].ops[i])
  {
    b :| 0 <= b < |region.blocks| && v in Names(region.blocks[b].args) + OpsDefs(region.blocks[b].ops);
    inArgs, i := v in region.blocks[b].args, 0;
    if !inArgs {
      i :| 0 <= i < |region.blocks[b].ops| && v in Names(region.blocks[b].ops[i].results) + NestedDefs(region.blocks[b].ops[i]);
    }
  }

  lemma OuterStaysApart(e: Edit)
    requires At(e.region, e.b, e.i) && UniqueValues(e.region, e.outer) && New(e)
    ensures e.outer !! RegionDefs(After(e))
  {
    forall v | v in RegionDefs(After(e)) ensures v !in e.outer {
      var c, inArgs, m := DefinedWhere(After(e), v);
      AfterBlock(e, c);
      if inArgs {
        BlockDefsInRegion(e.region, c);
        assert v in Names(Defs(e.region.blocks[c]));
      } else {
        SourceFresh(e, c, m);
      }
    }
  }

  /** Values are still defined once. */
  lemma ReplacedUnique(e: Edit)
    requires At(e.region, e.b, e.i) && UniqueValues(e.region, e.outer) && New(e)
    ensures UniqueValues(After(e), e.outer)
  {
    OuterStaysApart(e);
    forall c | 0 <= c < |e.region.blocks| ensures After(e).blocks[c].args == e.region.blocks[c].args {
      AfterBlock(e, c);
    }
    forall c: nat, m: nat | At(After(e), c, m)
      ensures Names(After(e).blocks[c].ops[m].results) !! NestedDefs(After(e).blocks[c].ops[m])
      ensures forall b :: 0 <= b < |e.region.blocks| ==> Names(e.region.blocks[b].args) !! AllDefs(After(e).blocks[c].ops[m])
    {
      SourceFresh(e, c, m);
    }
    forall c: nat, m: nat, d: nat, n: nat | At(After(e), c, m) && At(After(e), d, n) && (c, m) != (d, n)
      ensures AllDefs(After(e).blocks[c].ops[m]) !! AllDefs(After(e).blocks[d].ops[n])
    {
      SourcesDisjoint(e, c, m, d, n);
    }
  }

  // ----- passes -----

  /** One `replace_op` of a pass. */
  datatype Step = Step(b: nat, i: nat, newOps: seq<Op>, s: Redirect) {
    function On(region: Region, outer: set<Value>): Edit
    {
      Edit(region, outer, b, i, newOps, s)
    }
  }

  /** Each step is a proper request on what the steps before it made of the region. */
  ghost predicate Requests(impl: Impl, region: Region, outer: set<Value>, steps: seq<Step>)
    decreases |steps|
  {
    steps == [] ||
    var e := steps[0].On(region, outer);
    e.Requested(impl) && Disciplined(e) && Requests(impl, After(e), outer, steps[1..])
  }

  ghost function Result(impl: Impl, region: Region, outer: set<Value>, steps: seq<Step>): Region
    requires Requests(impl, region, outer, steps)
    decreases |steps|
  {
    if steps == [] then region
    else Result(impl, After(steps[0].On(region, outer)), outer, steps[1..])
  }

  /** What a pass leaves is what its last step makes of what the steps before it left. */
  lemma {:induction false} LastStepLast(impl: Impl, region: Region, outer: set<Value>, steps: seq<Step>, last: Step)
    requires Requests(impl, region, outer, steps + [last])
    ensures Requests(impl, region, outer, steps)
    ensures var r := Result(impl, region, outer, steps);
            && At(r, last.b, last.i)
            && Result(impl, region, outer, steps + [last]) == Replaced(r, last.b, last.i, last.newOps, last.s)
    decreases |steps|
  {
    var all := steps + [last];
    if steps == [] {
      assert all == [last] && all[1..] == [];
    } else {
      assert all[0] == steps[0] && all[1..] == steps[1..] + [last];
      LastStepLast(impl, After(steps[0].On(region, outer)), outer, steps[1..], last);
    }
  }

  /** Each step, by itself, puts equivalent operations in place of one, under every bound the pace allows. */
  ghost predicate Justified(impl: Impl, region: Region, outer: set<Value>, steps: seq<Step>, limit: nat, pace: Pace)
    requires Requests(impl, region, outer, steps)
    decreases |steps|
  {
    steps == [] ||
    var e := steps[0].On(region, outer);
    && (forall later: nat :: pace.Allows(limit, later) ==> Equivalent(impl, e.Old(), e.newOps, e.s, later, pace))
    && Justified(impl, After(e), outer, steps[1..], limit, pace)
  }

  lemma {:induction false} JustifiedLater(impl: Impl, region: Region, outer: set<Value>, steps: seq<Step>,
                                          limit: nat, later: nat, pace: Pace)
    requires Requests(impl, region, outer, steps) && Justified(impl, region, outer, steps, limit, pace)
    requires pace.Allows(limit, later)
    ensures Justified(impl, region, outer, steps, later, pace)
    decreases |steps|
  {
    if steps != [] {
      JustifiedLater(impl, After(steps[0].On(region, outer)), outer, steps[1..], limit, later, pace);
    }
  }

  /**
   A pass of any number of replacements keeps the SSA discipline, and its result follows every run of
   the region at the pace of the steps. The discipline is assumed of the region before the pass only.
   */
  lemma {:induction false} PassKeepsPace(impl: Impl, region: Region, outer: set<Value>, steps: seq<Step>, limit: nat, pace: Pace)
    requires WellFormed(region, outer) && UniqueValues(region, outer)
    requires Requests(impl, region, outer, steps) && Justified(impl, region, outer, steps, limit, pace)
    ensures var r := Result(impl, region, outer, steps);
            WellFormed(r, outer) && UniqueValues(r, outer) && Simulates(impl, region, r, limit, pace)
    decreases |steps|
  {
    if steps == [] {
      SimulatesItself(impl, region, limit, pace);
    } else {
      var e := steps[0].On(region, outer);
      ReplacedWellFormed(e, impl);
      ReplacedUnique(e);
      assert pace.Allows(limit, limit);
      ReplaceKeepsPace(e, impl, limit, pace);
      PassKeepsPace(impl, After(e), outer, steps[1..], limit, pace);
      forall later: nat | pace.Allows(limit, later)
        ensures Simulates(impl, After(e), Result(impl, region, outer, steps), later, pace)
      {
        JustifiedLater(impl, After(e), outer, steps[1..], limit, later, pace);
        PassKeepsPace(impl, After(e), outer, steps[1..], later, pace);
      }
      SimulatesOnwards(impl, region, After(e), Result(impl, region, outer, steps), limit, pace);
    }
  }

  /** Each step puts in place of an operation others that compute the same values wherever it completes. */
  ghost predicate Lowers(impl: Impl, region: Region, outer: set<Value>, steps: seq<Step>)
    requires Requests(impl, region, outer, steps)
    decreases |steps|
  {
    steps == [] ||
    var e := steps[0].On(region, outer);
    Realizes(impl, e.Old(), e.newOps, e.s) && Lowers(impl, After(e), outer, steps[1..])
  }

  /** Whatever a region returns, it returns after a pass, whatever bounds the new operations need. */
  lemma {:induction false} PassPreservesMeaning(impl: Impl, region: Region, outer: set<Value>, steps: seq<Step>)
    requires WellFormed(region, outer) && UniqueValues(region, outer)
    requires Requests(impl, region, outer, steps) && Lowers(impl, region, outer, steps)
    ensures var r := Result(impl, region, outer, steps);
            WellFormed(r, outer) && UniqueValues(r, outer) && Refines(impl, region, r)
    decreases |steps|
  {
    if steps != [] {
      var e := steps[0].On(region, outer);
      ReplacedWellFormed(e, impl);
      ReplacedUnique(e);
      ReplacePreservesMeaning(e, impl);
      PassPreservesMeaning(impl, After(e), outer, steps[1..]);
    }
  }
}
