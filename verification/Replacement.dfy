/**
 Replacing an operation preserves the meaning of the whole control-flow region around it,
 loops included.
 */
module Replacement {
  import opened Ir
  import opened Semantics
  import opened Refinement
  import opened Dominance
  import opened Substitution
  import opened Simulation

  /** The operations put in place of operation `i`. */
  function Splice(ops: seq<Op>, i: nat, newOps: seq<Op>): seq<Op>
    requires i < |ops|
  {
    ops[..i] + newOps + ops[i + 1..]
  }

  /** `replace_op` as one step: splice, then redirect every use at every depth. */
  function Replaced(region: Region, b: nat, i: nat, newOps: seq<Op>, s: Redirect): (r: Region)
    requires b < |region.blocks| && i < |region.blocks[b].ops|
    ensures |r.blocks| == |region.blocks|
  {
    var block := region.blocks[b];
    SubstRegion(s, Region(region.blocks[b := Block(block.args, Splice(block.ops, i, newOps))]))
  }

  /** No value is defined twice, at any depth, nor again below `outer`. */
  ghost predicate UniqueValues(region: Region, outer: set<Value>)
  {
    && outer !! RegionDefs(region)
    && (forall b, c :: 0 <= b < |region.blocks| && 0 <= c < |region.blocks| && b != c ==>
          Names(region.blocks[b].args) !! Names(region.blocks[c].args))
    && (forall b, c, j :: 0 <= b < |region.blocks| && 0 <= c < |region.blocks| && 0 <= j < |region.blocks[c].ops| ==>
          Names(region.blocks[b].args) !! AllDefs(region.blocks[c].ops[j]))
    && (forall b: nat, i: nat, c: nat, j: nat :: At(region, b, i) && At(region, c, j) && (b, i) != (c, j) ==>
          AllDefs(region.blocks[b].ops[i]) !! AllDefs(region.blocks[c].ops[j]))
    && (forall b: nat, i: nat :: At(region, b, i) ==>
          Names(region.blocks[b].ops[i].results) !! NestedDefs(region.blocks[b].ops[i]))
  }

  predicate At(region: Region, b: nat, i: nat)
  {
    b < |region.blocks| && i < |region.blocks[b].ops|
  }

  function AllDefs(op: Op): set<Value>
  {
    Names(op.results) + NestedDefs(op)
  }

  /** An implementation that never transfers control for `op`. */
  ghost predicate FallsThrough(impl: Impl, op: Op)
  {
    forall inputs, history :: impl(op.code, inputs, history).Finish? ==>
      impl(op.code, inputs, history).terminator.NoTerminator?
  }

  /**
   `newOps` do what `op` does under the bound: in every environment in which `op` completes they
   complete too, under a bound that the pace allows, and the redirected results hold the values of
   `op`. In step, they also stop at the bound wherever `op` does.
   */
  ghost predicate Equivalent(impl: Impl, op: Op, newOps: seq<Op>, s: Redirect, limit: nat, pace: Pace)
  {
    forall env :: EquivalentIn(impl, op, newOps, s, limit, pace, env)
  }

  ghost predicate EquivalentIn(impl: Impl, op: Op, newOps: seq<Op>, s: Redirect, limit: nat, pace: Pace, env: Env)
  {
    pace.Covers(RunOp(impl, op, env, limit)) ==>
      exists later: nat :: pace.Allows(limit, later) && SameEffect(impl, op, newOps, s, limit, later, env)
  }

  ghost predicate SameEffect(impl: Impl, op: Op, newOps: seq<Op>, s: Redirect, limit: nat, later: nat, env: Env)
  {
    var o, o' := RunOp(impl, op, env, limit), RunOps(impl, newOps, env, later);
    && (o.OutOfLimit? ==> o'.OutOfLimit?)
    && (o.Done? ==>
          && o.value.0.Continue? && o'.Done? && o'.value.0.Continue?
          && forall r :: r in s.Keys ==> r in o.value.1 && s[r] in o'.value.1 && o'.value.1[s[r]] == o.value.1[r])
  }

  /** `newOps` compute the same values wherever `op` completes, whatever bounds either needs. */
  ghost predicate Realizes(impl: Impl, op: Op, newOps: seq<Op>, s: Redirect)
  {
    forall limit: nat :: Equivalent(impl, op, newOps, s, limit, Eventually)
  }

  /** One replacement: operation `i` of block `b` gives way to `newOps`, its results to their targets. */
  datatype Edit = Edit(region: Region, outer: set<Value>, b: nat, i: nat, newOps: seq<Op>, s: Redirect) {

    function Old(): Op
      requires At(region, b, i)
    {
      region.blocks[b].ops[i]
    }

    /** The SSA discipline holds, and the caller of `replace_op` asks for something that respects it. */
    ghost predicate Valid(impl: Impl)
    {
      WellFormed(region, outer) && UniqueValues(region, outer) && Requested(impl)
    }

    /** What a caller of `replace_op` has to respect. */
    ghost predicate Requested(impl: Impl)
    {
      && At(region, b, i)
      && s.Keys <= Names(Old().results)
      && Names(Old().results) * RegionUses(region) <= s.Keys
      && OpsUses(newOps) !! Names(Old().results)
      && Names(Results(newOps)) !! RegionUses(region) + RegionDefs(region)
      && (forall r :: r in s.Keys ==>
            s[r] !in Names(Old().results)
            && (s[r] in Names(Results(newOps)) || s[r] in Visible(region, outer, b, i)))
      && (forall k :: 0 <= k <= i ==> FallsThrough(impl, region.blocks[b].ops[k]))
    }

    /** The old results may be used at position `j` of block `c`. */
    ghost predicate Available(c: nat, j: nat)
    {
      if c == b then j > i else Dominates(region, b, c)
    }

    /** The values the two runs must agree on at position `j` of block `c`. */
    ghost function Live(c: nat, j: nat): set<Value>
      requires At(region, b, i)
    {
      (RegionUses(region) - Names(Old().results)) + (if Available(c, j) then s.Keys else {})
    }

    function NewSuffix(c: nat, j: nat): seq<Op>
      requires At(region, b, i) && c < |region.blocks| && j <= |region.blocks[c].ops|
    {
      var ops := region.blocks[c].ops;
      if c == b && j <= i then SubstOps(s, ops[j..i]) + SubstOps(s, newOps) + SubstOps(s, ops[i + 1..])
      else SubstOps(s, ops[j..])
    }
  }

  // ----- dominance facts -----

  /** Nothing both properly dominates a reachable block and is dominated by it. */
  lemma DominanceAntisymmetric(region: Region, p: seq<nat>, d: nat)
    requires IsPath(region, p)
    requires Dominates(region, d, p[|p| - 1]) && Dominates(region, p[|p| - 1], d)
    ensures d == p[|p| - 1]
  {
    var c := p[|p| - 1];
    var k := First(p, c);
    PathPrefix(region, p, k);
    var j :| 0 <= j < k + 1 && p[..k + 1][j] == d;
    PathPrefix(region, p, j);
    var m :| 0 <= m < j + 1 && p[..j + 1][m] == c;
    assert p[m] == c;
  }

  lemma PathPrefix(region: Region, p: seq<nat>, k: nat)
    requires IsPath(region, p) && k < |p|
    ensures IsPath(region, p[..k + 1]) && p[..k + 1][|p[..k + 1]| - 1] == p[k]
  {
  }

  lemma {:induction false} First(p: seq<nat>, c: nat) returns (k: nat)
    requires c in p
    ensures k < |p| && p[k] == c && forall m :: 0 <= m < k ==> p[m] != c
  {
    if p[0] == c {
      k := 0;
    } else {
      var j := First(p[1..], c);
      k := j + 1;
      assert forall m :: 1 <= m < k ==> p[m] == p[1..][m - 1];
    }
  }

  /** A proper dominator of a block dominates its predecessors. */
  lemma DominatesPredecessor(region: Region, d: nat, a: nat, c: nat)
    requires Dominates(region, d, c) && d != c && Edge(region, a, c) && c < |region.blocks|
    ensures Dominates(region, d, a)
  {
    forall p | IsPath(region, p) && p[|p| - 1] == a ensures d in p {
      PathExtends(region, p, c);
      assert (p + [c])[|p + [c]| - 1] == c;
    }
  }

  // ----- where values can be used and defined -----

  /** Uses below an operation are visible to it or defined below it. */
  lemma {:induction false} UsesVisible(region: Region, outer: set<Value>)
    requires WellFormed(region, outer)
    ensures RegionUses(region) <= outer + RegionDefs(region)
    decreases region
  {
    forall c, v | c in region.blocks && v in OpsUses(c.ops) ensures v in outer + RegionDefs(region) {
      var b :| 0 <= b < |region.blocks| && region.blocks[b] == c;
      var op :| op in c.ops && v in OpUses(op);
      var i :| 0 <= i < |c.ops| && c.ops[i] == op;
      OpUsesVisible(region, outer, b, i);
      OpDefsInRegion(region, b, i);
      VisibleDefined(region, outer, b, i);
    }
  }

  lemma OpDefsInRegion(region: Region, b: nat, i: nat)
    requires At(region, b, i)
    ensures AllDefs(region.blocks[b].ops[i]) <= RegionDefs(region)
  {
    var op := region.blocks[b].ops[i];
    assert op in region.blocks[b].ops && region.blocks[b] in region.blocks;
    forall v | v in AllDefs(op) ensures v in RegionDefs(region) {
      assert v in OpsDefs(region.blocks[b].ops);
      assert v in Names(region.blocks[b].args) + OpsDefs(region.blocks[b].ops);
    }
  }

  lemma BlockDefsInRegion(region: Region, b: nat)
    requires b < |region.blocks|
    ensures Names(Defs(region.blocks[b])) <= RegionDefs(region)
  {
    var block := region.blocks[b];
    assert block in region.blocks;
    forall v | v in Defs(block) ensures v in RegionDefs(region) {
      if v in block.args {
        assert v in Names(block.args) + OpsDefs(block.ops);
      } else {
        var k := ResultOf(block.ops, v);
        OpDefsInRegion(region, b, k);
      }
    }
  }

  lemma {:induction false} OpUsesVisible(region: Region, outer: set<Value>, b: nat, i: nat)
    requires WellFormed(region, outer) && At(region, b, i)
    ensures OpUses(region.blocks[b].ops[i]) <= Visible(region, outer, b, i) + NestedDefs(region.blocks[b].ops[i])
    decreases region, 0
  {
    var op := region.blocks[b].ops[i];
    forall r, v | r in op.regions && v in RegionUses(r)
      ensures v in Visible(region, outer, b, i) + NestedDefs(op)
    {
      UsesVisible(r, Visible(region, outer, b, i));
      if v in RegionDefs(r) {
        assert v in NestedDefs(op);
      }
    }
  }

  lemma {:induction false} ResultOf(ops: seq<Op>, v: Value) returns (k: nat)
    requires v in Results(ops)
    ensures k < |ops| && v in ops[k].results
  {
    if v in ops[0].results {
      k := 0;
    } else {
      var j := ResultOf(ops[1..], v);
      k := j + 1;
    }
  }

  /** A visible value comes from outside or is defined by some block, at the top level. */
  lemma VisibleDefined(region: Region, outer: set<Value>, b: nat, i: nat)
    requires b < |region.blocks| && i <= |region.blocks[b].ops|
    ensures Visible(region, outer, b, i) <= outer + RegionDefs(region)
  {
    var ops := region.blocks[b].ops;
    ResultsAppend(ops[..i], ops[i..]);
    assert ops[..i] + ops[i..] == ops;
    BlockDefsInRegion(region, b);
    assert Names(region.blocks[b].args) + Names(Results(ops[..i])) <= Names(Defs(region.blocks[b]));
    forall d, v | 0 <= d < |region.blocks| && v in Defs(region.blocks[d]) ensures v in RegionDefs(region) {
      BlockDefsInRegion(region, d);
    }
  }

  /** A block defines a value at most once: the block and, inside it, the operation. */
  lemma DefinedOnce(e: Edit, impl: Impl, c: nat, v: Value)
    requires e.Valid(impl) && c < |e.region.blocks|
    requires v in Defs(e.region.blocks[c]) && v in e.Old().results
    ensures c == e.b && v !in e.region.blocks[c].args
  {
    var block := e.region.blocks[c];
    assert v in AllDefs(e.Old());
    assert v !in Names(block.args);
    var k := ResultOf(block.ops, v);
    assert v in AllDefs(block.ops[k]);
    assert At(e.region, c, k);
  }

  /** An old result is visible only where it is available. */
  lemma VisibleIsAvailable(e: Edit, impl: Impl, c: nat, j: nat, v: Value)
    requires e.Valid(impl) && c < |e.region.blocks| && j <= |e.region.blocks[c].ops|
    requires v in e.Old().results && v in Visible(e.region, e.outer, c, j)
    ensures e.Available(c, j)
  {
    OpDefsInRegion(e.region, e.b, e.i);
    assert v in AllDefs(e.Old()) && v !in e.outer;
    var d := VisibleIn(e.region, e.outer, c, j, v);
    DefinedOnce(e, impl, d, v);
    if d == c {
      var k := ResultOf(e.region.blocks[c].ops[..j], v);
      assert v in AllDefs(e.region.blocks[c].ops[k]);
      assert At(e.region, c, k);
    }
  }

  /** Every other operation uses only values on which the runs agree. */
  lemma UsesLive(e: Edit, impl: Impl, c: nat, j: nat)
    requires e.Valid(impl) && At(e.region, c, j) && (c, j) != (e.b, e.i)
    ensures OpUses(e.region.blocks[c].ops[j]) <= e.Live(c, j)
  {
    var op := e.region.blocks[c].ops[j];
    assert op in e.region.blocks[c].ops && e.region.blocks[c] in e.region.blocks;
    forall v | v in OpUses(op) ensures v in e.Live(c, j) {
      assert v in OpsUses(e.region.blocks[c].ops);
      assert v in RegionUses(e.region);
      if v in e.Old().results {
        OpUsesVisible(e.region, e.outer, c, j);
        assert v in AllDefs(e.Old()) && v !in AllDefs(op);
        VisibleIsAvailable(e, impl, c, j, v);
      }
    }
  }

  /** The replaced operation uses only values on which the runs agree. */
  lemma OldUsesLive(e: Edit, impl: Impl)
    requires e.Valid(impl)
    ensures OpUses(e.Old()) <= e.Live(e.b, e.i)
  {
    var op := e.Old();
    assert op in e.region.blocks[e.b].ops && e.region.blocks[e.b] in e.region.blocks;
    forall v | v in OpUses(op) ensures v in e.Live(e.b, e.i) {
      assert v in OpsUses(e.region.blocks[e.b].ops);
      assert v in RegionUses(e.region);
      if v in op.results {
        OpUsesVisible(e.region, e.outer, e.b, e.i);
        assert v !in NestedDefs(op);
        VisibleIsAvailable(e, impl, e.b, e.i, v);
      }
    }
  }

  /** Where a target that is not new is defined: outside, or at the top level before the operation. */
  lemma TargetsNotNested(e: Edit, impl: Impl, c: nat, j: nat)
    requires e.Valid(impl) && At(e.region, c, j)
    ensures NestedDefs(e.region.blocks[c].ops[j]) !! e.s.Keys + e.s.Values
  {
    var op := e.region.blocks[c].ops[j];
    OpDefsInRegion(e.region, c, j);
    forall r | r in e.s.Keys ensures r !in NestedDefs(op) && e.s[r] !in NestedDefs(op) {
      assert r in Names(e.Old().results);
      ResultInBlock(e.region.blocks[e.b].ops, e.i, r);
      BlockNotNested(e.region, e.outer, e.b, c, j, r);
      var x := e.s[r];
      if x in NestedDefs(op) {
        assert x in AllDefs(op) && x in RegionDefs(e.region);
        assert x in Visible(e.region, e.outer, e.b, e.i) && x !in e.outer;
        TopLevelNotNested(e.region, e.outer, e.b, e.i, c, j, x);
      }
    }
  }

  lemma ResultInBlock(ops: seq<Op>, i: nat, v: Value)
    requires i < |ops| && v in ops[i].results
    ensures v in Results(ops)
  {
    ResultsPrefix(ops, i);
    ResultsAppend(ops[..i + 1], ops[i + 1..]);
    assert ops[..i + 1] + ops[i + 1..] == ops;
  }

  lemma TopLevelNotNested(region: Region, outer: set<Value>, b: nat, i: nat, c: nat, j: nat, x: Value)
    requires UniqueValues(region, outer) && At(region, b, i) && At(region, c, j)
    requires x in Visible(region, outer, b, i)
    ensures x !in NestedDefs(region.blocks[c].ops[j])
  {
    OpDefsInRegion(region, c, j);
    if x !in outer {
      var d := VisibleIn(region, outer, b, i, x);
      BlockNotNested(region, outer, d, c, j, x);
    }
  }

  lemma VisibleIn(region: Region, outer: set<Value>, b: nat, i: nat, x: Value) returns (d: nat)
    requires b < |region.blocks| && i <= |region.blocks[b].ops|
    requires x in Visible(region, outer, b, i) && x !in outer
    ensures d < |region.blocks| && x in Defs(region.blocks[d]) && Dominates(region, d, b)
    ensures d == b ==> x in region.blocks[b].args + Results(region.blocks[b].ops[..i])
  {
    var ops := region.blocks[b].ops;
    if x in region.blocks[b].args + Results(ops[..i]) {
      d := b;
      ResultsAppend(ops[..i], ops[i..]);
      assert ops[..i] + ops[i..] == ops;
    } else {
      d :| 0 <= d < |region.blocks| && d != b && Dominates(region, d, b) && x in Defs(region.blocks[d]);
    }
  }

  lemma BlockNotNested(region: Region, outer: set<Value>, d: nat, c: nat, j: nat, x: Value)
    requires UniqueValues(region, outer) && d < |region.blocks| && At(region, c, j)
    requires x in Defs(region.blocks[d])
    ensures x !in NestedDefs(region.blocks[c].ops[j])
  {
    var op := region.blocks[c].ops[j];
    if x in region.blocks[d].args {
      assert x in Names(region.blocks[d].args) && x !in AllDefs(op);
    } else {
      var k := ResultOf(region.blocks[d].ops, x);
      assert At(region, d, k) && x in AllDefs(region.blocks[d].ops[k]);
      assert x in Names(region.blocks[d].ops[k].results);
    }
  }

  // ----- definitions made while the old results are available -----

  /** The names bound just before position `j` of block `c`: its arguments, or results of operation `j - 1`. */
  function BoundAt(region: Region, c: nat, j: nat): seq<Value>
    requires c < |region.blocks| && j <= |region.blocks[c].ops|
  {
    if j == 0 then region.blocks[c].args else region.blocks[c].ops[j - 1].results
  }

  lemma BoundInBlock(region: Region, c: nat, j: nat, x: Value)
    requires c < |region.blocks| && j <= |region.blocks[c].ops| && x in BoundAt(region, c, j)
    ensures x in Defs(region.blocks[c])
  {
    if j > 0 {
      ResultInBlock(region.blocks[c].ops, j - 1, x);
    }
  }

  /** Equal values are bound at one place only. */
  lemma BoundOnce(region: Region, outer: set<Value>, c: nat, j: nat, d: nat, k: nat, x: Value)
    requires UniqueValues(region, outer)
    requires c < |region.blocks| && j <= |region.blocks[c].ops| && x in BoundAt(region, c, j)
    requires d < |region.blocks| && k <= |region.blocks[d].ops| && x in BoundAt(region, d, k)
    ensures (c, j) == (d, k)
  {
    if j > 0 {
      assert At(region, c, j - 1) && x in AllDefs(region.blocks[c].ops[j - 1]);
    }
    if k > 0 {
      assert At(region, d, k - 1) && x in AllDefs(region.blocks[d].ops[k - 1]);
    }
    assert j == 0 ==> x in Names(region.blocks[c].args);
    assert k == 0 ==> x in Names(region.blocks[d].args);
  }

  /** Where a value of a block is bound. */
  lemma BindingOf(region: Region, c: nat, x: Value) returns (j: nat)
    requires c < |region.blocks| && x in Defs(region.blocks[c])
    ensures j <= |region.blocks[c].ops| && x in BoundAt(region, c, j)
  {
    if x in region.blocks[c].args {
      j := 0;
    } else {
      var k := ResultOf(region.blocks[c].ops, x);
      j := k + 1;
    }
  }

  /** A target bound in the region is bound in a dominator of `b`, and in `b` itself before the operation. */
  lemma TargetBinding(e: Edit, impl: Impl, r: Value) returns (d: nat, k: nat)
    requires e.Valid(impl) && r in e.s.Keys && e.s[r] in RegionDefs(e.region)
    ensures d < |e.region.blocks| && k <= |e.region.blocks[d].ops| && e.s[r] in BoundAt(e.region, d, k)
    ensures Dominates(e.region, d, e.b) && (d == e.b ==> k <= e.i)
  {
    var x := e.s[r];
    assert x !in Results(e.newOps) by {
      assert x in Results(e.newOps) ==> x in Names(Results(e.newOps));
    }
    d := VisibleIn(e.region, e.outer, e.b, e.i, x);
    if d == e.b {
      k := BoundBefore(e.region, d, e.i, x);
    } else {
      k := BindingOf(e.region, d, x);
    }
  }

  /** Where a value visible at operation `i` was bound in the same block. */
  lemma BoundBefore(region: Region, b: nat, i: nat, x: Value) returns (k: nat)
    requires b < |region.blocks| && i <= |region.blocks[b].ops|
    requires x in region.blocks[b].args || x in Results(region.blocks[b].ops[..i])
    ensures k <= i && x in BoundAt(region, b, k)
  {
    if x in region.blocks[b].args {
      k := 0;
    } else {
      var m := ResultOf(region.blocks[b].ops[..i], x);
      k := m + 1;
    }
  }

  /** While the old results are available, no target is bound again. */
  lemma BoundAvoidsTargets(e: Edit, impl: Impl, p: seq<nat>, j: nat)
    requires e.Valid(impl) && IsPath(e.region, p)
    requires var c := p[|p| - 1]; j <= |e.region.blocks[c].ops| && e.Available(c, j) && (c, j) != (e.b, e.i + 1)
    ensures Names(BoundAt(e.region, p[|p| - 1], j)) !! e.s.Keys + e.s.Values
  {
    var c := p[|p| - 1];
    forall r | r in e.s.Keys
      ensures r !in BoundAt(e.region, c, j) && e.s[r] !in BoundAt(e.region, c, j)
    {
      assert r in Names(e.Old().results);
      assert r in BoundAt(e.region, e.b, e.i + 1);
      if r in BoundAt(e.region, c, j) {
        BoundOnce(e.region, e.outer, c, j, e.b, e.i + 1, r);
      }
      var x := e.s[r];
      if x in BoundAt(e.region, c, j) {
        BoundInBlock(e.region, c, j, x);
        BlockDefsInRegion(e.region, c);
        var d, k := TargetBinding(e, impl, r);
        BoundOnce(e.region, e.outer, c, j, d, k, x);
        DominanceAntisymmetric(e.region, p, e.b);
      }
    }
  }
}
