/**
 Rewriting inside: what is done to a region at any depth is done to the regions around it.
 */
module Nesting {
  import opened Ir
  import opened Semantics
  import opened Refinement
  import opened Dominance
  import opened Substitution
  import opened Simulation
  import opened Replacement
  import opened Preservation
  import opened Passes

  // ----- nested regions may be exchanged -----

  /** Operations that differ in their regions only, each followed by its counterpart. */
  ghost predicate OpSimulates(impl: Impl, op: Op, op': Op, limit: nat, pace: Pace)
  {
    && op' == op.(regions := op'.regions) && |op'.regions| == |op.regions|
    && forall k :: 0 <= k < |op.regions| ==> Simulates(impl, op.regions[k], op'.regions[k], limit, pace)
  }

  ghost predicate OpsSimulate(impl: Impl, ops: seq<Op>, ops': seq<Op>, limit: nat, pace: Pace)
  {
    |ops'| == |ops| && forall i :: 0 <= i < |ops| ==> OpSimulates(impl, ops[i], ops'[i], limit, pace)
  }

  ghost predicate BlocksSimulate(impl: Impl, r: Region, r': Region, limit: nat, pace: Pace)
  {
    && |r'.blocks| == |r.blocks|
    && forall b :: 0 <= b < |r.blocks| ==>
         r'.blocks[b].args == r.blocks[b].args && OpsSimulate(impl, r.blocks[b].ops, r'.blocks[b].ops, limit, pace)
  }

  lemma {:induction false} ImplFollowed(impl: Impl, op: Op, op': Op, inputs: PyValues, history: seq<PyValues>, env: Env,
                                        limit: nat, pace: Pace) returns (later: nat)
    requires |history| <= limit && OpSimulates(impl, op, op', limit, pace)
    requires pace.Covers(RunImpl(impl, op, inputs, history, env, limit))
    ensures limit <= later && pace.Allows(limit, later)
    ensures RunImpl(impl, op', inputs, history, env, later) == RunImpl(impl, op, inputs, history, env, limit)
    decreases limit - |history|
  {
    later := limit;
    var action := impl(op.code, inputs, history);
    if action.RunRegionOf? && action.region < |op.regions| && |history| < limit {
      var r, r' := op.regions[action.region], op'.regions[action.region];
      var o := RunRegion(impl, r, action.args, env, limit);
      assert Simulates(impl, r, r', limit, pace) && Follows(impl, r, r', action.args, env, limit, pace);
      var near: nat :| FollowsAt(impl, r, r', action.args, env, limit, near, pace);
      later := near;
      if o.Done? {
        var far := ImplFollowed(impl, op, op', inputs, history + [o.value], env, limit, pace);
        later := Max(near, far);
        LiftImpl(impl, op', inputs, history + [o.value], env, far, later);
        LimitIrrelevant(impl, r', action.args, env, near, later);
      }
    }
  }

  lemma LiftImpl(impl: Impl, op: Op, inputs: PyValues, history: seq<PyValues>, env: Env, near: nat, later: nat)
    requires |history| <= near <= later && (near == later || RunImpl(impl, op, inputs, history, env, near) != OutOfLimit)
    ensures RunImpl(impl, op, inputs, history, env, later) == RunImpl(impl, op, inputs, history, env, near)
  {
    if near < later {
      ImplLimit(impl, op, inputs, history, env, near, later);
    }
  }

  lemma OpFollowedInside(impl: Impl, op: Op, op': Op, env: Env, limit: nat, pace: Pace) returns (later: nat)
    requires OpSimulates(impl, op, op', limit, pace) && pace.Covers(RunOp(impl, op, env, limit))
    ensures pace.Allows(limit, later) && RunOp(impl, op', env, later) == RunOp(impl, op, env, limit)
  {
    var inputs := LookupAll(env, op.operands);
    later := limit;
    if inputs.Done? {
      later := ImplFollowed(impl, op, op', inputs.value, [], env, limit, pace);
      var o := RunImpl(impl, op, inputs.value, [], env, limit);
      if o.Done? {
        assert StoreResults(op', o.value.0, o.value.1, env) == StoreResults(op, o.value.0, o.value.1, env);
      }
    }
  }

  lemma {:induction false} OpsFollowed(impl: Impl, ops: seq<Op>, ops': seq<Op>, env: Env, limit: nat, pace: Pace) returns (later: nat)
    requires OpsSimulate(impl, ops, ops', limit, pace) && pace.Covers(RunOps(impl, ops, env, limit))
    ensures pace.Allows(limit, later) && RunOps(impl, ops', env, later) == RunOps(impl, ops, env, limit)
  {
    later := limit;
    if ops != [] {
      var near := OpFollowedInside(impl, ops[0], ops'[0], env, limit, pace);
      var o := RunOp(impl, ops[0], env, limit);
      later := near;
      if o.Done? && o.value.0.Continue? {
        var far := OpsFollowed(impl, ops[1..], ops'[1..], o.value.1, limit, pace);
        later := Max(near, far);
        LiftOps(impl, ops'[1..], o.value.1, far, later);
        if near < later {
          OpLimit(impl, ops'[0], env, near, later);
        }
      }
    }
  }

  lemma {:induction false} BlocksFollowed(impl: Impl, r: Region, r': Region, b: nat, args: PyValues, env: Env,
                                          limit: nat, left: nat, pace: Pace) returns (later: nat, left': nat)
    requires BlocksSimulate(impl, r, r', limit, pace) && pace.Covers(RunBlocks(impl, r, b, args, env, limit, left))
    ensures pace.Allows(limit, later) && pace.Allows(left, left')
    ensures RunBlocks(impl, r', b, args, env, later, left') == RunBlocks(impl, r, b, args, env, limit, left)
    decreases left
  {
    later, left' := limit, left;
    if b < |r.blocks| && left > 0 {
      var block, block' := r.blocks[b], r'.blocks[b];
      assert OpsSimulate(impl, block.ops, block'.ops, limit, pace);
      var o := RunBlock(impl, block, args, env, limit);
      assert pace.Covers(o) && o == RunOps(impl, block.ops, Bind(env, block.args, args), limit);
      var near := OpsFollowed(impl, block.ops, block'.ops, Bind(env, block.args, args), limit, pace);
      later := near;
      if o.Done? && o.value.0.Goto? {
        var far, rest := BlocksFollowed(impl, r, r', o.value.0.block, o.value.0.args, o.value.1, limit, left - 1, pace);
        later, left' := Max(near, far), rest + 1;
        LiftBlocks(impl, r', o.value.0.block, o.value.0.args, o.value.1, far, rest, later, rest);
      }
      LiftOps(impl, block'.ops, Bind(env, block.args, args), near, later);
    }
  }

  /** Regions that differ in nested regions only, each followed by its counterpart. */
  lemma NestedSimulate(impl: Impl, r: Region, r': Region, limit: nat, pace: Pace)
    requires BlocksSimulate(impl, r, r', limit, pace)
    ensures Simulates(impl, r, r', limit, pace)
  {
    forall args, env ensures Follows(impl, r, r', args, env, limit, pace) {
      if pace.Covers(RunRegion(impl, r, args, env, limit)) {
        var later := limit;
        if r.blocks != [] {
          var near, left := BlocksFollowed(impl, r, r', 0, args, env, limit, limit, pace);
          later := Max(near, left);
          LiftBlocks(impl, r', 0, args, env, near, left, later, later);
        }
        assert FollowsAt(impl, r, r', args, env, limit, later, pace);
      }
    }
  }

  // ----- regions at any depth -----

  /** Region `k` of operation `i` of block `b`. */
  datatype Place = Place(b: nat, i: nat, k: nat)

  predicate Has(region: Region, place: Place)
  {
    At(region, place.b, place.i) && place.k < |region.blocks[place.b].ops[place.i].regions|
  }

  function Sub(region: Region, place: Place): Region
    requires Has(region, place)
  {
    region.blocks[place.b].ops[place.i].regions[place.k]
  }

  function WithSub(region: Region, place: Place, inner: Region): (r: Region)
    requires Has(region, place)
    ensures Has(r, place) && Sub(r, place) == inner && |r.blocks| == |region.blocks|
  {
    var block := region.blocks[place.b];
    var op := block.ops[place.i];
    Region(region.blocks[place.b :=
      block.(ops := block.ops[place.i := op.(regions := op.regions[place.k := inner])])])
  }

  predicate Leads(region: Region, path: seq<Place>)
  {
    path == [] || (Has(region, path[0]) && Leads(Sub(region, path[0]), path[1..]))
  }

  function Inside(region: Region, path: seq<Place>): Region
    requires Leads(region, path)
  {
    if path == [] then region else Inside(Sub(region, path[0]), path[1..])
  }

  /** The region with `inner` where the path leads. */
  function Put(region: Region, path: seq<Place>, inner: Region): Region
    requires Leads(region, path)
  {
    if path == [] then inner
    else WithSub(region, path[0], Put(Sub(region, path[0]), path[1..], inner))
  }

  /** Where the path leads there is now `inner`; nothing else has changed, at any depth. */
  lemma {:induction false} PutThere(region: Region, path: seq<Place>, inner: Region)
    requires Leads(region, path)
    ensures Leads(Put(region, path, inner), path) && Inside(Put(region, path, inner), path) == inner
    ensures Put(region, path, Inside(region, path)) == region
    decreases |path|
  {
    if path != [] {
      PutThere(Sub(region, path[0]), path[1..], inner);
      var place := path[0];
      var op := region.blocks[place.b].ops[place.i];
      assert op.regions[place.k := op.regions[place.k]] == op.regions;
      assert region.blocks[place.b].ops[place.i := op] == region.blocks[place.b].ops;
      assert region.blocks[place.b := region.blocks[place.b]] == region.blocks;
    }
  }

  /** Putting twice is putting once: only the region where the path leads is put. */
  lemma {:induction false} PutAgain(region: Region, path: seq<Place>, inner: Region, other: Region)
    requires Leads(region, path)
    ensures Leads(Put(region, path, inner), path) && Put(Put(region, path, inner), path, other) == Put(region, path, other)
    decreases |path|
  {
    PutThere(region, path, inner);
    if path != [] {
      var place := path[0];
      PutAgain(Sub(region, place), path[1..], inner, other);
      WithSubAgain(region, place, Put(Sub(region, place), path[1..], inner), Put(Sub(region, place), path[1..], other));
    }
  }

  lemma WithSubAgain(region: Region, place: Place, inner: Region, other: Region)
    requires Has(region, place)
    ensures WithSub(WithSub(region, place, inner), place, other) == WithSub(region, place, other)
  {
    var once := WithSub(region, place, inner);
    var op, op' := region.blocks[place.b].ops[place.i], once.blocks[place.b].ops[place.i];
    assert op'.regions[place.k := other] == op.regions[place.k := other];
    var again := op.(regions := op.regions[place.k := other]);
    assert once.blocks[place.b].ops[place.i := again] == region.blocks[place.b].ops[place.i := again];
    var block := region.blocks[place.b].(ops := region.blocks[place.b].ops[place.i := again]);
    assert once.blocks[place.b := block] == region.blocks[place.b := block];
  }

  lemma SubSimulates(impl: Impl, region: Region, place: Place, inner: Region, limit: nat, pace: Pace)
    requires Has(region, place) && Simulates(impl, Sub(region, place), inner, limit, pace)
    ensures Simulates(impl, region, WithSub(region, place, inner), limit, pace)
  {
    var changed := WithSub(region, place, inner);
    forall b, i | 0 <= b < |region.blocks| && 0 <= i < |region.blocks[b].ops|
      ensures OpSimulates(impl, region.blocks[b].ops[i], changed.blocks[b].ops[i], limit, pace)
    {
      var op, op' := region.blocks[b].ops[i], changed.blocks[b].ops[i];
      forall k | 0 <= k < |op.regions| ensures Simulates(impl, op.regions[k], op'.regions[k], limit, pace) {
        SimulatesItself(impl, op.regions[k], limit, pace);
      }
    }
    forall b | 0 <= b < |region.blocks|
      ensures OpsSimulate(impl, region.blocks[b].ops, changed.blocks[b].ops, limit, pace)
    {
    }
    NestedSimulate(impl, region, changed, limit, pace);
  }

  lemma {:induction false} PutSimulates(impl: Impl, region: Region, path: seq<Place>, inner: Region, limit: nat, pace: Pace)
    requires Leads(region, path) && Simulates(impl, Inside(region, path), inner, limit, pace)
    ensures Simulates(impl, region, Put(region, path, inner), limit, pace)
    decreases |path|
  {
    if path != [] {
      PutSimulates(impl, Sub(region, path[0]), path[1..], inner, limit, pace);
      SubSimulates(impl, region, path[0], Put(Sub(region, path[0]), path[1..], inner), limit, pace);
    }
  }

  /** Whatever depth a region stands at, exchanging it for one that returns the same loses no result. */
  lemma PutRefines(impl: Impl, region: Region, path: seq<Place>, inner: Region)
    requires Leads(region, path) && Refines(impl, Inside(region, path), inner)
    ensures Refines(impl, region, Put(region, path, inner))
  {
    RefinesExactly(impl, Inside(region, path), inner);
    forall limit: nat ensures Simulates(impl, region, Put(region, path, inner), limit, Eventually) {
      assert Simulates(impl, Inside(region, path), inner, limit, Eventually);
      PutSimulates(impl, region, path, inner, limit, Eventually);
    }
    RefinesExactly(impl, region, Put(region, path, inner));
  }

  // ----- redirections -----

  /** Redirecting everywhere is redirecting inside, if nothing else uses the values. */
  lemma {:induction false} RedirectedInside(s: Redirect, region: Region, path: seq<Place>, inner: Region)
    requires Leads(region, path) && RegionUses(Put(region, path, Region([]))) !! s.Keys
    ensures SubstRegion(s, Put(region, path, inner)) == Put(region, path, SubstRegion(s, inner))
    decreases |path|
  {
    if path != [] {
      var place := path[0];
      var rest := Put(Sub(region, place), path[1..], Region([]));
      var all := WithSub(region, place, rest);
      assert At(all, place.b, place.i) && all.blocks[place.b] in all.blocks;
      assert all.blocks[place.b].ops[place.i] in all.blocks[place.b].ops;
      assert rest in all.blocks[place.b].ops[place.i].regions;
      assert RegionUses(rest) !! s.Keys by { UsesWithin(all, place); }
      RedirectedInside(s, Sub(region, place), path[1..], inner);
      RedirectedSub(s, region, place, Put(Sub(region, place), path[1..], inner), rest);
    }
  }

  lemma UsesWithin(region: Region, place: Place)
    requires Has(region, place)
    ensures RegionUses(Sub(region, place)) <= RegionUses(region)
  {
    var block := region.blocks[place.b];
    var op := block.ops[place.i];
    forall v | v in RegionUses(Sub(region, place)) ensures v in RegionUses(region) {
      assert Sub(region, place) in op.regions && v in OpUses(op);
      assert op in block.ops && v in OpsUses(block.ops);
      assert block in region.blocks;
    }
  }

  lemma RedirectedSub(s: Redirect, region: Region, place: Place, inner: Region, hole: Region)
    requires Has(region, place) && RegionUses(WithSub(region, place, hole)) !! s.Keys
    ensures SubstRegion(s, WithSub(region, place, inner)) == WithSub(region, place, SubstRegion(s, inner))
  {
    var all, other := WithSub(region, place, inner), WithSub(region, place, hole);
    var l, r := SubstRegion(s, all), WithSub(region, place, SubstRegion(s, inner));
    forall b | 0 <= b < |region.blocks| ensures l.blocks[b] == r.blocks[b] {
      assert other.blocks[b] in other.blocks && l.blocks[b] == SubstBlock(s, all.blocks[b]);
      assert l.blocks[b].ops == SubstOps(s, all.blocks[b].ops);
      forall i | 0 <= i < |region.blocks[b].ops| ensures l.blocks[b].ops[i] == r.blocks[b].ops[i] {
        var op := other.blocks[b].ops[i];
        assert op in other.blocks[b].ops && OpUses(op) <= OpsUses(other.blocks[b].ops) <= RegionUses(other);
        assert l.blocks[b].ops[i] == SubstOp(s, all.blocks[b].ops[i]);
        RedirectedHole(s, op, all.blocks[b].ops[i], if (b, i) == (place.b, place.i) then place.k else |op.regions|);
      }
    }
  }

  /** An operation of which only region `k` uses redirected values. */
  lemma RedirectedHole(s: Redirect, other: Op, op: Op, k: nat)
    requires OpUses(other) !! s.Keys && |op.regions| == |other.regions| && op == other.(regions := op.regions)
    requires forall m :: 0 <= m < |op.regions| && m != k ==> op.regions[m] == other.regions[m]
    ensures SubstOp(s, op) == if k < |op.regions| then op.(regions := op.regions[k := SubstRegion(s, op.regions[k])]) else op
  {
    SubstOpUnused(s, other);
    var l := SubstOp(s, op);
    assert l.operands == SubstOp(s, other).operands == op.operands;
    forall m | 0 <= m < |op.regions| && m != k ensures l.regions[m] == op.regions[m] {
      assert SubstOp(s, other).regions[m] == SubstRegion(s, other.regions[m]);
    }
    assert l.regions == if k < |op.regions| then op.regions[k := SubstRegion(s, op.regions[k])] else op.regions;
  }

  // ----- the discipline at any depth -----

  /** What the regions around it provide where the path leads. */
  ghost function VisibleAt(region: Region, outer: set<Value>, path: seq<Place>): set<Value>
    requires Leads(region, path)
  {
    if path == [] then outer
    else VisibleAt(Sub(region, path[0]), Visible(region, outer, path[0].b, path[0].i), path[1..])
  }

  lemma {:induction false} InsideWellFormed(region: Region, outer: set<Value>, path: seq<Place>)
    requires Leads(region, path) && WellFormed(region, outer)
    ensures WellFormed(Inside(region, path), VisibleAt(region, outer, path))
    decreases |path|
  {
    if path != [] {
      SubWellFormed(region, outer, path[0]);
      InsideWellFormed(Sub(region, path[0]), Visible(region, outer, path[0].b, path[0].i), path[1..]);
    }
  }

  lemma SubWellFormed(region: Region, outer: set<Value>, place: Place)
    requires Has(region, place) && WellFormed(region, outer)
    ensures WellFormed(Sub(region, place), Visible(region, outer, place.b, place.i))
  {
    var visible := Visible(region, outer, place.b, place.i);
    assert Sub(region, place) in region.blocks[place.b].ops[place.i].regions;
  }

  lemma {:induction false} PutWellFormed(region: Region, outer: set<Value>, path: seq<Place>, inner: Region)
    requires Leads(region, path) && WellFormed(region, outer) && WellFormed(inner, VisibleAt(region, outer, path))
    ensures WellFormed(Put(region, path, inner), outer)
    decreases |path|
  {
    if path != [] {
      var place := path[0];
      SubWellFormed(region, outer, place);
      PutWellFormed(Sub(region, place), Visible(region, outer, place.b, place.i), path[1..], inner);
      WithSubWellFormed(region, outer, place, Put(Sub(region, place), path[1..], inner));
    }
  }

  lemma {:induction false} SameResults(a: seq<Op>, b: seq<Op>)
    requires |a| == |b| && forall i :: 0 <= i < |a| ==> a[i].results == b[i].results
    ensures Results(a) == Results(b)
  {
    if a != [] {
      SameResults(a[1..], b[1..]);
    }
  }

  /** What is nested in a block shows neither in its edges nor in its definitions. */
  lemma SameBlocks(region: Region, place: Place, inner: Region, a: nat, c: nat)
    requires Has(region, place) && a < |region.blocks|
    ensures var changed := WithSub(region, place, inner);
            (Edge(changed, a, c) <==> Edge(region, a, c)) && Defs(changed.blocks[a]) == Defs(region.blocks[a])
  {
    var changed := WithSub(region, place, inner);
    var ops, ops' := region.blocks[a].ops, changed.blocks[a].ops;
    assert |ops'| == |ops| && forall i :: 0 <= i < |ops| ==> ops'[i].successors == ops[i].successors && ops'[i].results == ops[i].results;
    SameResults(ops, ops');
    if op :| op in ops && c in op.successors {
      var i :| 0 <= i < |ops| && ops[i] == op;
      assert ops'[i] in ops';
    }
    if op' :| op' in ops' && c in op'.successors {
      var i :| 0 <= i < |ops'| && ops'[i] == op';
      assert ops[i] in ops;
    }
  }

  lemma SameWalks(region: Region, place: Place, inner: Region, p: seq<nat>)
    requires Has(region, place)
    ensures IsPath(WithSub(region, place, inner), p) <==> IsPath(region, p)
  {
    var changed := WithSub(region, place, inner);
    if |p| > 0 && p[0] == 0 && forall i :: 0 <= i < |p| ==> p[i] < |region.blocks| {
      forall i | 0 <= i < |p| - 1 ensures Edge(changed, p[i], p[i + 1]) <==> Edge(region, p[i], p[i + 1]) {
        SameBlocks(region, place, inner, p[i], p[i + 1]);
      }
    }
  }

  lemma SameDominators(region: Region, place: Place, inner: Region, d: nat, b: nat)
    requires Has(region, place)
    ensures Dominates(WithSub(region, place, inner), d, b) <==> Dominates(region, d, b)
  {
    var changed := WithSub(region, place, inner);
    forall p ensures IsPath(changed, p) <==> IsPath(region, p) {
      SameWalks(region, place, inner, p);
    }
  }

  lemma SameVisible(region: Region, outer: set<Value>, place: Place, inner: Region, c: nat, m: nat)
    requires Has(region, place) && At(region, c, m)
    ensures At(WithSub(region, place, inner), c, m)
    ensures Visible(WithSub(region, place, inner), outer, c, m) == Visible(region, outer, c, m)
  {
    var changed := WithSub(region, place, inner);
    SameResults(region.blocks[c].ops[..m], changed.blocks[c].ops[..m]);
    forall d | 0 <= d < |region.blocks|
      ensures Dominates(changed, d, c) <==> Dominates(region, d, c)
      ensures Defs(changed.blocks[d]) == Defs(region.blocks[d])
    {
      SameDominators(region, place, inner, d, c);
      SameBlocks(region, place, inner, d, 0);
    }
    assert DominatingDefs(changed, c) == DominatingDefs(region, c);
  }

  lemma WithSubWellFormed(region: Region, outer: set<Value>, place: Place, inner: Region)
    requires Has(region, place) && WellFormed(region, outer) && WellFormed(inner, Visible(region, outer, place.b, place.i))
    ensures WellFormed(WithSub(region, place, inner), outer)
  {
    var changed := WithSub(region, place, inner);
    forall c: nat, m: nat | At(changed, c, m) ensures OpPlaced(changed, outer, c, m) {
      SameVisible(region, outer, place, inner, c, m);
      var op, op' := region.blocks[c].ops[m], changed.blocks[c].ops[m];
      assert Names(op.operands) <= Visible(region, outer, c, m);
      forall r | r in op'.regions ensures WellFormed(r, Visible(changed, outer, c, m)) {
        assert r in op.regions || (r == inner && (c, m) == (place.b, place.i));
      }
    }
    AllWellPlaced(changed, outer);
  }

  // ----- replacing at any depth -----

  /** `replace_op` at any depth: the runs of the region around it are followed at the pace of the replacement. */
  lemma ReplaceInsideKeepsPace(region: Region, path: seq<Place>, e: Edit, impl: Impl, limit: nat, pace: Pace)
    requires Leads(region, path) && e.region == Inside(region, path)
    requires e.Valid(impl) && Equivalent(impl, e.Old(), e.newOps, e.s, limit, pace)
    ensures Simulates(impl, region, Put(region, path, Replaced(e.region, e.b, e.i, e.newOps, e.s)), limit, pace)
  {
    ReplaceKeepsPace(e, impl, limit, pace);
    PutSimulates(impl, region, path, Replaced(e.region, e.b, e.i, e.newOps, e.s), limit, pace);
  }

  /**
   A pass over a region at any depth keeps the discipline of the region around it, and whatever that
   returned it still returns.
   */
  lemma PassInsidePreservesMeaning(region: Region, outer: set<Value>, path: seq<Place>, impl: Impl, steps: seq<Step>)
    requires Leads(region, path) && WellFormed(region, outer)
    requires UniqueValues(Inside(region, path), VisibleAt(region, outer, path))
    requires Requests(impl, Inside(region, path), VisibleAt(region, outer, path), steps)
    requires Lowers(impl, Inside(region, path), VisibleAt(region, outer, path), steps)
    ensures var r := Put(region, path, Result(impl, Inside(region, path), VisibleAt(region, outer, path), steps));
            WellFormed(r, outer) && Refines(impl, region, r)
  {
    var inner, visible := Inside(region, path), VisibleAt(region, outer, path);
    InsideWellFormed(region, outer, path);
    PassPreservesMeaning(impl, inner, visible, steps);
    PutWellFormed(region, outer, path, Result(impl, inner, visible, steps));
    PutRefines(impl, region, path, Result(impl, inner, visible, steps));
  }
}
