/**
 Redirecting uses: `replace_by` on values, at every depth, and what it means for runs.
 */
module Substitution {
  import opened Ir
  import opened Semantics
  import opened Refinement

  type Redirect = map<Value, Value>

  function Target(s: Redirect, v: Value): Value
  {
    if v in s then s[v] else v
  }

  function SubstValues(s: Redirect, vs: seq<Value>): (r: seq<Value>)
    ensures |r| == |vs|
  {
    seq(|vs|, i requires 0 <= i < |vs| => Target(s, vs[i]))
  }

  /** Operands change; results, arguments and control flow do not. */
  function SubstOp(s: Redirect, op: Op): (r: Op)
    ensures r.code == op.code && r.results == op.results && r.successors == op.successors
    ensures |r.regions| == |op.regions|
    decreases op
  {
    op.(operands := SubstValues(s, op.operands),
        regions := seq(|op.regions|, i requires 0 <= i < |op.regions| => SubstRegion(s, op.regions[i])))
  }

  function SubstRegion(s: Redirect, region: Region): (r: Region)
    ensures |r.blocks| == |region.blocks|
    decreases region
  {
    Region(seq(|region.blocks|, i requires 0 <= i < |region.blocks| => SubstBlock(s, region.blocks[i])))
  }

  function SubstBlock(s: Redirect, block: Block): (r: Block)
    ensures r.args == block.args && |r.ops| == |block.ops|
    decreases block
  {
    Block(block.args, SubstOps(s, block.ops))
  }

  function SubstOps(s: Redirect, ops: seq<Op>): (r: seq<Op>)
    ensures |r| == |ops|
    decreases ops
  {
    seq(|ops|, i requires 0 <= i < |ops| => SubstOp(s, ops[i]))
  }

  function SubstBlocks(s: Redirect, blocks: seq<Block>): (r: seq<Block>)
    ensures |r| == |blocks|
  {
    seq(|blocks|, i requires 0 <= i < |blocks| => SubstBlock(s, blocks[i]))
  }

  function SubstRegions(s: Redirect, regions: seq<Region>): (r: seq<Region>)
    ensures |r| == |regions|
  {
    seq(|regions|, i requires 0 <= i < |regions| => SubstRegion(s, regions[i]))
  }

  // ----- uses and definitions at every depth -----

  function OpUses(op: Op): set<Value>
    decreases op
  {
    Names(op.operands) + set r, v | r in op.regions && v in RegionUses(r) :: v
  }

  function RegionUses(region: Region): set<Value>
    decreases region
  {
    set b, v | b in region.blocks && v in OpsUses(b.ops) :: v
  }

  function OpsUses(ops: seq<Op>): set<Value>
    decreases ops
  {
    set op, v | op in ops && v in OpUses(op) :: v
  }

  function NestedDefs(op: Op): set<Value>
    decreases op
  {
    set r, v | r in op.regions && v in RegionDefs(r) :: v
  }

  function RegionDefs(region: Region): set<Value>
    decreases region
  {
    set b, v | b in region.blocks && v in Names(b.args) + OpsDefs(b.ops) :: v
  }

  function OpsDefs(ops: seq<Op>): set<Value>
    decreases ops
  {
    set op, v | op in ops && v in Names(op.results) + NestedDefs(op) :: v
  }

  // ----- composition -----

  function Compose(s: Redirect, t: Redirect): Redirect
  {
    map v | v in s.Keys + t.Keys :: Target(t, Target(s, v))
  }

  lemma {:induction false} SubstOpCompose(s: Redirect, t: Redirect, op: Op)
    ensures SubstOp(t, SubstOp(s, op)) == SubstOp(Compose(s, t), op)
    decreases op
  {
    var l, r := SubstOp(t, SubstOp(s, op)), SubstOp(Compose(s, t), op);
    assert l.operands == r.operands;
    forall i | 0 <= i < |op.regions| ensures l.regions[i] == r.regions[i] {
      SubstRegionCompose(s, t, op.regions[i]);
    }
  }

  lemma {:induction false} SubstRegionCompose(s: Redirect, t: Redirect, region: Region)
    ensures SubstRegion(t, SubstRegion(s, region)) == SubstRegion(Compose(s, t), region)
    decreases region
  {
    var l, r := SubstRegion(t, SubstRegion(s, region)), SubstRegion(Compose(s, t), region);
    forall i | 0 <= i < |region.blocks| ensures l.blocks[i] == r.blocks[i] {
      SubstOpsCompose(s, t, region.blocks[i].ops);
    }
  }

  lemma {:induction false} SubstOpsCompose(s: Redirect, t: Redirect, ops: seq<Op>)
    ensures SubstOps(t, SubstOps(s, ops)) == SubstOps(Compose(s, t), ops)
    decreases ops
  {
    forall i | 0 <= i < |ops| ensures SubstOp(t, SubstOp(s, ops[i])) == SubstOp(Compose(s, t), ops[i]) {
      SubstOpCompose(s, t, ops[i]);
    }
  }

  lemma SubstOpsAppend(s: Redirect, a: seq<Op>, b: seq<Op>)
    ensures SubstOps(s, a + b) == SubstOps(s, a) + SubstOps(s, b)
  {
  }

  lemma SubstNothing(ops: seq<Op>)
    ensures SubstOps(map[], ops) == ops
  {
    SubstOpsUnused(map[], ops);
  }

  lemma SubstBlocksNothing(blocks: seq<Block>)
    ensures SubstBlocks(map[], blocks) == blocks
  {
    forall i | 0 <= i < |blocks| ensures SubstBlock(map[], blocks[i]) == blocks[i] {
      SubstNothing(blocks[i].ops);
    }
  }

  lemma SubstRegionsNothing(regions: seq<Region>)
    ensures SubstRegions(map[], regions) == regions
  {
    forall i | 0 <= i < |regions| ensures SubstRegion(map[], regions[i]) == regions[i] {
      SubstRegionUnused(map[], regions[i]);
    }
  }

  lemma SubstBlocksCompose(s: Redirect, t: Redirect, blocks: seq<Block>)
    ensures SubstBlocks(t, SubstBlocks(s, blocks)) == SubstBlocks(Compose(s, t), blocks)
  {
    forall i | 0 <= i < |blocks| ensures SubstBlock(t, SubstBlock(s, blocks[i])) == SubstBlock(Compose(s, t), blocks[i]) {
      SubstOpsCompose(s, t, blocks[i].ops);
    }
  }

  lemma SubstRegionsCompose(s: Redirect, t: Redirect, regions: seq<Region>)
    ensures SubstRegions(t, SubstRegions(s, regions)) == SubstRegions(Compose(s, t), regions)
  {
    forall i | 0 <= i < |regions| ensures SubstRegion(t, SubstRegion(s, regions[i])) == SubstRegion(Compose(s, t), regions[i]) {
      SubstRegionCompose(s, t, regions[i]);
    }
  }

  lemma ComposeAssociative(s: Redirect, t: Redirect, u: Redirect)
    ensures Compose(Compose(s, t), u) == Compose(s, Compose(t, u))
  {
    var l, r := Compose(Compose(s, t), u), Compose(s, Compose(t, u));
    assert l.Keys == r.Keys == s.Keys + t.Keys + u.Keys;
    forall v | v in l ensures l[v] == r[v] {
      TargetCompose(s, t, v);
      TargetCompose(t, u, Target(s, v));
    }
  }

  lemma TargetCompose(s: Redirect, t: Redirect, v: Value)
    ensures Target(Compose(s, t), v) == Target(t, Target(s, v))
  {
  }

  lemma ComposeNothing(s: Redirect)
    ensures Compose(s, map[]) == s && Compose(map[], s) == s
  {
  }

  /** `replace_by` for each result in turn, so a later redirection also moves what an earlier one produced. */
  function Redirections(results: seq<Value>, targets: seq<Value>, n: nat): Redirect
    requires n <= |results| == |targets|
  {
    if n == 0 then map[]
    else Compose(Redirections(results, targets, n - 1), map[results[n - 1] := targets[n - 1]])
  }

  /** With distinct results and targets outside them, redirecting in turn is redirecting at once. */
  lemma {:induction false} RedirectionsAtOnce(results: seq<Value>, targets: seq<Value>, n: nat)
    requires |results| == |targets| && Distinct(results) && n <= |results|
    requires forall t :: t in targets ==> t !in results
    ensures var s := Redirections(results, targets, n);
            && (forall v :: v in s ==> s[v] in targets)
            && (forall j :: 0 <= j < n ==> results[j] in s && s[results[j]] == targets[j])
            && (forall j :: n <= j < |results| ==> results[j] !in s)
            && s.Keys <= Names(results)
    decreases n
  {
    if n > 0 {
      var k := n - 1;
      RedirectionsAtOnce(results, targets, k);
      forall j | 0 <= j < |results| && j != k ensures results[j] != results[k] {
        if j < k { DistinctAt(results, j, k); } else { DistinctAt(results, k, j); }
      }
      assert results[k] in results;
      ComposeOne(Redirections(results, targets, k), results[k], targets[k]);
    }
  }

  lemma ComposeOne(s: Redirect, r: Value, t: Value)
    requires r !in s && forall v :: v in s ==> s[v] != r
    ensures Compose(s, map[r := t]) == s[r := t]
  {
  }

  /** Redirecting values that are not used changes nothing. */
  lemma {:induction false} SubstOpUnused(s: Redirect, op: Op)
    requires s.Keys !! OpUses(op)
    ensures SubstOp(s, op) == op
    decreases op
  {
    assert forall v :: v in op.operands ==> v in OpUses(op);
    assert SubstValues(s, op.operands) == op.operands;
    forall i | 0 <= i < |op.regions| ensures SubstRegion(s, op.regions[i]) == op.regions[i] {
      assert op.regions[i] in op.regions;
      assert forall v :: v in RegionUses(op.regions[i]) ==> v in OpUses(op);
      SubstRegionUnused(s, op.regions[i]);
    }
    assert SubstOp(s, op).regions == op.regions;
  }

  lemma {:induction false} SubstRegionUnused(s: Redirect, region: Region)
    requires s.Keys !! RegionUses(region)
    ensures SubstRegion(s, region) == region
    decreases region
  {
    forall i | 0 <= i < |region.blocks| ensures SubstBlock(s, region.blocks[i]) == region.blocks[i] {
      assert region.blocks[i] in region.blocks;
      assert forall v :: v in OpsUses(region.blocks[i].ops) ==> v in RegionUses(region);
      SubstOpsUnused(s, region.blocks[i].ops);
    }
    assert SubstRegion(s, region).blocks == region.blocks;
  }

  lemma {:induction false} SubstOpsUnused(s: Redirect, ops: seq<Op>)
    requires s.Keys !! OpsUses(ops)
    ensures SubstOps(s, ops) == ops
    decreases ops
  {
    forall i | 0 <= i < |ops| ensures SubstOp(s, ops[i]) == ops[i] {
      assert ops[i] in ops;
      assert forall v :: v in OpUses(ops[i]) ==> v in OpsUses(ops);
      SubstOpUnused(s, ops[i]);
    }
  }

  /** Redirections that agree on the uses have the same effect. */
  lemma {:induction false} SubstOpAgree(s: Redirect, t: Redirect, op: Op)
    requires forall v :: v in OpUses(op) ==> Target(s, v) == Target(t, v)
    ensures SubstOp(s, op) == SubstOp(t, op)
    decreases op
  {
    assert forall v :: v in op.operands ==> v in OpUses(op);
    assert SubstValues(s, op.operands) == SubstValues(t, op.operands);
    forall i | 0 <= i < |op.regions| ensures SubstRegion(s, op.regions[i]) == SubstRegion(t, op.regions[i]) {
      assert op.regions[i] in op.regions;
      assert forall v :: v in RegionUses(op.regions[i]) ==> v in OpUses(op);
      SubstRegionAgree(s, t, op.regions[i]);
    }
    assert SubstOp(s, op).regions == SubstOp(t, op).regions;
  }

  lemma {:induction false} SubstRegionAgree(s: Redirect, t: Redirect, region: Region)
    requires forall v :: v in RegionUses(region) ==> Target(s, v) == Target(t, v)
    ensures SubstRegion(s, region) == SubstRegion(t, region)
    decreases region
  {
    forall i | 0 <= i < |region.blocks| ensures SubstBlock(s, region.blocks[i]) == SubstBlock(t, region.blocks[i]) {
      assert region.blocks[i] in region.blocks;
      assert forall v :: v in OpsUses(region.blocks[i].ops) ==> v in RegionUses(region);
      SubstOpsAgree(s, t, region.blocks[i].ops);
    }
    assert SubstRegion(s, region).blocks == SubstRegion(t, region).blocks;
  }

  lemma {:induction false} SubstOpsAgree(s: Redirect, t: Redirect, ops: seq<Op>)
    requires forall v :: v in OpsUses(ops) ==> Target(s, v) == Target(t, v)
    ensures SubstOps(s, ops) == SubstOps(t, ops)
    decreases ops
  {
    forall i | 0 <= i < |ops| ensures SubstOp(s, ops[i]) == SubstOp(t, ops[i]) {
      assert ops[i] in ops;
      assert forall v :: v in OpUses(ops[i]) ==> v in OpsUses(ops);
      SubstOpAgree(s, t, ops[i]);
    }
  }

  /** What is used after a redirection is the target of something used before. */
  lemma {:induction false} UsesOfSubstOp(s: Redirect, op: Op, v: Value) returns (u: Value)
    requires v in OpUses(SubstOp(s, op))
    ensures u in OpUses(op) && v == Target(s, u)
    decreases op
  {
    var op' := SubstOp(s, op);
    if v in op'.operands {
      var i :| 0 <= i < |op'.operands| && op'.operands[i] == v;
      u := op.operands[i];
    } else {
      var r :| r in op'.regions && v in RegionUses(r);
      var i :| 0 <= i < |op'.regions| && op'.regions[i] == r;
      u := UsesOfSubstRegion(s, op.regions[i], v);
      assert op.regions[i] in op.regions;
    }
  }

  lemma {:induction false} UsesOfSubstRegion(s: Redirect, region: Region, v: Value) returns (u: Value)
    requires v in RegionUses(SubstRegion(s, region))
    ensures u in RegionUses(region) && v == Target(s, u)
    decreases region
  {
    var region' := SubstRegion(s, region);
    var b :| b in region'.blocks && v in OpsUses(b.ops);
    var i :| 0 <= i < |region'.blocks| && region'.blocks[i] == b;
    u := UsesOfSubstOps(s, region.blocks[i].ops, v);
    assert region.blocks[i] in region.blocks;
  }

  lemma {:induction false} UsesOfSubstOps(s: Redirect, ops: seq<Op>, v: Value) returns (u: Value)
    requires v in OpsUses(SubstOps(s, ops))
    ensures u in OpsUses(ops) && v == Target(s, u)
    decreases ops
  {
    var op :| op in SubstOps(s, ops) && v in OpUses(op);
    var i :| 0 <= i < |ops| && SubstOps(s, ops)[i] == op;
    u := UsesOfSubstOp(s, ops[i], v);
    assert ops[i] in ops;
  }

  // ----- runs under a redirection -----

  /** On the values in `used`, `env'` holds at the target what `env` holds at the source. */
  ghost predicate Related(s: Redirect, used: set<Value>, env: Env, env': Env)
  {
    forall v :: v in used ==>
      && (v in env <==> Target(s, v) in env')
      && (v in env ==> env[v] == env'[Target(s, v)])
  }

  /** Defining values that the redirection does not mention keeps the relation. */
  lemma {:induction false} BindRelated(s: Redirect, used: set<Value>, env: Env, env': Env, names: seq<Value>, vals: PyValues)
    requires Related(s, used, env, env')
    requires Names(names) !! s.Keys + s.Values
    ensures Related(s, used, Bind(env, names, vals), Bind(env', names, vals))
    decreases names
  {
    if names != [] && vals != [] {
      assert names[0] in Names(names);
      assert Names(names[1..]) <= Names(names);
      var e, e' := env[names[0] := vals[0]], env'[names[0] := vals[0]];
      forall v | v in used
        ensures v in e <==> Target(s, v) in e'
        ensures v in e ==> e[v] == e'[Target(s, v)]
      {
        if v in s {
          assert s[v] in s.Values;
        }
      }
      BindRelated(s, used, e, e', names[1..], vals[1..]);
    }
  }

  lemma {:induction false} LookupRelated(s: Redirect, used: set<Value>, env: Env, env': Env, vs: seq<Value>)
    requires Related(s, used, env, env') && Names(vs) <= used
    ensures LookupAll(env, vs).Done? ==> LookupAll(env', SubstValues(s, vs)) == LookupAll(env, vs)
    ensures LookupAll(env, vs) != OutOfLimit
  {
    if vs != [] {
      assert vs[0] in Names(vs);
      assert Names(vs[1..]) <= Names(vs);
      assert SubstValues(s, vs)[1..] == SubstValues(s, vs[1..]);
      LookupRelated(s, used, env, env', vs[1..]);
    }
  }

  /** A region whose uses are redirected returns what it returned before. */
  lemma {:induction false} RegionRedirected(impl: Impl, s: Redirect, used: set<Value>, region: Region, args: PyValues,
                                            env: Env, env': Env, limit: nat)
    requires RegionUses(region) <= used && RegionDefs(region) !! s.Keys + s.Values
    requires Related(s, used, env, env')
    requires !RunRegion(impl, region, args, env, limit).Failed?
    ensures RunRegion(impl, SubstRegion(s, region), args, env', limit) == RunRegion(impl, region, args, env, limit)
    decreases region, 2
  {
    if region.blocks != [] {
      BlocksRedirected(impl, s, used, region, 0, args, env, env', limit, limit);
    }
  }

  lemma {:induction false} BlocksRedirected(impl: Impl, s: Redirect, used: set<Value>, region: Region, b: nat, args: PyValues,
                                            env: Env, env': Env, limit: nat, left: nat)
    requires RegionUses(region) <= used && RegionDefs(region) !! s.Keys + s.Values
    requires Related(s, used, env, env')
    requires !RunBlocks(impl, region, b, args, env, limit, left).Failed?
    ensures RunBlocks(impl, SubstRegion(s, region), b, args, env', limit, left)
         == RunBlocks(impl, region, b, args, env, limit, left)
    decreases region, 1, left
  {
    if left > 0 {
      var block := region.blocks[b];
      assert block in region.blocks;
      assert forall v :: v in OpsUses(block.ops) ==> v in RegionUses(region);
      assert forall v :: v in Names(block.args) + OpsDefs(block.ops) ==> v in RegionDefs(region);
      BindRelated(s, used, env, env', block.args, args);
      OpsRedirected(impl, s, used, block.ops, Bind(env, block.args, args), Bind(env', block.args, args), limit);
      var o := RunBlock(impl, block, args, env, limit);
      var o' := RunBlock(impl, SubstBlock(s, block), args, env', limit);
      if o.Done? && o.value.0.Goto? {
        BlocksRedirected(impl, s, used, region, o.value.0.block, o.value.0.args, o.value.1, o'.value.1, limit, left - 1);
      }
    }
  }

  /** Outcomes of a step on related environments: the same move, and related environments again. */
  ghost predicate RelatedOutcome(s: Redirect, used: set<Value>, o: Outcome<(Next, Env)>, o': Outcome<(Next, Env)>)
  {
    if o.Done? then o'.Done? && o.value.0 == o'.value.0 && Related(s, used, o.value.1, o'.value.1)
    else o' == o
  }

  lemma {:induction false} OpsRedirected(impl: Impl, s: Redirect, used: set<Value>, ops: seq<Op>, env: Env, env': Env, limit: nat)
    requires OpsUses(ops) <= used && OpsDefs(ops) !! s.Keys + s.Values
    requires Related(s, used, env, env')
    requires !RunOps(impl, ops, env, limit).Failed?
    ensures RelatedOutcome(s, used, RunOps(impl, ops, env, limit), RunOps(impl, SubstOps(s, ops), env', limit))
    decreases ops, 0
  {
    if ops != [] {
      var op := ops[0];
      assert op in ops;
      assert forall v :: v in OpUses(op) ==> v in OpsUses(ops);
      assert forall v :: v in Names(op.results) + NestedDefs(op) ==> v in OpsDefs(ops);
      assert SubstOps(s, ops)[0] == SubstOp(s, op) && SubstOps(s, ops)[1..] == SubstOps(s, ops[1..]);
      OpRedirected(impl, s, used, op, env, env', limit);
      var o, o' := RunOp(impl, op, env, limit), RunOp(impl, SubstOp(s, op), env', limit);
      if o.Done? && o.value.0.Continue? {
        assert forall x :: x in ops[1..] ==> x in ops;
        OpsRedirected(impl, s, used, ops[1..], o.value.1, o'.value.1, limit);
      }
    }
  }

  lemma {:induction false} OpRedirected(impl: Impl, s: Redirect, used: set<Value>, op: Op, env: Env, env': Env, limit: nat)
    requires OpUses(op) <= used && NestedDefs(op) + Names(op.results) !! s.Keys + s.Values
    requires Related(s, used, env, env')
    requires !RunOp(impl, op, env, limit).Failed?
    ensures RelatedOutcome(s, used, RunOp(impl, op, env, limit), RunOp(impl, SubstOp(s, op), env', limit))
    decreases op, 1
  {
    OpSameValues(impl, s, used, op, env, env', limit);
    var inputs := LookupAll(env, op.operands);
    if inputs.Done? {
      var o := RunImpl(impl, op, inputs.value, [], env, limit);
      if o.Done? {
        BindRelated(s, used, env, env', op.results, o.value.0);
      }
    }
  }

  /** Inputs and implementation outcome agree, whatever is done with the results. */
  lemma {:induction false} OpSameValues(impl: Impl, s: Redirect, used: set<Value>, op: Op, env: Env, env': Env, limit: nat)
    requires OpUses(op) <= used && NestedDefs(op) !! s.Keys + s.Values
    requires Related(s, used, env, env')
    requires !RunOp(impl, op, env, limit).Failed?
    ensures LookupAll(env, op.operands).Done?
    ensures LookupAll(env', SubstOp(s, op).operands) == LookupAll(env, op.operands)
    ensures var inputs := LookupAll(env, op.operands).value;
            RunImpl(impl, SubstOp(s, op), inputs, [], env', limit) == RunImpl(impl, op, inputs, [], env, limit)
    decreases op, 0, limit + 1
  {
    LookupRelated(s, used, env, env', op.operands);
    ImplRedirected(impl, s, used, op, LookupAll(env, op.operands).value, [], env, env', limit);
  }

  lemma {:induction false} ImplRedirected(impl: Impl, s: Redirect, used: set<Value>, op: Op, inputs: PyValues,
                                          history: seq<PyValues>, env: Env, env': Env, limit: nat)
    requires |history| <= limit
    requires OpUses(op) <= used && NestedDefs(op) !! s.Keys + s.Values
    requires Related(s, used, env, env')
    requires !RunImpl(impl, op, inputs, history, env, limit).Failed?
    ensures RunImpl(impl, SubstOp(s, op), inputs, history, env', limit) == RunImpl(impl, op, inputs, history, env, limit)
    decreases op, 0, limit - |history|
  {
    var action := impl(op.code, inputs, history);
    if action.RunRegionOf? && |history| < limit {
      var region := op.regions[action.region];
      assert region in op.regions;
      assert forall v :: v in RegionUses(region) ==> v in OpUses(op);
      assert forall v :: v in RegionDefs(region) ==> v in NestedDefs(op);
      RegionRedirected(impl, s, used, region, action.args, env, env', limit);
      var r := RunRegion(impl, region, action.args, env, limit);
      if r.Done? {
        ImplRedirected(impl, s, used, op, inputs, history + [r.value], env, env', limit);
      }
    }
  }
}
