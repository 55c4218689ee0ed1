/**
 Why a walk ends: weights that every action of a recursive walk lowers, and the depth of nesting
 that a walk without recursion goes down. Neither depends on which values operations use.
 */
module Measures {
  import opened Ir
  import opened Substitution
  import opened PatternRewriters

  function Sum(mu: Op -> nat, ops: seq<Op>): nat
  {
    if ops == [] then 0 else mu(ops[0]) + Sum(mu, ops[1..])
  }

  lemma {:induction false} SumAppend(mu: Op -> nat, a: seq<Op>, b: seq<Op>)
    ensures Sum(mu, a + b) == Sum(mu, a) + Sum(mu, b)
  {
    if a == [] {
      assert a + b == b;
    } else {
      assert (a + b)[0] == a[0] && (a + b)[1..] == a[1..] + b;
      SumAppend(mu, a[1..], b);
    }
  }

  lemma {:induction false} SumAtLeast(mu: Op -> nat, ops: seq<Op>, i: nat)
    requires i < |ops|
    ensures mu(ops[i]) <= Sum(mu, ops)
  {
    if i > 0 {
      SumAtLeast(mu, ops[1..], i - 1);
    }
  }

  /** The same regions and blocks, with no block heavier than before. */
  ghost predicate NotHeavier(mu: Op -> nat, new_: seq<Region>, old_: seq<Region>)
  {
    && |new_| == |old_|
    && forall i :: 0 <= i < |new_| ==>
         && |new_[i].blocks| == |old_[i].blocks|
         && forall b :: 0 <= b < |new_[i].blocks| ==>
              Sum(mu, new_[i].blocks[b].ops) <= Sum(mu, old_[i].blocks[b].ops)
  }

  /**
   Every action of the pattern makes the operation lighter; nesting and shrinking respect the
   weight, and which values are used does not matter to it.
   */
  ghost predicate Measures(mu: Op -> nat, pattern: Pattern)
    requires LegalPattern(pattern)
  {
    && (forall op: Op :: Acts(pattern, op) ==> Sum(mu, Rewritten(pattern, op).Affected()) < mu(op))
    && (forall op: Op, i, b :: 0 <= i < |op.regions| && 0 <= b < |op.regions[i].blocks| ==>
          Sum(mu, op.regions[i].blocks[b].ops) <= mu(op))
    && (forall op: Op, regions :: NotHeavier(mu, regions, op.regions) ==> mu(op.(regions := regions)) <= mu(op))
    && OperandBlind(mu)
  }

  ghost predicate OperandBlind(mu: Op -> nat)
  {
    forall s: Redirect, op: Op :: mu(SubstOp(s, op)) == mu(op)
  }

  lemma {:induction false} SumSubst(mu: Op -> nat, s: Redirect, ops: seq<Op>)
    requires OperandBlind(mu)
    ensures Sum(mu, SubstOps(s, ops)) == Sum(mu, ops)
  {
    if ops != [] {
      assert SubstOps(s, ops)[1..] == SubstOps(s, ops[1..]);
      SumSubst(mu, s, ops[1..]);
    }
  }

  // ----- depth -----

  function Max(a: nat, b: nat): nat
  {
    if a < b then b else a
  }

  function Depth(op: Op): nat
    decreases op
  {
    1 + RegionsDepth(op.regions)
  }

  function RegionsDepth(regions: seq<Region>): nat
    decreases regions
  {
    if regions == [] then 0 else Max(BlocksDepth(regions[0].blocks), RegionsDepth(regions[1..]))
  }

  function BlocksDepth(blocks: seq<Block>): nat
    decreases blocks
  {
    if blocks == [] then 0 else Max(OpsDepth(blocks[0].ops), BlocksDepth(blocks[1..]))
  }

  function OpsDepth(ops: seq<Op>): nat
    decreases ops
  {
    if ops == [] then 0 else Max(Depth(ops[0]), OpsDepth(ops[1..]))
  }

  lemma {:induction false} DepthOfMember(ops: seq<Op>, i: nat)
    requires i < |ops|
    ensures Depth(ops[i]) <= OpsDepth(ops)
  {
    if i > 0 {
      DepthOfMember(ops[1..], i - 1);
    }
  }

  lemma {:induction false} DepthOfRegion(regions: seq<Region>, i: nat)
    requires i < |regions|
    ensures BlocksDepth(regions[i].blocks) <= RegionsDepth(regions)
  {
    if i > 0 {
      DepthOfRegion(regions[1..], i - 1);
    }
  }

  lemma {:induction false} DepthOfBlock(blocks: seq<Block>, b: nat)
    requires b < |blocks|
    ensures OpsDepth(blocks[b].ops) <= BlocksDepth(blocks)
  {
    if b > 0 {
      DepthOfBlock(blocks[1..], b - 1);
    }
  }

  lemma DepthInside(op: Op, i: nat, b: nat)
    requires i < |op.regions| && b < |op.regions[i].blocks|
    ensures OpsDepth(op.regions[i].blocks[b].ops) < Depth(op)
  {
    DepthOfRegion(op.regions, i);
    DepthOfBlock(op.regions[i].blocks, b);
  }

  lemma {:induction false} DepthSubst(s: Redirect, op: Op)
    ensures Depth(SubstOp(s, op)) == Depth(op)
    decreases op
  {
    RegionsDepthSubst(s, op.regions);
    assert SubstOp(s, op).regions == SubstRegions(s, op.regions);
  }

  lemma {:induction false} RegionsDepthSubst(s: Redirect, regions: seq<Region>)
    ensures RegionsDepth(SubstRegions(s, regions)) == RegionsDepth(regions)
    decreases regions
  {
    if regions != [] {
      assert SubstRegions(s, regions)[1..] == SubstRegions(s, regions[1..]);
      BlocksDepthSubst(s, regions[0].blocks);
      assert SubstRegion(s, regions[0]).blocks == SubstBlocks(s, regions[0].blocks);
      RegionsDepthSubst(s, regions[1..]);
    }
  }

  lemma {:induction false} BlocksDepthSubst(s: Redirect, blocks: seq<Block>)
    ensures BlocksDepth(SubstBlocks(s, blocks)) == BlocksDepth(blocks)
    decreases blocks
  {
    if blocks != [] {
      assert SubstBlocks(s, blocks)[1..] == SubstBlocks(s, blocks[1..]);
      OpsDepthSubst(s, blocks[0].ops);
      BlocksDepthSubst(s, blocks[1..]);
    }
  }

  lemma {:induction false} OpsDepthSubst(s: Redirect, ops: seq<Op>)
    ensures OpsDepth(SubstOps(s, ops)) == OpsDepth(ops)
    decreases ops
  {
    if ops != [] {
      assert SubstOps(s, ops)[1..] == SubstOps(s, ops[1..]);
      DepthSubst(s, ops[0]);
      OpsDepthSubst(s, ops[1..]);
    }
  }

  // ----- additive weights are measures -----

  function Weigh(weight: Code -> nat, op: Op): nat
    decreases op
  {
    weight(op.code) + WeighRegions(weight, op.regions)
  }

  function WeighRegions(weight: Code -> nat, regions: seq<Region>): nat
    decreases regions
  {
    if regions == [] then 0 else WeighBlocks(weight, regions[0].blocks) + WeighRegions(weight, regions[1..])
  }

  function WeighBlocks(weight: Code -> nat, blocks: seq<Block>): nat
    decreases blocks
  {
    if blocks == [] then 0 else WeighOps(weight, blocks[0].ops) + WeighBlocks(weight, blocks[1..])
  }

  function WeighOps(weight: Code -> nat, ops: seq<Op>): nat
    decreases ops
  {
    if ops == [] then 0 else Weigh(weight, ops[0]) + WeighOps(weight, ops[1..])
  }

  function Additive(weight: Code -> nat): Op -> nat
  {
    op => Weigh(weight, op)
  }

  lemma {:induction false} SumIsWeight(weight: Code -> nat, ops: seq<Op>)
    ensures Sum(Additive(weight), ops) == WeighOps(weight, ops)
  {
    if ops != [] {
      SumIsWeight(weight, ops[1..]);
    }
  }

  lemma {:induction false} BlockWithin(weight: Code -> nat, blocks: seq<Block>, b: nat)
    requires b < |blocks|
    ensures WeighOps(weight, blocks[b].ops) <= WeighBlocks(weight, blocks)
  {
    if b > 0 {
      BlockWithin(weight, blocks[1..], b - 1);
    }
  }

  lemma {:induction false} RegionWithin(weight: Code -> nat, regions: seq<Region>, i: nat)
    requires i < |regions|
    ensures WeighBlocks(weight, regions[i].blocks) <= WeighRegions(weight, regions)
  {
    if i > 0 {
      RegionWithin(weight, regions[1..], i - 1);
    }
  }

  lemma {:induction false} LighterBlocks(weight: Code -> nat, a: seq<Block>, b: seq<Block>)
    requires |a| == |b|
    requires forall k :: 0 <= k < |a| ==> Sum(Additive(weight), a[k].ops) <= Sum(Additive(weight), b[k].ops)
    ensures WeighBlocks(weight, a) <= WeighBlocks(weight, b)
  {
    if a != [] {
      SumIsWeight(weight, a[0].ops);
      SumIsWeight(weight, b[0].ops);
      LighterBlocks(weight, a[1..], b[1..]);
    }
  }

  lemma {:induction false} LighterRegions(weight: Code -> nat, a: seq<Region>, b: seq<Region>)
    requires NotHeavier(Additive(weight), a, b)
    ensures WeighRegions(weight, a) <= WeighRegions(weight, b)
  {
    if a != [] {
      LighterBlocks(weight, a[0].blocks, b[0].blocks);
      LighterRegions(weight, a[1..], b[1..]);
    }
  }

  lemma {:induction false} WeighSubst(weight: Code -> nat, s: Redirect, op: Op)
    ensures Weigh(weight, SubstOp(s, op)) == Weigh(weight, op)
    decreases op
  {
    WeighRegionsSubst(weight, s, op.regions);
    assert SubstOp(s, op).regions == SubstRegions(s, op.regions);
  }

  lemma {:induction false} WeighRegionsSubst(weight: Code -> nat, s: Redirect, regions: seq<Region>)
    ensures WeighRegions(weight, SubstRegions(s, regions)) == WeighRegions(weight, regions)
    decreases regions
  {
    if regions != [] {
      assert SubstRegions(s, regions)[1..] == SubstRegions(s, regions[1..]);
      assert SubstRegion(s, regions[0]).blocks == SubstBlocks(s, regions[0].blocks);
      WeighBlocksSubst(weight, s, regions[0].blocks);
      WeighRegionsSubst(weight, s, regions[1..]);
    }
  }

  lemma {:induction false} WeighBlocksSubst(weight: Code -> nat, s: Redirect, blocks: seq<Block>)
    ensures WeighBlocks(weight, SubstBlocks(s, blocks)) == WeighBlocks(weight, blocks)
    decreases blocks
  {
    if blocks != [] {
      assert SubstBlocks(s, blocks)[1..] == SubstBlocks(s, blocks[1..]);
      WeighOpsSubst(weight, s, blocks[0].ops);
      WeighBlocksSubst(weight, s, blocks[1..]);
    }
  }

  lemma {:induction false} WeighOpsSubst(weight: Code -> nat, s: Redirect, ops: seq<Op>)
    ensures WeighOps(weight, SubstOps(s, ops)) == WeighOps(weight, ops)
    decreases ops
  {
    if ops != [] {
      assert SubstOps(s, ops)[1..] == SubstOps(s, ops[1..]);
      WeighSubst(weight, s, ops[0]);
      WeighOpsSubst(weight, s, ops[1..]);
    }
  }

  /** Weighing operation codes is enough: a pattern whose actions lose weight terminates. */
  lemma AdditiveMeasures(weight: Code -> nat, pattern: Pattern)
    requires LegalPattern(pattern)
    requires forall op :: Acts(pattern, op) ==> Sum(Additive(weight), Rewritten(pattern, op).Affected()) < Weigh(weight, op)
    ensures Measures(Additive(weight), pattern)
  {
    forall op: Op, i, b | 0 <= i < |op.regions| && 0 <= b < |op.regions[i].blocks|
      ensures Sum(Additive(weight), op.regions[i].blocks[b].ops) <= Additive(weight)(op)
    {
      SumIsWeight(weight, op.regions[i].blocks[b].ops);
      BlockWithin(weight, op.regions[i].blocks, b);
      RegionWithin(weight, op.regions, i);
    }
    forall op: Op, regions | NotHeavier(Additive(weight), regions, op.regions)
      ensures Additive(weight)(op.(regions := regions)) <= Additive(weight)(op)
    {
      LighterRegions(weight, regions, op.regions);
    }
    forall s: Redirect, op: Op ensures Additive(weight)(SubstOp(s, op)) == Additive(weight)(op) {
      WeighSubst(weight, s, op);
    }
  }

  // ----- walks that end -----

  /** What the pattern leaves is nested no deeper than what it was offered. */
  ghost predicate KeepsDepth(pattern: Pattern)
    requires LegalPattern(pattern)
  {
    forall op :: Acts(pattern, op) ==> OpsDepth(Rewritten(pattern, op).Affected()) <= Depth(op)
  }

  /** A walk, its direction aside. */
  datatype Walk = Walk(pattern: Pattern, regionsFirst: bool, recursive: bool) {

    /**
     The calls of the pattern do not raise, and the walk cannot go on forever. Without recursion
     only a walk that goes into what the pattern leaves needs a bound.
     */
    ghost predicate Bounded(mu: Op -> nat)
    {
      && LegalPattern(pattern)
      && (recursive ==> Measures(mu, pattern))
      && (!recursive && !regionsFirst ==> KeepsDepth(pattern))
    }

    ghost function Weight(mu: Op -> nat, ops: seq<Op>): nat
    {
      if recursive then Sum(mu, ops) else 0
    }

    ghost function WeightOf(mu: Op -> nat, op: Op): nat
    {
      if recursive then mu(op) else 0
    }

    lemma WeightSubst(mu: Op -> nat, s: Redirect, ops: seq<Op>)
      requires Bounded(mu)
      ensures Weight(mu, SubstOps(s, ops)) == Weight(mu, ops) && OpsDepth(SubstOps(s, ops)) == OpsDepth(ops)
    {
      if recursive {
        SumSubst(mu, s, ops);
      }
      OpsDepthSubst(s, ops);
    }
  }
}
