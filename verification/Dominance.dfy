/**
 Dominance over the control-flow graph of a region, stated by paths, and the SSA
 discipline built on it.
 */
module Dominance {
  import opened Ir
  import opened Semantics
  import opened Refinement

  ghost predicate Edge(region: Region, a: nat, c: nat)
  {
    a < |region.blocks| && exists op :: op in region.blocks[a].ops && c in op.successors
  }

  /** `p` lists the blocks of a walk that starts at the entry block. */
  ghost predicate IsPath(region: Region, p: seq<nat>)
  {
    && |p| > 0 && p[0] == 0
    && (forall i :: 0 <= i < |p| ==> p[i] < |region.blocks|)
    && (forall i :: 0 <= i < |p| - 1 ==> Edge(region, p[i], p[i + 1]))
  }

  /** Every walk from the entry block to `b` passes through `d`. */
  ghost predicate Dominates(region: Region, d: nat, b: nat)
  {
    forall p :: IsPath(region, p) && p[|p| - 1] == b ==> d in p
  }

  ghost function DominatingDefs(region: Region, b: nat): set<Value>
  {
    set d, v | 0 <= d < |region.blocks| && d != b && Dominates(region, d, b) && v in Defs(region.blocks[d]) :: v
  }

  /** The values whose definition dominates operation `i` of block `b`. */
  ghost function Visible(region: Region, outer: set<Value>, b: nat, i: nat): set<Value>
    requires b < |region.blocks| && i <= |region.blocks[b].ops|
  {
    outer + Names(region.blocks[b].args) + Names(Results(region.blocks[b].ops[..i])) + DominatingDefs(region, b)
  }

  /** Every use, at any depth, is dominated by a definition; `outer` is what the context provides. */
  ghost predicate WellFormed(region: Region, outer: set<Value>)
    decreases region
  {
    forall b, i {:trigger Visible(region, outer, b, i)} :: 0 <= b < |region.blocks| && 0 <= i < |region.blocks[b].ops| ==>
      var op := region.blocks[b].ops[i];
      && Names(op.operands) <= Visible(region, outer, b, i)
      && forall r :: r in op.regions ==> WellFormed(r, Visible(region, outer, b, i))
  }

  lemma {:induction false} ResultsPrefix(ops: seq<Op>, i: nat)
    requires i < |ops|
    ensures Results(ops[..i + 1]) == Results(ops[..i]) + ops[i].results
  {
    ResultsAppend(ops[..i], [ops[i]]);
    assert ops[..i + 1] == ops[..i] + [ops[i]];
    assert Results([ops[i]]) == ops[i].results + Results([]);
  }

  lemma PathExtends(region: Region, p: seq<nat>, c: nat)
    requires IsPath(region, p) && Edge(region, p[|p| - 1], c) && c < |region.blocks|
    ensures IsPath(region, p + [c])
  {
    var q := p + [c];
    forall i | 0 <= i < |q| - 1 ensures Edge(region, q[i], q[i + 1]) {
      if i < |p| - 1 {
        assert Edge(region, p[i], p[i + 1]);
      }
    }
  }
}
