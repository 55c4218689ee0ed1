/**
 Walks with redirections put off to the end, which have no direction, and when that makes no
 difference: a pattern that does not look at which values are used leaves the same block whichever
 way it is walked.
 */
module Directions {
  import opened Ir
  import opened Refinement
  import opened Substitution
  import opened PatternRewriters
  import opened Measures
  import opened Walks
  import opened Resolution

  type Entry = (Value, Value)

  /** A part after its walk, nothing redirected, and the replacements of values that are due. */
  datatype Raw<T> = Raw(what: T, entries: set<Entry>)

  ghost function RawOps(w: Walk, mu: Op -> nat, ops: seq<Op>): (r: Raw<seq<Op>>)
    requires w.Bounded(mu)
    ensures w.Weight(mu, r.what) <= w.Weight(mu, ops)
    decreases w.Weight(mu, ops), OpsDepth(ops), 2, |ops|
  {
    if ops == [] then Raw([], {})
    else
      Parts(w, mu, ops, 0);
      var first, rest := RawOp(w, mu, ops[0]), RawOps(w, mu, ops[1..]);
      SumAppend(mu, first.what, rest.what);
      RawJoin(first, rest)
  }

  ghost function RawJoin(a: Raw<seq<Op>>, b: Raw<seq<Op>>): Raw<seq<Op>>
  {
    Raw(a.what + b.what, a.entries + b.entries)
  }

  ghost function RawOp(w: Walk, mu: Op -> nat, op: Op): (r: Raw<seq<Op>>)
    requires w.Bounded(mu)
    ensures w.Weight(mu, r.what) <= w.WeightOf(mu, op)
    decreases w.WeightOf(mu, op), Depth(op), 1, 0
  {
    var ready := if w.regionsFirst then RawRegions(w, mu, op) else Raw(op, {});
    if !Acts(w.pattern, ready.what) then
      var r := if w.regionsFirst then ready else RawRegions(w, mu, op);
      OneWeight(w, mu, r.what);
      Raw([r.what], r.entries)
    else
      var rw := Rewritten(w.pattern, ready.what);
      var due := ready.entries + rw.Redirection().Items;
      if w.recursive then
        var rest := RawOps(w, mu, rw.Affected());
        Raw(rest.what, due + rest.entries)
      else if w.regionsFirst then Raw(rw.Affected(), due)
      else
        DepthsWithin(rw.Affected(), Depth(op));
        var rest := RawEach(w, mu, rw.Affected(), Depth(op));
        Raw(rest.what, due + rest.entries)
  }

  ghost function RawEach(w: Walk, mu: Op -> nat, ops: seq<Op>, depth: nat): (r: Raw<seq<Op>>)
    requires w.Bounded(mu) && !w.recursive && forall k :: 0 <= k < |ops| ==> Depth(ops[k]) <= depth
    ensures |r.what| == |ops|
    decreases 0, depth, 0, 1
  {
    Raw(seq(|ops|, k requires 0 <= k < |ops| => RawRegions(w, mu, ops[k]).what),
        set k, p | 0 <= k < |ops| && p in RawRegions(w, mu, ops[k]).entries :: p)
  }

  ghost function RawRegions(w: Walk, mu: Op -> nat, op: Op): (r: Raw<Op>)
    requires w.Bounded(mu)
    ensures w.WeightOf(mu, r.what) <= w.WeightOf(mu, op)
    decreases w.WeightOf(mu, op), Depth(op), 0, 0
  {
    WithinOp(w, mu, op);
    var r := RawRegionList(w, mu, op.regions, w.WeightOf(mu, op), Depth(op) - 1);
    Raw(op.(regions := r.what), r.entries)
  }

  ghost function RawRegionList(w: Walk, mu: Op -> nat, regions: seq<Region>, weight: nat, depth: nat): (r: Raw<seq<Region>>)
    requires w.Bounded(mu) && Within(w, mu, regions, weight, depth)
    ensures w.recursive ==> NotHeavier(mu, r.what, regions)
    decreases weight, depth, 4, |regions|
  {
    if regions == [] then Raw([], {})
    else
      assert Within(w, mu, regions[1..], weight, depth);
      var first := RawBlocks(w, mu, regions[0].blocks, weight, depth);
      var rest := RawRegionList(w, mu, regions[1..], weight, depth);
      RawListWeight(w, mu, regions, first.what, rest.what);
      Raw([Region(first.what)] + rest.what, first.entries + rest.entries)
  }

  ghost function RawBlocks(w: Walk, mu: Op -> nat, blocks: seq<Block>, weight: nat, depth: nat): (r: Raw<seq<Block>>)
    requires w.Bounded(mu) && BlocksWithin(w, mu, blocks, weight, depth)
    ensures BlocksNotHeavier(w, mu, r.what, blocks)
    decreases weight, depth, 3, |blocks|
  {
    if blocks == [] then Raw([], {})
    else
      var first := RawOps(w, mu, blocks[0].ops);
      var rest := RawBlocks(w, mu, blocks[1..], weight, depth);
      RawBlocksWeight(w, mu, blocks, first.what, rest.what);
      RawJoinBlocks(Raw([Block(blocks[0].args, first.what)], first.entries), rest)
  }

  ghost function RawJoinBlocks(a: Raw<seq<Block>>, b: Raw<seq<Block>>): Raw<seq<Block>>
  {
    Raw(a.what + b.what, a.entries + b.entries)
  }

  lemma RawListWeight(w: Walk, mu: Op -> nat, regions: seq<Region>, first: seq<Block>, rest: seq<Region>)
    requires regions != [] && BlocksNotHeavier(w, mu, first, regions[0].blocks)
    requires w.recursive ==> NotHeavier(mu, rest, regions[1..])
    ensures w.recursive ==> NotHeavier(mu, [Region(first)] + rest, regions)
  {
    if w.recursive {
      var all := [Region(first)] + rest;
      forall i | 0 <= i < |all|
        ensures |all[i].blocks| == |regions[i].blocks|
        ensures forall b :: 0 <= b < |all[i].blocks| ==> Sum(mu, all[i].blocks[b].ops) <= Sum(mu, regions[i].blocks[b].ops)
      {
        if i == 0 {
          assert forall b :: 0 <= b < |first| ==> w.Weight(mu, first[b].ops) <= w.Weight(mu, regions[0].blocks[b].ops);
        } else {
          assert all[i] == rest[i - 1] && regions[i] == regions[1..][i - 1];
        }
      }
    }
  }

  lemma RawBlocksWeight(w: Walk, mu: Op -> nat, blocks: seq<Block>, first: seq<Op>, rest: seq<Block>)
    requires blocks != [] && w.Weight(mu, first) <= w.Weight(mu, blocks[0].ops)
    requires BlocksNotHeavier(w, mu, rest, blocks[1..])
    ensures BlocksNotHeavier(w, mu, [Block(blocks[0].args, first)] + rest, blocks)
  {
    var all := [Block(blocks[0].args, first)] + rest;
    forall b | 0 <= b < |all| ensures w.Weight(mu, all[b].ops) <= w.Weight(mu, blocks[b].ops) {
      if b > 0 {
        assert all[b] == rest[b - 1] && blocks[b] == blocks[1..][b - 1];
        assert w.Weight(mu, rest[b - 1].ops) <= w.Weight(mu, blocks[1..][b - 1].ops);
      }
    }
  }

  // ----- raw walks have no direction -----

  lemma RawNothing<T>(r: Raw<seq<T>>)
    ensures Raw([] + r.what, {} + r.entries) == r && Raw(r.what + [], r.entries + {}) == r
  {
    assert [] + r.what == r.what && {} + r.entries == r.entries && r.what + [] == r.what && r.entries + {} == r.entries;
  }

  lemma {:induction false} RawAppend(w: Walk, mu: Op -> nat, a: seq<Op>, b: seq<Op>)
    requires w.Bounded(mu)
    ensures RawOps(w, mu, a + b) == RawJoin(RawOps(w, mu, a), RawOps(w, mu, b))
    decreases |a|
  {
    if a == [] {
      assert a + b == b;
      RawNothing(RawOps(w, mu, b));
    } else {
      assert (a + b)[0] == a[0] && (a + b)[1..] == a[1..] + b;
      RawAppend(w, mu, a[1..], b);
      RawAssociative(RawOp(w, mu, a[0]), RawOps(w, mu, a[1..]), RawOps(w, mu, b));
    }
  }

  lemma RawAssociative<T>(a: Raw<seq<T>>, b: Raw<seq<T>>, c: Raw<seq<T>>)
    ensures a.what + (b.what + c.what) == a.what + b.what + c.what
    ensures a.entries + (b.entries + c.entries) == a.entries + b.entries + c.entries
  {
  }

  lemma RawOne(w: Walk, mu: Op -> nat, op: Op)
    requires w.Bounded(mu)
    ensures RawOps(w, mu, [op]) == RawOp(w, mu, op)
  {
    var r := RawOp(w, mu, op);
    assert [op][1..] == [] && r.what + [] == r.what && r.entries + {} == r.entries;
  }

  /** Either end of a list may be taken first. */
  lemma RawBeside(w: Walk, reverse: bool, mu: Op -> nat, ops: seq<Op>)
    requires w.Bounded(mu) && ops != []
    ensures var x, rest := RawOp(w, mu, FirstOf(reverse, ops)), RawOps(w, mu, OthersOf(reverse, ops));
            RawOps(w, mu, ops) == Raw(Beside(reverse, x.what, rest.what), x.entries + rest.entries)
  {
    if reverse {
      var n := |ops| - 1;
      assert ops == ops[..n] + [ops[n]];
      RawAppend(w, mu, ops[..n], [ops[n]]);
      RawOne(w, mu, ops[n]);
    }
  }

  lemma {:induction false} RawBlocksAppend(w: Walk, mu: Op -> nat, a: seq<Block>, b: seq<Block>, weight: nat, depth: nat)
    requires w.Bounded(mu) && BlocksWithin(w, mu, a, weight, depth) && BlocksWithin(w, mu, b, weight, depth)
    ensures BlocksWithin(w, mu, a + b, weight, depth)
    ensures RawBlocks(w, mu, a + b, weight, depth)
         == RawJoinBlocks(RawBlocks(w, mu, a, weight, depth), RawBlocks(w, mu, b, weight, depth))
    decreases |a|
  {
    if a == [] {
      assert a + b == b;
      RawNothing(RawBlocks(w, mu, b, weight, depth));
    } else {
      assert (a + b)[0] == a[0] && (a + b)[1..] == a[1..] + b;
      RawBlocksAppend(w, mu, a[1..], b, weight, depth);
      var first := RawOps(w, mu, a[0].ops);
      var rest, back := RawBlocks(w, mu, a[1..], weight, depth), RawBlocks(w, mu, b, weight, depth);
      RawAssociative(Raw([Block(a[0].args, first.what)], first.entries), rest, back);
    }
  }

  lemma RawBlocksBeside(w: Walk, reverse: bool, mu: Op -> nat, blocks: seq<Block>, weight: nat, depth: nat)
    requires w.Bounded(mu) && BlocksWithin(w, mu, blocks, weight, depth) && blocks != []
    ensures BlocksWithin(w, mu, OthersOf(reverse, blocks), weight, depth)
    ensures var block := FirstOf(reverse, blocks);
            var x, rest := RawOps(w, mu, block.ops), RawBlocks(w, mu, OthersOf(reverse, blocks), weight, depth);
            RawBlocks(w, mu, blocks, weight, depth)
            == Raw(Beside(reverse, [Block(block.args, x.what)], rest.what), x.entries + rest.entries)
  {
    if reverse {
      var n := |blocks| - 1;
      var last := [blocks[n]];
      assert blocks == blocks[..n] + last;
      assert BlocksWithin(w, mu, last, weight, depth);
      RawBlocksAppend(w, mu, blocks[..n], last, weight, depth);
      var r := RawBlocks(w, mu, last, weight, depth);
      var x := RawOps(w, mu, blocks[n].ops);
      assert last[1..] == [];
      assert r == Raw([Block(blocks[n].args, x.what)], x.entries) by {
        assert [Block(blocks[n].args, x.what)] + [] == [Block(blocks[n].args, x.what)] && x.entries + {} == x.entries;
      }
    }
  }
}
