/**
 How often an operation occurs, at any depth, however it is nested: what moves of operations neither
 lose nor double.
 */
module Conservation {
  import opened Ir

  /** An operation without what is inside it. */
  datatype Head = Head(code: Code, operands: seq<Value>, results: seq<Value>, successors: seq<nat>)

  function Occurs(h: Head, ops: seq<Op>): nat
    decreases ops
  {
    if ops == [] then 0 else OccursIn(h, ops[0]) + Occurs(h, ops[1..])
  }

  function OccursIn(h: Head, op: Op): nat
    decreases op
  {
    (if h == Head(op.code, op.operands, op.results, op.successors) then 1 else 0) + OccursInRegions(h, op.regions)
  }

  function OccursInRegions(h: Head, regions: seq<Region>): nat
    decreases regions
  {
    if regions == [] then 0 else OccursInBlocks(h, regions[0].blocks) + OccursInRegions(h, regions[1..])
  }

  function OccursInBlocks(h: Head, blocks: seq<Block>): nat
    decreases blocks
  {
    if blocks == [] then 0 else Occurs(h, blocks[0].ops) + OccursInBlocks(h, blocks[1..])
  }

  lemma {:induction false} OccursAppend(h: Head, a: seq<Op>, b: seq<Op>)
    ensures Occurs(h, a + b) == Occurs(h, a) + Occurs(h, b)
  {
    if a == [] {
      assert a + b == b;
    } else {
      assert (a + b)[0] == a[0] && (a + b)[1..] == a[1..] + b;
      OccursAppend(h, a[1..], b);
    }
  }

  lemma OccursOne(h: Head, op: Op)
    ensures Occurs(h, [op]) == OccursIn(h, op)
  {
    assert [op][1..] == [];
  }

  lemma {:induction false} BlocksUpdate(h: Head, blocks: seq<Block>, b: nat, block: Block)
    requires b < |blocks|
    ensures OccursInBlocks(h, blocks[b := block]) == OccursInBlocks(h, blocks) - Occurs(h, blocks[b].ops) + Occurs(h, block.ops)
  {
    var updated := blocks[b := block];
    if b == 0 {
      assert updated[1..] == blocks[1..];
    } else {
      assert updated[1..] == blocks[1..][b - 1 := block];
      BlocksUpdate(h, blocks[1..], b - 1, block);
    }
  }

  lemma {:induction false} RegionsUpdate(h: Head, regions: seq<Region>, r: nat, region: Region)
    requires r < |regions|
    ensures OccursInRegions(h, regions[r := region])
         == OccursInRegions(h, regions) - OccursInBlocks(h, regions[r].blocks) + OccursInBlocks(h, region.blocks)
  {
    var updated := regions[r := region];
    if r == 0 {
      assert updated[1..] == regions[1..];
    } else {
      assert updated[1..] == regions[1..][r - 1 := region];
      RegionsUpdate(h, regions[1..], r - 1, region);
    }
  }

  /** Block `b` of region `r` has lost its operations, and nothing else of the operation has changed. */
  predicate OnlyEmptied(op: Op, r: nat, b: nat, op': Op)
    requires r < |op.regions| && b < |op.regions[r].blocks|
  {
    && op'.code == op.code && op'.operands == op.operands && op'.results == op.results && op'.successors == op.successors
    && |op'.regions| == |op.regions| && |op'.regions[r].blocks| == |op.regions[r].blocks|
    && (forall i :: 0 <= i < |op.regions| && i != r ==> op'.regions[i] == op.regions[i])
    && (forall c :: 0 <= c < |op.regions[r].blocks| && c != b ==> op'.regions[r].blocks[c] == op.regions[r].blocks[c])
    && op'.regions[r].blocks[b].args == op.regions[r].blocks[b].args && op'.regions[r].blocks[b].ops == []
  }

  /** What the operation has lost is what was in the block. */
  lemma EmptyingLoses(h: Head, op: Op, r: nat, b: nat, op': Op)
    requires r < |op.regions| && b < |op.regions[r].blocks| && OnlyEmptied(op, r, b, op')
    ensures OccursIn(h, op) == OccursIn(h, op') + Occurs(h, op.regions[r].blocks[b].ops)
  {
    var block := Block(op.regions[r].blocks[b].args, []);
    var region := Region(op.regions[r].blocks[b := block]);
    assert op'.regions[r].blocks == region.blocks;
    assert op'.regions == op.regions[r := region];
    BlocksUpdate(h, op.regions[r].blocks, b, block);
    RegionsUpdate(h, op.regions, r, region);
  }

  /** Operations taken out of a block inside an operation and put next to it are all still there, once each. */
  lemma InliningConserves(h: Head, left: seq<Op>, op: Op, right: seq<Op>, r: nat, b: nat, op': Op)
    requires r < |op.regions| && b < |op.regions[r].blocks| && OnlyEmptied(op, r, b, op')
    ensures var ops := op.regions[r].blocks[b].ops;
            && Occurs(h, left + ops + [op'] + right) == Occurs(h, left + [op] + right)
            && Occurs(h, left + [op'] + ops + right) == Occurs(h, left + [op] + right)
  {
    var ops := op.regions[r].blocks[b].ops;
    EmptyingLoses(h, op, r, b, op');
    OccursFour(h, left, ops, [op'], right);
    OccursFour(h, left, [op'], ops, right);
    OccursFour(h, left, [op], [], right);
    assert left + [op] + [] + right == left + [op] + right;
    OccursOne(h, op);
    OccursOne(h, op');
  }

  lemma OccursFour(h: Head, a: seq<Op>, b: seq<Op>, c: seq<Op>, d: seq<Op>)
    ensures Occurs(h, a + b + c + d) == Occurs(h, a) + Occurs(h, b) + Occurs(h, c) + Occurs(h, d)
  {
    OccursAppend(h, a + b + c, d);
    OccursAppend(h, a + b, c);
    OccursAppend(h, a, b);
  }
}
