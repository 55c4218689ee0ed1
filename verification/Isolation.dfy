/**
 `IsolatedFromAbove.verify`: the worklist check that does not look into nested isolated
 operations, and why it is still complete.
 */
module Isolation {

  type Id = nat

  /** `operands` are the owners of the operand values: the operation or block that defines them. */
  datatype Operation = Operation(id: Id, operands: seq<Id>, isolated: bool, regions: seq<Region>)
  datatype Block = Block(id: Id, ops: seq<Operation>)
  datatype Region = Region(id: Id, blocks: seq<Block>)

  /** The operation and everything inside it: what it is an ancestor of. */
  function Ids(op: Operation): set<Id>
    decreases op
  {
    {op.id} + set r, x | r in op.regions && x in RegionIds(r) :: x
  }

  function RegionIds(region: Region): set<Id>
    decreases region
  {
    {region.id} + set b, x | b in region.blocks && x in BlockIds(b) :: x
  }

  function BlockIds(block: Block): set<Id>
    decreases block
  {
    {block.id} + set op, x | op in block.ops && x in Ids(op) :: x
  }

  function Owners(op: Operation): set<Id>
  {
    set x | x in op.operands
  }

  /** Every operand below the region is owned within `inside`, not looking into isolated operations. */
  ghost predicate OuterChecked(inside: set<Id>, region: Region)
    decreases region
  {
    forall b, op :: b in region.blocks && op in b.ops ==>
      Owners(op) <= inside && (!op.isolated ==> forall r :: r in op.regions ==> OuterChecked(inside, r))
  }

  /** Every operand below the region, at any depth, is owned within `inside`. */
  ghost predicate DeepChecked(inside: set<Id>, region: Region)
    decreases region
  {
    forall b, op :: b in region.blocks && op in b.ops ==>
      Owners(op) <= inside && forall r :: r in op.regions ==> DeepChecked(inside, r)
  }

  /** What the verifier accepts. */
  ghost predicate Accepted(op: Operation)
  {
    forall r :: r in op.regions ==> OuterChecked(Ids(op), r)
  }

  /** What isolation means: nothing inside uses a value from outside. */
  ghost predicate Isolated(op: Operation)
  {
    forall r :: r in op.regions ==> DeepChecked(Ids(op), r)
  }

  /** Every isolated operation below the region satisfies `holds`. */
  ghost predicate BelowAccepted(region: Region)
    decreases region
  {
    forall b, op :: b in region.blocks && op in b.ops ==>
      (op.isolated ==> Accepted(op)) && forall r :: r in op.regions ==> BelowAccepted(r)
  }

  ghost predicate BelowIsolated(region: Region)
    decreases region
  {
    forall b, op :: b in region.blocks && op in b.ops ==>
      (op.isolated ==> Isolated(op)) && forall r :: r in op.regions ==> BelowIsolated(r)
  }

  // ----- the worklist -----

  function Size(region: Region): nat
    decreases region
  {
    1 + BlocksSize(region.blocks)
  }

  function BlocksSize(blocks: seq<Block>): nat
    decreases blocks
  {
    if blocks == [] then 0 else OpsSize(blocks[0].ops) + BlocksSize(blocks[1..])
  }

  function OpsSize(ops: seq<Operation>): nat
    decreases ops
  {
    if ops == [] then 0 else RegionsSize(ops[0].regions) + OpsSize(ops[1..])
  }

  function RegionsSize(regions: seq<Region>): nat
    decreases regions
  {
    if regions == [] then 0 else Size(regions[0]) + RegionsSize(regions[1..])
  }

  lemma {:induction false} RegionsSizeAppend(a: seq<Region>, b: seq<Region>)
    ensures RegionsSize(a + b) == RegionsSize(a) + RegionsSize(b)
  {
    if a == [] {
      assert a + b == b;
    } else {
      assert (a + b)[0] == a[0] && (a + b)[1..] == a[1..] + b;
      RegionsSizeAppend(a[1..], b);
    }
  }

  /** `is_ancestor` for the operation being verified. */
  method OperandsInside(inside: set<Id>, op: Operation) returns (ok: bool)
    ensures ok <==> Owners(op) <= inside
  {
    for i := 0 to |op.operands|
      invariant forall j :: 0 <= j < i ==> op.operands[j] in inside
    {
      if op.operands[i] !in inside {
        assert op.operands[i] in Owners(op);
        return false;
      }
    }
    ok := true;
  }

  /** One block: its operands are checked, and the regions still to check are collected. */
  method CheckBlock(inside: set<Id>, block: Block) returns (ok: bool, todo: seq<Region>)
    ensures ok ==> (forall op :: op in block.ops ==> Owners(op) <= inside)
    ensures ok ==> (forall r :: r in todo <==> exists op :: op in block.ops && !op.isolated && r in op.regions)
    ensures ok ==> RegionsSize(todo) <= OpsSize(block.ops)
    ensures !ok ==> exists op :: op in block.ops && !(Owners(op) <= inside)
  {
    todo := [];
    for i := 0 to |block.ops|
      invariant forall j :: 0 <= j < i ==> Owners(block.ops[j]) <= inside
      invariant forall r :: r in todo <==> exists j :: 0 <= j < i && !block.ops[j].isolated && r in block.ops[j].regions
      invariant RegionsSize(todo) + OpsSize(block.ops[i..]) <= OpsSize(block.ops)
    {
      var child := block.ops[i];
      assert block.ops[i..][0] == child && block.ops[i..][1..] == block.ops[i + 1..];
      var inside_ := OperandsInside(inside, child);
      if !inside_ {
        return false, todo;
      }
      if !child.isolated {
        RegionsSizeAppend(todo, child.regions);
        todo := todo + child.regions;
      }
    }
    ok := true;
  }

  /** One region of the worklist. */
  method CheckRegion(inside: set<Id>, region: Region) returns (ok: bool, todo: seq<Region>)
    ensures ok ==> RegionsSize(todo) < Size(region)
    ensures ok ==> (OuterChecked(inside, region) <==> forall r :: r in todo ==> OuterChecked(inside, r))
    ensures !ok ==> !OuterChecked(inside, region)
  {
    todo := [];
    for i := 0 to |region.blocks|
      invariant forall j :: 0 <= j < i ==> forall op :: op in region.blocks[j].ops ==> Owners(op) <= inside
      invariant forall r :: r in todo <==>
        exists j, op :: 0 <= j < i && op in region.blocks[j].ops && !op.isolated && r in op.regions
      invariant RegionsSize(todo) + BlocksSize(region.blocks[i..]) <= BlocksSize(region.blocks)
    {
      var block := region.blocks[i];
      assert region.blocks[i..][0] == block && region.blocks[i..][1..] == region.blocks[i + 1..];
      var fine, more := CheckBlock(inside, block);
      if !fine {
        assert block in region.blocks;
        return false, todo;
      }
      RegionsSizeAppend(todo, more);
      todo := todo + more;
    }
    forall b, op | b in region.blocks && op in b.ops
      ensures Owners(op) <= inside && (!op.isolated ==> forall r :: r in op.regions ==> r in todo)
    {
      var j :| 0 <= j < |region.blocks| && region.blocks[j] == b;
    }
    forall r | r in todo ensures exists b, op :: b in region.blocks && op in b.ops && !op.isolated && r in op.regions {
      var j, op :| 0 <= j < |region.blocks| && op in region.blocks[j].ops && !op.isolated && r in op.regions;
      assert region.blocks[j] in region.blocks;
    }
    ok := true;
  }

  /** The verifier accepts exactly the operations whose reachable operands are owned inside. */
  method Verify(op: Operation) returns (ok: bool)
    ensures ok <==> Accepted(op)
    ensures ok <==> OwnedInside(op, true)
  {
    AcceptedExactly(op);
    var inside := Ids(op);
    var regions := op.regions;
    while regions != []
      invariant Accepted(op) <==> forall r :: r in regions ==> OuterChecked(inside, r)
      decreases RegionsSize(regions)
    {
      var n := |regions| - 1;
      var region := regions[n];
      assert regions == regions[..n] + [region];
      RegionsSizeAppend(regions[..n], [region]);
      assert RegionsSize([region]) == Size(region) + RegionsSize([region][1..]);
      var fine, todo := CheckRegion(inside, region);
      if !fine {
        assert region in regions;
        return false;
      }
      RegionsSizeAppend(regions[..n], todo);
      regions := regions[..n] + todo;
    }
    ok := true;
  }

  // ----- soundness and completeness of skipping isolated operations -----

  lemma {:induction false} DeepMonotone(a: set<Id>, b: set<Id>, region: Region)
    requires a <= b && DeepChecked(a, region)
    ensures DeepChecked(b, region)
    decreases region
  {
    forall block, op | block in region.blocks && op in block.ops
      ensures forall r :: r in op.regions ==> DeepChecked(b, r)
    {
      forall r | r in op.regions ensures DeepChecked(b, r) {
        DeepMonotone(a, b, r);
      }
    }
  }

  lemma InnerIds(region: Region, block: Block, op: Operation)
    requires block in region.blocks && op in block.ops
    ensures Ids(op) <= RegionIds(region)
  {
    forall x | x in Ids(op) ensures x in RegionIds(region) {
      assert x in BlockIds(block);
    }
  }

  lemma InnerIdsWithin(inside: set<Id>, region: Region, block: Block, op: Operation)
    requires block in region.blocks && op in block.ops && RegionIds(region) <= inside
    ensures Ids(op) <= inside
  {
    InnerIds(region, block, op);
  }

  /** What holds of an operation below a checked region. */
  ghost predicate DeepBelow(inside: set<Id>, op: Operation)
  {
    && Owners(op) <= inside && (op.isolated ==> Isolated(op))
    && forall r :: r in op.regions ==> DeepChecked(inside, r) && BelowIsolated(r)
  }

  ghost predicate AllDeepBelow(inside: set<Id>, region: Region)
  {
    forall b, op :: b in region.blocks && op in b.ops ==> DeepBelow(inside, op)
  }

  lemma EveryChecked(inside: set<Id>, region: Region)
    requires AllDeepBelow(inside, region)
    ensures DeepChecked(inside, region)
  {
    forall b, op | b in region.blocks && op in b.ops
      ensures Owners(op) <= inside && forall r :: r in op.regions ==> DeepChecked(inside, r)
    {
      assert DeepBelow(inside, op);
    }
  }

  lemma EveryBelow(inside: set<Id>, region: Region)
    requires AllDeepBelow(inside, region)
    ensures BelowIsolated(region)
  {
    forall b, op | b in region.blocks && op in b.ops
      ensures (op.isolated ==> Isolated(op)) && forall r :: r in op.regions ==> BelowIsolated(r)
    {
      assert DeepBelow(inside, op);
    }
  }

  /** What the outer check skips, the checks of the nested isolated operations cover. */
  lemma {:induction false} OuterIsDeep(inside: set<Id>, region: Region)
    requires OuterChecked(inside, region) && BelowAccepted(region) && RegionIds(region) <= inside
    ensures DeepChecked(inside, region) && BelowIsolated(region)
    decreases region, 1
  {
    AllInsideDeep(inside, region);
    EveryChecked(inside, region);
    EveryBelow(inside, region);
  }

  lemma {:induction false} AllInsideDeep(inside: set<Id>, region: Region)
    requires OuterChecked(inside, region) && BelowAccepted(region) && RegionIds(region) <= inside
    ensures AllDeepBelow(inside, region)
    decreases region, 0
  {
    forall block, op | block in region.blocks && op in block.ops ensures DeepBelow(inside, op) {
      InnerIdsWithin(inside, region, block, op);
      InsideIsDeep(inside, op);
    }
  }

  lemma {:induction false} InsideIsDeep(inside: set<Id>, op: Operation)
    requires if op.isolated then Accepted(op) else forall r :: r in op.regions ==> OuterChecked(inside, r)
    requires Owners(op) <= inside && Ids(op) <= inside && forall r :: r in op.regions ==> BelowAccepted(r)
    ensures DeepBelow(inside, op)
    decreases op
  {
    forall r | r in op.regions ensures DeepChecked(inside, r) && BelowIsolated(r) && (op.isolated ==> DeepChecked(Ids(op), r)) {
      assert forall x :: x in RegionIds(r) ==> x in Ids(op);
      if op.isolated {
        OuterIsDeep(Ids(op), r);
        DeepMonotone(Ids(op), inside, r);
      } else {
        OuterIsDeep(inside, r);
      }
    }
  }

  lemma {:induction false} DeepIsOuter(inside: set<Id>, region: Region)
    requires DeepChecked(inside, region)
    ensures OuterChecked(inside, region)
    decreases region
  {
    forall block, op, r | block in region.blocks && op in block.ops && r in op.regions ensures OuterChecked(inside, r) {
      DeepIsOuter(inside, r);
    }
  }

  lemma {:induction false} IsolatedIsAccepted(region: Region)
    requires BelowIsolated(region)
    ensures BelowAccepted(region)
    decreases region
  {
    forall block, op | block in region.blocks && op in block.ops
      ensures (op.isolated ==> Accepted(op)) && forall r :: r in op.regions ==> BelowAccepted(r)
    {
      forall r | r in op.regions ensures BelowAccepted(r) && (op.isolated ==> OuterChecked(Ids(op), r)) {
        IsolatedIsAccepted(r);
        if op.isolated {
          DeepIsOuter(Ids(op), r);
        }
      }
    }
  }

  /**
   An operation and all isolated operations below it pass the verifier exactly when none of
   them has, at any depth, an operand from outside.
   */
  lemma SkippingIsExact(op: Operation)
    ensures (Accepted(op) && forall r :: r in op.regions ==> BelowAccepted(r))
       <==> (Isolated(op) && forall r :: r in op.regions ==> BelowIsolated(r))
  {
    if Accepted(op) && forall r :: r in op.regions ==> BelowAccepted(r) {
      forall r | r in op.regions ensures DeepChecked(Ids(op), r) && BelowIsolated(r) {
        assert forall x :: x in RegionIds(r) ==> x in Ids(op);
        OuterIsDeep(Ids(op), r);
      }
    }
    if Isolated(op) && forall r :: r in op.regions ==> BelowIsolated(r) {
      forall r | r in op.regions ensures OuterChecked(Ids(op), r) && BelowAccepted(r) {
        DeepIsOuter(Ids(op), r);
        IsolatedIsAccepted(r);
      }
    }
  }

  // ----- ancestors -----

  datatype Part = OpPart(op: Operation) | RegionPart(region: Region) | BlockPart(block: Block)

  function IdOf(part: Part): Id
  {
    match part
    case OpPart(op) => op.id
    case RegionPart(region) => region.id
    case BlockPart(block) => block.id
  }

  /** `part` is the parent of `child`. */
  predicate Holds(part: Part, child: Part)
  {
    match part
    case OpPart(op) => child.RegionPart? && child.region in op.regions
    case RegionPart(region) => child.BlockPart? && child.block in region.blocks
    case BlockPart(block) => child.OpPart? && child.op in block.ops
  }

  /** A way down, from each part to one that it holds. */
  predicate Descends(p: seq<Part>)
  {
    p != [] && forall i :: 0 <= i < |p| - 1 ==> Holds(p[i], p[i + 1])
  }

  ghost predicate From(op: Operation, p: seq<Part>)
  {
    Descends(p) && p[0] == OpPart(op)
  }

  /** The operation is an ancestor of what `id` names, or is it. */
  ghost predicate AncestorOf(op: Operation, id: Id)
  {
    exists p :: From(op, p) && IdOf(p[|p| - 1]) == id
  }

  function PartIds(part: Part): set<Id>
  {
    match part
    case OpPart(op) => Ids(op)
    case RegionPart(region) => RegionIds(region)
    case BlockPart(block) => BlockIds(block)
  }

  lemma HoldsIds(part: Part, child: Part)
    requires Holds(part, child)
    ensures PartIds(child) <= PartIds(part)
  {
  }

  lemma {:induction false} DescendsIds(p: seq<Part>)
    requires Descends(p)
    ensures IdOf(p[|p| - 1]) in PartIds(p[0])
    decreases |p|
  {
    if |p| > 1 {
      var rest := p[1..];
      assert forall i :: 0 <= i < |rest| ==> rest[i] == p[i + 1];
      DescendsIds(rest);
      HoldsIds(p[0], p[1]);
    }
  }

  lemma Prepend(part: Part, p: seq<Part>)
    requires Descends(p) && Holds(part, p[0])
    ensures Descends([part] + p) && ([part] + p)[|p|] == p[|p| - 1]
  {
  }

  lemma {:induction false} WayDown(op: Operation, id: Id) returns (p: seq<Part>)
    requires id in Ids(op)
    ensures From(op, p) && IdOf(p[|p| - 1]) == id
    decreases op
  {
    p := [OpPart(op)];
    if id != op.id {
      var r :| r in op.regions && id in RegionIds(r);
      p := [RegionPart(r)];
      if id != r.id {
        var b :| b in r.blocks && id in BlockIds(b);
        p := [BlockPart(b)];
        if id != b.id {
          var o :| o in b.ops && id in Ids(o);
          p := WayDown(o, id);
          Prepend(BlockPart(b), p);
          p := [BlockPart(b)] + p;
        }
        Prepend(RegionPart(r), p);
        p := [RegionPart(r)] + p;
      }
      Prepend(OpPart(op), p);
      p := [OpPart(op)] + p;
    }
  }

  /** What is collected for an operation is exactly what it is an ancestor of, block by block and region by region. */
  lemma IdsExactly(op: Operation, id: Id)
    ensures id in Ids(op) <==> AncestorOf(op, id)
  {
    if id in Ids(op) {
      var p := WayDown(op, id);
    }
    if AncestorOf(op, id) {
      var p :| From(op, p) && IdOf(p[|p| - 1]) == id;
      DescendsIds(p);
    }
  }

  /** A way down on which no operation between the ends is isolated. */
  predicate Open(p: seq<Part>)
  {
    forall i :: 0 < i < |p| - 1 && p[i].OpPart? ==> !p[i].op.isolated
  }

  /** Every operand of every operation below `op` is owned by something that `op` is an ancestor of. */
  ghost predicate OwnedInside(op: Operation, open: bool)
  {
    forall p: seq<Part>, x :: From(op, p) && |p| > 1 && p[|p| - 1].OpPart? && (open ==> Open(p)) && x in p[|p| - 1].op.operands ==> AncestorOf(op, x)
  }

  /** Below a region: a way down from it that ends at an operation with an operand from outside. */
  ghost predicate Escapes(inside: set<Id>, region: Region, open: bool, p: seq<Part>)
  {
    && Descends(p) && p[0] == RegionPart(region) && p[|p| - 1].OpPart? && !(Owners(p[|p| - 1].op) <= inside)
    && (open ==> forall i :: 0 <= i < |p| - 1 && p[i].OpPart? ==> !p[i].op.isolated)
  }

  ghost predicate Checked(inside: set<Id>, region: Region, open: bool)
  {
    if open then OuterChecked(inside, region) else DeepChecked(inside, region)
  }

  lemma {:induction false} EscapeIsCaught(inside: set<Id>, region: Region, open: bool, p: seq<Part>)
    requires Escapes(inside, region, open, p)
    ensures !Checked(inside, region, open)
    decreases |p|
  {
    assert Holds(p[0], p[1]) && Holds(p[1], p[2]);
    var op := p[2].op;
    if |p| > 3 {
      assert Holds(p[2], p[3]);
      var rest := p[3..];
      assert forall i :: 0 <= i < |rest| ==> rest[i] == p[i + 3];
      EscapeIsCaught(inside, p[3].region, open, rest);
    }
  }

  lemma {:induction false} FindEscape(inside: set<Id>, region: Region, open: bool) returns (p: seq<Part>)
    requires !Checked(inside, region, open)
    ensures Escapes(inside, region, open, p)
    decreases region
  {
    var b, op :| b in region.blocks && op in b.ops
      && (!(Owners(op) <= inside) || ((open ==> !op.isolated) && exists r :: r in op.regions && !Checked(inside, r, open)));
    p := [OpPart(op)];
    if Owners(op) <= inside {
      var r :| r in op.regions && !Checked(inside, r, open);
      p := FindEscape(inside, r, open);
      Prepend(OpPart(op), p);
      p := [OpPart(op)] + p;
    }
    Prepend(BlockPart(b), p);
    p := [BlockPart(b)] + p;
    Prepend(RegionPart(region), p);
    p := [RegionPart(region)] + p;
  }

  lemma {:induction false} CheckedExactly(op: Operation, open: bool)
    ensures (forall r :: r in op.regions ==> Checked(Ids(op), r, open)) <==> OwnedInside(op, open)
  {
    if forall r :: r in op.regions ==> Checked(Ids(op), r, open) {
      forall p: seq<Part>, x | From(op, p) && |p| > 1 && p[|p| - 1].OpPart? && (open ==> Open(p)) && x in p[|p| - 1].op.operands
        ensures AncestorOf(op, x)
      {
        IdsExactly(op, x);
        assert Holds(p[0], p[1]);
        if x !in Ids(op) {
          var rest := p[1..];
          assert forall i :: 0 <= i < |rest| ==> rest[i] == p[i + 1];
          assert x in Owners(rest[|rest| - 1].op);
          EscapeIsCaught(Ids(op), p[1].region, open, rest);
        }
      }
    }
    if OwnedInside(op, open) {
      forall r | r in op.regions ensures Checked(Ids(op), r, open) {
        if !Checked(Ids(op), r, open) {
          var rest := FindEscape(Ids(op), r, open);
          Prepend(OpPart(op), rest);
          var p := [OpPart(op)] + rest;
          var x :| x in Owners(rest[|rest| - 1].op) && x !in Ids(op);
          assert From(op, p) && |p| > 1 && p[|p| - 1].OpPart? && x in p[|p| - 1].op.operands;
          assert forall i :: 0 < i < |p| ==> p[i] == rest[i - 1];
          IdsExactly(op, x);
        }
      }
    }
  }

  /** The verifier accepts an operation exactly if it is an ancestor of the owner of every operand it looks at. */
  lemma AcceptedExactly(op: Operation)
    ensures Accepted(op) <==> OwnedInside(op, true)
  {
    CheckedExactly(op, true);
  }

  /** And isolation means that it is one of the owner of every operand inside. */
  lemma IsolatedExactly(op: Operation)
    ensures Isolated(op) <==> OwnedInside(op, false)
  {
    CheckedExactly(op, false);
  }
}
