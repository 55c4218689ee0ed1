/**
 Implicit terminators: the verifier, the repair that is called when an operation is created, and
 the elision of the terminator of a loop body in the printed form.
 */
module Terminators {

  /** An operation class; `isTerminator` says whether it has that trait. */
  datatype Kind = Kind(name: string, isTerminator: bool)

  datatype Op = Op(kind: Kind, operands: seq<nat>, attributes: set<string>)

  datatype Block = Block(args: seq<nat>, ops: seq<Op>)

  type Region = seq<Block>

  // ----- the verifier -----

  predicate Terminated(b: Block, kind: Kind)
  {
    b.ops != [] && b.ops[|b.ops| - 1].kind == kind
  }

  predicate RegionVerifies(r: Region, kind: Kind)
  {
    |r| <= 1 && forall b :: b in r ==> Terminated(b, kind)
  }

  ghost predicate Verifies(regions: seq<Region>, kind: Kind)
  {
    forall r :: r in regions ==> RegionVerifies(r, kind)
  }

  // ----- the repair -----

  /** What `ensure_terminator` refuses to touch: another terminator at the end, or several blocks. */
  predicate BlockRepairable(b: Block, kind: Kind)
  {
    b.ops == [] || !b.ops[|b.ops| - 1].kind.isTerminator || b.ops[|b.ops| - 1].kind == kind
  }

  predicate RegionRepairable(r: Region, kind: Kind)
  {
    |r| <= 1 && forall b :: b in r ==> BlockRepairable(b, kind)
  }

  ghost predicate Repairable(regions: seq<Region>, kind: Kind)
  {
    forall r :: r in regions ==> RegionRepairable(r, kind)
  }

  /** `create` without arguments. */
  function Bare(kind: Kind): Op
  {
    Op(kind, [], {})
  }

  function BlockRepaired(b: Block, kind: Kind): Block
  {
    if b.ops == [] || !b.ops[|b.ops| - 1].kind.isTerminator then Block(b.args, b.ops + [Bare(kind)]) else b
  }

  function RegionRepaired(r: Region, kind: Kind): Region
    requires |r| <= 1
  {
    [BlockRepaired(if r == [] then Block([], []) else r[0], kind)]
  }

  ghost function Repaired(regions: seq<Region>, kind: Kind): seq<Region>
    requires Repairable(regions, kind)
  {
    seq(|regions|, i requires 0 <= i < |regions| =>
      assert regions[i] in regions; RegionRepaired(regions[i], kind))
  }

  /** Repair always satisfies the verifier. */
  lemma RepairedVerifies(regions: seq<Region>, kind: Kind)
    requires Repairable(regions, kind)
    ensures Verifies(Repaired(regions, kind), kind)
  {
    forall r | r in Repaired(regions, kind)
      ensures RegionVerifies(r, kind)
    {
      var after := Repaired(regions, kind);
      var i :| 0 <= i < |after| && r == after[i];
      assert regions[i] in regions;
      assert RegionRepairable(regions[i], kind);
      var b: Block := if regions[i] == [] then Block([], []) else regions[i][0];
      assert BlockRepairable(b, kind);
      assert r == [BlockRepaired(b, kind)] && Terminated(BlockRepaired(b, kind), kind);
    }
  }

  /** What verifies can be repaired: no error is invented. */
  lemma VerifiedIsRepairable(regions: seq<Region>, kind: Kind)
    requires Verifies(regions, kind)
    ensures Repairable(regions, kind)
  {
    forall r | r in regions
      ensures RegionRepairable(r, kind)
    {
      assert RegionVerifies(r, kind);
    }
  }

  /** Repair leaves an operation alone exactly when every region already ends in a terminator. */
  ghost predicate Complete(regions: seq<Region>)
  {
    forall i :: 0 <= i < |regions| ==>
      |regions[i]| == 1 && regions[i][0].ops != [] && regions[i][0].ops[|regions[i][0].ops| - 1].kind.isTerminator
  }

  lemma BlockUntouched(b: Block, kind: Kind)
    ensures BlockRepaired(b, kind) == b <==> b.ops != [] && b.ops[|b.ops| - 1].kind.isTerminator
  {
    assert |b.ops + [Bare(kind)]| != |b.ops|;
  }

  lemma UntouchedExactly(regions: seq<Region>, kind: Kind)
    requires Repairable(regions, kind)
    ensures Repaired(regions, kind) == regions <==> Complete(regions)
  {
    var after := Repaired(regions, kind);
    if after == regions {
      forall i | 0 <= i < |regions|
        ensures |regions[i]| == 1 && regions[i][0].ops != []
                && regions[i][0].ops[|regions[i][0].ops| - 1].kind.isTerminator
      {
        assert after[i] == regions[i] && |after[i]| == 1;
        BlockUntouched(regions[i][0], kind);
      }
    } else if Complete(regions) {
      assert forall i :: 0 <= i < |regions| ==> after[i] == regions[i];
    }
  }

  /** Repairing twice is repairing once, for every operation, exactly when the class is a terminator. */
  lemma IdempotentExactly(kind: Kind)
    ensures (forall regions :: Repairable(regions, kind) ==> Settles(regions, kind)) <==> kind.isTerminator
  {
    if kind.isTerminator {
      forall regions | Repairable(regions, kind)
        ensures Settles(regions, kind)
      {
        RepairSettles(regions, kind);
      }
    } else {
      var regions: seq<Region> := [[]];
      assert RegionRepairable([], kind);
      assert Repairable(regions, kind);
      var once: seq<Region> := Repaired(regions, kind);
      assert once[0][0].ops == [Bare(kind)] && !Complete(once);
      RepairedVerifies(regions, kind);
      VerifiedIsRepairable(once, kind);
      UntouchedExactly(once, kind);
      assert !Settles(regions, kind);
    }
  }

  ghost predicate Settles(regions: seq<Region>, kind: Kind)
    requires Repairable(regions, kind)
  {
    var once := Repaired(regions, kind);
    Repairable(once, kind) && Repaired(once, kind) == once
  }

  lemma RepairSettles(regions: seq<Region>, kind: Kind)
    requires Repairable(regions, kind) && kind.isTerminator
    ensures Settles(regions, kind)
  {
    var once := Repaired(regions, kind);
    RepairedVerifies(regions, kind);
    VerifiedIsRepairable(once, kind);
    forall i | 0 <= i < |once|
      ensures |once[i]| == 1 && once[i][0].ops != [] && once[i][0].ops[|once[i][0].ops| - 1].kind.isTerminator
    {
      assert regions[i] in regions;
    }
    UntouchedExactly(once, kind);
  }

  class OpCell {
    var regions: seq<Region>

    constructor (regions: seq<Region>)
      ensures this.regions == regions
    {
      this.regions := regions;
    }

    /** `SingleBlockImplicitTerminator.verify`. */
    method Verify(kind: Kind) returns (ok: bool)
      ensures ok <==> Verifies(regions, kind)
    {
      for i := 0 to |regions|
        invariant forall k :: 0 <= k < i ==> RegionVerifies(regions[k], kind)
      {
        if |regions[i]| > 1 {
          assert regions[i] in regions && !RegionVerifies(regions[i], kind);
          return false;
        }
        for j := 0 to |regions[i]|
          invariant forall k :: 0 <= k < j ==> Terminated(regions[i][k], kind)
        {
          if !Terminated(regions[i][j], kind) {
            assert regions[i][j] in regions[i];
            assert regions[i] in regions && !RegionVerifies(regions[i], kind);
            return false;
          }
        }
      }
      return true;
    }

    /** `ensure_terminator`; every check is made before anything changes. */
    method EnsureTerminator(kind: Kind) returns (ok: bool)
      modifies this
      ensures ok <==> Repairable(old(regions), kind)
      ensures if ok then regions == Repaired(old(regions), kind) else regions == old(regions)
      ensures ok ==> Verifies(regions, kind)
    {
      for i := 0 to |regions|
        invariant regions == old(regions)
        invariant forall k :: 0 <= k < i ==> RegionRepairable(regions[k], kind)
      {
        if |regions[i]| > 1 || (|regions[i]| == 1 && !BlockRepairable(regions[i][0], kind)) {
          assert regions[i] in regions && !RegionRepairable(regions[i], kind);
          return false;
        }
      }
      RepairedVerifies(regions, kind);
      for i := 0 to |regions|
        invariant |regions| == |old(regions)|
        invariant forall k :: 0 <= k < i ==> regions[k] == Repaired(old(regions), kind)[k]
        invariant forall k :: i <= k < |regions| ==> regions[k] == old(regions)[k]
      {
        assert old(regions)[i] in old(regions);
        if |regions[i]| == 0 {
          regions := regions[i := [Block([], [])]];
        }
        var b := regions[i][0];
        if b.ops == [] || !b.ops[|b.ops| - 1].kind.isTerminator {
          regions := regions[i := [Block(b.args, b.ops + [Bare(kind)])]];
        }
      }
      return true;
    }
  }

  // ----- the body of a loop, printed and parsed -----

  /** The operations of a block that `print_block` prints. */
  function PrintBlock(ops: seq<Op>, withTerminators: bool): seq<Op>
  {
    if ops == [] then []
    else (if !withTerminators && ops[0].kind.isTerminator then [] else [ops[0]]) + PrintBlock(ops[1..], withTerminators)
  }

  const YIELD := Kind("scf.yield", true)

  /** `For.print`: terminators are left out when nothing is carried. */
  function PrintBody(body: Block, carried: nat): seq<Op>
  {
    PrintBlock(body.ops, carried > 0)
  }

  /** `For.parse`: the repair is called when nothing is carried. */
  ghost function ParseBody(args: seq<nat>, printed: seq<Op>, carried: nat): (r: seq<Region>)
    requires carried == 0 ==> Repairable([[Block(args, printed)]], YIELD)
  {
    var parsed := [[Block(args, printed)]];
    if carried == 0 then Repaired(parsed, YIELD) else parsed
  }

  lemma {:induction false} PrintedAll(ops: seq<Op>)
    ensures PrintBlock(ops, true) == ops
  {
    if ops != [] {
      PrintedAll(ops[1..]);
    }
  }

  lemma {:induction false} PrintedNoTerminators(ops: seq<Op>)
    ensures forall o :: o in PrintBlock(ops, false) ==> !o.kind.isTerminator
    ensures (forall o :: o in ops ==> !o.kind.isTerminator) ==> PrintBlock(ops, false) == ops
  {
    if ops != [] {
      PrintedNoTerminators(ops[1..]);
      if forall o :: o in ops ==> !o.kind.isTerminator {
        assert forall o :: o in ops[1..] ==> o in ops;
      }
    }
  }

  lemma {:induction false} PrintedSnoc(ops: seq<Op>, last: Op)
    requires last.kind.isTerminator
    ensures PrintBlock(ops + [last], false) == PrintBlock(ops, false)
  {
    if ops == [] {
      assert (ops + [last])[1..] == [];
    } else {
      assert (ops + [last])[1..] == ops[1..] + [last];
      PrintedSnoc(ops[1..], last);
    }
  }

  /** A yield without operands and attributes at the end, and no terminator before it. */
  ghost predicate EndsInBareYield(ops: seq<Op>)
  {
    ops != [] && ops[|ops| - 1] == Bare(YIELD) && forall i :: 0 <= i < |ops| - 1 ==> !ops[i].kind.isTerminator
  }

  lemma PrintedIsRepairable(args: seq<nat>, ops: seq<Op>)
    requires forall o :: o in ops ==> !o.kind.isTerminator
    ensures Repairable([[Block(args, ops)]], YIELD)
    ensures Repaired([[Block(args, ops)]], YIELD) == [[Block(args, ops + [Bare(YIELD)])]]
  {
    var regions := [[Block(args, ops)]];
    assert ops != [] ==> ops[|ops| - 1] in ops;
    assert forall r :: r in regions ==> r == [Block(args, ops)];
    assert BlockRepairable(Block(args, ops), YIELD);
    assert RegionRepairable([Block(args, ops)], YIELD);
  }

  /** Printing and parsing restore the body exactly when something is carried, or its yield is bare. */
  lemma BodyRoundTripExactly(body: Block, carried: nat)
    ensures carried == 0 ==> Repairable([[Block(body.args, PrintBody(body, carried))]], YIELD)
    ensures ParseBody(body.args, PrintBody(body, carried), carried) == [[body]] <==>
            carried > 0 || EndsInBareYield(body.ops)
  {
    if carried > 0 {
      PrintedAll(body.ops);
    } else {
      var printed := PrintBody(body, carried);
      PrintedNoTerminators(body.ops);
      PrintedIsRepairable(body.args, printed);
      assert ParseBody(body.args, printed, carried)[0][0].ops == printed + [Bare(YIELD)];
      assert EndsInBareYield(printed + [Bare(YIELD)]) by {
        assert forall i :: 0 <= i < |printed| ==> (printed + [Bare(YIELD)])[i] in printed;
      }
      if EndsInBareYield(body.ops) {
        var n := |body.ops| - 1;
        PrintedNoTerminators(body.ops[..n]);
        PrintedSnoc(body.ops[..n], body.ops[n]);
        assert body.ops[..n] + [body.ops[n]] == body.ops;
      }
    }
  }

  /** `IsTerminator.verify`, on every operation of a block. */
  ghost predicate TerminatorsLast(ops: seq<Op>)
  {
    forall i :: 0 <= i < |ops| - 1 ==> !ops[i].kind.isTerminator
  }

  /** A verified loop comes back exactly when it carries values or its yield has no attributes. */
  lemma VerifiedLoopRoundTrip(body: Block, carried: nat)
    requires Verifies([[body]], YIELD) && TerminatorsLast(body.ops)
    requires body.ops != [] && |body.ops[|body.ops| - 1].operands| == carried
    ensures carried == 0 ==> Repairable([[Block(body.args, PrintBody(body, carried))]], YIELD)
    ensures ParseBody(body.args, PrintBody(body, carried), carried) == [[body]] <==>
            carried > 0 || body.ops[|body.ops| - 1].attributes == {}
  {
    BodyRoundTripExactly(body, carried);
    assert [body] in [[body]] && body in [body];
    assert RegionVerifies([body], YIELD);
    assert Terminated(body, YIELD);
  }
}
