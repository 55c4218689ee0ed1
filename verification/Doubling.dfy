/**
 A tame pattern that brings in a new value at each action: doublings become additions.
 */
module Doubling {
  import opened Ir
  import opened Refinement
  import opened Substitution
  import opened PatternRewriters
  import opened Measures
  import opened Walks
  import opened NormalForms
  import opened Naming
  import opened TameWalks

  function Add(x: Value, z: Value): Op
  {
    Op(Code("add", []), [x, x], [z], [], [])
  }

  /** Even names are those of the program; the odd name after each is kept for what replaces it. */
  function Double(op: Op): seq<Call>
  {
    if op.code.name == "double" && |op.operands| == |op.results| == 1 && op.results[0] % 2 == 0
    then [ReplaceMatched([Add(op.operands[0], op.results[0] + 1)], [op.results[0] + 1])] else []
  }

  function Cost(code: Code): nat
  {
    if code.name == "double" then 2 else 1
  }

  ghost function Own(v: Value): iset<Value>
  {
    if v % 2 == 0 then iset{v, v + 1} else iset{v}
  }

  function Below(u: Value, v: Value): bool
  {
    u / 2 < v / 2
  }

  lemma DoubleRewrites(op: Op)
    ensures Legal(Double(op), Start(op))
    ensures Acts(Double, op) ==>
              var x, y, rw := op.operands[0], op.results[0], Rewritten(Double, op);
              rw.Affected() == [Add(x, y + 1)] && rw.replaced == op.results == [y] && rw.targets == [y + 1]
  {
    if Acts(Double, op) {
      var call := Double(op)[0];
      assert Double(op) == [call] && [call][1..] == [] && Legal([], Start(op).Do(call));
      assert Perform([call], Start(op)) == Perform([], Start(op).Do(call));
    }
  }

  lemma DoubleIsLegal()
    ensures LegalPattern(Double)
  {
    forall op ensures Legal(Double(op), Start(op)) {
      DoubleRewrites(op);
    }
  }

  lemma DoubleDefines(op: Op)
    ensures CallsDefs(Double(op)) == if Acts(Double, op) then {op.results[0] + 1} else {}
  {
    if Acts(Double, op) {
      var add := Add(op.operands[0], op.results[0] + 1);
      AddDefines(op.operands[0], op.results[0] + 1);
      assert Double(op)[0] in Double(op) && CallDefs(Double(op)[0]) == OpsDefs([add]);
    }
  }

  lemma AddDefines(x: Value, z: Value)
    ensures OpsDefs([Add(x, z)]) == {z} && Defined([Add(x, z)]) == [z]
  {
    var add := Add(x, z);
    DefinedOne(add);
    assert NestedDefs(add) == {} && Names(add.results) == {z};
    assert add in [add] && z in Names(add.results) + NestedDefs(add);
    assert OpDefined(add) == [z] + RegionsDefined([]) == [z];
  }

  lemma AddOrdered(x: Value, z: Value)
    requires Below(x, z)
    ensures Ordered(Below, [Add(x, z)])
  {
    var add := Add(x, z);
    forall u, v | u in add.operands && v in add.results ensures Below(u, v) {
      assert u == x && v == z;
    }
    assert OrderedRegions(Below, []);
  }

  /** In every mode, forwards or backwards, the walk ends. */
  lemma DoubleBounded(w: Walk)
    requires w.pattern == Double
    ensures w.Bounded(Additive(Cost))
  {
    DoubleIsLegal();
    forall op | Acts(Double, op)
      ensures Sum(Additive(Cost), Rewritten(Double, op).Affected()) < Weigh(Cost, op)
      ensures OpsDepth(Rewritten(Double, op).Affected()) <= Depth(op)
    {
      DoubleRewrites(op);
      AddWeighs(op.operands[0], op.results[0] + 1);
    }
    AdditiveMeasures(Cost, Double);
  }

  lemma AddWeighs(x: Value, z: Value)
    ensures Sum(Additive(Cost), [Add(x, z)]) == 1 && OpsDepth([Add(x, z)]) == 1
  {
    var add := Add(x, z);
    assert [add][1..] == [] && Depth(add) == 1 + RegionsDepth([]) && Weigh(Cost, add) == 1 + WeighRegions(Cost, []);
    assert Sum(Additive(Cost), [add]) == Additive(Cost)(add) + Sum(Additive(Cost), []);
    assert OpsDepth([add]) == Max(Depth(add), OpsDepth([]));
  }

  lemma DoubleLooksAtNoValue()
    ensures Equivariant(Double) && Shallow(Double)
  {
    forall s: Redirect, op: Op ensures EquivariantAt(Double, s, op) {
      DoubleDefines(op);
      DoubleDefines(SubstOp(s, op));
      if Acts(Double, op) && s.Keys !! CallsDefs(Double(op)) {
        var x, z := op.operands[0], op.results[0] + 1;
        assert z in CallsDefs(Double(op));
        assert SubstValues(s, [z]) == [z] && SubstValues(s, [x, x]) == [Target(s, x), Target(s, x)];
        assert SubstOp(s, Add(x, z)) == Add(Target(s, x), z);
        assert SubstOps(s, [Add(x, z)]) == [Add(Target(s, x), z)];
        assert SubstCalls(s, Double(op)) == Double(SubstOp(s, op));
      }
    }
  }

  lemma DoubleIsTame()
    requires LegalPattern(Double)
    ensures Tame(Double, Own, Below)
  {
    forall op ensures TameAt(Double, Own, Below, op) {
      if Acts(Double, op) && OrderedOp(Below, op) {
        TameAction(op);
      }
    }
  }

  lemma TameAction(op: Op)
    requires LegalPattern(Double) && Acts(Double, op) && OrderedOp(Below, op)
    ensures TameAt(Double, Own, Below, op)
  {
    var x, y := op.operands[0], op.results[0];
    DoubleRewrites(op);
    DoubleDefines(op);
    AddDefines(x, y + 1);
    LandOfBoth(op);
    OperandBelow(op);
    AddOrdered(x, y + 1);
    SameHalf(y);
  }

  lemma OperandBelow(op: Op)
    requires Acts(Double, op) && OrderedOp(Below, op)
    ensures Below(op.operands[0], op.results[0] + 1)
  {
    assert op.operands[0] in op.operands && op.results[0] in op.results;
  }

  lemma SameHalf(y: Value)
    requires y % 2 == 0
    ensures AtMost(Below, y + 1, y) && Distinct([y])
  {
    assert [y][1..] == [];
  }

  /** The new value is from the territory of the old one, which is not in its own. */
  lemma LandOfBoth(op: Op)
    requires Acts(Double, op)
    ensures var y := op.results[0];
            && Land(Own, [y + 1]) == iset{y + 1} && Apart(Own, [y + 1])
            && y in Land(Own, OpDefined(op)) && y + 1 in Land(Own, OpDefined(op))
  {
    var y := op.results[0];
    assert OpDefined(op)[0] == y && y in OpDefined(op) && y in Own(y) && y + 1 in Own(y);
    assert y + 1 in [y + 1] && y + 1 in Own(y + 1);
  }

  /** In every mode the direction of the walk does not matter, on every block of separate territories. */
  lemma DoubleHasNoDirection(w: Walk, ops: seq<Op>)
    requires w.pattern == Double && Apart(Own, Defined(ops)) && Ordered(Below, ops)
    ensures w.Bounded(Additive(Cost))
    ensures WalkOps(w, false, Additive(Cost), ops).what == WalkOps(w, true, Additive(Cost), ops).what
  {
    DoubleBounded(w);
    DoubleLooksAtNoValue();
    DoubleIsTame();
    TameHasNoDirection(w, Additive(Cost), Scheme(Own, Below), ops);
  }

  /** And a recursive walk leaves no doubling of an even name, at any depth. */
  lemma NoDoubleLeft(w: Walk, reverse: bool, ops: seq<Op>)
    requires w.pattern == Double && w.recursive
    ensures w.Bounded(Additive(Cost)) && NormalOps(Double, WalkOps(w, reverse, Additive(Cost), ops).what)
  {
    DoubleBounded(w);
    DoubleLooksAtNoValue();
    EquivariantReachesNormalForm(w, reverse, Additive(Cost));
  }
}
