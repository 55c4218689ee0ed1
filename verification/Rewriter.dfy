/**
 `Rewriter.replace_op` and `Rewriter.erase_op` on a region that is edited in place.
 */
module Rewriter {
  import opened Ir
  import opened Semantics
  import opened Refinement
  import opened Substitution
  import opened Replacement
  import opened Preservation
  import opened Simulation
  import Dominance
  import opened Options

  /**
   `SelfReplacement` is the assertion in `replace_by` that no use is left, which fails when a
   result in use is replaced by itself.
   */
  datatype Reply = Success | CountMismatch | StillUsed | SelfReplacement

  /** The values the results of an operation give way to: one by one, a deleted result to a fresh erased value. */
  function Targets(news: seq<Option<Value>>, erased: Value): (t: seq<Value>)
    ensures |t| == |news|
  {
    seq(|news|, j requires 0 <= j < |news| => if news[j].Some? then news[j].value else erased + j)
  }

  /** Without explicit results, those of the last new operation are taken. */
  function NewResults(newOps: seq<Op>, newResults: Option<seq<Option<Value>>>): seq<Option<Value>>
  {
    match newResults
    case Some(news) => news
    case None =>
      if newOps == [] then []
      else
        var results := newOps[|newOps| - 1].results;
        seq(|results|, j requires 0 <= j < |results| => Some(results[j]))
  }

  /** How many results the caller replaces: as many as it lists, or else as the last new operation has. */
  function Replacements(newOps: seq<Op>, newResults: Option<seq<Option<Value>>>): nat
  {
    if newResults.Some? then |newResults.value| else if newOps == [] then 0 else |newOps[|newOps| - 1].results|
  }

  /**
   What uses of the results of `op` are promised to become: the value listed for result `j`, or result
   `j` of the last new operation if none are listed, or the `j`-th fresh value if result `j` is deleted.
   */
  ghost predicate GivesWay(op: Op, newOps: seq<Op>, newResults: Option<seq<Option<Value>>>, fresh_: Value, s: Redirect)
    requires |op.results| == Replacements(newOps, newResults)
  {
    && s.Keys == Names(op.results)
    && forall j :: 0 <= j < |op.results| ==>
         op.results[j] in s &&
         if newResults.None? then s[op.results[j]] == newOps[|newOps| - 1].results[j]
         else if newResults.value[j].None? then s[op.results[j]] == fresh_ + j
         else s[op.results[j]] == newResults.value[j].value
  }

  /** No result is listed twice or gives way to another one. */
  ghost predicate Apart(results: seq<Value>, s: Redirect)
  {
    Distinct(results) && forall r :: r in s ==> s[r] !in results
  }

  /** Two redirections of the same results that send each to the same value are the same. */
  lemma SameRedirection(results: seq<Value>, targets: seq<Value>, s: Redirect, t: Redirect)
    requires |results| == |targets| && s.Keys <= Names(results) && t.Keys <= Names(results)
    requires forall j :: 0 <= j < |results| ==> results[j] in s && s[results[j]] == targets[j] && results[j] in t && t[results[j]] == targets[j]
    ensures s == t
  {
    forall v ensures v in s <==> v in t {
      if v in s || v in t {
        var j :| 0 <= j < |results| && results[j] == v;
      }
    }
    forall v | v in s ensures s[v] == t[v] {
      var j :| 0 <= j < |results| && results[j] == v;
    }
  }

  lemma PromisedTargets(op: Op, newOps: seq<Op>, newResults: Option<seq<Option<Value>>>, fresh_: Value, s: Redirect)
    requires |op.results| == Replacements(newOps, newResults)
    requires GivesWay(op, newOps, newResults, fresh_, s)
    ensures var targets := Targets(NewResults(newOps, newResults), fresh_);
            |targets| == |op.results| && forall j :: 0 <= j < |targets| ==> op.results[j] in s && s[op.results[j]] == targets[j]
  {
  }

  /** The loop over results makes good that promise. */
  lemma PromiseKept(op: Op, newOps: seq<Op>, newResults: Option<seq<Option<Value>>>, fresh_: Value, s: Redirect)
    requires |op.results| == Replacements(newOps, newResults)
    requires GivesWay(op, newOps, newResults, fresh_, s) && Apart(op.results, s)
    ensures var news := NewResults(newOps, newResults);
            && |news| == |op.results| && s == Redirections(op.results, Targets(news, fresh_), |news|)
            && forall t :: t in Targets(news, fresh_) ==> t !in op.results
  {
    var targets := Targets(NewResults(newOps, newResults), fresh_);
    PromisedTargets(op, newOps, newResults, fresh_, s);
    forall t | t in targets ensures t !in op.results {
      var j :| 0 <= j < |targets| && targets[j] == t;
      assert op.results[j] in s;
    }
    RedirectionsAtOnce(op.results, targets, |targets|);
    SameRedirection(op.results, targets, s, Redirections(op.results, targets, |targets|));
  }

  /** The region afterwards is the one in which every use has been redirected as promised. */
  ghost predicate AsPromised(was: Region, b: nat, i: nat, newOps: seq<Op>, newResults: Option<seq<Option<Value>>>, fresh_: Value, now: Region)
    requires At(was, b, i) && |was.blocks[b].ops[i].results| == Replacements(newOps, newResults)
  {
    var op := was.blocks[b].ops[i];
    forall s :: GivesWay(op, newOps, newResults, fresh_, s) && Apart(op.results, s) ==> now == Replaced(was, b, i, newOps, s)
  }

  lemma EveryPromiseKept(was: Region, b: nat, i: nat, newOps: seq<Op>, newResults: Option<seq<Option<Value>>>, fresh_: Value,
                         erased: Value, now: Region)
    requires At(was, b, i) && |was.blocks[b].ops[i].results| == Replacements(newOps, newResults)
    requires var results, news := was.blocks[b].ops[i].results, NewResults(newOps, newResults);
             |news| == |results| && now == Replaced(was, b, i, newOps, Redirections(results, Targets(news, fresh_), |news|))
    ensures AsPromised(was, b, i, newOps, newResults, fresh_, now)
    ensures AsPromised(was, b, i, newOps, newResults, fresh_, SubstRegion(ToErased(was.blocks[b].ops[i].results, erased), now))
  {
    var op := was.blocks[b].ops[i];
    forall s | GivesWay(op, newOps, newResults, fresh_, s) && Apart(op.results, s)
      ensures now == Replaced(was, b, i, newOps, s) && SubstRegion(ToErased(op.results, erased), now) == now
    {
      PromiseKept(op, newOps, newResults, fresh_, s);
      NothingLeftToErase(was, b, i, newOps, Targets(NewResults(newOps, newResults), fresh_), erased);
    }
  }

  /** Distinct results, replacements other than the results themselves, and no use of a deleted result. */
  ghost predicate Clean(region: Region, results: seq<Value>, newOps: seq<Op>, news: seq<Option<Value>>, nextValue: Value)
    requires |results| == |news|
  {
    && Distinct(results)
    && (forall r :: r in results ==> r < nextValue)
    && (forall t :: t in Targets(news, nextValue) ==> t !in results)
    && (forall j :: 0 <= j < |news| && news[j].None? ==> results[j] !in RegionUses(region) + OpsUses(newOps))
  }

  /** After redirecting some results away, a result is used only if it was used and not redirected. */
  lemma UsedAfter(results: seq<Value>, targets: seq<Value>, j: nat, region: Region, v: Value)
    requires |results| == |targets| && Distinct(results) && j <= |results|
    requires forall t :: t in targets ==> t !in results
    requires v in results && v in RegionUses(SubstRegion(Redirections(results, targets, j), region))
    ensures v in RegionUses(region) && v !in results[..j]
  {
    RedirectionsAtOnce(results, targets, j);
    var u := UsesOfSubstRegion(Redirections(results, targets, j), region, v);
  }

  lemma OpsAsRegion(ops: seq<Op>)
    ensures RegionUses(Region([Block([], ops)])) == OpsUses(ops)
    ensures forall s :: SubstRegion(s, Region([Block([], ops)])) == Region([Block([], SubstOps(s, ops))])
  {
    var region := Region([Block([], ops)]);
    assert region.blocks[0] in region.blocks;
    forall s ensures SubstRegion(s, region) == Region([Block([], SubstOps(s, ops))]) {
      assert SubstRegion(s, region).blocks == [Block([], SubstOps(s, ops))];
    }
  }

  /** A clean request never finds a deleted result in use. */
  lemma RefusalIsJustified(region: Region, results: seq<Value>, newOps: seq<Op>, news: seq<Option<Value>>, nextValue: Value, j: nat)
    requires |results| == |news| && j < |news| && news[j].None? && Clean(region, results, newOps, news, nextValue)
    ensures var s := Redirections(results, Targets(news, nextValue), j);
            results[j] !in RegionUses(SubstRegion(s, region)) + OpsUses(SubstOps(s, newOps))
  {
    var targets := Targets(news, nextValue);
    var s := Redirections(results, targets, j);
    var r := results[j];
    if r in RegionUses(SubstRegion(s, region)) {
      UsedAfter(results, targets, j, region, r);
    }
    OpsAsRegion(newOps);
    OpsAsRegion(SubstOps(s, newOps));
    if r in OpsUses(SubstOps(s, newOps)) {
      UsedAfter(results, targets, j, Region([Block([], newOps)]), r);
    }
  }

  /** One round of the loop over results. */
  lemma RedirectedOnce(results: seq<Value>, targets: seq<Value>, j: nat, region: Region, ops: seq<Op>)
    requires j < |results| == |targets|
    ensures var s, t, step := Redirections(results, targets, j), Redirections(results, targets, j + 1), map[results[j] := targets[j]];
            && SubstRegion(step, SubstRegion(s, region)) == SubstRegion(t, region)
            && SubstOps(step, SubstOps(s, ops)) == SubstOps(t, ops)
  {
    var s, step := Redirections(results, targets, j), map[results[j] := targets[j]];
    SubstRegionCompose(s, step, region);
    SubstOpsCompose(s, step, ops);
  }

  class EditedRegion {
    var region: Region
    /** Values from here on are not in use. */
    var nextValue: Value

    /**
     On success the operation is gone, the new ones stand in its place, and every use of its
     results has been redirected. A safe erasure leaves no use of an erased result, and is
     refused only if one would remain; an unsafe one moves the remaining uses to erased values.
     */
    method ReplaceOp(b: nat, i: nat, newOps: seq<Op>, newResults: Option<seq<Option<Value>>>, safeErase: bool)
      returns (reply: Reply)
      requires At(region, b, i)
      modifies this
      ensures var op := old(region).blocks[b].ops[i];
              var news := NewResults(newOps, newResults);
              && (reply.CountMismatch? <==> |op.results| != |news|)
              && (reply.CountMismatch? ==> region == old(region))
              && (reply.Success? ==>
                    var changed := Replaced(old(region), b, i, newOps, Redirections(op.results, Targets(news, old(nextValue)), |news|));
                    region == if safeErase then changed
                              else SubstRegion(ToErased(op.results, old(nextValue) + |news|), changed))
              && (reply.Success? && safeErase ==> RegionUses(region) !! Names(op.results))
              && (reply.SelfReplacement? ==> exists j :: 0 <= j < |news| && news[j] == Some(op.results[j]))
              && (reply.StillUsed? ==> safeErase)
              && (reply.StillUsed? || reply.SelfReplacement? ==> !Clean(old(region), op.results, newOps, news, old(nextValue)))
      ensures var op := old(region).blocks[b].ops[i];
              && (reply.CountMismatch? <==> |op.results| != Replacements(newOps, newResults))
              && (reply.Success? ==> AsPromised(old(region), b, i, newOps, newResults, old(nextValue), region))
    {
      var op := region.blocks[b].ops[i];
      var news := NewResults(newOps, newResults);
      if |op.results| != |news| {
        return CountMismatch;
      }
      ghost var fresh_ := nextValue;
      ghost var targets := Targets(news, nextValue);
      var added;
      ghost var stop;
      reply, added, stop := RedirectResults(op.results, news, newOps, safeErase);
      if !reply.Success? {
        StopIsNotClean(old(region), op.results, newOps, news, old(nextValue), stop);
        return;
      }
      SpliceSubst(old(region), b, i, newOps, Redirections(op.results, targets, |news|));
      var block := region.blocks[b];
      region := Region(region.blocks[b := Block(block.args, Splice(block.ops, i, added))]);
      EveryPromiseKept(old(region), b, i, newOps, newResults, fresh_, nextValue, region);
      if !safeErase {
        MoveToErased(op.results);
        return Success;
      }
      CleanLeavesNone(old(region), b, i, newOps, news, old(nextValue));
      reply := CheckUnused(op.results);
    }

    /**
     `erase_op`. A refusal comes after the operation has left its block, so its results are
     still used but no longer defined.
     */
    method EraseOp(b: nat, i: nat, safeErase: bool) returns (reply: Reply)
      requires At(region, b, i)
      modifies this
      ensures var op := old(region).blocks[b].ops[i];
              var without := Replaced(old(region), b, i, [], map[]);
              && reply == (if safeErase && RegionUses(without) * Names(op.results) != {} then StillUsed else Success)
              && (safeErase ==> region == without)
              && (!safeErase ==> region == SubstRegion(ToErased(op.results, old(nextValue)), without))
    {
      var op := region.blocks[b].ops[i];
      var block := region.blocks[b];
      region := Region(region.blocks[b := Block(block.args, Splice(block.ops, i, []))]);
      SubstRegionUnused(map[], region);
      if safeErase {
        reply := CheckUnused(op.results);
        return;
      }
      MoveToErased(op.results);
      reply := Success;
    }

    /** An unsafe erasure moves every use of a result to an erased value. */
    method MoveToErased(results: seq<Value>)
      modifies this
      ensures region == SubstRegion(ToErased(results, old(nextValue)), old(region))
    {
      var _, _, _ := RedirectResults(results, seq(|results|, _ => None), [], false);
    }

    /** What a safe erasure insists on, once the operation has left its block. */
    method CheckUnused(results: seq<Value>) returns (reply: Reply)
      ensures reply == if RegionUses(region) * Names(results) != {} then StillUsed else Success
      ensures reply.Success? ==> RegionUses(region) !! Names(results)
      ensures reply.StillUsed? ==> !(RegionUses(region) !! Names(results))
    {
      var used := RegionUses(region) * Names(results);
      assert forall v :: v in RegionUses(region) && v in Names(results) ==> v in used;
      reply := if used != {} then StillUsed else Success;
    }

    /** `replace_by`: every use, also in the operations about to be added. */
    method ReplaceBy(value: Value, target: Value, newOps: seq<Op>) returns (added: seq<Op>)
      modifies this`region
      ensures region == SubstRegion(map[value := target], old(region)) && added == SubstOps(map[value := target], newOps)
    {
      region, added := SubstRegion(map[value := target], region), SubstOps(map[value := target], newOps);
    }

    /** The loop over results; the uses held by the operations about to be added are redirected too. */
    method RedirectResults(results: seq<Value>, news: seq<Option<Value>>, newOps: seq<Op>, safeErase: bool)
      returns (reply: Reply, added: seq<Op>, ghost stop: nat)
      requires |results| == |news|
      modifies this
      ensures !reply.CountMismatch?
      ensures nextValue <= old(nextValue) + |news|
      ensures var s := Redirections(results, Targets(news, old(nextValue)), |news|);
              reply.Success? ==> region == SubstRegion(s, old(region)) && added == SubstOps(s, newOps)
                                 && nextValue == old(nextValue) + |news|
      ensures !reply.Success? ==> stop < |news|
      ensures !reply.Success? ==>
              var s := Redirections(results, Targets(news, old(nextValue)), stop);
              results[stop] in RegionUses(SubstRegion(s, old(region))) + OpsUses(SubstOps(s, newOps))
      ensures reply.StillUsed? ==> safeErase && news[stop].None?
      ensures reply.SelfReplacement? ==> news[stop] == Some(results[stop])
      ensures !safeErase && (forall j :: 0 <= j < |news| ==> news[j].None?) ==> reply.Success?
    {
      added := newOps;
      ghost var targets := Targets(news, nextValue);
      SubstRegionUnused(map[], region);
      SubstOpsUnused(map[], newOps);
      ghost var s: Redirect := map[];
      for j := 0 to |news|
        invariant nextValue == old(nextValue) + j && s == Redirections(results, targets, j)
        invariant region == SubstRegion(s, old(region)) && added == SubstOps(s, newOps)
      {
        var result := results[j];
        if result in RegionUses(region) + OpsUses(added) {
          if news[j].None? && safeErase {
            return StillUsed, added, j;
          }
          if news[j] == Some(result) {
            return SelfReplacement, added, j;
          }
        }
        var target := if news[j].Some? then news[j].value else nextValue;
        nextValue := nextValue + 1;
        assert target == targets[j];
        RedirectedOnce(results, targets, j, old(region), newOps);
        added := ReplaceBy(result, target, added);
        s := Redirections(results, targets, j + 1);
      }
      reply, stop := Success, 0;
    }
  }

  /** Every result moved to an erased value of its own. */
  function ToErased(results: seq<Value>, erased: Value): Redirect
  {
    Redirections(results, Targets(seq(|results|, _ => None), erased), |results|)
  }

  /** When no result is replaced by a result, no use of one is left. */
  lemma NoUseLeft(region: Region, b: nat, i: nat, newOps: seq<Op>, targets: seq<Value>)
    requires At(region, b, i)
    requires var results := region.blocks[b].ops[i].results;
             |results| == |targets| && Distinct(results) && forall t :: t in targets ==> t !in results
    ensures var results := region.blocks[b].ops[i].results;
            RegionUses(Replaced(region, b, i, newOps, Redirections(results, targets, |results|))) !! Names(results)
  {
    var results := region.blocks[b].ops[i].results;
    var block := region.blocks[b];
    var spliced := Region(region.blocks[b := Block(block.args, Splice(block.ops, i, newOps))]);
    var changed := SubstRegion(Redirections(results, targets, |results|), spliced);
    forall r | r in results ensures r !in RegionUses(changed) {
      if r in RegionUses(changed) {
        UsedAfter(results, targets, |results|, spliced, r);
      }
    }
  }

  lemma CleanLeavesNone(region: Region, b: nat, i: nat, newOps: seq<Op>, news: seq<Option<Value>>, nextValue: Value)
    requires At(region, b, i) && |region.blocks[b].ops[i].results| == |news|
    ensures var results := region.blocks[b].ops[i].results;
            Clean(region, results, newOps, news, nextValue) ==>
              RegionUses(Replaced(region, b, i, newOps, Redirections(results, Targets(news, nextValue), |news|))) !! Names(results)
  {
    if Clean(region, region.blocks[b].ops[i].results, newOps, news, nextValue) {
      NoUseLeft(region, b, i, newOps, Targets(news, nextValue));
    }
  }

  /** The loop stops early only at a request that was not clean. */
  lemma StopIsNotClean(region: Region, results: seq<Value>, newOps: seq<Op>, news: seq<Option<Value>>, nextValue: Value, stop: nat)
    requires |results| == |news| && stop < |news|
    requires var s := Redirections(results, Targets(news, nextValue), stop);
             results[stop] in RegionUses(SubstRegion(s, region)) + OpsUses(SubstOps(s, newOps))
    requires news[stop].None? || news[stop] == Some(results[stop])
    ensures !Clean(region, results, newOps, news, nextValue)
  {
    var targets := Targets(news, nextValue);
    assert targets[stop] in targets && results[stop] in results;
    if news[stop].None? && Clean(region, results, newOps, news, nextValue) {
      RefusalIsJustified(region, results, newOps, news, nextValue, stop);
    }
  }

  /** Then an unsafe erasure has nothing to move. */
  lemma NothingLeftToErase(region: Region, b: nat, i: nat, newOps: seq<Op>, targets: seq<Value>, erased: Value)
    requires At(region, b, i)
    requires var results := region.blocks[b].ops[i].results;
             |results| == |targets| && Distinct(results) && forall t :: t in targets ==> t !in results
    ensures var results := region.blocks[b].ops[i].results;
            var changed := Replaced(region, b, i, newOps, Redirections(results, targets, |results|));
            SubstRegion(ToErased(results, erased), changed) == changed
  {
    var results := region.blocks[b].ops[i].results;
    NoUseLeft(region, b, i, newOps, targets);
    ToErasedKeys(results, erased, |results|);
    SubstRegionUnused(ToErased(results, erased), Replaced(region, b, i, newOps, Redirections(results, targets, |results|)));
  }

  lemma {:induction false} ToErasedKeys(results: seq<Value>, erased: Value, n: nat)
    requires n <= |results|
    ensures Redirections(results, Targets(seq(|results|, _ => None), erased), n).Keys <= Names(results)
  {
    if n > 0 {
      ToErasedKeys(results, erased, n - 1);
      assert results[n - 1] in results;
    }
  }

  /** Splicing redirected operations into a redirected block is redirecting the spliced block. */
  lemma SpliceSubst(region: Region, b: nat, i: nat, newOps: seq<Op>, s: Redirect)
    requires At(region, b, i)
    ensures Replaced(region, b, i, newOps, s) ==
            var blocks := SubstRegion(s, region).blocks;
            Region(blocks[b := Block(blocks[b].args, Splice(blocks[b].ops, i, SubstOps(s, newOps)))])
  {
    var ops := region.blocks[b].ops;
    var l := SubstRegion(s, region).blocks;
    var r := Replaced(region, b, i, newOps, s).blocks;
    assert Splice(SubstOps(s, ops), i, SubstOps(s, newOps)) == SubstOps(s, Splice(ops, i, newOps));
    var spliced := l[b := Block(l[b].args, Splice(l[b].ops, i, SubstOps(s, newOps)))];
    var blocks := region.blocks[b := Block(region.blocks[b].args, Splice(ops, i, newOps))];
    forall c | 0 <= c < |r| ensures spliced[c] == r[c] {
      assert l[c] == SubstBlock(s, region.blocks[c]) && r[c] == SubstBlock(s, blocks[c]);
    }
    assert spliced == r;
  }

  // ----- what replacing and erasing mean for runs -----

  function UsedPart(s: Redirect, used: set<Value>): Redirect
  {
    map v | v in s && v in used :: s[v]
  }

  /** Redirections of values that nobody uses do not matter. */
  lemma OnlyUsedPartMatters(region: Region, b: nat, i: nat, newOps: seq<Op>, s: Redirect)
    requires At(region, b, i)
    ensures Replaced(region, b, i, newOps, s)
         == Replaced(region, b, i, newOps, UsedPart(s, RegionUses(region) + OpsUses(newOps)))
  {
    var block := region.blocks[b];
    var blocks := region.blocks[b := Block(block.args, Splice(block.ops, i, newOps))];
    assert block in region.blocks;
    forall c, v | c in blocks && v in OpsUses(c.ops) ensures v in RegionUses(region) + OpsUses(newOps) {
      if c !in region.blocks {
        var op :| op in c.ops && v in OpUses(op);
        if op in newOps {
          assert v in OpsUses(newOps);
        } else {
          assert op in block.ops && v in OpsUses(block.ops);
        }
      }
    }
    SubstRegionAgree(s, UsedPart(s, RegionUses(region) + OpsUses(newOps)), Region(blocks));
  }

  /**
   A successful `replace_op` with equivalent new operations, in SSA form: every run is followed at the
   same pace. Deleted results need no equal.
   */
  lemma ReplaceOpKeepsPace(region: Region, outer: set<Value>, b: nat, i: nat, newOps: seq<Op>, s: Redirect,
                           impl: Impl, limit: nat, pace: Pace)
    requires At(region, b, i)
    requires var e := Edit(region, outer, b, i, newOps, UsedPart(s, RegionUses(region) + OpsUses(newOps)));
             e.Valid(impl) && Equivalent(impl, e.Old(), newOps, e.s, limit, pace)
    ensures Simulates(impl, region, Replaced(region, b, i, newOps, s), limit, pace)
  {
    OnlyUsedPartMatters(region, b, i, newOps, s);
    var e := Edit(region, outer, b, i, newOps, UsedPart(s, RegionUses(region) + OpsUses(newOps)));
    ReplaceKeepsPace(e, impl, limit, pace);
  }

  /** If the new operations compute the same values, whatever the region returned it still returns. */
  lemma ReplaceOpPreservesMeaning(region: Region, outer: set<Value>, b: nat, i: nat, newOps: seq<Op>, s: Redirect, impl: Impl)
    requires At(region, b, i)
    requires var e := Edit(region, outer, b, i, newOps, UsedPart(s, RegionUses(region) + OpsUses(newOps)));
             e.Valid(impl) && Realizes(impl, e.Old(), newOps, e.s)
    ensures Refines(impl, region, Replaced(region, b, i, newOps, s))
  {
    OnlyUsedPartMatters(region, b, i, newOps, s);
    var e := Edit(region, outer, b, i, newOps, UsedPart(s, RegionUses(region) + OpsUses(newOps)));
    ReplacePreservesMeaning(e, impl);
  }

  /** Wherever `op` completes, the new operations do, and the last of them leaves in its results what `op` left in its own. */
  ghost predicate LastComputes(impl: Impl, op: Op, newOps: seq<Op>)
    requires newOps != [] && |newOps[|newOps| - 1].results| == |op.results|
  {
    forall env: Env, limit: nat :: RunOp(impl, op, env, limit).Done? ==>
      exists later: nat :: later >= limit && LeavesSame(RunOp(impl, op, env, limit), RunOps(impl, newOps, env, later),
                                                        op.results, newOps[|newOps| - 1].results)
  }

  ghost predicate LeavesSame(o: Outcome<(Next, Env)>, o': Outcome<(Next, Env)>, results: seq<Value>, lasts: seq<Value>)
    requires |lasts| == |results|
  {
    && o.Done? && o.value.0.Continue? && o'.Done? && o'.value.0.Continue?
    && forall j :: 0 <= j < |results| ==>
         results[j] in o.value.1 && lasts[j] in o'.value.1 && o'.value.1[lasts[j]] == o.value.1[results[j]]
  }

  /**
   `replace_op` without explicit results, in SSA form: if the last new operation leaves in its results
   what the old one left in its own, whatever the region returned it still returns.
   */
  lemma ReplaceByLastPreservesMeaning(region: Region, outer: set<Value>, b: nat, i: nat, newOps: seq<Op>, s: Redirect, impl: Impl)
    requires At(region, b, i) && newOps != [] && |region.blocks[b].ops[i].results| == |newOps[|newOps| - 1].results|
    requires GivesWay(region.blocks[b].ops[i], newOps, None, 0, s)
    requires Dominance.WellFormed(region, outer) && UniqueValues(region, outer)
    requires OpsUses(newOps) !! Names(region.blocks[b].ops[i].results)
    requires Names(Results(newOps)) !! RegionUses(region) + RegionDefs(region)
    requires forall k :: 0 <= k <= i ==> FallsThrough(impl, region.blocks[b].ops[k])
    requires LastComputes(impl, region.blocks[b].ops[i], newOps)
    ensures Refines(impl, region, Replaced(region, b, i, newOps, s))
  {
    var e := Edit(region, outer, b, i, newOps, s);
    LastTargets(region, b, i, newOps, s);
    forall limit: nat, env: Env ensures EquivalentIn(impl, e.Old(), newOps, s, limit, Eventually, env) {
      LastEquivalent(impl, e.Old(), newOps, s, limit, env);
    }
    ReplacePreservesMeaning(e, impl);
  }

  lemma LastTargets(region: Region, b: nat, i: nat, newOps: seq<Op>, s: Redirect)
    requires At(region, b, i) && newOps != [] && |region.blocks[b].ops[i].results| == |newOps[|newOps| - 1].results|
    requires GivesWay(region.blocks[b].ops[i], newOps, None, 0, s)
    requires Names(Results(newOps)) !! RegionUses(region) + RegionDefs(region)
    ensures forall r :: r in s ==> s[r] in Names(Results(newOps)) && s[r] !in Names(region.blocks[b].ops[i].results)
  {
    var results, n := region.blocks[b].ops[i].results, |newOps| - 1;
    OpDefsInRegion(region, b, i);
    assert newOps == newOps[..n] + [newOps[n]] && [newOps[n]][1..] == [];
    ResultsAppend(newOps[..n], [newOps[n]]);
    assert Results([newOps[n]]) == newOps[n].results;
    forall r | r in s ensures s[r] in Results(newOps) {
      var j :| 0 <= j < |results| && results[j] == r;
      assert newOps[n].results[j] in newOps[n].results;
    }
  }

  lemma LastEquivalent(impl: Impl, op: Op, newOps: seq<Op>, s: Redirect, limit: nat, env: Env)
    requires newOps != [] && |op.results| == |newOps[|newOps| - 1].results|
    requires GivesWay(op, newOps, None, 0, s) && LastComputes(impl, op, newOps)
    ensures EquivalentIn(impl, op, newOps, s, limit, Eventually, env)
  {
    var o := RunOp(impl, op, env, limit);
    if o.Done? {
      var later: nat :| later >= limit && LeavesSame(o, RunOps(impl, newOps, env, later), op.results, newOps[|newOps| - 1].results);
      forall r | r in s ensures r in o.value.1 && s[r] in RunOps(impl, newOps, env, later).value.1
                                && RunOps(impl, newOps, env, later).value.1[s[r]] == o.value.1[r]
      {
        var j :| 0 <= j < |op.results| && op.results[j] == r;
      }
      assert Eventually.Allows(limit, later) && SameEffect(impl, op, newOps, s, limit, later, env);
    }
  }

  /** Without regions an operation cannot run on; with regions it may, where nothing does not. */
  lemma NothingIsEquivalent(impl: Impl, op: Op, limit: nat, pace: Pace)
    requires FallsThrough(impl, op) && (pace.InStep? ==> op.regions == [])
    ensures Equivalent(impl, op, [], map[], limit, pace)
  {
    forall env ensures EquivalentIn(impl, op, [], map[], limit, pace, env) {
      OpFallsThrough(impl, op, env, limit);
      var inputs := LookupAll(env, op.operands);
      LookupRelated(map[], Names(op.operands), env, env, op.operands);
      if pace.Covers(RunOp(impl, op, env, limit)) {
        assert pace.Allows(limit, limit) && SameEffect(impl, op, [], map[], limit, limit, env);
      }
    }
  }

  /**
   Erasing an unused operation that transfers no control leaves every run that returns unchanged,
   under the same bound. If it has no regions, runs that do not return stay as they are too.
   */
  lemma EraseUnusedPreservesMeaning(region: Region, outer: set<Value>, b: nat, i: nat, impl: Impl, limit: nat, pace: Pace)
    requires At(region, b, i)
    requires Dominance.WellFormed(region, outer) && UniqueValues(region, outer)
    requires pace.InStep? ==> region.blocks[b].ops[i].regions == []
    requires RegionUses(region) !! Names(region.blocks[b].ops[i].results)
    requires forall k :: 0 <= k <= i ==> FallsThrough(impl, region.blocks[b].ops[k])
    ensures Simulates(impl, region, Replaced(region, b, i, [], map[]), limit, pace)
  {
    var e := Edit(region, outer, b, i, [], map[]);
    NothingIsEquivalent(impl, e.Old(), limit, pace);
    assert OpsUses([]) == {};
    ReplaceKeepsPace(e, impl, limit, pace);
  }
}
