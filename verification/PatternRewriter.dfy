/**
 The rewriter handed to a pattern: it edits the block of the matched operation in place and
 logs what it added. A pattern is the list of calls it makes on the operation it is offered.
 */
module PatternRewriters {
  import opened Ir
  import opened Refinement
  import opened Substitution
  import opened Conservation

  datatype Call =
    | InsertBefore(ops: seq<Op>)
    | InsertAfter(ops: seq<Op>)
    | InlineBefore(region: nat, block: nat)
    | InlineAfter(region: nat, block: nat)
    /**
     One target for each result of the matched operation. The target of a deleted result is the
     erased value that its uses are moved to.
     */
    | ReplaceMatched(newOps: seq<Op>, targets: seq<Value>)
    /** A safe erasure, which raises unless the results are unused; an unsafe one replaces them by erased values. */
    | EraseMatched
    /** Any edit of the matched operation in place: attributes, regions, block arguments. */
    | Modify(op: Op)

  type Pattern = Op -> seq<Call>

  function BlockOps(op: Op, r: nat, b: nat): seq<Op>
    requires r < |op.regions| && b < |op.regions[r].blocks|
  {
    op.regions[r].blocks[b].ops
  }

  function EmptyBlock(op: Op, r: nat, b: nat): Op
    requires r < |op.regions| && b < |op.regions[r].blocks|
  {
    var region := op.regions[r];
    op.(regions := op.regions[r := Region(region.blocks[b := region.blocks[b].(ops := [])])])
  }

  function Concat(chunks: seq<seq<Op>>): seq<Op>
  {
    if chunks == [] then [] else Concat(chunks[..|chunks| - 1]) + chunks[|chunks| - 1]
  }

  /** The latest insertion stands closest to the matched operation. */
  function ConcatReversed(chunks: seq<seq<Op>>): seq<Op>
  {
    if chunks == [] then [] else chunks[|chunks| - 1] + ConcatReversed(chunks[..|chunks| - 1])
  }

  /**
   What a pattern has done around the matched operation. `afterCalls` are the insertions after
   it, in the order of the calls: the log lists them in that order, the block in the opposite one.
   Replacing the operation sends the uses of `replaced`, in all of the module, to `targets`; the
   lists are those from before that.
   */
  datatype Rewrite = Rewrite(before: seq<Op>, matched: Op, erased: bool, afterCalls: seq<seq<Op>>,
                             replaced: seq<Value>, targets: seq<Value>) {

    function Redirection(): Redirect
    {
      if |replaced| == |targets| then Redirections(replaced, targets, |targets|) else map[]
    }

    function Log(): seq<Op>
    {
      before + (if erased then [] else [matched]) + Concat(afterCalls)
    }

    /** What stands in the block where the matched operation stood, its results not yet redirected. */
    function Affected(): seq<Op>
    {
      before + (if erased then [] else [matched]) + ConcatReversed(afterCalls)
    }

    /** The same after the redirection. */
    function Left(): seq<Op>
    {
      SubstOps(Redirection(), Affected())
    }

    /** Calls that do not raise. Once the operation is erased it has no block to insert into. */
    predicate Allows(call: Call)
    {
      match call
      case Modify(_) => true
      case InlineBefore(r, b) => !erased && r < |matched.regions| && b < |matched.regions[r].blocks|
      case InlineAfter(r, b) => !erased && r < |matched.regions| && b < |matched.regions[r].blocks|
      case ReplaceMatched(_, targets) => !erased && |targets| == |matched.results|
      case _ => !erased
    }

    function Do(call: Call): Rewrite
      requires Allows(call)
    {
      match call
      case InsertBefore(ops) => this.(before := before + ops)
      case InsertAfter(ops) => if ops == [] then this else this.(afterCalls := afterCalls + [ops])
      case InlineBefore(r, b) => this.(before := before + BlockOps(matched, r, b), matched := EmptyBlock(matched, r, b))
      case InlineAfter(r, b) =>
        var ops := BlockOps(matched, r, b);
        this.(afterCalls := if ops == [] then afterCalls else afterCalls + [ops], matched := EmptyBlock(matched, r, b))
      case ReplaceMatched(newOps, targets) =>
        this.(before := before + newOps, erased := true,
              replaced := matched.results, targets := targets)
      case EraseMatched => this.(erased := true)
      case Modify(op) => this.(matched := op)
    }
  }

  predicate Legal(calls: seq<Call>, rw: Rewrite)
  {
    calls == [] || (rw.Allows(calls[0]) && Legal(calls[1..], rw.Do(calls[0])))
  }

  function Perform(calls: seq<Call>, rw: Rewrite): Rewrite
    requires Legal(calls, rw)
  {
    if calls == [] then rw else Perform(calls[1..], rw.Do(calls[0]))
  }

  function Start(op: Op): Rewrite
  {
    Rewrite([], op, false, [], [], [])
  }

  /** A pattern whose calls never raise. */
  ghost predicate LegalPattern(pattern: Pattern)
  {
    forall op :: Legal(pattern(op), Start(op))
  }

  /** Every call sets `has_done_action`, so a pattern acts when it makes a call. */
  predicate Acts(pattern: Pattern, op: Op)
  {
    pattern(op) != []
  }

  function Rewritten(pattern: Pattern, op: Op): Rewrite
    requires Legal(pattern(op), Start(op))
  {
    Perform(pattern(op), Start(op))
  }

  predicate IsAfterCall(call: Call)
  {
    call.InsertAfter? || call.InlineAfter?
  }

  /** At most one call inserts after the matched operation. */
  predicate OneAfterCall(calls: seq<Call>)
  {
    forall i, j :: 0 <= i < j < |calls| ==> !(IsAfterCall(calls[i]) && IsAfterCall(calls[j]))
  }

  lemma {:induction false} AfterCallCount(calls: seq<Call>, rw: Rewrite)
    requires Legal(calls, rw) && OneAfterCall(calls)
    requires rw.afterCalls == [] || (|rw.afterCalls| == 1 && forall i :: 0 <= i < |calls| ==> !IsAfterCall(calls[i]))
    ensures |Perform(calls, rw).afterCalls| <= 1
  {
    if calls != [] {
      assert forall i :: 0 <= i < |calls[1..]| ==> calls[1..][i] == calls[i + 1];
      assert !IsAfterCall(calls[0]) ==> rw.Do(calls[0]).afterCalls == rw.afterCalls;
      AfterCallCount(calls[1..], rw.Do(calls[0]));
    }
  }

  /** With at most one insertion after the operation, the log is in block order. */
  lemma OneAfterCallKeepsOrder(pattern: Pattern, op: Op)
    requires Legal(pattern(op), Start(op)) && OneAfterCall(pattern(op))
    ensures |Rewritten(pattern, op).afterCalls| <= 1
    ensures Rewritten(pattern, op).Log() == Rewritten(pattern, op).Affected()
  {
    AfterCallCount(pattern(op), Start(op));
    var calls := Rewritten(pattern, op).afterCalls;
    if calls != [] {
      assert calls[..|calls| - 1] == [] && Concat([]) == [] && ConcatReversed([]) == [];
      assert Concat(calls) == [] + calls[0];
      assert ConcatReversed(calls) == calls[0] + [];
    }
  }

  // ----- block edits at the matched operation -----

  lemma Cut(a: seq<Op>, b: seq<Op>, p: nat)
    requires p == |a|
    ensures (a + b)[..p] == a && (a + b)[p..] == b
  {
  }

  /** Inserting in front of the matched operation. */
  lemma EditBefore(rw: Rewrite, left: seq<Op>, right: seq<Op>, ops: seq<Op>)
    requires !rw.erased
    ensures var block := left + rw.Affected() + right;
            var p := |left + rw.before|;
            block[..p] + ops + block[p..] == left + rw.Do(InsertBefore(ops)).Affected() + right
  {
    var head, tail := left + rw.before, [rw.matched] + ConcatReversed(rw.afterCalls) + right;
    assert left + rw.Affected() + right == head + tail;
    Cut(head, tail, |left + rw.before|);
    assert head + ops + tail == left + ((rw.before + ops) + [rw.matched] + ConcatReversed(rw.afterCalls)) + right;
  }

  /** Inserting right behind the matched operation, in front of earlier insertions. */
  lemma EditAfter(rw: Rewrite, left: seq<Op>, right: seq<Op>, ops: seq<Op>)
    requires !rw.erased && ops != []
    ensures var block := left + rw.Affected() + right;
            var p := |left + rw.before| + 1;
            block[..p] + ops + block[p..] == left + rw.Do(InsertAfter(ops)).Affected() + right
    ensures Concat(rw.afterCalls + [ops]) == Concat(rw.afterCalls) + ops
  {
    var head, tail := left + rw.before + [rw.matched], ConcatReversed(rw.afterCalls) + right;
    assert left + rw.Affected() + right == head + tail;
    Cut(head, tail, |left + rw.before| + 1);
    assert (rw.afterCalls + [ops])[..|rw.afterCalls|] == rw.afterCalls;
    assert head + ops + tail == left + (rw.before + [rw.matched] + (ops + ConcatReversed(rw.afterCalls))) + right;
  }

  lemma Regroup(left: seq<Op>, before: seq<Op>, ops: seq<Op>, after: seq<Op>, right: seq<Op>)
    ensures left + (before + ops + after) + right == (left + before) + ops + (after + right)
    ensures left + (before + ops + [] + after) + right == (left + before) + ops + (after + right)
  {
    assert before + ops + [] + after == before + ops + after;
  }

  /** Inserting behind an operation and then erasing it puts the new ones in its place. */
  lemma InsertThenErase(block: seq<Op>, p: nat, ops: seq<Op>)
    requires p < |block|
    ensures var inserted := block[..p + 1] + ops + block[p + 1..];
            inserted[..p] + inserted[p + 1..] == block[..p] + ops + block[p + 1..]
  {
    var inserted := block[..p + 1] + ops + block[p + 1..];
    var head, tail := block[..p + 1], ops + block[p + 1..];
    assert inserted == head + tail;
    Cut(head, tail, p + 1);
    assert inserted[..p] == block[..p];
  }

  /** The matched operation gives way to new ones. */
  lemma EditReplace(rw: Rewrite, left: seq<Op>, right: seq<Op>, newOps: seq<Op>, targets: seq<Value>)
    requires rw.Allows(ReplaceMatched(newOps, targets))
    ensures var block := left + rw.Affected() + right;
            var p := |left + rw.before|;
            block[..p] + newOps + block[p + 1..] == left + rw.Do(ReplaceMatched(newOps, targets)).Affected() + right
  {
    var after := ConcatReversed(rw.afterCalls);
    var head, tail := left + rw.before, after + right;
    Regroup(left, rw.before, [rw.matched], after, right);
    assert left + rw.Affected() + right == head + [rw.matched] + tail;
    assert (head + [rw.matched] + tail)[..|head|] == head && (head + [rw.matched] + tail)[|head| + 1..] == tail;
    Regroup(left, rw.before, newOps, after, right);
    assert rw.before + newOps + [] + after == rw.before + newOps + after;
  }

  lemma SubstEdit(s: Redirect, block: seq<Op>, p: nat, ops: seq<Op>)
    requires p < |block|
    ensures SubstOps(s, block[..p] + ops + block[p + 1..])
         == SubstOps(s, block)[..p] + SubstOps(s, ops) + SubstOps(s, block)[p + 1..]
  {
    SubstOpsAppend(s, block[..p] + ops, block[p + 1..]);
    SubstOpsAppend(s, block[..p], ops);
    assert SubstOps(s, block)[..p] == SubstOps(s, block[..p]) && SubstOps(s, block)[p + 1..] == SubstOps(s, block[p + 1..]);
  }

  /** All of `replace_op` on the block: uses redirected, new operations inserted, the old one erased. */
  lemma ReplacedBlock(rw: Rewrite, left: seq<Op>, right: seq<Op>, newOps: seq<Op>, targets: seq<Value>)
    requires rw.Allows(ReplaceMatched(newOps, targets))
    ensures var after := rw.Do(ReplaceMatched(newOps, targets));
            var block := SubstOps(after.Redirection(), left + rw.Affected() + right);
            var p := |left + rw.before|;
            p < |block|
            && var inserted := block[..p + 1] + SubstOps(after.Redirection(), newOps) + block[p + 1..];
               inserted[..p] + inserted[p + 1..] == SubstOps(after.Redirection(), left + after.Affected() + right)
  {
    var s := rw.Do(ReplaceMatched(newOps, targets)).Redirection();
    var block, p := left + rw.Affected() + right, |left + rw.before|;
    EditReplace(rw, left, right, newOps, targets);
    SubstEdit(s, block, p, newOps);
    InsertThenErase(SubstOps(s, block), p, SubstOps(s, newOps));
  }

  lemma ErasedBlock(rw: Rewrite, left: seq<Op>, right: seq<Op>)
    requires !rw.erased
    ensures var block := left + rw.Affected() + right;
            var p := |left + rw.before|;
            p < |block| && block[..p] + block[p + 1..] == left + rw.Do(EraseMatched).Affected() + right
  {
    var head, tail := left + rw.before, ConcatReversed(rw.afterCalls) + right;
    Regroup(left, rw.before, [rw.matched], ConcatReversed(rw.afterCalls), right);
    Regroup(left, rw.before, [], ConcatReversed(rw.afterCalls), right);
    var block := head + [rw.matched] + tail;
    assert block[..|head|] == head && block[|head| + 1..] == tail && head + [] + tail == head + tail;
  }

  /** What the fields of the rewriter hold after `rw`. */
  datatype Fields = Fields(block: seq<Op>, position: nat, addedBefore: seq<Op>, addedAfter: seq<Op>, redirect: Redirect)

  ghost predicate Tells(f: Fields, rw: Rewrite, left: seq<Op>, right: seq<Op>)
  {
    && f.redirect == rw.Redirection() && (!rw.erased ==> rw.replaced == rw.targets == [])
    && f.block == SubstOps(rw.Redirection(), left + rw.Affected() + right)
    && f.position == |left + rw.before|
    && f.addedBefore == SubstOps(rw.Redirection(), rw.before) && f.addedAfter == SubstOps(rw.Redirection(), Concat(rw.afterCalls))
  }

  /** As long as the operation stands, nothing has been redirected. */
  lemma TellsPlainly(f: Fields, rw: Rewrite, left: seq<Op>, right: seq<Op>)
    requires rw.replaced == rw.targets == []
    ensures Tells(f, rw, left, right) <==>
            f == Fields(left + rw.Affected() + right, |left + rw.before|, rw.before, Concat(rw.afterCalls), map[])
  {
    SubstNothing(left + rw.Affected() + right);
    SubstNothing(rw.before);
    SubstNothing(Concat(rw.afterCalls));
  }

  lemma TellsBefore(f: Fields, rw: Rewrite, left: seq<Op>, right: seq<Op>, ops: seq<Op>)
    requires Tells(f, rw, left, right) && !rw.erased
    ensures f.position <= |f.block|
    ensures Tells(Fields(f.block[..f.position] + ops + f.block[f.position..], f.position + |ops|, f.addedBefore + ops,
                         f.addedAfter, map[]), rw.Do(InsertBefore(ops)), left, right)
  {
    TellsPlainly(f, rw, left, right);
    EditBefore(rw, left, right, ops);
    TellsPlainly(Fields(f.block[..f.position] + ops + f.block[f.position..], f.position + |ops|, f.addedBefore + ops,
                        f.addedAfter, map[]), rw.Do(InsertBefore(ops)), left, right);
  }

  lemma TellsAfter(f: Fields, rw: Rewrite, left: seq<Op>, right: seq<Op>, ops: seq<Op>)
    requires Tells(f, rw, left, right) && !rw.erased && ops != []
    ensures f.position < |f.block|
    ensures Tells(Fields(f.block[..f.position + 1] + ops + f.block[f.position + 1..], f.position, f.addedBefore,
                         f.addedAfter + ops, map[]), rw.Do(InsertAfter(ops)), left, right)
  {
    TellsPlainly(f, rw, left, right);
    EditAfter(rw, left, right, ops);
    TellsPlainly(Fields(f.block[..f.position + 1] + ops + f.block[f.position + 1..], f.position, f.addedBefore,
                        f.addedAfter + ops, map[]), rw.Do(InsertAfter(ops)), left, right);
  }

  lemma TellsErased(f: Fields, rw: Rewrite, left: seq<Op>, right: seq<Op>)
    requires Tells(f, rw, left, right) && !rw.erased
    ensures f.position < |f.block|
    ensures Tells(f.(block := f.block[..f.position] + f.block[f.position + 1..]), rw.Do(EraseMatched), left, right)
  {
    TellsPlainly(f, rw, left, right);
    var head, tail := left + rw.before, ConcatReversed(rw.afterCalls) + right;
    ErasedBlock(rw, left, right);
    TellsPlainly(f.(block := f.block[..f.position] + f.block[f.position + 1..]), rw.Do(EraseMatched), left, right);
  }

  /** Uses are redirected, the new operations inserted behind the matched one, and that one erased. */
  function Swap(f: Fields, newOps: seq<Op>, s: Redirect): Fields
    requires f.position < |f.block|
  {
    var block, added := SubstOps(s, f.block), SubstOps(s, newOps);
    var inserted := block[..f.position + 1] + added + block[f.position + 1..];
    Fields(inserted[..f.position] + inserted[f.position + 1..], f.position + |newOps|,
           SubstOps(s, f.addedBefore) + added, SubstOps(s, f.addedAfter), s)
  }

  lemma TellsReplaced(f: Fields, rw: Rewrite, left: seq<Op>, right: seq<Op>, newOps: seq<Op>, targets: seq<Value>)
    requires Tells(f, rw, left, right) && rw.Allows(ReplaceMatched(newOps, targets))
    ensures var after := rw.Do(ReplaceMatched(newOps, targets));
            f.position < |f.block| && Tells(Swap(f, newOps, after.Redirection()), after, left, right)
  {
    assert f == Fields(left + rw.Affected() + right, |left + rw.before|, rw.before, Concat(rw.afterCalls), map[]) by {
      TellsPlainly(f, rw, left, right);
    }
    ReplacedBlock(rw, left, right, newOps, targets);
    SubstOpsAppend(rw.Do(ReplaceMatched(newOps, targets)).Redirection(), rw.before, newOps);
  }

  lemma TellsModified(f: Fields, rw: Rewrite, left: seq<Op>, right: seq<Op>, op: Op)
    requires Tells(f, rw, left, right)
    ensures !rw.erased ==> f.position < |f.block|
    ensures Tells(if rw.erased then f else f.(block := f.block[f.position := op]), rw.Do(Modify(op)), left, right)
  {
    if !rw.erased {
      TellsPlainly(f, rw, left, right);
      var head, tail := left + rw.before, ConcatReversed(rw.afterCalls) + right;
      assert f.block == head + [rw.matched] + tail;
      assert head + [op] + tail == left + (rw.before + [op] + ConcatReversed(rw.afterCalls)) + right;
      TellsPlainly(f.(block := f.block[f.position := op]), rw.Do(Modify(op)), left, right);
    }
  }

  // ----- what a call does to the block and the logs -----

  predicate StandsAt(f: Fields, op: Op)
  {
    f.position < |f.block| && f.block[f.position] == op
  }

  /** `ops` now stand in front of the operation, which has become `op'`, and are logged as put before it. */
  predicate PutBefore(f: Fields, op: Op, ops: seq<Op>, op': Op, f': Fields)
  {
    && StandsAt(f, op) && f'.redirect == f.redirect && f'.addedAfter == f.addedAfter
    && f'.block == f.block[..f.position] + ops + [op'] + f.block[f.position + 1..]
    && f'.position == f.position + |ops| && f'.addedBefore == f.addedBefore + ops
  }

  /** `ops` now stand right behind the operation, which has become `op'`, and are logged as put after it. */
  predicate PutAfter(f: Fields, op: Op, ops: seq<Op>, op': Op, f': Fields)
  {
    && StandsAt(f, op) && f'.redirect == f.redirect && f'.addedBefore == f.addedBefore
    && f'.block == f.block[..f.position] + [op'] + ops + f.block[f.position + 1..]
    && f'.position == f.position && f'.addedAfter == f.addedAfter + ops
  }

  /** The new operations stand where the operation stood, and uses are redirected in all that is there and in the logs. */
  predicate Swapped(f: Fields, op: Op, newOps: seq<Op>, f': Fields)
  {
    && StandsAt(f, op)
    && f'.block == SubstOps(f'.redirect, f.block[..f.position] + newOps + f.block[f.position + 1..])
    && f'.position == f.position + |newOps|
    && f'.addedBefore == SubstOps(f'.redirect, f.addedBefore + newOps) && f'.addedAfter == SubstOps(f'.redirect, f.addedAfter)
  }

  /** Result `j` gives way to target `j`, and no other value gives way, if no result is a target or occurs twice. */
  ghost predicate Redirects(results: seq<Value>, targets: seq<Value>, s: Redirect)
    requires |results| == |targets|
  {
    Distinct(results) && (forall t :: t in targets ==> t !in results) ==>
      s.Keys == Names(results) && forall j :: 0 <= j < |results| ==> results[j] in s && s[results[j]] == targets[j]
  }

  lemma SwapSwaps(f: Fields, op: Op, newOps: seq<Op>, s: Redirect)
    requires StandsAt(f, op)
    ensures Swapped(f, op, newOps, Swap(f, newOps, s))
  {
    InsertThenErase(SubstOps(s, f.block), f.position, SubstOps(s, newOps));
    SubstEdit(s, f.block, f.position, newOps);
    SubstOpsAppend(s, f.addedBefore, newOps);
  }

  lemma RedirectsEach(results: seq<Value>, targets: seq<Value>)
    requires |results| == |targets|
    ensures Redirects(results, targets, Redirections(results, targets, |targets|))
  {
    if Distinct(results) && forall t :: t in targets ==> t !in results {
      RedirectionsAtOnce(results, targets, |targets|);
      forall v | v in results ensures v in Redirections(results, targets, |targets|) {
        var j :| 0 <= j < |targets| && results[j] == v;
      }
    }
  }

  lemma TellsStanding(f: Fields, rw: Rewrite, left: seq<Op>, right: seq<Op>)
    requires Tells(f, rw, left, right) && !rw.erased
    ensures StandsAt(f, rw.matched)
  {
    TellsPlainly(f, rw, left, right);
    Regroup(left, rw.before, [rw.matched], ConcatReversed(rw.afterCalls), right);
  }

  lemma EmptyBlockEmpties(op: Op, r: nat, b: nat)
    requires r < |op.regions| && b < |op.regions[r].blocks|
    ensures OnlyEmptied(op, r, b, EmptyBlock(op, r, b))
  {
  }

  /** An insertion split at the position is one at the operation. */
  lemma SplitBefore(f: Fields, op: Op, ops: seq<Op>)
    requires StandsAt(f, op)
    ensures f.block[..f.position] + ops + f.block[f.position..] == f.block[..f.position] + ops + [op] + f.block[f.position + 1..]
    ensures f.block[..f.position + 1] + ops + f.block[f.position + 1..] == f.block[..f.position] + [op] + ops + f.block[f.position + 1..]
  {
    assert f.block[f.position..] == [op] + f.block[f.position + 1..];
    assert f.block[..f.position + 1] == f.block[..f.position] + [op];
  }

  /** The two logs, with the operation between them if it still stands, are the log of the rewrite. */
  lemma TellsLog(f: Fields, rw: Rewrite, left: seq<Op>, right: seq<Op>)
    requires Tells(f, rw, left, right)
    ensures f.addedBefore + (if rw.erased then [] else [rw.matched]) + f.addedAfter == SubstOps(f.redirect, rw.Log())
  {
    var matched := if rw.erased then [] else [rw.matched];
    if !rw.erased {
      SubstNothing(matched);
    }
    SubstOpsAppend(rw.Redirection(), rw.before + matched, Concat(rw.afterCalls));
    SubstOpsAppend(rw.Redirection(), rw.before, matched);
  }

  lemma PutNothing(f: Fields, op: Op)
    requires StandsAt(f, op)
    ensures PutAfter(f, op, [], op, f)
  {
    assert f.block == f.block[..f.position] + [op] + [] + f.block[f.position + 1..];
    assert f.addedAfter == f.addedAfter + [];
  }

  /** The fields after an insertion right behind the operation. */
  function Behind(f: Fields, ops: seq<Op>): Fields
    requires f.position < |f.block|
  {
    f.(block := f.block[..f.position + 1] + ops + f.block[f.position + 1..], addedAfter := f.addedAfter + ops)
  }

  lemma PutsBehind(f: Fields, rw: Rewrite, left: seq<Op>, right: seq<Op>, ops: seq<Op>)
    requires Tells(f, rw, left, right) && !rw.erased && ops != []
    ensures StandsAt(f, rw.matched) && PutAfter(f, rw.matched, ops, rw.matched, Behind(f, ops))
    ensures Tells(Behind(f, ops), rw.Do(InsertAfter(ops)), left, right)
    ensures rw.Do(InsertAfter(ops)).afterCalls == rw.afterCalls + [ops] && rw.Do(InsertAfter(ops)).matched == rw.matched
    ensures !rw.Do(InsertAfter(ops)).erased
  {
    TellsStanding(f, rw, left, right);
    SplitBefore(f, rw.matched, ops);
    TellsPlainly(f, rw, left, right);
    TellsAfter(f, rw, left, right, ops);
  }

  /** Editing the operation and then inserting next to it. */
  lemma EditThenPut(f: Fields, op: Op, ops: seq<Op>, op': Op, f': Fields)
    requires StandsAt(f, op)
    ensures PutBefore(f.(block := f.block[f.position := op']), op', ops, op', f') ==> PutBefore(f, op, ops, op', f')
    ensures PutAfter(f.(block := f.block[f.position := op']), op', ops, op', f') ==> PutAfter(f, op, ops, op', f')
  {
    var edited := f.block[f.position := op'];
    assert edited[..f.position] == f.block[..f.position] && edited[f.position + 1..] == f.block[f.position + 1..];
  }

  /** An inlined block: no operation, at any depth, is lost or doubled. */
  lemma InlinedConserves(f: Fields, op: Op, r: nat, b: nat, op': Op, f': Fields)
    requires r < |op.regions| && b < |op.regions[r].blocks| && OnlyEmptied(op, r, b, op')
    requires PutBefore(f, op, op.regions[r].blocks[b].ops, op', f') || PutAfter(f, op, op.regions[r].blocks[b].ops, op', f')
    ensures forall h :: Occurs(h, f'.block) == Occurs(h, f.block)
  {
    var left, right := f.block[..f.position], f.block[f.position + 1..];
    assert f.block == left + [op] + right;
    forall h ensures Occurs(h, f'.block) == Occurs(h, f.block) {
      InliningConserves(h, left, op, right, r, b, op');
    }
  }

  class PatternRewriter {
    /** The block of the matched operation, and where in it the operation stands or stood. */
    var block: seq<Op>
    var position: nat
    var current: Op
    var hasErasedMatchedOperation: bool
    var hasDoneAction: bool
    var addedBefore: seq<Op>
    var addedAfter: seq<Op>
    /** Sizes of the insertions made after the operation, in call order. */
    var afterSizes: seq<nat>
    /** What the replacement of the operation, if there was one, did to uses everywhere. */
    var redirect: Redirect
    /** The block around the operation when it was matched. */
    ghost const left: seq<Op>
    ghost const right: seq<Op>
    ghost var rewrite: Rewrite

    constructor (block: seq<Op>, position: nat)
      requires position < |block|
      ensures Valid() && rewrite == Start(block[position]) && !hasDoneAction
      ensures left == block[..position] && right == block[position + 1..]
    {
      this.block, this.position, this.current := block, position, block[position];
      hasErasedMatchedOperation, hasDoneAction := false, false;
      addedBefore, addedAfter, afterSizes, redirect := [], [], [], map[];
      left, right := block[..position], block[position + 1..];
      rewrite := Start(block[position]);
      new;
      assert block == block[..position] + [block[position]] + block[position + 1..];
      TellsPlainly(State(), rewrite, left, right);
    }

    ghost function State(): Fields
      reads this
    {
      Fields(block, position, addedBefore, addedAfter, redirect)
    }

    /** The block, the flags and the logs all tell the story of `rewrite`. */
    ghost predicate Valid()
      reads this
    {
      && Tells(State(), rewrite, left, right)
      && hasErasedMatchedOperation == rewrite.erased && (!rewrite.erased ==> current == rewrite.matched)
      && |afterSizes| == |rewrite.afterCalls|
      && forall i :: 0 <= i < |afterSizes| ==> afterSizes[i] == |rewrite.afterCalls[i]|
    }

    method InsertOpsBeforeMatched(ops: seq<Op>)
      requires Valid() && !hasErasedMatchedOperation
      modifies this
      ensures Valid() && rewrite == old(rewrite).Do(InsertBefore(ops)) && hasDoneAction
      ensures current == old(current) && PutBefore(old(State()), current, ops, current, State())
    {
      TellsStanding(State(), rewrite, left, right);
      SplitBefore(State(), current, ops);
      TellsBefore(State(), rewrite, left, right, ops);
      TellsPlainly(State(), rewrite, left, right);
      hasDoneAction := true;
      block := block[..position] + ops + block[position..];
      position := position + |ops|;
      addedBefore := addedBefore + ops;
      rewrite := rewrite.Do(InsertBefore(ops));
    }

    method InsertOpsAfterMatched(ops: seq<Op>)
      requires Valid() && !hasErasedMatchedOperation
      modifies this
      ensures Valid() && rewrite == old(rewrite).Do(InsertAfter(ops)) && hasDoneAction
      ensures current == old(current) && PutAfter(old(State()), current, ops, current, State())
    {
      hasDoneAction := true;
      if ops == [] {
        TellsStanding(State(), rewrite, left, right);
        PutNothing(State(), current);
        return;
      }
      PutsBehind(State(), rewrite, left, right, ops);
      block := block[..position + 1] + ops + block[position + 1..];
      addedAfter := addedAfter + ops;
      afterSizes := afterSizes + [|ops|];
      rewrite := rewrite.Do(InsertAfter(ops));
    }

    method EraseMatchedOp()
      requires Valid() && !hasErasedMatchedOperation
      modifies this
      ensures Valid() && rewrite == old(rewrite).Do(EraseMatched) && hasDoneAction
      ensures var f := old(State());
              StandsAt(f, old(current)) && State() == f.(block := f.block[..f.position] + f.block[f.position + 1..])
    {
      TellsStanding(State(), rewrite, left, right);
      TellsErased(State(), rewrite, left, right);
      hasDoneAction := true;
      hasErasedMatchedOperation := true;
      block := block[..position] + block[position + 1..];
      rewrite := rewrite.Do(EraseMatched);
    }

    /**
     Every use of a result is redirected; then the new operations are inserted after the matched
     one, which is erased. They are logged as before it.
     */
    method ReplaceMatchedOp(newOps: seq<Op>, targets: seq<Value>)
      requires Valid() && rewrite.Allows(ReplaceMatched(newOps, targets))
      modifies this
      ensures Valid() && rewrite == old(rewrite).Do(ReplaceMatched(newOps, targets)) && hasDoneAction
      ensures Swapped(old(State()), old(current), newOps, State()) && Redirects(old(current).results, targets, redirect)
    {
      TellsStanding(State(), rewrite, left, right);
      TellsReplaced(State(), rewrite, left, right, newOps, targets);
      ghost var after := rewrite.Do(ReplaceMatched(newOps, targets));
      var s := Redirections(current.results, targets, |targets|);
      var f := Fields(block, position, addedBefore, addedAfter, redirect);
      SwapSwaps(f, current, newOps, s);
      RedirectsEach(current.results, targets);
      Conclude(Swap(f, newOps, s), after);
    }

    /** The fields once the operation is gone for good. */
    method Conclude(f: Fields, ghost after: Rewrite)
      requires Tells(f, after, left, right) && after.erased
      requires |afterSizes| == |after.afterCalls|
      requires forall i :: 0 <= i < |afterSizes| ==> afterSizes[i] == |after.afterCalls[i]|
      modifies this
      ensures Valid() && rewrite == after && hasDoneAction && State() == f
    {
      hasDoneAction, hasErasedMatchedOperation := true, true;
      block, position, addedBefore, addedAfter, redirect := f.block, f.position, f.addedBefore, f.addedAfter, f.redirect;
      rewrite := after;
    }

    method ModifyMatchedOp(op: Op)
      requires Valid()
      modifies this
      ensures Valid() && rewrite == old(rewrite).Do(Modify(op)) && hasDoneAction && current == op
      ensures var f := old(State());
              if hasErasedMatchedOperation then State() == f
              else StandsAt(f, old(current)) && State() == f.(block := f.block[f.position := op])
    {
      if !hasErasedMatchedOperation {
        TellsStanding(State(), rewrite, left, right);
      }
      TellsModified(State(), rewrite, left, right, op);
      hasDoneAction := true;
      current := op;
      if !hasErasedMatchedOperation {
        block := block[position := op];
      }
      rewrite := rewrite.Do(Modify(op));
    }

    method InlineBlockBeforeMatched(r: nat, b: nat)
      requires Valid() && rewrite.Allows(InlineBefore(r, b))
      modifies this
      ensures Valid() && rewrite == old(rewrite).Do(InlineBefore(r, b)) && hasDoneAction
      ensures OnlyEmptied(old(current), r, b, current)
      ensures PutBefore(old(State()), old(current), old(current).regions[r].blocks[b].ops, current, State())
      ensures forall h :: Occurs(h, block) == Occurs(h, old(block))
    {
      var ops := BlockOps(current, r, b);
      ghost var goal := rewrite.Do(InlineBefore(r, b));
      ghost var f, op := State(), current;
      TellsStanding(f, rewrite, left, right);
      EmptyBlockEmpties(current, r, b);
      ModifyMatchedOp(EmptyBlock(current, r, b));
      InsertOpsBeforeMatched(ops);
      assert rewrite == goal;
      EditThenPut(f, op, ops, current, State());
      InlinedConserves(f, op, r, b, current, State());
    }

    method InlineBlockAfterMatched(r: nat, b: nat)
      requires Valid() && rewrite.Allows(InlineAfter(r, b))
      modifies this
      ensures Valid() && rewrite == old(rewrite).Do(InlineAfter(r, b)) && hasDoneAction
      ensures OnlyEmptied(old(current), r, b, current)
      ensures PutAfter(old(State()), old(current), old(current).regions[r].blocks[b].ops, current, State())
      ensures forall h :: Occurs(h, block) == Occurs(h, old(block))
    {
      var ops := BlockOps(current, r, b);
      ghost var goal := rewrite.Do(InlineAfter(r, b));
      ghost var f, op := State(), current;
      TellsStanding(f, rewrite, left, right);
      EmptyBlockEmpties(current, r, b);
      ModifyMatchedOp(EmptyBlock(current, r, b));
      InsertOpsAfterMatched(ops);
      assert rewrite == goal;
      EditThenPut(f, op, ops, current, State());
      InlinedConserves(f, op, r, b, current, State());
    }

    /** The calls of a pattern, one after the other. */
    method MatchAndRewrite(calls: seq<Call>)
      requires Valid() && Legal(calls, rewrite)
      modifies this
      ensures Valid() && rewrite == Perform(calls, old(rewrite))
      ensures hasDoneAction == (old(hasDoneAction) || calls != [])
      ensures addedBefore + (if rewrite.erased then [] else [current]) + addedAfter == SubstOps(redirect, rewrite.Log())
    {
      for i := 0 to |calls|
        invariant Valid() && Legal(calls[i..], rewrite)
        invariant Perform(calls, old(rewrite)) == Perform(calls[i..], rewrite)
        invariant hasDoneAction == (old(hasDoneAction) || i > 0)
      {
        assert calls[i..][0] == calls[i] && calls[i..][1..] == calls[i + 1..];
        match calls[i] {
          case InsertBefore(ops) => InsertOpsBeforeMatched(ops);
          case InsertAfter(ops) => InsertOpsAfterMatched(ops);
          case InlineBefore(r, b) => InlineBlockBeforeMatched(r, b);
          case InlineAfter(r, b) => InlineBlockAfterMatched(r, b);
          case ReplaceMatched(newOps, targets) => ReplaceMatchedOp(newOps, targets);
          case EraseMatched => EraseMatchedOp();
          case Modify(op) => ModifyMatchedOp(op);
        }
      }
      TellsLog(State(), rewrite, left, right);
    }
  }

  // ----- patterns under a redirection -----

  function SubstChunks(s: Redirect, chunks: seq<seq<Op>>): (r: seq<seq<Op>>)
    ensures |r| == |chunks|
  {
    seq(|chunks|, i requires 0 <= i < |chunks| => SubstOps(s, chunks[i]))
  }

  /** The same calls with the values they take from the operation redirected. */
  function SubstCall(s: Redirect, call: Call): Call
  {
    match call
    case InsertBefore(ops) => InsertBefore(SubstOps(s, ops))
    case InsertAfter(ops) => InsertAfter(SubstOps(s, ops))
    case InlineBefore(_, _) => call
    case InlineAfter(_, _) => call
    case ReplaceMatched(newOps, targets) => ReplaceMatched(SubstOps(s, newOps), SubstValues(s, targets))
    case EraseMatched => call
    case Modify(op) => Modify(SubstOp(s, op))
  }

  function SubstCalls(s: Redirect, calls: seq<Call>): (r: seq<Call>)
    ensures |r| == |calls|
  {
    seq(|calls|, i requires 0 <= i < |calls| => SubstCall(s, calls[i]))
  }

  /** The values defined, at any depth, by the operations a call brings along. */
  function CallDefs(call: Call): set<Value>
  {
    match call
    case InsertBefore(ops) => OpsDefs(ops)
    case InsertAfter(ops) => OpsDefs(ops)
    case InlineBefore(_, _) => {}
    case InlineAfter(_, _) => {}
    case ReplaceMatched(newOps, _) => OpsDefs(newOps)
    case EraseMatched => {}
    case Modify(op) => OpsDefs([op])
  }

  function CallsDefs(calls: seq<Call>): set<Value>
  {
    set call, v | call in calls && v in CallDefs(call) :: v
  }

  /**
   The pattern does not look at which values the operation uses: redirecting the operation redirects
   the calls. The names of new values do not depend on operands, and are not redirected.
   */
  ghost predicate Equivariant(pattern: Pattern)
  {
    forall s: Redirect, op: Op :: EquivariantAt(pattern, s, op)
  }

  ghost predicate EquivariantAt(pattern: Pattern, s: Redirect, op: Op)
  {
    && CallsDefs(pattern(SubstOp(s, op))) == CallsDefs(pattern(op))
    && (s.Keys !! CallsDefs(pattern(op)) ==> pattern(SubstOp(s, op)) == SubstCalls(s, pattern(op)))
  }

  /** Two rewrites that differ by a redirection. */
  ghost predicate Shifted(s: Redirect, rw: Rewrite, rw': Rewrite)
  {
    && rw'.before == SubstOps(s, rw.before) && rw'.matched == SubstOp(s, rw.matched) && rw'.erased == rw.erased
    && rw'.afterCalls == SubstChunks(s, rw.afterCalls)
    && rw'.replaced == rw.replaced && rw'.targets == SubstValues(s, rw.targets)
  }

  lemma SubstBlockOps(s: Redirect, op: Op, r: nat, b: nat)
    requires r < |op.regions| && b < |op.regions[r].blocks|
    ensures BlockOps(SubstOp(s, op), r, b) == SubstOps(s, BlockOps(op, r, b))
    ensures EmptyBlock(SubstOp(s, op), r, b) == SubstOp(s, EmptyBlock(op, r, b))
  {
    var region := op.regions[r];
    assert SubstOp(s, op).regions[r] == SubstRegion(s, region);
    assert SubstRegion(s, region).blocks[b] == SubstBlock(s, region.blocks[b]);
    var emptied := Region(region.blocks[b := region.blocks[b].(ops := [])]);
    assert SubstRegion(s, emptied).blocks == SubstRegion(s, region).blocks[b := SubstBlock(s, region.blocks[b]).(ops := [])];
    assert SubstOp(s, EmptyBlock(op, r, b)).regions == SubstOp(s, op).regions[r := SubstRegion(s, emptied)];
  }

  lemma {:induction false} PerformShifted(s: Redirect, calls: seq<Call>, rw: Rewrite, rw': Rewrite)
    requires Legal(calls, rw) && Shifted(s, rw, rw')
    ensures Legal(SubstCalls(s, calls), rw')
    ensures Shifted(s, Perform(calls, rw), Perform(SubstCalls(s, calls), rw'))
  {
    if calls != [] {
      var calls' := SubstCalls(s, calls);
      assert calls'[1..] == SubstCalls(s, calls[1..]);
      DoShifted(s, calls[0], rw, rw');
      PerformShifted(s, calls[1..], rw.Do(calls[0]), rw'.Do(calls'[0]));
    }
  }

  lemma DoShifted(s: Redirect, call: Call, rw: Rewrite, rw': Rewrite)
    requires rw.Allows(call) && Shifted(s, rw, rw')
    ensures rw'.Allows(SubstCall(s, call)) && Shifted(s, rw.Do(call), rw'.Do(SubstCall(s, call)))
  {
    match call
    case InsertBefore(ops) => SubstOpsAppend(s, rw.before, ops);
    case InsertAfter(ops) => assert ops != [] ==> SubstChunks(s, rw.afterCalls + [ops]) == SubstChunks(s, rw.afterCalls) + [SubstOps(s, ops)];
    case InlineBefore(r, b) =>
      assert rw'.matched.regions[r] == SubstRegion(s, rw.matched.regions[r]);
      SubstBlockOps(s, rw.matched, r, b);
      SubstOpsAppend(s, rw.before, BlockOps(rw.matched, r, b));
    case InlineAfter(r, b) =>
      assert rw'.matched.regions[r] == SubstRegion(s, rw.matched.regions[r]);
      SubstBlockOps(s, rw.matched, r, b);
      var ops := BlockOps(rw.matched, r, b);
      assert ops != [] ==> SubstChunks(s, rw.afterCalls + [ops]) == SubstChunks(s, rw.afterCalls) + [SubstOps(s, ops)];
    case ReplaceMatched(newOps, targets) => SubstOpsAppend(s, rw.before, newOps);
    case EraseMatched =>
    case Modify(op) =>
  }

  lemma {:induction false} ConcatShifted(s: Redirect, chunks: seq<seq<Op>>)
    ensures ConcatReversed(SubstChunks(s, chunks)) == SubstOps(s, ConcatReversed(chunks))
  {
    if chunks != [] {
      var n := |chunks| - 1;
      assert SubstChunks(s, chunks)[..n] == SubstChunks(s, chunks[..n]);
      ConcatShifted(s, chunks[..n]);
      SubstOpsAppend(s, chunks[n], ConcatReversed(chunks[..n]));
    }
  }

  lemma AffectedShifted(s: Redirect, rw: Rewrite, rw': Rewrite)
    requires Shifted(s, rw, rw')
    ensures rw'.Affected() == SubstOps(s, rw.Affected())
  {
    ConcatShifted(s, rw.afterCalls);
  }
}
