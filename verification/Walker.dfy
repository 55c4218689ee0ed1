/**
 The walker: a cursor moving over a block that is being edited under it, in eight modes.
 */
module Walker {
  import opened Ir
  import opened Substitution
  import opened PatternRewriters
  import opened Measures
  import opened Walks
  import opened Offers
  import opened NormalForms

  datatype PatternRewriteWalker = PatternRewriteWalker(
    pattern: Pattern, walkRegionsFirst: bool, applyRecursively: bool, walkReverse: bool)
  {
    function Spec(): Walk
    {
      Walk(pattern, walkRegionsFirst, applyRecursively)
    }

    /** The walk ends, and finds what the pattern leaves when it has to walk that again. */
    ghost predicate Ready(mu: Op -> nat)
    {
      Spec().Bounded(mu) && (applyRecursively ==> forall op :: Acts(pattern, op) ==> CursorRight(walkReverse, Rewritten(pattern, op)))
    }

    ghost function Target(mu: Op -> nat, ops: seq<Op>): Walked<seq<Op>>
      requires Ready(mu)
    {
      WalkOps(Spec(), walkReverse, mu, ops)
    }
  }

  // ----- the cursor -----

  function Total(sizes: seq<nat>): nat
  {
    if sizes == [] then 0 else sizes[0] + Total(sizes[1..])
  }

  /** `iter_affected_ops`: the position of the first logged operation, or of the next one if nothing is logged. */
  function FirstAffected(i: nat, before: nat, erased: bool, afterSizes: seq<nat>): nat
  {
    if before > 0 || !erased || afterSizes == [] then i
    else i + Total(afterSizes[1..])
  }

  /** `iter_affected_ops_reversed`: the position of the last logged operation, or of the previous one. */
  function LastAffected(i: nat, before: nat, erased: bool, afterSizes: seq<nat>): int
  {
    var kept := if erased then 0 else 1;
    if afterSizes != [] then i + before + kept + afterSizes[|afterSizes| - 1] - 1
    else i + before + kept - 1
  }

  /** Exactly when the cursor goes to the near end of what the pattern left. */
  predicate CursorRight(reverse: bool, rw: Rewrite)
  {
    |rw.afterCalls| <= 1 || (!reverse && (rw.before != [] || !rw.erased))
  }

  lemma {:induction false} ReversedLength(chunks: seq<seq<Op>>, sizes: seq<nat>)
    requires |sizes| == |chunks| && forall k :: 0 <= k < |sizes| ==> sizes[k] == |chunks[k]| > 0
    ensures |ConcatReversed(chunks)| == Total(sizes)
    ensures chunks != [] ==> Total(sizes) >= sizes[|sizes| - 1] && (Total(sizes) == sizes[|sizes| - 1] <==> |sizes| == 1)
    ensures chunks != [] ==> (Total(sizes[1..]) == 0 <==> |sizes| == 1)
  {
    if chunks != [] {
      var n := |chunks| - 1;
      ReversedLength(chunks[..n], sizes[..n]);
      TotalLast(sizes);
      if n > 0 {
        assert sizes[..n][0] == sizes[0];
        TotalPositive(sizes[..n]);
        TotalPositive(sizes[1..]);
      }
    }
  }

  lemma {:induction false} TotalLast(sizes: seq<nat>)
    requires sizes != []
    ensures Total(sizes) == Total(sizes[..|sizes| - 1]) + sizes[|sizes| - 1]
  {
    if |sizes| > 1 {
      assert sizes[1..][..|sizes| - 2] == sizes[..|sizes| - 1][1..];
      TotalLast(sizes[1..]);
    }
  }

  lemma TotalPositive(sizes: seq<nat>)
    requires sizes != [] && sizes[0] > 0
    ensures Total(sizes) > 0
  {
  }

  /**
   Backwards, a second insertion after the operation is always stepped over; forwards, it is when
   the operation is gone and nothing stands before it.
   */
  lemma CursorMissesExactly(rw: Rewrite, i: nat, afterSizes: seq<nat>)
    requires |afterSizes| == |rw.afterCalls|
    requires forall k :: 0 <= k < |afterSizes| ==> afterSizes[k] == |rw.afterCalls[k]| > 0
    ensures LastAffected(i, |rw.before|, rw.erased, afterSizes) == i + |rw.Affected()| - 1 <==> CursorRight(true, rw)
    ensures FirstAffected(i, |rw.before|, rw.erased, afterSizes) == i <==> CursorRight(false, rw)
  {
    ReversedLength(rw.afterCalls, afterSizes);
  }

  lemma {:induction false} FirstOfChunks(chunks: seq<seq<Op>>, sizes: seq<nat>)
    requires chunks != [] && |sizes| == |chunks| && forall k :: 0 <= k < |sizes| ==> sizes[k] == |chunks[k]| > 0
    ensures |Concat(chunks)| > 0 && Concat(chunks)[0] == chunks[0][0]
    ensures Total(sizes[1..]) < |ConcatReversed(chunks)| && ConcatReversed(chunks)[Total(sizes[1..])] == chunks[0][0]
  {
    var n := |chunks| - 1;
    if n == 0 {
      assert Concat(chunks[..0]) == [] && ConcatReversed(chunks[..0]) == [];
      assert Total(sizes[1..]) == 0;
    } else {
      FirstOfChunks(chunks[..n], sizes[..n]);
      assert sizes[..n][1..] == sizes[1..][..n - 1];
      TotalLast(sizes[1..]);
    }
  }

  lemma LastOfChunks(chunks: seq<seq<Op>>)
    requires chunks != [] && |chunks[|chunks| - 1]| > 0
    ensures var last := chunks[|chunks| - 1];
            && |Concat(chunks)| > 0 && Concat(chunks)[|Concat(chunks)| - 1] == last[|last| - 1]
            && |last| - 1 < |ConcatReversed(chunks)| && ConcatReversed(chunks)[|last| - 1] == last[|last| - 1]
  {
  }

  /**
   Either cursor goes to an end of the log: to where the first or the last operation of the log now
   stands. If nothing is logged it goes on to the next or the previous operation.
   */
  lemma CursorFollowsLog(rw: Rewrite, i: nat, afterSizes: seq<nat>)
    requires |afterSizes| == |rw.afterCalls|
    requires forall k :: 0 <= k < |afterSizes| ==> afterSizes[k] == |rw.afterCalls[k]| > 0
    ensures var first, last := FirstAffected(i, |rw.before|, rw.erased, afterSizes), LastAffected(i, |rw.before|, rw.erased, afterSizes);
            if rw.Log() == [] then first == i && last == i - 1
            else
              && i <= first < i + |rw.Affected()| && rw.Affected()[first - i] == rw.Log()[0]
              && i <= last < i + |rw.Affected()| && rw.Affected()[last - i] == rw.Log()[|rw.Log()| - 1]
  {
    if rw.afterCalls != [] {
      FirstOfChunks(rw.afterCalls, afterSizes);
      LastOfChunks(rw.afterCalls);
    }
  }

  predicate NoneEmpty(chunks: seq<seq<Op>>)
  {
    forall k :: 0 <= k < |chunks| ==> |chunks[k]| > 0
  }

  /** Insertions of nothing are not made. */
  lemma {:induction false} InsertionsNotEmpty(calls: seq<Call>, rw: Rewrite)
    requires Legal(calls, rw) && NoneEmpty(rw.afterCalls)
    ensures NoneEmpty(Perform(calls, rw).afterCalls)
  {
    if calls != [] {
      assert NoneEmpty(rw.Do(calls[0]).afterCalls);
      InsertionsNotEmpty(calls[1..], rw.Do(calls[0]));
    }
  }

  /** Where the cursor goes when `piece` now stands at position `i`. */
  function NextCursor(reverse: bool, i: int, piece: seq<Op>, again: bool): int
  {
    if reverse then (if again then i + |piece| - 1 else i - 1)
    else (if again then i else i + |piece|)
  }

  // ----- one visit -----

  /** The operation as the pattern sees it. */
  ghost function Seen(w: PatternRewriteWalker, mu: Op -> nat, op: Op): Walked<Op>
    requires w.Ready(mu)
  {
    Ready(w.Spec(), w.walkReverse, mu, op)
  }

  /** Whether the walk goes over what the visit leaves again. */
  ghost predicate Rewalked(w: PatternRewriteWalker, mu: Op -> nat, op: Op)
    requires w.Ready(mu)
  {
    w.applyRecursively && Acts(w.pattern, Seen(w, mu, op).what)
  }

  /** What one visit leaves in place of `op`, and what it does to uses elsewhere. */
  ghost function Piece(w: PatternRewriteWalker, mu: Op -> nat, op: Op): Walked<seq<Op>>
    requires w.Ready(mu)
  {
    if Rewalked(w, mu, op) then Visited(w.pattern, Seen(w, mu, op)) else WalkOp(w.Spec(), w.walkReverse, mu, op)
  }

  /** A block whose operation `i` has given way to `piece`, with uses redirected around it. */
  ghost function Around(ops: seq<Op>, i: nat, piece: Walked<seq<Op>>): seq<Op>
    requires i < |ops|
  {
    SubstOps(piece.s, ops[..i]) + piece.what + SubstOps(piece.s, ops[i + 1..])
  }

  lemma Middle(a: seq<Op>, b: seq<Op>, c: seq<Op>, i: nat, n: nat)
    requires i == |a| && n == |b|
    ensures (a + b + c)[i..i + n] == b && (a + b + c)[..i] == a && (a + b + c)[i + n..] == c
  {
  }

  lemma {:induction false} LogSize(chunks: seq<seq<Op>>)
    ensures |Concat(chunks)| == |ConcatReversed(chunks)|
  {
    if chunks != [] {
      LogSize(chunks[..|chunks| - 1]);
    }
  }

  lemma SubstAround(s: Redirect, a: seq<Op>, b: seq<Op>, c: seq<Op>)
    ensures SubstOps(s, a + b + c) == SubstOps(s, a) + SubstOps(s, b) + SubstOps(s, c)
  {
    SubstOpsAppend(s, a + b, c);
    SubstOpsAppend(s, a, b);
  }

  /** The block after the rewriter is done, seen from the block before the visit. */
  lemma EditedAround(ops: seq<Op>, i: nat, op: Op, s: Redirect, rw: Rewrite)
    requires i < |ops|
    ensures var before := SubstOps(s, ops)[i := op];
            var t := Compose(s, rw.Redirection());
            SubstOps(rw.Redirection(), before[..i] + rw.Affected() + before[i + 1..])
            == SubstOps(t, ops[..i]) + rw.Left() + SubstOps(t, ops[i + 1..])
  {
    var before := SubstOps(s, ops)[i := op];
    assert before[..i] == SubstOps(s, ops[..i]) && before[i + 1..] == SubstOps(s, ops[i + 1..]);
    SubstAround(rw.Redirection(), before[..i], rw.Affected(), before[i + 1..]);
    SubstOpsCompose(s, rw.Redirection(), ops[..i]);
    SubstOpsCompose(s, rw.Redirection(), ops[i + 1..]);
  }

  /** Walking what a visit left redirects uses around it once more. */
  lemma AroundAgain(ops: seq<Op>, i: nat, here: Walked<seq<Op>>, rest: Walked<seq<Op>>)
    requires i < |ops|
    ensures var block := Around(ops, i, here);
            |here.what| <= |block| - i
            && SubstOps(rest.s, block[..i]) + rest.what + SubstOps(rest.s, block[i + |here.what|..]) == Around(ops, i, Again(here, rest))
  {
    var l, r := SubstOps(here.s, ops[..i]), SubstOps(here.s, ops[i + 1..]);
    Middle(l, here.what, r, i, |here.what|);
    SubstOpsCompose(here.s, rest.s, ops[..i]);
    SubstOpsCompose(here.s, rest.s, ops[i + 1..]);
  }

  /**
   `_rewrite_op` on the operation at `i`: the edited block, where to go on, the redirection for what is
   outside, and the operation as the pattern was offered it.
   */
  method RewriteOp(w: PatternRewriteWalker, ops: seq<Op>, i: nat, ghost mu: Op -> nat)
    returns (block: seq<Op>, cursor: int, s: Redirect, offered: Op)
    requires w.Ready(mu) && i < |ops|
    ensures block == Around(ops, i, Piece(w, mu, ops[i])) && s == Piece(w, mu, ops[i]).s
    ensures cursor == NextCursor(w.walkReverse, i, Piece(w, mu, ops[i]).what, Rewalked(w, mu, ops[i]))
    ensures offered == Seen(w, mu, ops[i]).what
    decreases w.Spec().WeightOf(mu, ops[i]), Depth(ops[i]), 1, 1
  {
    var op, s0 := ops[i], map[];
    if w.walkRegionsFirst {
      op, s0 := RewriteOpRegions(w, op, mu);
    }
    SubstNothing(ops);
    var rewriter := new PatternRewriter(SubstOps(s0, ops)[i := op], i);
    rewriter.MatchAndRewrite(w.pattern(op));
    offered := op;
    if rewriter.hasDoneAction {
      block, cursor, s := FollowUp(w, rewriter, op, ops, i, s0, mu);
    } else {
      block, cursor, s := LeaveAlone(w, op, ops, i, s0, mu);
    }
  }

  lemma LeftAlone(w: PatternRewriteWalker, mu: Op -> nat, op: Op)
    requires w.Ready(mu) && !Acts(w.pattern, Seen(w, mu, op).what)
    ensures !Rewalked(w, mu, op)
    ensures var r := WalkRegions(w.Spec(), w.walkReverse, mu, op); Piece(w, mu, op) == Walked([r.what], r.s, r.log)
  {
  }

  /** The part of `_rewrite_op` for an operation the pattern left alone. */
  method LeaveAlone(w: PatternRewriteWalker, op: Op, ops: seq<Op>, i: nat, s0: Redirect, ghost mu: Op -> nat)
    returns (block: seq<Op>, cursor: int, s: Redirect)
    requires w.Ready(mu) && i < |ops|
    requires var offered := Seen(w, mu, ops[i]);
             offered.what == op && offered.s == s0 && !Acts(w.pattern, op)
    ensures block == Around(ops, i, Piece(w, mu, ops[i])) && s == Piece(w, mu, ops[i]).s
    ensures cursor == NextCursor(w.walkReverse, i, Piece(w, mu, ops[i]).what, false) && !Rewalked(w, mu, ops[i])
    decreases w.Spec().WeightOf(mu, ops[i]), Depth(ops[i]), 1, 0
  {
    LeftAlone(w, mu, ops[i]);
    var left;
    left, s := op, s0;
    if !w.walkRegionsFirst {
      left, s := RewriteOpRegions(w, op, mu);
    }
    block := SubstOps(s, ops)[i := left];
    assert block == SubstOps(s, ops[..i]) + [left] + SubstOps(s, ops[i + 1..]);
    cursor := if w.walkReverse then i - 1 else i + 1;
  }

  /** The part of `_rewrite_op` after an action of the pattern. */
  method FollowUp(w: PatternRewriteWalker, rewriter: PatternRewriter, op: Op, ops: seq<Op>, i: nat, s0: Redirect, ghost mu: Op -> nat)
    returns (block: seq<Op>, cursor: int, s: Redirect)
    requires w.Ready(mu) && i < |ops|
    requires var offered := Seen(w, mu, ops[i]);
             offered.what == op && offered.s == s0 && Acts(w.pattern, op)
    requires rewriter.Valid() && rewriter.rewrite == Rewritten(w.pattern, op)
    requires rewriter.left == SubstOps(s0, ops)[i := op][..i] && rewriter.right == SubstOps(s0, ops)[i := op][i + 1..]
    ensures block == Around(ops, i, Piece(w, mu, ops[i])) && s == Piece(w, mu, ops[i]).s
    ensures cursor == NextCursor(w.walkReverse, i, Piece(w, mu, ops[i]).what, Rewalked(w, mu, ops[i]))
    decreases w.Spec().WeightOf(mu, ops[i]), Depth(ops[i]), 1, 0
  {
    ghost var offered, rw := Seen(w, mu, ops[i]), rewriter.rewrite;
    ghost var here := Visited(w.pattern, offered);
    EditedAround(ops, i, op, s0, rw);
    block, s := rewriter.block, Compose(s0, rewriter.redirect);
    assert block == Around(ops, i, here) && s == here.s;
    if w.applyRecursively {
      cursor := AffectedEnd(w.walkReverse, w.pattern, op, rewriter, i);
    } else {
      var kept := if rewriter.hasErasedMatchedOperation then 0 else 1;
      var n := |rewriter.addedBefore| + |rewriter.addedAfter| + kept;
      LogSize(rw.afterCalls);
      cursor := if w.walkReverse then i - 1 else i + n;
      if !w.walkRegionsFirst {
        assert rewriter.afterSizes == Sizes(rw.afterCalls);
        var t;
        block, t := FollowAdded(w, ops, i, block, n, OrderOf(|rewriter.addedBefore| + kept, rewriter.afterSizes), offered, mu);
        s := Compose(s, t);
      }
    }
  }

  /** `iter_affected_ops` or its reverse: the near end of what the pattern left. */
  method AffectedEnd(reverse: bool, pattern: Pattern, op: Op, rewriter: PatternRewriter, i: nat) returns (cursor: int)
    requires Legal(pattern(op), Start(op)) && rewriter.Valid() && rewriter.rewrite == Rewritten(pattern, op)
    requires CursorRight(reverse, rewriter.rewrite)
    ensures cursor == NextCursor(reverse, i, rewriter.rewrite.Left(), true)
  {
    ghost var rw := rewriter.rewrite;
    InsertionsNotEmpty(pattern(op), Start(op));
    CursorMissesExactly(rw, i, rewriter.afterSizes);
    cursor := if reverse
      then LastAffected(i, |rewriter.addedBefore|, rewriter.hasErasedMatchedOperation, rewriter.afterSizes)
      else FirstAffected(i, |rewriter.addedBefore|, rewriter.hasErasedMatchedOperation, rewriter.afterSizes);
  }

  /** The regions of what the pattern left, seen from the block before the visit. */
  method FollowAdded(w: PatternRewriteWalker, ops: seq<Op>, i: nat, block: seq<Op>, n: nat, order: seq<nat>,
                     ghost offered: Walked<Op>, ghost mu: Op -> nat)
    returns (edited: seq<Op>, t: Redirect)
    requires w.Ready(mu) && !w.applyRecursively && !w.walkRegionsFirst && i < |ops|
    requires offered == Walked(ops[i], map[], []) && Acts(w.pattern, ops[i])
    requires block == Around(ops, i, Visited(w.pattern, offered)) && n == |Visited(w.pattern, offered).what|
    requires order == LogOrder(Rewritten(w.pattern, ops[i]))
    ensures edited == Around(ops, i, Piece(w, mu, ops[i])) && Compose(Visited(w.pattern, offered).s, t) == Piece(w, mu, ops[i]).s
    decreases w.Spec().WeightOf(mu, ops[i]), Depth(ops[i]), 0, 3
  {
    ghost var here := Visited(w.pattern, offered);
    VisitBounded(w.Spec(), mu, offered);
    Middle(SubstOps(here.s, ops[..i]), here.what, SubstOps(here.s, ops[i + 1..]), i, n);
    edited, t := RewriteAdded(w, block, i, n, order, mu, Depth(ops[i]));
    AroundAgain(ops, i, here, WalkEach(w.Spec(), w.walkReverse, mu, here.what, order, Depth(ops[i])));
  }

  /** Without recursion, only the regions of what stands there now are walked, in the order of the log. */
  method RewriteAdded(w: PatternRewriteWalker, ops: seq<Op>, i: nat, n: nat, order: seq<nat>, ghost mu: Op -> nat, ghost depth: nat)
    returns (block: seq<Op>, s: Redirect)
    requires w.Ready(mu) && !w.applyRecursively && i + n <= |ops|
    requires Distinct(order) && forall k :: k in order ==> k < n && Depth(ops[i..i + n][k]) <= depth
    ensures var r := WalkEach(w.Spec(), w.walkReverse, mu, ops[i..i + n], order, depth);
            s == r.s && block == Framed(ops, i, n, s, r.what)
    decreases 0, depth, 0, 2
  {
    block, s := ops, map[];
    ghost var piece := ops[i..i + n];
    ghost var whole := WalkEach(w.Spec(), w.walkReverse, mu, piece, order, depth);
    FramedStart(ops, i, n);
    var left := order;
    while left != []
      invariant |piece| == n && block == Framed(ops, i, n, s, piece)
      invariant EachProgress(w, mu, piece, left, depth, s, whole)
      decreases |left|
    {
      EachStep(w, mu, piece, left, depth, s, whole);
      var t, walked;
      block, t, walked := RewriteOneAdded(w, ops, block, i, n, left[0], s, piece, mu, depth);
      piece := SubstOps(t, piece)[left[0] := walked];
      s, left := Compose(s, t), left[1..];
    }
    EachEnd(w, mu, piece, depth, s, whole);
  }

  /** The regions of one operation; the rest of the block is redirected. */
  method RewriteOneAdded(w: PatternRewriteWalker, ghost ops: seq<Op>, block: seq<Op>, i: nat, n: nat, k: nat, ghost s: Redirect,
                         ghost piece: seq<Op>, ghost mu: Op -> nat, ghost depth: nat)
    returns (edited: seq<Op>, t: Redirect, walked: Op)
    requires w.Ready(mu) && !w.applyRecursively && i + n <= |ops| && |piece| == n && k < n
    requires block == Framed(ops, i, n, s, piece) && Depth(piece[k]) <= depth
    ensures var r := WalkRegions(w.Spec(), w.walkReverse, mu, piece[k]); walked == r.what && t == r.s
    ensures edited == Framed(ops, i, n, Compose(s, t), SubstOps(t, piece)[k := walked])
    decreases 0, depth, 0, 1
  {
    FramedAt(ops, i, n, s, piece, k);
    walked, t := RewriteOpRegions(w, block[i + k], mu);
    FramedStep(ops, i, n, s, piece, k, t, walked);
    edited := SubstOps(t, block)[i + k := walked];
  }

  /** `piece` in place of the `n` operations at `i`, with the others redirected. */
  ghost function Framed(ops: seq<Op>, i: nat, n: nat, s: Redirect, piece: seq<Op>): seq<Op>
    requires i + n <= |ops|
  {
    SubstOps(s, ops[..i]) + piece + SubstOps(s, ops[i + n..])
  }

  lemma FramedStart(ops: seq<Op>, i: nat, n: nat)
    requires i + n <= |ops|
    ensures ops == Framed(ops, i, n, map[], ops[i..i + n])
  {
    SubstNothing(ops[..i]);
    SubstNothing(ops[i + n..]);
  }

  lemma FramedAt(ops: seq<Op>, i: nat, n: nat, s: Redirect, piece: seq<Op>, k: nat)
    requires i + n <= |ops| && |piece| == n && k < n
    ensures i + k < |Framed(ops, i, n, s, piece)| && Framed(ops, i, n, s, piece)[i + k] == piece[k]
  {
  }

  lemma FramedStep(ops: seq<Op>, i: nat, n: nat, s: Redirect, piece: seq<Op>, k: nat, t: Redirect, walked: Op)
    requires i + n <= |ops| && |piece| == n && k < n
    ensures i + k < |Framed(ops, i, n, s, piece)|
    ensures SubstOps(t, Framed(ops, i, n, s, piece))[i + k := walked]
         == Framed(ops, i, n, Compose(s, t), SubstOps(t, piece)[k := walked])
  {
    SubstAround(t, SubstOps(s, ops[..i]), piece, SubstOps(s, ops[i + n..]));
    SubstOpsCompose(s, t, ops[..i]);
    SubstOpsCompose(s, t, ops[i + n..]);
    UpdateMiddle(SubstOps(Compose(s, t), ops[..i]), SubstOps(t, piece), SubstOps(Compose(s, t), ops[i + n..]), i, k, walked);
  }

  lemma UpdateMiddle(a: seq<Op>, b: seq<Op>, c: seq<Op>, i: nat, k: nat, op: Op)
    requires i == |a| && k < |b|
    ensures (a + b + c)[i + k := op] == a + b[k := op] + c
  {
  }

  lemma EachEnd(w: PatternRewriteWalker, mu: Op -> nat, piece: seq<Op>, depth: nat, s: Redirect, whole: Walked<seq<Op>>)
    requires w.Ready(mu) && !w.applyRecursively && EachProgress(w, mu, piece, [], depth, s, whole)
    ensures whole.what == piece && whole.s == s
  {
    ComposeNothing(s);
  }

  /** `piece` is on its way to `whole`, with the positions in `order` still to be walked. */
  ghost predicate EachProgress(w: PatternRewriteWalker, mu: Op -> nat, piece: seq<Op>, order: seq<nat>, depth: nat,
                               s: Redirect, whole: Walked<seq<Op>>)
    requires w.Ready(mu) && !w.applyRecursively
  {
    && Distinct(order) && (forall k :: k in order ==> k < |piece| && Depth(piece[k]) <= depth)
    && var rest := WalkEach(w.Spec(), w.walkReverse, mu, piece, order, depth);
       whole.what == rest.what && whole.s == Compose(s, rest.s)
  }

  lemma EachStep(w: PatternRewriteWalker, mu: Op -> nat, piece: seq<Op>, order: seq<nat>, depth: nat, s: Redirect, whole: Walked<seq<Op>>)
    requires w.Ready(mu) && !w.applyRecursively && order != [] && EachProgress(w, mu, piece, order, depth, s, whole)
    ensures order[0] < |piece| && Depth(piece[order[0]]) <= depth
    ensures var first := WalkRegions(w.Spec(), w.walkReverse, mu, piece[order[0]]);
            EachProgress(w, mu, SubstOps(first.s, piece)[order[0] := first.what], order[1..], depth, Compose(s, first.s), whole)
  {
    assert order[0] in order;
    var first := WalkRegions(w.Spec(), w.walkReverse, mu, piece[order[0]]);
    var next := SubstOps(first.s, piece)[order[0] := first.what];
    forall k | k in order[1..] ensures k < |next| && Depth(next[k]) <= depth {
      assert k in order && k != order[0];
      DepthSubst(first.s, piece[k]);
    }
    ComposeAssociative(s, first.s, WalkEach(w.Spec(), w.walkReverse, mu, next, order[1..], depth).s);
  }

  // ----- regions -----

  /** `_rewrite_op_regions`. */
  method RewriteOpRegions(w: PatternRewriteWalker, op: Op, ghost mu: Op -> nat) returns (r: Op, s: Redirect)
    requires w.Ready(mu)
    ensures var target := WalkRegions(w.Spec(), w.walkReverse, mu, op); r == target.what && s == target.s
    decreases w.Spec().WeightOf(mu, op), Depth(op), 0, 0
  {
    ghost var weight, depth := RegionsOfIs(w.Spec(), w.walkReverse, mu, op);
    UnfoldRegions(w.Spec(), w.walkReverse, mu, op);
    var regions;
    regions, s := RewriteRegions(w, op.regions, mu, weight, depth);
    r := SubstOp(s, op).(regions := regions);
  }

  /** The regions in order, in every walk. */
  method RewriteRegions(w: PatternRewriteWalker, regions: seq<Region>, ghost mu: Op -> nat, ghost weight: nat, ghost depth: nat)
    returns (edited: seq<Region>, s: Redirect)
    requires w.Ready(mu) && Within(w.Spec(), mu, regions, weight, depth)
    ensures var target := WalkRegionList(w.Spec(), w.walkReverse, mu, regions, weight, depth);
            edited == target.what && s == target.s
    decreases weight, depth, 4, 0
  {
    edited, s := regions, map[];
    ghost var whole := WalkRegionList(w.Spec(), w.walkReverse, mu, regions, weight, depth);
    RegionsStart(w, mu, regions, weight, depth);
    for i := 0 to |regions|
      invariant |edited| == |regions| && RegionsProgress(w, mu, edited, i, weight, depth, s, whole)
    {
      RegionStep(w, mu, edited, i, weight, depth, s, whole);
      var region, t := RewriteRegion(w, edited[i], mu, weight, depth);
      edited, s := SubstRegions(t, edited)[i := region], Compose(s, t);
    }
    RegionsEnd(w, mu, edited, weight, depth, s, whole);
  }

  /** The first `i` regions are on their way to `whole`, the others still to be walked. */
  ghost predicate RegionsProgress(w: PatternRewriteWalker, mu: Op -> nat, regions: seq<Region>, i: nat, weight: nat, depth: nat,
                                  s: Redirect, whole: Walked<seq<Region>>)
    requires w.Ready(mu)
  {
    && i <= |regions| && Within(w.Spec(), mu, regions[i..], weight, depth)
    && var rest := WalkRegionList(w.Spec(), w.walkReverse, mu, regions[i..], weight, depth);
       whole.what == SubstRegions(rest.s, regions[..i]) + rest.what && whole.s == Compose(s, rest.s)
  }

  lemma RegionsStart(w: PatternRewriteWalker, mu: Op -> nat, regions: seq<Region>, weight: nat, depth: nat)
    requires w.Ready(mu) && Within(w.Spec(), mu, regions, weight, depth)
    ensures RegionsProgress(w, mu, regions, 0, weight, depth, map[],
                            WalkRegionList(w.Spec(), w.walkReverse, mu, regions, weight, depth))
  {
    assert regions[0..] == regions;
    ComposeNothing(WalkRegionList(w.Spec(), w.walkReverse, mu, regions, weight, depth).s);
  }

  lemma RegionsEnd(w: PatternRewriteWalker, mu: Op -> nat, regions: seq<Region>, weight: nat, depth: nat,
                   s: Redirect, whole: Walked<seq<Region>>)
    requires w.Ready(mu) && RegionsProgress(w, mu, regions, |regions|, weight, depth, s, whole)
    ensures whole.what == regions && whole.s == s
  {
    assert regions[..|regions|] == regions && regions[|regions|..] == [];
    SubstRegionsNothing(regions);
    ComposeNothing(s);
  }

  lemma RegionStep(w: PatternRewriteWalker, mu: Op -> nat, regions: seq<Region>, i: nat, weight: nat, depth: nat,
                   s: Redirect, whole: Walked<seq<Region>>)
    requires w.Ready(mu) && i < |regions| && RegionsProgress(w, mu, regions, i, weight, depth, s, whole)
    ensures BlocksWithin(w.Spec(), mu, regions[i].blocks, weight, depth)
    ensures var first := WalkBlocks(w.Spec(), w.walkReverse, mu, regions[i].blocks, weight, depth);
            RegionsProgress(w, mu, SubstRegions(first.s, regions)[i := Region(first.what)], i + 1, weight, depth,
                            Compose(s, first.s), whole)
  {
    UnfoldRegionAt(w, mu, regions, i, weight, depth);
    var first := WalkBlocks(w.Spec(), w.walkReverse, mu, regions[i].blocks, weight, depth);
    var next := SubstRegions(first.s, regions)[i := Region(first.what)];
    var rest := WalkRegionList(w.Spec(), w.walkReverse, mu, next[i + 1..], weight, depth);
    JoinRegions(regions, i, first, rest);
    ComposeAssociative(s, first.s, rest.s);
  }

  lemma UnfoldRegionAt(w: PatternRewriteWalker, mu: Op -> nat, regions: seq<Region>, i: nat, weight: nat, depth: nat)
    requires w.Ready(mu) && i < |regions| && Within(w.Spec(), mu, regions[i..], weight, depth)
    ensures BlocksWithin(w.Spec(), mu, regions[i].blocks, weight, depth)
    ensures var first := WalkBlocks(w.Spec(), w.walkReverse, mu, regions[i].blocks, weight, depth);
            var next := SubstRegions(first.s, regions)[i := Region(first.what)];
            && Within(w.Spec(), mu, next[i + 1..], weight, depth)
            && WalkRegionList(w.Spec(), w.walkReverse, mu, regions[i..], weight, depth)
               == ThenRegions(first, WalkRegionList(w.Spec(), w.walkReverse, mu, next[i + 1..], weight, depth))
  {
    assert regions[i..][0] == regions[i] && regions[i..][1..] == regions[i + 1..];
    var first := WalkBlocks(w.Spec(), w.walkReverse, mu, regions[i].blocks, weight, depth);
    var next := SubstRegions(first.s, regions)[i := Region(first.what)];
    WithinTail(w.Spec(), mu, regions[i..], weight, depth, first.s);
    assert next[i + 1..] == SubstRegions(first.s, regions[i + 1..]);
  }

  lemma JoinRegions(regions: seq<Region>, i: nat, first: Walked<seq<Block>>, rest: Walked<seq<Region>>)
    requires i < |regions|
    ensures var next := SubstRegions(first.s, regions)[i := Region(first.what)];
            var whole := ThenRegions(first, rest);
            SubstRegions(whole.s, regions[..i]) + whole.what == SubstRegions(rest.s, next[..i + 1]) + rest.what
  {
    var next := SubstRegions(first.s, regions)[i := Region(first.what)];
    var l, r := SubstRegions(Compose(first.s, rest.s), regions[..i]), SubstRegions(rest.s, next[..i + 1]);
    forall k | 0 <= k < i ensures l[k] == r[k] {
      SubstRegionCompose(first.s, rest.s, regions[k]);
    }
    assert l + [SubstRegion(rest.s, Region(first.what))] == r;
  }

  /** The blocks of one region, in the direction of the walk. */
  method RewriteRegion(w: PatternRewriteWalker, region: Region, ghost mu: Op -> nat, ghost weight: nat, ghost depth: nat)
    returns (r: Region, s: Redirect)
    requires w.Ready(mu) && BlocksWithin(w.Spec(), mu, region.blocks, weight, depth)
    ensures var target := WalkBlocks(w.Spec(), w.walkReverse, mu, region.blocks, weight, depth);
            r == Region(target.what) && s == target.s
    decreases weight, depth, 3, 1
  {
    var blocks, n := region.blocks, |region.blocks|;
    s := map[];
    ghost var whole := WalkBlocks(w.Spec(), w.walkReverse, mu, blocks, weight, depth);
    BlocksStart(w, mu, blocks, weight, depth);
    for k := 0 to n
      invariant |blocks| == n && BlocksProgress(w, mu, blocks, k, weight, depth, s, whole)
    {
      blocks, s := RewriteNextBlock(w, blocks, k, s, mu, weight, depth, whole);
    }
    BlocksEnd(w, mu, blocks, weight, depth, s, whole);
    r := Region(blocks);
  }

  /** One block; the others are redirected. */
  method RewriteNextBlock(w: PatternRewriteWalker, blocks: seq<Block>, k: nat, s: Redirect, ghost mu: Op -> nat,
                          ghost weight: nat, ghost depth: nat, ghost whole: Walked<seq<Block>>)
    returns (edited: seq<Block>, s': Redirect)
    requires w.Ready(mu) && k < |blocks| && BlocksProgress(w, mu, blocks, k, weight, depth, s, whole)
    ensures |edited| == |blocks| && BlocksProgress(w, mu, edited, k + 1, weight, depth, s', whole)
    decreases weight, depth, 3, 0
  {
    var b := if w.walkReverse then |blocks| - 1 - k else k;
    BlockStep(w, mu, blocks, k, weight, depth, s, whole);
    var ops, t, _ := RewriteBlock(w, blocks[b].ops, mu);
    edited := SubstBlocks(t, blocks)[b := Block(blocks[b].args, ops)];
    s' := Compose(s, t);
  }

  /** `k` blocks are on their way to `whole`, the others still to be walked. */
  ghost predicate BlocksProgress(w: PatternRewriteWalker, mu: Op -> nat, blocks: seq<Block>, k: nat, weight: nat, depth: nat,
                                 s: Redirect, whole: Walked<seq<Block>>)
    requires w.Ready(mu)
  {
    && k <= |blocks| && BlocksWithin(w.Spec(), mu, ToDo(w.walkReverse, blocks, k), weight, depth)
    && var rest := WalkBlocks(w.Spec(), w.walkReverse, mu, ToDo(w.walkReverse, blocks, k), weight, depth);
       whole.what == Put(w.walkReverse, SubstBlocks(rest.s, DoneWith(w.walkReverse, blocks, k)), rest.what)
       && whole.s == Compose(s, rest.s)
  }

  lemma BlocksStart(w: PatternRewriteWalker, mu: Op -> nat, blocks: seq<Block>, weight: nat, depth: nat)
    requires w.Ready(mu) && BlocksWithin(w.Spec(), mu, blocks, weight, depth)
    ensures BlocksProgress(w, mu, blocks, 0, weight, depth, map[], WalkBlocks(w.Spec(), w.walkReverse, mu, blocks, weight, depth))
  {
    assert ToDo(w.walkReverse, blocks, 0) == blocks && DoneWith(w.walkReverse, blocks, 0) == [];
    ComposeNothing(WalkBlocks(w.Spec(), w.walkReverse, mu, blocks, weight, depth).s);
  }

  lemma BlocksEnd(w: PatternRewriteWalker, mu: Op -> nat, blocks: seq<Block>, weight: nat, depth: nat,
                  s: Redirect, whole: Walked<seq<Block>>)
    requires w.Ready(mu) && BlocksProgress(w, mu, blocks, |blocks|, weight, depth, s, whole)
    ensures whole.what == blocks && whole.s == s
  {
    assert ToDo(w.walkReverse, blocks, |blocks|) == [] && DoneWith(w.walkReverse, blocks, |blocks|) == blocks;
    SubstBlocksNothing(blocks);
    ComposeNothing(s);
  }

  /** The blocks still to be walked after `k` of them. */
  function ToDo(reverse: bool, blocks: seq<Block>, k: nat): seq<Block>
    requires k <= |blocks|
  {
    if reverse then blocks[..|blocks| - k] else blocks[k..]
  }

  function DoneWith(reverse: bool, blocks: seq<Block>, k: nat): seq<Block>
    requires k <= |blocks|
  {
    if reverse then blocks[|blocks| - k..] else blocks[..k]
  }

  function Put(reverse: bool, done: seq<Block>, rest: seq<Block>): seq<Block>
  {
    if reverse then rest + done else done + rest
  }

  lemma BlockStep(w: PatternRewriteWalker, mu: Op -> nat, blocks: seq<Block>, k: nat, weight: nat, depth: nat,
                  s: Redirect, whole: Walked<seq<Block>>)
    requires w.Ready(mu) && k < |blocks| && BlocksProgress(w, mu, blocks, k, weight, depth, s, whole)
    ensures var b := if w.walkReverse then |blocks| - 1 - k else k;
            w.Spec().Weight(mu, blocks[b].ops) <= weight && OpsDepth(blocks[b].ops) <= depth
    ensures var b := if w.walkReverse then |blocks| - 1 - k else k;
            var first := w.Target(mu, blocks[b].ops);
            BlocksProgress(w, mu, SubstBlocks(first.s, blocks)[b := Block(blocks[b].args, first.what)], k + 1, weight, depth,
                           Compose(s, first.s), whole)
  {
    if w.walkReverse {
      BlockStepReverse(w, mu, blocks, k, weight, depth, s, whole);
    } else {
      BlockStepForward(w, mu, blocks, k, weight, depth, s, whole);
    }
  }

  lemma BlockStepForward(w: PatternRewriteWalker, mu: Op -> nat, blocks: seq<Block>, k: nat, weight: nat, depth: nat,
                         s: Redirect, whole: Walked<seq<Block>>)
    requires w.Ready(mu) && !w.walkReverse && k < |blocks| && BlocksProgress(w, mu, blocks, k, weight, depth, s, whole)
    ensures w.Spec().Weight(mu, blocks[k].ops) <= weight && OpsDepth(blocks[k].ops) <= depth
    ensures var first := w.Target(mu, blocks[k].ops);
            BlocksProgress(w, mu, SubstBlocks(first.s, blocks)[k := Block(blocks[k].args, first.what)], k + 1, weight, depth,
                           Compose(s, first.s), whole)
  {
    var first := w.Target(mu, blocks[k].ops);
    var next := SubstBlocks(first.s, blocks)[k := Block(blocks[k].args, first.what)];
    UnfoldForward(w, mu, blocks, k, weight, depth);
    var rest := WalkBlocks(w.Spec(), w.walkReverse, mu, next[k + 1..], weight, depth);
    JoinForward(blocks, k, first, rest);
    ComposeAssociative(s, first.s, rest.s);
  }

  lemma UnfoldForward(w: PatternRewriteWalker, mu: Op -> nat, blocks: seq<Block>, k: nat, weight: nat, depth: nat)
    requires w.Ready(mu) && !w.walkReverse && k < |blocks| && BlocksWithin(w.Spec(), mu, blocks[k..], weight, depth)
    ensures var first := w.Target(mu, blocks[k].ops);
            var next := SubstBlocks(first.s, blocks)[k := Block(blocks[k].args, first.what)];
            && w.Spec().Weight(mu, blocks[k].ops) <= weight && OpsDepth(blocks[k].ops) <= depth
            && BlocksWithin(w.Spec(), mu, next[k + 1..], weight, depth)
            && WalkBlocks(w.Spec(), w.walkReverse, mu, blocks[k..], weight, depth)
               == ThenBlocks(first, blocks[k].args, WalkBlocks(w.Spec(), w.walkReverse, mu, next[k + 1..], weight, depth))
  {
    var tail := blocks[k..];
    assert tail[0] == blocks[k] && tail[1..] == blocks[k + 1..];
    var first := w.Target(mu, blocks[k].ops);
    var next := SubstBlocks(first.s, blocks)[k := Block(blocks[k].args, first.what)];
    BlocksWithinSubst(w.Spec(), mu, tail[1..], weight, depth, first.s);
    assert next[k + 1..] == SubstBlocks(first.s, tail[1..]);
  }

  lemma JoinForward(blocks: seq<Block>, k: nat, first: Walked<seq<Op>>, rest: Walked<seq<Block>>)
    requires k < |blocks|
    ensures var next := SubstBlocks(first.s, blocks)[k := Block(blocks[k].args, first.what)];
            var whole := ThenBlocks(first, blocks[k].args, rest);
            SubstBlocks(whole.s, blocks[..k]) + whole.what == SubstBlocks(rest.s, next[..k + 1]) + rest.what
  {
    var next := SubstBlocks(first.s, blocks)[k := Block(blocks[k].args, first.what)];
    SubstBlocksCompose(first.s, rest.s, blocks[..k]);
    assert next[..k + 1] == SubstBlocks(first.s, blocks[..k]) + [Block(blocks[k].args, first.what)];
    SubstBlocksAppend(rest.s, SubstBlocks(first.s, blocks[..k]), [Block(blocks[k].args, first.what)]);
    assert SubstBlocks(rest.s, [Block(blocks[k].args, first.what)]) == [Block(blocks[k].args, SubstOps(rest.s, first.what))];
  }

  lemma SubstBlocksAppend(s: Redirect, a: seq<Block>, b: seq<Block>)
    ensures SubstBlocks(s, a + b) == SubstBlocks(s, a) + SubstBlocks(s, b)
  {
  }

  lemma BlockStepReverse(w: PatternRewriteWalker, mu: Op -> nat, blocks: seq<Block>, k: nat, weight: nat, depth: nat,
                         s: Redirect, whole: Walked<seq<Block>>)
    requires w.Ready(mu) && w.walkReverse && k < |blocks| && BlocksProgress(w, mu, blocks, k, weight, depth, s, whole)
    ensures var b := |blocks| - 1 - k; w.Spec().Weight(mu, blocks[b].ops) <= weight && OpsDepth(blocks[b].ops) <= depth
    ensures var b := |blocks| - 1 - k;
            var first := w.Target(mu, blocks[b].ops);
            BlocksProgress(w, mu, SubstBlocks(first.s, blocks)[b := Block(blocks[b].args, first.what)], k + 1, weight, depth,
                           Compose(s, first.s), whole)
  {
    var b := |blocks| - 1 - k;
    var first := w.Target(mu, blocks[b].ops);
    var next := SubstBlocks(first.s, blocks)[b := Block(blocks[b].args, first.what)];
    assert ToDo(true, blocks, k) == blocks[..b + 1] && DoneWith(true, blocks, k) == blocks[b + 1..];
    assert ToDo(true, next, k + 1) == next[..b] && DoneWith(true, next, k + 1) == next[b..];
    UnfoldReverse(w, mu, blocks, b, weight, depth);
    var rest := WalkBlocks(w.Spec(), w.walkReverse, mu, next[..b], weight, depth);
    JoinReverse(blocks, b, first, rest);
    ComposeAssociative(s, first.s, rest.s);
  }

  lemma UnfoldReverse(w: PatternRewriteWalker, mu: Op -> nat, blocks: seq<Block>, b: nat, weight: nat, depth: nat)
    requires w.Ready(mu) && w.walkReverse && b < |blocks| && BlocksWithin(w.Spec(), mu, blocks[..b + 1], weight, depth)
    ensures var first := w.Target(mu, blocks[b].ops);
            var next := SubstBlocks(first.s, blocks)[b := Block(blocks[b].args, first.what)];
            && w.Spec().Weight(mu, blocks[b].ops) <= weight && OpsDepth(blocks[b].ops) <= depth
            && BlocksWithin(w.Spec(), mu, next[..b], weight, depth)
            && WalkBlocks(w.Spec(), w.walkReverse, mu, blocks[..b + 1], weight, depth)
               == BlocksAfter(WalkBlocks(w.Spec(), w.walkReverse, mu, next[..b], weight, depth), first, blocks[b].args)
  {
    var head := blocks[..b + 1];
    assert head[b] == blocks[b] && head[..b] == blocks[..b];
    var first := w.Target(mu, blocks[b].ops);
    var next := SubstBlocks(first.s, blocks)[b := Block(blocks[b].args, first.what)];
    BlocksWithinSubst(w.Spec(), mu, head[..b], weight, depth, first.s);
    assert next[..b] == SubstBlocks(first.s, head[..b]);
  }

  lemma JoinReverse(blocks: seq<Block>, b: nat, first: Walked<seq<Op>>, rest: Walked<seq<Block>>)
    requires b < |blocks|
    ensures var next := SubstBlocks(first.s, blocks)[b := Block(blocks[b].args, first.what)];
            var whole := BlocksAfter(rest, first, blocks[b].args);
            whole.what + SubstBlocks(whole.s, blocks[b + 1..]) == rest.what + SubstBlocks(rest.s, next[b..])
  {
    var next := SubstBlocks(first.s, blocks)[b := Block(blocks[b].args, first.what)];
    SubstBlocksCompose(first.s, rest.s, blocks[b + 1..]);
    assert next[b..] == [Block(blocks[b].args, first.what)] + SubstBlocks(first.s, blocks[b + 1..]);
    SubstBlocksAppend(rest.s, [Block(blocks[b].args, first.what)], SubstBlocks(first.s, blocks[b + 1..]));
    assert SubstBlocks(rest.s, [Block(blocks[b].args, first.what)]) == [Block(blocks[b].args, SubstOps(rest.s, first.what))];
  }

  // ----- the cursor loop -----

  /**
   The cursor loop over one block; `offered` are the operations the loop offers to the pattern, in that
   order.
   */
  method RewriteBlock(w: PatternRewriteWalker, ops: seq<Op>, ghost mu: Op -> nat)
    returns (block: seq<Op>, s: Redirect, offered: seq<Op>)
    requires w.Ready(mu)
    ensures block == w.Target(mu, ops).what && s == w.Target(mu, ops).s
    ensures offered == Offered(w.Spec(), w.walkReverse, mu, ops)
    decreases w.Spec().Weight(mu, ops), OpsDepth(ops), 2, 1
  {
    if w.walkReverse {
      block, s, offered := RewriteBlockReverse(w, ops, mu);
    } else {
      block, s, offered := RewriteBlockForward(w, ops, mu);
    }
  }

  /** What is left of the walk is lighter than the whole, or no heavier and nested no deeper. */
  ghost predicate Remaining(w: Walk, mu: Op -> nat, ops: seq<Op>, rest: seq<Op>)
  {
    w.Weight(mu, rest) < w.Weight(mu, ops)
    || (w.Weight(mu, rest) <= w.Weight(mu, ops) && forall x :: x in rest ==> Depth(x) <= OpsDepth(ops))
  }

  /** An operation that is still to be visited is within the bounds of the walk. */
  lemma RemainingBound(w: Walk, mu: Op -> nat, ops: seq<Op>, rest: seq<Op>, x: Op)
    requires Remaining(w, mu, ops, rest) && x in rest
    ensures w.WeightOf(mu, x) < w.Weight(mu, ops) || (w.WeightOf(mu, x) <= w.Weight(mu, ops) && Depth(x) <= OpsDepth(ops))
  {
    var k :| 0 <= k < |rest| && rest[k] == x;
    SumAtLeast(mu, rest, k);
  }

  /** A visit that is not walked again only takes its operation away from what is left. */
  lemma RemainingLess(w: Walk, mu: Op -> nat, ops: seq<Op>, a: seq<Op>, x: Op, b: seq<Op>, s: Redirect)
    requires w.Bounded(mu) && Remaining(w, mu, ops, a + [x] + b)
    ensures Remaining(w, mu, ops, SubstOps(s, a + b)) && w.Weight(mu, SubstOps(s, a + b)) <= w.Weight(mu, a + [x] + b)
  {
    SumAppend(mu, a + [x], b);
    SumAppend(mu, a, [x]);
    SumAppend(mu, a, b);
    w.WeightSubst(mu, s, a + b);
    if forall y :: y in a + [x] + b ==> Depth(y) <= OpsDepth(ops) {
      forall y | y in SubstOps(s, a + b) ensures Depth(y) <= OpsDepth(ops) {
        var k :| 0 <= k < |a + b| && SubstOps(s, a + b)[k] == y;
        assert (a + b)[k] in a + [x] + b;
        DepthSubst(s, (a + b)[k]);
      }
    }
  }

  /** A visit that is walked again makes what is left lighter. */
  lemma RemainingLighter(w: Walk, mu: Op -> nat, ops: seq<Op>, a: seq<Op>, x: Op, b: seq<Op>, s: Redirect, piece: seq<Op>)
    requires w.Bounded(mu) && w.recursive && Remaining(w, mu, ops, a + [x] + b) && Sum(mu, piece) < mu(x)
    ensures Remaining(w, mu, ops, SubstOps(s, a) + piece + SubstOps(s, b))
    ensures w.Weight(mu, SubstOps(s, a) + piece + SubstOps(s, b)) < w.Weight(mu, a + [x] + b)
  {
    SumAppend(mu, a + [x], b);
    SumAppend(mu, a, [x]);
    OneWeight(w, mu, x);
    SumAppend(mu, SubstOps(s, a) + piece, SubstOps(s, b));
    SumAppend(mu, SubstOps(s, a), piece);
    SumSubst(mu, s, a);
    SumSubst(mu, s, b);
  }

  lemma LessAtFront(w: Walk, mu: Op -> nat, ops: seq<Op>, x: Op, tail: seq<Op>, s: Redirect)
    requires w.Bounded(mu) && Remaining(w, mu, ops, [x] + tail)
    ensures Remaining(w, mu, ops, SubstOps(s, tail)) && w.Weight(mu, SubstOps(s, tail)) <= w.Weight(mu, [x] + tail)
  {
    assert [] + [x] + tail == [x] + tail && [] + tail == tail;
    RemainingLess(w, mu, ops, [], x, tail, s);
  }

  lemma LessAtBack(w: Walk, mu: Op -> nat, ops: seq<Op>, head: seq<Op>, x: Op, s: Redirect)
    requires w.Bounded(mu) && Remaining(w, mu, ops, head + [x])
    ensures Remaining(w, mu, ops, SubstOps(s, head)) && w.Weight(mu, SubstOps(s, head)) <= w.Weight(mu, head + [x])
  {
    assert head + [x] + [] == head + [x] && head + [] == head;
    RemainingLess(w, mu, ops, head, x, [], s);
  }

  lemma LighterAtFront(w: Walk, mu: Op -> nat, ops: seq<Op>, x: Op, tail: seq<Op>, s: Redirect, piece: seq<Op>)
    requires w.Bounded(mu) && w.recursive && Remaining(w, mu, ops, [x] + tail) && Sum(mu, piece) < mu(x)
    ensures Remaining(w, mu, ops, piece + SubstOps(s, tail)) && w.Weight(mu, piece + SubstOps(s, tail)) < w.Weight(mu, [x] + tail)
  {
    NothingInFront(x, tail, s, piece);
    RemainingLighter(w, mu, ops, [], x, tail, s, piece);
  }

  lemma NothingInFront(x: Op, tail: seq<Op>, s: Redirect, piece: seq<Op>)
    ensures [] + [x] + tail == [x] + tail
    ensures SubstOps(s, []) + piece + SubstOps(s, tail) == piece + SubstOps(s, tail)
  {
    assert SubstOps(s, []) == [] && [] + piece == piece && [] + [x] == [x];
  }

  lemma LighterAtBack(w: Walk, mu: Op -> nat, ops: seq<Op>, head: seq<Op>, x: Op, s: Redirect, piece: seq<Op>)
    requires w.Bounded(mu) && w.recursive && Remaining(w, mu, ops, head + [x]) && Sum(mu, piece) < mu(x)
    ensures Remaining(w, mu, ops, SubstOps(s, head) + piece) && w.Weight(mu, SubstOps(s, head) + piece) < w.Weight(mu, head + [x])
  {
    assert head + [x] + [] == head + [x] && SubstOps(s, head) + piece + SubstOps(s, []) == SubstOps(s, head) + piece;
    RemainingLighter(w, mu, ops, head, x, [], s, piece);
  }

  /** `whole`, seen from a finished part in front and the walk of what is left behind it. */
  ghost predicate Ahead(whole: Walked<seq<Op>>, done: seq<Op>, s: Redirect, left: Walked<seq<Op>>)
  {
    whole.what == SubstOps(left.s, done) + left.what && whole.s == Compose(s, left.s)
  }

  ghost predicate Behind(whole: Walked<seq<Op>>, done: seq<Op>, s: Redirect, left: Walked<seq<Op>>)
  {
    whole.what == left.what + SubstOps(left.s, done) && whole.s == Compose(s, left.s)
  }

  /** A redirection made by a visit reaches the finished part. */
  lemma Redirected(whole: Walked<seq<Op>>, done: seq<Op>, s: Redirect, was: Walked<seq<Op>>, t: Redirect, now: Walked<seq<Op>>)
    requires was.what == now.what && was.s == Compose(t, now.s)
    ensures Ahead(whole, done, s, was) ==> Ahead(whole, SubstOps(t, done), Compose(s, t), now)
    ensures Behind(whole, done, s, was) ==> Behind(whole, SubstOps(t, done), Compose(s, t), now)
  {
    ComposeAssociative(s, t, now.s);
    SubstOpsCompose(t, now.s, done);
  }

  /** A finished piece joins the finished part. */
  lemma Finished(whole: Walked<seq<Op>>, done: seq<Op>, s: Redirect, p: Walked<seq<Op>>, rest: Walked<seq<Op>>)
    ensures Ahead(whole, done, s, Then(p, rest)) ==> Ahead(whole, SubstOps(p.s, done) + p.what, Compose(s, p.s), rest)
    ensures Behind(whole, done, s, After(rest, p)) ==> Behind(whole, p.what + SubstOps(p.s, done), Compose(s, p.s), rest)
  {
    PushPast(done, p, rest);
    PushBefore(rest, p, done);
    ComposeAssociative(s, p.s, rest.s);
  }

  lemma PieceLighter(w: PatternRewriteWalker, mu: Op -> nat, op: Op)
    requires w.Ready(mu) && Rewalked(w, mu, op)
    ensures Sum(mu, Piece(w, mu, op).what) < mu(op)
    ensures WalkOp(w.Spec(), w.walkReverse, mu, op) == Again(Piece(w, mu, op), w.Target(mu, Piece(w, mu, op).what))
  {
    VisitBounded(w.Spec(), mu, Seen(w, mu, op));
  }

  // forwards

  /** `done` is on its way to what the walk makes of `ops`; `rest` is still to be walked. */
  ghost predicate ForwardProgress(w: PatternRewriteWalker, mu: Op -> nat, ops: seq<Op>, done: seq<Op>, rest: seq<Op>, s: Redirect)
    requires w.Ready(mu)
  {
    Remaining(w.Spec(), mu, ops, rest) && Ahead(w.Target(mu, ops), done, s, w.Target(mu, rest))
  }

  lemma ForwardStart(w: PatternRewriteWalker, mu: Op -> nat, ops: seq<Op>)
    requires w.Ready(mu)
    ensures ForwardProgress(w, mu, ops, [], ops, map[])
  {
    DepthsWithin(ops, OpsDepth(ops));
    ComposeNothing(w.Target(mu, ops).s);
  }

  lemma ForwardEnd(w: PatternRewriteWalker, mu: Op -> nat, ops: seq<Op>, done: seq<Op>, s: Redirect)
    requires w.Ready(mu) && ForwardProgress(w, mu, ops, done, [], s)
    ensures w.Target(mu, ops).what == done && w.Target(mu, ops).s == s
  {
    SubstNothing(done);
    ComposeNothing(s);
  }

  /** A visit after which the cursor moves on. */
  lemma ForwardPast(w: PatternRewriteWalker, mu: Op -> nat, ops: seq<Op>, done: seq<Op>, x: Op, tail: seq<Op>, s: Redirect)
    requires w.Ready(mu) && !w.walkReverse && !Rewalked(w, mu, x) && ForwardProgress(w, mu, ops, done, [x] + tail, s)
    ensures var p := Piece(w, mu, x);
            ForwardProgress(w, mu, ops, SubstOps(p.s, done) + p.what, SubstOps(p.s, tail), Compose(s, p.s))
            && w.Spec().Weight(mu, SubstOps(p.s, tail)) <= w.Spec().Weight(mu, [x] + tail)
  {
    var p := Piece(w, mu, x);
    FirstFirst(w.Spec(), mu, x, tail);
    Finished(w.Target(mu, ops), done, s, p, w.Target(mu, SubstOps(p.s, tail)));
    LessAtFront(w.Spec(), mu, ops, x, tail, p.s);
  }

  lemma PushPast(done: seq<Op>, p: Walked<seq<Op>>, rest: Walked<seq<Op>>)
    ensures SubstOps(Then(p, rest).s, done) + Then(p, rest).what == SubstOps(rest.s, SubstOps(p.s, done) + p.what) + rest.what
  {
    SubstOpsCompose(p.s, rest.s, done);
    SubstOpsAppend(rest.s, SubstOps(p.s, done), p.what);
  }

  /** Walking what a visit left together with what follows it. */
  lemma AgainForward(w: PatternRewriteWalker, mu: Op -> nat, x: Op, tail: seq<Op>)
    requires w.Ready(mu) && !w.walkReverse && Rewalked(w, mu, x)
    ensures var p := Piece(w, mu, x);
            var was, now := w.Target(mu, [x] + tail), w.Target(mu, p.what + SubstOps(p.s, tail));
            was.what == now.what && was.s == Compose(p.s, now.s)
  {
    var p := Piece(w, mu, x);
    var q := w.Target(mu, p.what);
    PieceLighter(w, mu, x);
    FirstFirst(w.Spec(), mu, x, tail);
    var z := w.Target(mu, SubstOps(Compose(p.s, q.s), tail));
    WalkAppendForward(w.Spec(), mu, p.what, SubstOps(p.s, tail));
    SubstOpsCompose(p.s, q.s, tail);
    ComposeAssociative(p.s, q.s, z.s);
  }

  /** A visit after which the cursor goes back to the front of what it left. */
  lemma ForwardAgain(w: PatternRewriteWalker, mu: Op -> nat, ops: seq<Op>, done: seq<Op>, x: Op, tail: seq<Op>, s: Redirect)
    requires w.Ready(mu) && !w.walkReverse && Rewalked(w, mu, x) && ForwardProgress(w, mu, ops, done, [x] + tail, s)
    ensures var p := Piece(w, mu, x);
            ForwardProgress(w, mu, ops, SubstOps(p.s, done), p.what + SubstOps(p.s, tail), Compose(s, p.s))
            && w.Spec().Weight(mu, p.what + SubstOps(p.s, tail)) < w.Spec().Weight(mu, [x] + tail)
  {
    var p := Piece(w, mu, x);
    AgainForward(w, mu, x, tail);
    Redirected(w.Target(mu, ops), done, s, w.Target(mu, [x] + tail), p.s, w.Target(mu, p.what + SubstOps(p.s, tail)));
    PieceLighter(w, mu, x);
    LighterAtFront(w.Spec(), mu, ops, x, tail, p.s, p.what);
  }

  // backwards

  ghost predicate ReverseProgress(w: PatternRewriteWalker, mu: Op -> nat, ops: seq<Op>, rest: seq<Op>, done: seq<Op>, s: Redirect)
    requires w.Ready(mu)
  {
    Remaining(w.Spec(), mu, ops, rest) && Behind(w.Target(mu, ops), done, s, w.Target(mu, rest))
  }

  lemma ReverseStart(w: PatternRewriteWalker, mu: Op -> nat, ops: seq<Op>)
    requires w.Ready(mu)
    ensures ReverseProgress(w, mu, ops, ops, [], map[])
  {
    DepthsWithin(ops, OpsDepth(ops));
    ComposeNothing(w.Target(mu, ops).s);
  }

  lemma ReverseEnd(w: PatternRewriteWalker, mu: Op -> nat, ops: seq<Op>, done: seq<Op>, s: Redirect)
    requires w.Ready(mu) && ReverseProgress(w, mu, ops, [], done, s)
    ensures w.Target(mu, ops).what == done && w.Target(mu, ops).s == s
  {
    SubstNothing(done);
    ComposeNothing(s);
  }

  lemma ReversePast(w: PatternRewriteWalker, mu: Op -> nat, ops: seq<Op>, head: seq<Op>, x: Op, done: seq<Op>, s: Redirect)
    requires w.Ready(mu) && w.walkReverse && !Rewalked(w, mu, x) && ReverseProgress(w, mu, ops, head + [x], done, s)
    ensures var p := Piece(w, mu, x);
            ReverseProgress(w, mu, ops, SubstOps(p.s, head), p.what + SubstOps(p.s, done), Compose(s, p.s))
            && w.Spec().Weight(mu, SubstOps(p.s, head)) <= w.Spec().Weight(mu, head + [x])
  {
    var p := Piece(w, mu, x);
    LastFirst(w.Spec(), mu, head, x);
    Finished(w.Target(mu, ops), done, s, p, w.Target(mu, SubstOps(p.s, head)));
    LessAtBack(w.Spec(), mu, ops, head, x, p.s);
  }

  lemma PushBefore(rest: Walked<seq<Op>>, p: Walked<seq<Op>>, done: seq<Op>)
    ensures After(rest, p).what + SubstOps(After(rest, p).s, done) == rest.what + SubstOps(rest.s, p.what + SubstOps(p.s, done))
  {
    SubstOpsCompose(p.s, rest.s, done);
    SubstOpsAppend(rest.s, p.what, SubstOps(p.s, done));
  }

  lemma AgainReverse(w: PatternRewriteWalker, mu: Op -> nat, head: seq<Op>, x: Op)
    requires w.Ready(mu) && w.walkReverse && Rewalked(w, mu, x)
    ensures var p := Piece(w, mu, x);
            var was, now := w.Target(mu, head + [x]), w.Target(mu, SubstOps(p.s, head) + p.what);
            was.what == now.what && was.s == Compose(p.s, now.s)
  {
    var p := Piece(w, mu, x);
    var q := w.Target(mu, p.what);
    PieceLighter(w, mu, x);
    LastFirst(w.Spec(), mu, head, x);
    var z := w.Target(mu, SubstOps(Compose(p.s, q.s), head));
    WalkAppendReverse(w.Spec(), mu, SubstOps(p.s, head), p.what);
    SubstOpsCompose(p.s, q.s, head);
    ComposeAssociative(p.s, q.s, z.s);
  }

  lemma ReverseAgain(w: PatternRewriteWalker, mu: Op -> nat, ops: seq<Op>, head: seq<Op>, x: Op, done: seq<Op>, s: Redirect)
    requires w.Ready(mu) && w.walkReverse && Rewalked(w, mu, x) && ReverseProgress(w, mu, ops, head + [x], done, s)
    ensures var p := Piece(w, mu, x);
            ReverseProgress(w, mu, ops, SubstOps(p.s, head) + p.what, SubstOps(p.s, done), Compose(s, p.s))
            && w.Spec().Weight(mu, SubstOps(p.s, head) + p.what) < w.Spec().Weight(mu, head + [x])
  {
    var p := Piece(w, mu, x);
    AgainReverse(w, mu, head, x);
    Redirected(w.Target(mu, ops), done, s, w.Target(mu, head + [x]), p.s, w.Target(mu, SubstOps(p.s, head) + p.what));
    PieceLighter(w, mu, x);
    LighterAtBack(w.Spec(), mu, ops, head, x, p.s, p.what);
  }

  // ----- the loops -----

  /** The finished part and what is left after a visit at the front. */
  ghost function NextDone(w: PatternRewriteWalker, mu: Op -> nat, done: seq<Op>, x: Op): seq<Op>
    requires w.Ready(mu)
  {
    var p := Piece(w, mu, x);
    if Rewalked(w, mu, x) then SubstOps(p.s, done)
    else if w.walkReverse then p.what + SubstOps(p.s, done) else SubstOps(p.s, done) + p.what
  }

  ghost function NextRest(w: PatternRewriteWalker, mu: Op -> nat, x: Op, others: seq<Op>): seq<Op>
    requires w.Ready(mu)
  {
    var p := Piece(w, mu, x);
    if !Rewalked(w, mu, x) then SubstOps(p.s, others)
    else if w.walkReverse then SubstOps(p.s, others) + p.what else p.what + SubstOps(p.s, others)
  }

  // what is offered

  /** `offered` and then what the walk of `rest` offers is what the whole walk offers. */
  ghost predicate OffersLeft(w: PatternRewriteWalker, mu: Op -> nat, ops: seq<Op>, offered: seq<Op>, rest: seq<Op>)
    requires w.Ready(mu)
  {
    Offered(w.Spec(), w.walkReverse, mu, ops) == offered + Offered(w.Spec(), w.walkReverse, mu, rest)
  }

  lemma OffersStep(w: PatternRewriteWalker, mu: Op -> nat, ops: seq<Op>, offered: seq<Op>, x: Op, others: seq<Op>)
    requires w.Ready(mu) && OffersLeft(w, mu, ops, offered, Beside(w.walkReverse, [x], others))
    ensures OffersLeft(w, mu, ops, offered + [Seen(w, mu, x).what], NextRest(w, mu, x, others))
  {
    var rest := Beside(w.walkReverse, [x], others);
    assert FirstOf(w.walkReverse, rest) == x && OthersOf(w.walkReverse, rest) == others;
    OffersAfter(w, mu, x, others);
    AppendAssociative(offered, [Seen(w, mu, x).what], Offered(w.Spec(), w.walkReverse, mu, NextRest(w, mu, x, others)));
  }

  /** What is offered for `x` and then for the others. */
  lemma OffersAfter(w: PatternRewriteWalker, mu: Op -> nat, x: Op, others: seq<Op>)
    requires w.Ready(mu)
    ensures OfferedFor(w.Spec(), w.walkReverse, mu, x)
            + Offered(w.Spec(), w.walkReverse, mu, SubstOps(WalkOp(w.Spec(), w.walkReverse, mu, x).s, others))
         == [Seen(w, mu, x).what] + Offered(w.Spec(), w.walkReverse, mu, NextRest(w, mu, x, others))
  {
    var p := Piece(w, mu, x);
    if Rewalked(w, mu, x) {
      VisitBounded(w.Spec(), mu, Seen(w, mu, x));
      var q := w.Target(mu, p.what);
      SubstOpsCompose(p.s, q.s, others);
      if w.walkReverse {
        OfferedAppendReverse(w.Spec(), mu, SubstOps(p.s, others), p.what);
      } else {
        OfferedAppendForward(w.Spec(), mu, p.what, SubstOps(p.s, others));
      }
      AppendAssociative([Seen(w, mu, x).what], Offered(w.Spec(), w.walkReverse, mu, p.what),
                        Offered(w.Spec(), w.walkReverse, mu, SubstOps(q.s, SubstOps(p.s, others))));
    }
  }

  lemma VisitForward(w: PatternRewriteWalker, mu: Op -> nat, ops: seq<Op>, done: seq<Op>, rest: seq<Op>, s: Redirect)
    requires w.Ready(mu) && !w.walkReverse && rest != [] && ForwardProgress(w, mu, ops, done, rest, s)
    ensures var x, s' := rest[0], Compose(s, Piece(w, mu, rest[0]).s);
            var done', rest' := NextDone(w, mu, done, x), NextRest(w, mu, x, rest[1..]);
            && ForwardProgress(w, mu, ops, done', rest', s')
            && (w.Spec().Weight(mu, rest') < w.Spec().Weight(mu, rest)
                || (w.Spec().Weight(mu, rest') <= w.Spec().Weight(mu, rest) && |rest'| < |rest|))
            && Around(done + rest, |done|, Piece(w, mu, x)) == done' + rest'
            && |done'| == NextCursor(false, |done|, Piece(w, mu, x).what, Rewalked(w, mu, x))
  {
    var x, tail, p := rest[0], rest[1..], Piece(w, mu, rest[0]);
    assert rest == [x] + tail;
    if Rewalked(w, mu, x) {
      ForwardAgain(w, mu, ops, done, x, tail, s);
    } else {
      ForwardPast(w, mu, ops, done, x, tail, s);
    }
    AroundFront(done, x, tail, p);
  }

  lemma AroundFront(done: seq<Op>, x: Op, tail: seq<Op>, p: Walked<seq<Op>>)
    ensures Around(done + ([x] + tail), |done|, p) == SubstOps(p.s, done) + (p.what + SubstOps(p.s, tail))
    ensures Around(done + ([x] + tail), |done|, p) == SubstOps(p.s, done) + p.what + SubstOps(p.s, tail)
  {
    var all := done + ([x] + tail);
    assert all[..|done|] == done && all[|done| + 1..] == tail;
    AppendAssociative(SubstOps(p.s, done), p.what, SubstOps(p.s, tail));
  }

  method RewriteBlockForward(w: PatternRewriteWalker, ops: seq<Op>, ghost mu: Op -> nat)
    returns (block: seq<Op>, s: Redirect, offered: seq<Op>)
    requires w.Ready(mu) && !w.walkReverse
    ensures block == w.Target(mu, ops).what && s == w.Target(mu, ops).s
    ensures offered == Offered(w.Spec(), false, mu, ops)
    decreases w.Spec().Weight(mu, ops), OpsDepth(ops), 2, 0
  {
    block, s, offered := ops, map[], [];
    var cursor := 0;
    ghost var done, rest := [], ops;
    ForwardStart(w, mu, ops);
    while cursor < |block|
      invariant 0 <= cursor <= |block| && block == done + rest && |done| == cursor
      invariant ForwardProgress(w, mu, ops, done, rest, s) && OffersLeft(w, mu, ops, offered, rest)
      decreases w.Spec().Weight(mu, rest), |rest|
    {
      ghost var x, tail := rest[0], rest[1..];
      assert block[cursor] == x && x in rest && rest == [x] + tail;
      RemainingBound(w.Spec(), mu, ops, rest, x);
      VisitForward(w, mu, ops, done, rest, s);
      OffersStep(w, mu, ops, offered, x, tail);
      var t, op;
      block, cursor, t, op := RewriteOp(w, block, cursor, mu);
      s, offered := Compose(s, t), offered + [op];
      done, rest := NextDone(w, mu, done, x), NextRest(w, mu, x, tail);
    }
    ForwardEnd(w, mu, ops, done, s);
  }

  lemma VisitReverse(w: PatternRewriteWalker, mu: Op -> nat, ops: seq<Op>, rest: seq<Op>, done: seq<Op>, s: Redirect)
    requires w.Ready(mu) && w.walkReverse && rest != [] && ReverseProgress(w, mu, ops, rest, done, s)
    ensures var n := |rest| - 1;
            var x, s' := rest[n], Compose(s, Piece(w, mu, rest[n]).s);
            var done', rest' := NextDone(w, mu, done, x), NextRest(w, mu, x, rest[..n]);
            && ReverseProgress(w, mu, ops, rest', done', s')
            && (w.Spec().Weight(mu, rest') < w.Spec().Weight(mu, rest)
                || (w.Spec().Weight(mu, rest') <= w.Spec().Weight(mu, rest) && |rest'| < |rest|))
            && Around(rest + done, n, Piece(w, mu, x)) == rest' + done'
            && |rest'| - 1 == NextCursor(true, n, Piece(w, mu, x).what, Rewalked(w, mu, x))
  {
    var n := |rest| - 1;
    var x, head, p := rest[n], rest[..n], Piece(w, mu, rest[n]);
    assert rest == head + [x];
    if Rewalked(w, mu, x) {
      ReverseAgain(w, mu, ops, head, x, done, s);
    } else {
      ReversePast(w, mu, ops, head, x, done, s);
    }
    assert (rest + done)[..n] == head && (rest + done)[n + 1..] == done;
    AppendAssociative(SubstOps(p.s, head), p.what, SubstOps(p.s, done));
  }

  /** Where the reverse loop stands: `rest` up to the cursor is still to be walked, `done` is finished. */
  ghost predicate ReverseState(w: PatternRewriteWalker, mu: Op -> nat, ops: seq<Op>, block: seq<Op>, cursor: int,
                               rest: seq<Op>, done: seq<Op>, s: Redirect, offered: seq<Op>)
    requires w.Ready(mu)
  {
    && block == rest + done && |rest| == cursor + 1
    && ReverseProgress(w, mu, ops, rest, done, s) && OffersLeft(w, mu, ops, offered, rest)
  }

  lemma ReverseNext(w: PatternRewriteWalker, mu: Op -> nat, ops: seq<Op>, block: seq<Op>, cursor: nat,
                    rest: seq<Op>, done: seq<Op>, s: Redirect, offered: seq<Op>)
    requires w.Ready(mu) && ReverseState(w, mu, ops, block, cursor, rest, done, s, offered)
    ensures rest[cursor] in rest && block[cursor] == rest[cursor]
    ensures w.Spec().WeightOf(mu, rest[cursor]) < w.Spec().Weight(mu, ops)
         || (w.Spec().WeightOf(mu, rest[cursor]) <= w.Spec().Weight(mu, ops) && Depth(rest[cursor]) <= OpsDepth(ops))
  {
    RemainingBound(w.Spec(), mu, ops, rest, rest[cursor]);
  }

  lemma ReverseTurn(w: PatternRewriteWalker, mu: Op -> nat, ops: seq<Op>, block: seq<Op>, cursor: nat,
                    rest: seq<Op>, done: seq<Op>, s: Redirect, offered: seq<Op>)
    requires w.Ready(mu) && w.walkReverse && ReverseState(w, mu, ops, block, cursor, rest, done, s, offered)
    ensures var x := rest[cursor];
            var p, rest' := Piece(w, mu, x), NextRest(w, mu, x, rest[..cursor]);
            && ReverseState(w, mu, ops, Around(block, cursor, p), NextCursor(true, cursor, p.what, Rewalked(w, mu, x)),
                            rest', NextDone(w, mu, done, x), Compose(s, p.s), offered + [Seen(w, mu, x).what])
            && (w.Spec().Weight(mu, rest') < w.Spec().Weight(mu, rest)
                || (w.Spec().Weight(mu, rest') <= w.Spec().Weight(mu, rest) && |rest'| < |rest|))
  {
    VisitReverse(w, mu, ops, rest, done, s);
    OfferedNext(w, mu, ops, rest, cursor, offered);
  }

  lemma OfferedNext(w: PatternRewriteWalker, mu: Op -> nat, ops: seq<Op>, rest: seq<Op>, cursor: nat, offered: seq<Op>)
    requires w.Ready(mu) && w.walkReverse && |rest| == cursor + 1 && OffersLeft(w, mu, ops, offered, rest)
    ensures OffersLeft(w, mu, ops, offered + [Seen(w, mu, rest[cursor]).what], NextRest(w, mu, rest[cursor], rest[..cursor]))
  {
    BesideOthers(true, rest);
    OffersStep(w, mu, ops, offered, rest[cursor], rest[..cursor]);
  }

  method RewriteBlockReverse(w: PatternRewriteWalker, ops: seq<Op>, ghost mu: Op -> nat)
    returns (block: seq<Op>, s: Redirect, offered: seq<Op>)
    requires w.Ready(mu) && w.walkReverse
    ensures block == w.Target(mu, ops).what && s == w.Target(mu, ops).s
    ensures offered == Offered(w.Spec(), true, mu, ops)
    decreases w.Spec().Weight(mu, ops), OpsDepth(ops), 2, 0
  {
    block, s, offered := ops, map[], [];
    var cursor := |ops| - 1;
    ghost var rest, done := ops, [];
    ReverseStart(w, mu, ops);
    while cursor >= 0
      invariant -1 <= cursor && ReverseState(w, mu, ops, block, cursor, rest, done, s, offered)
      decreases w.Spec().Weight(mu, rest), |rest|
    {
      ghost var x, head := rest[cursor], rest[..cursor];
      ReverseNext(w, mu, ops, block, cursor, rest, done, s, offered);
      ReverseTurn(w, mu, ops, block, cursor, rest, done, s, offered);
      var t, op;
      block, cursor, t, op := RewriteOp(w, block, cursor, mu);
      s, offered := Compose(s, t), offered + [op];
      done, rest := NextDone(w, mu, done, x), NextRest(w, mu, x, head);
    }
    ReverseEnd(w, mu, ops, done, s);
  }

  // ----- the module operation -----

  /** Edits in place leave one operation where there was one. */
  lemma {:induction false} ModifiedInPlace(calls: seq<Call>, rw: Rewrite)
    requires Legal(calls, rw) && forall c :: c in calls ==> c.Modify?
    ensures var after := Perform(calls, rw); after == rw.(matched := after.matched)
  {
    if calls != [] {
      assert calls[0] in calls && forall c :: c in calls[1..] ==> c in calls;
      ModifiedInPlace(calls[1..], rw.Do(calls[0]));
    }
  }

  lemma EditedInPlace(pattern: Pattern, op: Op)
    requires Legal(pattern(op), Start(op)) && forall c :: c in pattern(op) ==> c.Modify?
    ensures var rw := Rewritten(pattern, op); rw.Left() == [rw.matched] && LogOrder(rw) == [0]
  {
    ModifiedInPlace(pattern(op), Start(op));
    var rw := Rewritten(pattern, op);
    assert rw.Affected() == [rw.matched];
    SubstNothing(rw.Affected());
    assert Sizes(rw.afterCalls) == [] && ChunkOrder([], 1) == [];
  }

  lemma EachOfOne(w: Walk, reverse: bool, mu: Op -> nat, op: Op, depth: nat)
    requires w.Bounded(mu) && !w.recursive && Depth(op) <= depth
    ensures WalkEach(w, reverse, mu, [op], [0], depth).what == [WalkRegions(w, reverse, mu, op).what]
  {
    var first := WalkRegions(w, reverse, mu, op);
    var edited := SubstOps(first.s, [op])[0 := first.what];
    assert edited == [first.what] && [0][1..] == [];
  }

  /** An operation that is edited in place. */
  lemma PieceInPlace(w: PatternRewriteWalker, mu: Op -> nat, op: Op)
    requires w.Ready(mu) && Acts(w.pattern, Seen(w, mu, op).what)
    requires forall c :: c in w.pattern(Seen(w, mu, op).what) ==> c.Modify?
    ensures var edited := Rewritten(w.pattern, Seen(w, mu, op).what).matched;
            Piece(w, mu, op).what
            == [if w.applyRecursively || w.walkRegionsFirst then edited else WalkRegions(w.Spec(), w.walkReverse, mu, edited).what]
  {
    var offered := Seen(w, mu, op);
    EditedInPlace(w.pattern, offered.what);
    if !w.applyRecursively && !w.walkRegionsFirst {
      VisitBounded(w.Spec(), mu, offered);
      var edited := Visited(w.pattern, offered).what[0];
      assert 0 in [0];
      EachOfOne(w.Spec(), w.walkReverse, mu, edited, Depth(op));
    }
  }

  /**
   `rewrite_module`, which visits the module operation once. The module stands in no block, so only
   edits in place do not raise there. If the pattern leaves the module alone, nothing below it
   matches any more. If the pattern edits it, a recursive walk stops after that edit, and its
   regions are as the pattern left them.
   */
  method RewriteModule(w: PatternRewriteWalker, module_: Op, ghost mu: Op -> nat) returns (r: Op)
    requires w.Ready(mu) && forall c :: c in w.pattern(Seen(w, mu, module_).what) ==> c.Modify?
    ensures !Acts(w.pattern, Seen(w, mu, module_).what) ==>
              r == WalkRegions(w.Spec(), w.walkReverse, mu, module_).what
              && (w.applyRecursively && Settled(w.Spec(), w.walkReverse, mu) && RedirectsHarmless(w.Spec(), w.walkReverse, mu)
                  ==> NormalInside(w.pattern, r))
    ensures Acts(w.pattern, Seen(w, mu, module_).what) ==>
              var edited := Rewritten(w.pattern, Seen(w, mu, module_).what).matched;
              r == if w.applyRecursively || w.walkRegionsFirst then edited
                   else WalkRegions(w.Spec(), w.walkReverse, mu, edited).what
  {
    var block, _, _, _ := RewriteOp(w, [module_], 0, mu);
    ghost var piece := Piece(w, mu, module_);
    assert block == piece.what;
    if Acts(w.pattern, Seen(w, mu, module_).what) {
      PieceInPlace(w, mu, module_);
    } else if w.applyRecursively && Settled(w.Spec(), w.walkReverse, mu) && RedirectsHarmless(w.Spec(), w.walkReverse, mu) {
      WalkRegionsNormal(w.Spec(), w.walkReverse, mu, module_);
    }
    r := block[0];
  }

  // ----- several patterns -----

  /** `GreedyRewritePatternApplier`: the calls of the first pattern that acts. */
  function Greedy(patterns: seq<Pattern>): Pattern
  {
    op => GreedyCalls(patterns, op)
  }

  function GreedyCalls(patterns: seq<Pattern>, op: Op): (calls: seq<Call>)
  {
    if patterns == [] then []
    else if patterns[0](op) != [] then patterns[0](op)
    else GreedyCalls(patterns[1..], op)
  }

  lemma {:induction false} GreedyActs(patterns: seq<Pattern>, op: Op)
    ensures Acts(Greedy(patterns), op) <==> exists k :: 0 <= k < |patterns| && Acts(patterns[k], op)
  {
    if patterns != [] && patterns[0](op) == [] {
      GreedyActs(patterns[1..], op);
      assert forall k :: 0 <= k < |patterns[1..]| ==> patterns[1..][k] == patterns[k + 1];
      if exists k :: 0 <= k < |patterns| && Acts(patterns[k], op) {
        var k :| 0 <= k < |patterns| && Acts(patterns[k], op);
        assert Acts(patterns[1..][k - 1], op);
      }
    }
  }

  /** What it does is what the first pattern that acts does. */
  lemma {:induction false} GreedyIsFirst(patterns: seq<Pattern>, op: Op, k: nat)
    requires k < |patterns| && Acts(patterns[k], op) && forall j :: 0 <= j < k ==> !Acts(patterns[j], op)
    ensures Greedy(patterns)(op) == patterns[k](op)
  {
    if k > 0 {
      GreedyIsFirst(patterns[1..], op, k - 1);
    }
  }

  /** The loop over patterns, which stops at the first one that has done something. */
  method ApplyGreedily(patterns: seq<Pattern>, rewriter: PatternRewriter, op: Op)
    requires rewriter.Valid() && !rewriter.hasDoneAction && rewriter.rewrite == Start(op)
    requires forall j :: 0 <= j < |patterns| ==> Legal(patterns[j](op), Start(op))
    modifies rewriter
    ensures rewriter.Valid() && Legal(Greedy(patterns)(op), Start(op))
    ensures rewriter.rewrite == Perform(Greedy(patterns)(op), Start(op)) && rewriter.hasDoneAction == Acts(Greedy(patterns), op)
  {
    GreedyActs(patterns, op);
    for j := 0 to |patterns|
      invariant rewriter.Valid() && !rewriter.hasDoneAction && rewriter.rewrite == Start(op)
      invariant forall i :: 0 <= i < j ==> !Acts(patterns[i], op)
    {
      rewriter.MatchAndRewrite(patterns[j](op));
      if rewriter.hasDoneAction {
        GreedyIsFirst(patterns, op, j);
        return;
      }
    }
  }

  /** A normal form for the greedy applier is a normal form for each of its patterns. */
  lemma {:induction false} GreedyNormalForAll(patterns: seq<Pattern>, k: nat, ops: seq<Op>)
    requires k < |patterns| && NormalOps(Greedy(patterns), ops)
    ensures NormalOps(patterns[k], ops)
    decreases ops
  {
    forall op | op in ops ensures NormalOp(patterns[k], op) {
      assert NormalOp(Greedy(patterns), op);
      GreedyActs(patterns, op);
      GreedyNormalInside(patterns, k, op);
    }
  }

  lemma {:induction false} GreedyNormalInside(patterns: seq<Pattern>, k: nat, op: Op)
    requires k < |patterns| && NormalInside(Greedy(patterns), op)
    ensures NormalInside(patterns[k], op)
    decreases op, 0
  {
    forall region, block | region in op.regions && block in region.blocks ensures NormalOps(patterns[k], block.ops) {
      assert NormalBlocks(Greedy(patterns), region.blocks);
      GreedyNormalForAll(patterns, k, block.ops);
    }
  }
}
