/**
 The ancestry guards of the pattern rewriter, over parent pointers, and the frame they give:
 what a pattern cannot touch while its operation stays where it is.
 */
module Guards {

  type Id = nat

  datatype Node = OpNode(id: Id) | BlockNode(id: Id) | RegionNode(id: Id)

  /** Parent pointers and the operation list of every block. */
  datatype State = State(parent: map<Node, Node>, ops: map<Id, seq<Id>>)

  /** `p` is the way from `x` up to its top-level object. */
  ghost predicate PathOf(s: State, x: Node, p: seq<Node>)
    decreases |p|
  {
    && p != [] && p[0] == x
    && if |p| == 1 then x !in s.parent
       else x in s.parent && s.parent[x] == p[1] && PathOf(s, p[1], p[1..])
  }

  lemma {:induction false} PathUnique(s: State, x: Node, p: seq<Node>, q: seq<Node>)
    requires PathOf(s, x, p) && PathOf(s, x, q)
    ensures p == q
    decreases |p|
  {
    if |p| > 1 {
      PathUnique(s, p[1], p[1..], q[1..]);
    }
    assert p == [p[0]] + p[1..] && q == [q[0]] + q[1..];
  }

  function Top(p: seq<Node>): Node
    requires p != []
  {
    p[|p| - 1]
  }

  /** The rest of a path is the path of the node it starts at. */
  lemma {:induction false} PathSuffix(s: State, x: Node, p: seq<Node>, a: Node) returns (q: seq<Node>)
    requires PathOf(s, x, p) && a in p
    ensures PathOf(s, a, q) && Top(q) == Top(p) && forall y :: y in q ==> y in p
    decreases |p|
  {
    if a == x {
      q := p;
    } else {
      q := PathSuffix(s, p[1], p[1..], a);
    }
  }

  // ----- the guards -----

  /** `_can_modify_op`, climbing the path of the operation. */
  predicate CanModifyOp(cur: Node, curTop: Node, p: seq<Node>)
    requires p != []
    decreases |p|
  {
    if p[0] == cur then true
    else if |p| == 1 then curTop != p[0]
    else CanModifyOpInBlock(cur, curTop, p[1..])
  }

  predicate CanModifyOpInBlock(cur: Node, curTop: Node, p: seq<Node>)
    requires p != []
    decreases |p|
  {
    |p| == 1 || CanModifyRegion(cur, curTop, p[1..])
  }

  predicate CanModifyRegion(cur: Node, curTop: Node, p: seq<Node>)
    requires p != []
    decreases |p|
  {
    |p| == 1 || CanModifyOp(cur, curTop, p[1..])
  }

  /** The path alternates operations, blocks and regions. */
  ghost predicate Alternates(p: seq<Node>)
    requires p != []
  {
    forall i :: 0 <= i < |p| - 1 ==>
      match p[i]
      case OpNode(_) => p[i + 1].BlockNode?
      case BlockNode(_) => p[i + 1].RegionNode?
      case RegionNode(_) => p[i + 1].OpNode?
  }

  /**
   What the recursion decides: the matched operation is above or at the node, or the node
   stands in another tree, or in a tree whose top is not an operation.
   */
  ghost predicate Reachable(cur: Node, curTop: Node, p: seq<Node>)
    requires p != []
  {
    cur in p || Top(p) != curTop || !Top(p).OpNode?
  }

  lemma {:induction false} GuardExact(cur: Node, curTop: Node, p: seq<Node>)
    requires p != [] && Alternates(p) && cur.OpNode?
    ensures p[0].OpNode? ==> (CanModifyOp(cur, curTop, p) <==> Reachable(cur, curTop, p))
    ensures p[0].BlockNode? ==> (CanModifyOpInBlock(cur, curTop, p) <==> Reachable(cur, curTop, p))
    ensures p[0].RegionNode? ==> (CanModifyRegion(cur, curTop, p) <==> Reachable(cur, curTop, p))
    decreases |p|
  {
    if |p| > 1 {
      assert forall i :: 0 <= i < |p[1..]| ==> p[1..][i] == p[i + 1];
      GuardExact(cur, curTop, p[1..]);
      assert p == [p[0]] + p[1..];
    }
  }

  /** Once erased, the matched operation is its own top level and the guard admits every operation. */
  lemma ErasedAdmitsAll(cur: Node, p: seq<Node>)
    requires p != [] && Alternates(p) && cur.OpNode? && p[0].OpNode?
    ensures CanModifyOp(cur, cur, p)
  {
    GuardExact(cur, cur, p);
    assert Top(p) in p;
  }

  // ----- the calls -----

  /** Calls of the rewriter that edit operation lists or move blocks, with a list position where it matters. */
  datatype Call =
    | Insert(newOps: seq<Id>, block: Id, at: nat)
    | Erase(op: Id)
    | Replace(op: Id, newOps: seq<Id>)
    | Inline(from: Id, into: Id, at: nat)
    | MoveRegion(region: Id, fresh_: Id)

  /** `_can_modify_block`. */
  ghost predicate BlockGuard(s: State, cur: Node, b: Id)
  {
    exists p, pc :: PathOf(s, BlockNode(b), p) && Alternates(p) && PathOf(s, cur, pc)
      && ((|pc| > 1 && pc[1] == BlockNode(b)) || CanModifyOpInBlock(cur, Top(pc), p))
  }

  ghost predicate OpGuard(s: State, cur: Node, o: Id)
  {
    exists p, pc :: PathOf(s, OpNode(o), p) && Alternates(p) && PathOf(s, cur, pc) && CanModifyOp(cur, Top(pc), p)
  }

  ghost predicate RegionGuard(s: State, cur: Node, r: Id)
  {
    exists p, pc :: PathOf(s, RegionNode(r), p) && Alternates(p) && PathOf(s, cur, pc) && CanModifyRegion(cur, Top(pc), p)
  }

  /** Operations can be attached, one after the other, if they have no parent and do not contain the block. */
  ghost predicate Attachable(s: State, newOps: seq<Id>, b: Id)
  {
    && NoRepeats(newOps)
    && exists p :: PathOf(s, BlockNode(b), p)
         && forall o :: o in newOps ==> OpNode(o) !in s.parent && OpNode(o) !in p
  }

  predicate NoRepeats(ops: seq<Id>)
  {
    forall i, j :: 0 <= i < j < |ops| ==> ops[i] != ops[j]
  }

  /** The call does not raise. */
  ghost predicate Allowed(s: State, cur: Node, call: Call)
  {
    match call
    case Insert(newOps, b, at) =>
      b in s.ops && at <= |s.ops[b]| && BlockGuard(s, cur, b) && Attachable(s, newOps, b)
    case Erase(o) =>
      OpGuard(s, cur, o) && OpNode(o) in s.parent && s.parent[OpNode(o)].BlockNode? && s.parent[OpNode(o)].id in s.ops
    case Replace(o, newOps) =>
      && OpGuard(s, cur, o) && OpNode(o) in s.parent && s.parent[OpNode(o)].BlockNode? && s.parent[OpNode(o)].id in s.ops
      && Attachable(s, newOps, s.parent[OpNode(o)].id)
    case Inline(from, into, at) =>
      && from in s.ops && into in s.ops && from != into && at <= |s.ops[into]|
      && BlockGuard(s, cur, from) && BlockGuard(s, cur, into)
      && exists p :: PathOf(s, BlockNode(into), p) && forall x :: x in p ==> !IsChild(s, x, BlockNode(from))
    case MoveRegion(r, f) => RegionGuard(s, cur, r) && RegionNode(f) !in s.parent
  }

  predicate IsChild(s: State, x: Node, p: Node)
  {
    x in s.parent && s.parent[x] == p
  }

  function InsertAt(ops: seq<Id>, at: nat, newOps: seq<Id>): seq<Id>
    requires at <= |ops|
  {
    ops[..at] + newOps + ops[at..]
  }

  function Without(ops: seq<Id>, o: Id): seq<Id>
  {
    if ops == [] then [] else (if ops[0] == o then [] else [ops[0]]) + Without(ops[1..], o)
  }

  /** The new operations take the place of `o`. */
  function Swap(ops: seq<Id>, o: Id, newOps: seq<Id>): seq<Id>
  {
    if ops == [] then [] else (if ops[0] == o then newOps else [ops[0]]) + Swap(ops[1..], o, newOps)
  }

  function Attach(parent: map<Node, Node>, newOps: seq<Id>, b: Id): map<Node, Node>
  {
    parent + map o | o in newOps :: OpNode(o) := BlockNode(b)
  }

  ghost function Effect(s: State, call: Call): State
    requires exists cur :: Allowed(s, cur, call)
  {
    match call
    case Insert(newOps, b, at) =>
      State(Attach(s.parent, newOps, b), s.ops[b := InsertAt(s.ops[b], at, newOps)])
    case Erase(o) =>
      var b := s.parent[OpNode(o)].id;
      State(s.parent - {OpNode(o)}, s.ops[b := Without(s.ops[b], o)])
    case Replace(o, newOps) =>
      var b := s.parent[OpNode(o)].id;
      State(Attach(s.parent, newOps, b) - {OpNode(o)}, s.ops[b := Swap(s.ops[b], o, newOps)])
    case Inline(from, into, at) =>
      State(map x | x in s.parent :: if s.parent[x] == BlockNode(from) then BlockNode(into) else s.parent[x],
            s.ops[into := InsertAt(s.ops[into], at, s.ops[from])][from := []])
    case MoveRegion(r, f) =>
      State(map x | x in s.parent :: if s.parent[x] == RegionNode(r) then RegionNode(f) else s.parent[x], s.ops)
  }

  // ----- the frame -----

  /** Parents on the path are as before, so it is still the path. */
  lemma {:induction false} PathKept(s: State, t: State, x: Node, p: seq<Node>)
    requires PathOf(s, x, p)
    requires forall y :: y in p ==> (y in s.parent <==> y in t.parent) && (y in s.parent ==> s.parent[y] == t.parent[y])
    ensures PathOf(t, x, p)
    decreases |p|
  {
    if |p| > 1 {
      PathKept(s, t, p[1], p[1..]);
    }
  }

  /**
   Block `b` belongs to the tree of the module `m`, but neither contains the matched operation
   directly nor is contained in it.
   */
  ghost predicate Outside(s: State, cur: Node, m: Node, b: Id)
  {
    && m.OpNode? && cur.OpNode?
    && Attached(s, cur, m)
    && (exists p :: PathOf(s, BlockNode(b), p) && Top(p) == m && cur !in p)
    && s.parent[cur] != BlockNode(b)
  }

  /** The matched operation is somewhere under the module. */
  ghost predicate Attached(s: State, cur: Node, m: Node)
  {
    exists p :: PathOf(s, cur, p) && |p| > 1 && Top(p) == m
  }

  /** A guard that holds for a node excludes every node above an outside block. */
  lemma GuardedIsNotAbove(s: State, cur: Node, m: Node, b: Id, x: Node, p: seq<Node>, q: seq<Node>, pc: seq<Node>)
    requires m.OpNode? && PathOf(s, cur, pc) && Top(pc) == m
    requires PathOf(s, BlockNode(b), p) && Top(p) == m && cur !in p
    requires PathOf(s, x, q) && Reachable(cur, m, q)
    ensures x !in p
  {
    if x in p {
      var suffix := PathSuffix(s, BlockNode(b), p, x);
      PathUnique(s, x, q, suffix);
    }
  }

  /** A path goes on up to the one node without a parent. */
  lemma {:induction false} PathParents(s: State, x: Node, p: seq<Node>, y: Node)
    requires PathOf(s, x, p) && y in p
    ensures y in s.parent ==> s.parent[y] in p
    ensures y !in s.parent <==> y == Top(p)
    decreases |p|
  {
    if |p| > 1 {
      if y == x {
        PathParents(s, p[1], p[1..], p[1]);
        TopHasNoParent(s, x, p);
      } else {
        PathParents(s, p[1], p[1..], y);
      }
    }
  }

  lemma {:induction false} TopHasNoParent(s: State, x: Node, p: seq<Node>)
    requires PathOf(s, x, p)
    ensures Top(p) !in s.parent
    decreases |p|
  {
    if |p| > 1 {
      TopHasNoParent(s, p[1], p[1..]);
    }
  }

  /** Which blocks and regions the guards admit, in terms of ancestry. */
  lemma BlockGuardMeans(s: State, cur: Node, m: Node, b: Id) returns (p: seq<Node>)
    requires cur.OpNode? && Attached(s, cur, m) && BlockGuard(s, cur, b)
    ensures PathOf(s, BlockNode(b), p)
    ensures s.parent[cur] == BlockNode(b) || Reachable(cur, m, p)
  {
    var q, pc :| PathOf(s, BlockNode(b), q) && Alternates(q) && PathOf(s, cur, pc)
      && ((|pc| > 1 && pc[1] == BlockNode(b)) || CanModifyOpInBlock(cur, Top(pc), q));
    var pc' :| PathOf(s, cur, pc') && |pc'| > 1 && Top(pc') == m;
    PathUnique(s, cur, pc, pc');
    GuardExact(cur, m, q);
    p := q;
  }

  lemma OpGuardMeans(s: State, cur: Node, m: Node, o: Id) returns (p: seq<Node>)
    requires cur.OpNode? && Attached(s, cur, m) && OpGuard(s, cur, o)
    ensures PathOf(s, OpNode(o), p) && Reachable(cur, m, p)
  {
    var q, pc :| PathOf(s, OpNode(o), q) && Alternates(q) && PathOf(s, cur, pc) && CanModifyOp(cur, Top(pc), q);
    var pc' :| PathOf(s, cur, pc') && |pc'| > 1 && Top(pc') == m;
    PathUnique(s, cur, pc, pc');
    GuardExact(cur, m, q);
    p := q;
  }

  lemma RegionGuardMeans(s: State, cur: Node, m: Node, r: Id) returns (p: seq<Node>)
    requires cur.OpNode? && Attached(s, cur, m) && RegionGuard(s, cur, r)
    ensures PathOf(s, RegionNode(r), p) && Reachable(cur, m, p)
  {
    var q, pc :| PathOf(s, RegionNode(r), q) && Alternates(q) && PathOf(s, cur, pc) && CanModifyRegion(cur, Top(pc), q);
    var pc' :| PathOf(s, cur, pc') && |pc'| > 1 && Top(pc') == m;
    PathUnique(s, cur, pc, pc');
    GuardExact(cur, m, q);
    p := q;
  }

  /** Which nodes the three guards admit; a block also if the matched operation stands in it. */
  lemma GuardsExactly(s: State, cur: Node, pc: seq<Node>, x: Node, p: seq<Node>)
    requires cur.OpNode? && PathOf(s, cur, pc) && PathOf(s, x, p) && Alternates(p)
    ensures x.OpNode? ==> (OpGuard(s, cur, x.id) <==> Reachable(cur, Top(pc), p))
    ensures x.BlockNode? ==> (BlockGuard(s, cur, x.id) <==> IsChild(s, cur, x) || Reachable(cur, Top(pc), p))
    ensures x.RegionNode? ==> (RegionGuard(s, cur, x.id) <==> Reachable(cur, Top(pc), p))
  {
    GuardExact(cur, Top(pc), p);
    forall q | PathOf(s, x, q) ensures q == p {
      PathUnique(s, x, p, q);
    }
    forall q | PathOf(s, cur, q) ensures q == pc {
      PathUnique(s, cur, pc, q);
    }
    assert IsChild(s, cur, x) <==> |pc| > 1 && pc[1] == x;
  }

  /** The block is as before: its list, its place, and its distance from the matched operation. */
  ghost predicate Untouched(s: State, t: State, b: Id, p: seq<Node>)
  {
    && (b in s.ops <==> b in t.ops) && (b in s.ops ==> s.ops[b] == t.ops[b])
    && forall y :: y in p ==> (y in s.parent <==> y in t.parent) && (y in s.parent ==> s.parent[y] == t.parent[y])
  }

  /** Attaching operations that have no parent moves nothing on the path, or the module itself. */
  lemma InsertUntouched(s: State, cur: Node, m: Node, b: Id, p: seq<Node>, call: Call)
    requires call.Insert? && Allowed(s, cur, call) && Outside(s, cur, m, b)
    requires PathOf(s, BlockNode(b), p) && Top(p) == m && cur !in p
    requires Attached(Effect(s, call), cur, m)
    ensures Untouched(s, Effect(s, call), b, p) && Effect(s, call).parent[cur] == s.parent[cur]
  {
    var pc :| PathOf(s, cur, pc) && |pc| > 1 && Top(pc) == m;
    var q := BlockGuardMeans(s, cur, m, call.block);
    if Reachable(cur, m, q) {
      GuardedIsNotAbove(s, cur, m, b, BlockNode(call.block), p, q, pc);
    }
    var t := Effect(s, call);
    var tc :| PathOf(t, cur, tc) && |tc| > 1 && Top(tc) == m;
    TopHasNoParent(t, cur, tc);
    forall y | y in p ensures (y in s.parent <==> y in t.parent) && (y in s.parent ==> s.parent[y] == t.parent[y]) {
      PathParents(s, BlockNode(b), p, y);
    }
  }

  /** An operation that may be erased is not above the block, nor directly in it. */
  lemma ErasableIsElsewhere(s: State, cur: Node, m: Node, b: Id, p: seq<Node>, o: Id)
    requires Outside(s, cur, m, b) && OpGuard(s, cur, o) && OpNode(o) != cur
    requires PathOf(s, BlockNode(b), p) && Top(p) == m && cur !in p
    ensures OpNode(o) !in p && (OpNode(o) in s.parent ==> s.parent[OpNode(o)] != BlockNode(b))
  {
    var pc :| PathOf(s, cur, pc) && |pc| > 1 && Top(pc) == m;
    var q := OpGuardMeans(s, cur, m, o);
    GuardedIsNotAbove(s, cur, m, b, OpNode(o), p, q, pc);
    if OpNode(o) in s.parent && s.parent[OpNode(o)] == BlockNode(b) {
      PathUnique(s, BlockNode(b), p, q[1..]);
    }
  }

  lemma EraseUntouched(s: State, cur: Node, m: Node, b: Id, p: seq<Node>, call: Call)
    requires (call.Erase? || call.Replace?) && Allowed(s, cur, call) && Outside(s, cur, m, b)
    requires PathOf(s, BlockNode(b), p) && Top(p) == m && cur !in p
    requires Attached(Effect(s, call), cur, m)
    ensures Untouched(s, Effect(s, call), b, p) && Effect(s, call).parent[cur] == s.parent[cur]
  {
    var t := Effect(s, call);
    var tc :| PathOf(t, cur, tc) && |tc| > 1 && Top(tc) == m;
    TopHasNoParent(t, cur, tc);
    assert OpNode(call.op) != cur;
    ErasableIsElsewhere(s, cur, m, b, p, call.op);
    forall y | y in p ensures (y in s.parent <==> y in t.parent) && (y in s.parent ==> s.parent[y] == t.parent[y]) {
      PathParents(s, BlockNode(b), p, y);
    }
  }

  /** Inlining the block of the matched operation would take it out of the module. */
  lemma InlineLeavesMatched(s: State, cur: Node, m: Node, call: Call)
    requires call.Inline? && Allowed(s, cur, call) && cur.OpNode? && m.OpNode? && Attached(s, cur, m)
    requires Attached(Effect(s, call), cur, m)
    ensures s.parent[cur] != BlockNode(call.from)
  {
    if s.parent[cur] == BlockNode(call.from) {
      var t := Effect(s, call);
      var q := BlockGuardMeans(s, cur, m, call.into);
      var p :| PathOf(s, BlockNode(call.into), p) && forall x :: x in p ==> !IsChild(s, x, BlockNode(call.from));
      PathUnique(s, BlockNode(call.into), p, q);
      assert IsChild(s, cur, BlockNode(call.from));
      PathKept(s, t, BlockNode(call.into), p);
      var tc :| PathOf(t, cur, tc) && |tc| > 1 && Top(tc) == m;
      PathUnique(t, BlockNode(call.into), p, tc[1..]);
    }
  }

  lemma InlineUntouched(s: State, cur: Node, m: Node, b: Id, p: seq<Node>, call: Call)
    requires call.Inline? && Allowed(s, cur, call) && Outside(s, cur, m, b)
    requires PathOf(s, BlockNode(b), p) && Top(p) == m && cur !in p
    requires Attached(Effect(s, call), cur, m)
    ensures Untouched(s, Effect(s, call), b, p) && Effect(s, call).parent[cur] == s.parent[cur]
  {
    var pc :| PathOf(s, cur, pc) && |pc| > 1 && Top(pc) == m;
    InlineLeavesMatched(s, cur, m, call);
    var q := BlockGuardMeans(s, cur, m, call.from);
    GuardedIsNotAbove(s, cur, m, b, BlockNode(call.from), p, q, pc);
    var q' := BlockGuardMeans(s, cur, m, call.into);
    if Reachable(cur, m, q') {
      GuardedIsNotAbove(s, cur, m, b, BlockNode(call.into), p, q', pc);
    }
    var t := Effect(s, call);
    forall y | y in p ensures (y in s.parent <==> y in t.parent) && (y in s.parent ==> s.parent[y] == t.parent[y]) {
      PathParents(s, BlockNode(b), p, y);
    }
  }

  lemma MoveRegionUntouched(s: State, cur: Node, m: Node, b: Id, p: seq<Node>, call: Call)
    requires call.MoveRegion? && Allowed(s, cur, call) && Outside(s, cur, m, b)
    requires PathOf(s, BlockNode(b), p) && Top(p) == m && cur !in p
    ensures Untouched(s, Effect(s, call), b, p)
    ensures Effect(s, call).parent[cur] == s.parent[cur] || Effect(s, call).parent[cur].RegionNode?
  {
    var pc :| PathOf(s, cur, pc) && |pc| > 1 && Top(pc) == m;
    var q := RegionGuardMeans(s, cur, m, call.region);
    GuardedIsNotAbove(s, cur, m, b, RegionNode(call.region), p, q, pc);
    var t := Effect(s, call);
    forall y | y in p ensures (y in s.parent <==> y in t.parent) && (y in s.parent ==> s.parent[y] == t.parent[y]) {
      PathParents(s, BlockNode(b), p, y);
    }
  }

  /** One call that does not raise, after which the matched operation is still under the module. */
  lemma CallKeepsOutside(s: State, cur: Node, m: Node, b: Id, call: Call)
    requires Outside(s, cur, m, b) && Allowed(s, cur, call) && Attached(Effect(s, call), cur, m)
    ensures Outside(Effect(s, call), cur, m, b)
    ensures b in s.ops <==> b in Effect(s, call).ops
    ensures b in s.ops ==> Effect(s, call).ops[b] == s.ops[b]
  {
    var p :| PathOf(s, BlockNode(b), p) && Top(p) == m && cur !in p;
    match call {
      case Insert(_, _, _) => InsertUntouched(s, cur, m, b, p, call);
      case Erase(_) => EraseUntouched(s, cur, m, b, p, call);
      case Replace(_, _) => EraseUntouched(s, cur, m, b, p, call);
      case Inline(_, _, _) => InlineUntouched(s, cur, m, b, p, call);
      case MoveRegion(_, _) => MoveRegionUntouched(s, cur, m, b, p, call);
    }
    PathKept(s, Effect(s, call), BlockNode(b), p);
  }

  /** A pattern: calls that do not raise, during which the matched operation stays under the module. */
  ghost predicate StaysAttached(s: State, cur: Node, m: Node, calls: seq<Call>)
    decreases |calls|
  {
    Attached(s, cur, m) &&
    (calls == [] || (Allowed(s, cur, calls[0]) && StaysAttached(Effect(s, calls[0]), cur, m, calls[1..])))
  }

  ghost function After(s: State, cur: Node, m: Node, calls: seq<Call>): State
    requires StaysAttached(s, cur, m, calls)
    decreases |calls|
  {
    if calls == [] then s else After(Effect(s, calls[0]), cur, m, calls[1..])
  }

  /** Whatever a pattern does, blocks outside the matched operation and its own block keep their operations. */
  lemma {:induction false} PatternFrame(s: State, cur: Node, m: Node, b: Id, calls: seq<Call>)
    requires Outside(s, cur, m, b) && StaysAttached(s, cur, m, calls)
    ensures Outside(After(s, cur, m, calls), cur, m, b)
    ensures b in s.ops <==> b in After(s, cur, m, calls).ops
    ensures b in s.ops ==> After(s, cur, m, calls).ops[b] == s.ops[b]
    decreases |calls|
  {
    if calls != [] {
      CallKeepsOutside(s, cur, m, b, calls[0]);
      PatternFrame(Effect(s, calls[0]), cur, m, b, calls[1..]);
    }
  }

  // ----- what a call does inside -----

  /** The list of a block holds exactly the operations whose parent it is, each once. */
  ghost predicate Consistent(s: State)
  {
    forall b :: b in s.ops ==> ConsistentAt(s, b)
  }

  ghost predicate ConsistentAt(s: State, b: Id)
    requires b in s.ops
  {
    NoRepeats(s.ops[b]) && forall o :: o in s.ops[b] <==> IsChild(s, OpNode(o), BlockNode(b))
  }

  lemma {:induction false} WithoutExactly(ops: seq<Id>, o: Id, i: nat)
    requires i < |ops| && ops[i] == o && NoRepeats(ops)
    ensures Without(ops, o) == ops[..i] + ops[i + 1..]
  {
    assert ops == [ops[0]] + ops[1..];
    if i > 0 {
      assert NoRepeats(ops[1..]) && ops[1..][i - 1] == o;
      WithoutExactly(ops[1..], o, i - 1);
    } else {
      NothingWithout(ops[1..], o);
    }
  }

  lemma {:induction false} NothingWithout(ops: seq<Id>, o: Id)
    requires o !in ops
    ensures Without(ops, o) == ops && forall newOps :: Swap(ops, o, newOps) == ops
  {
    if ops != [] {
      NothingWithout(ops[1..], o);
      assert ops == [ops[0]] + ops[1..];
    }
  }

  lemma {:induction false} SwapExactly(ops: seq<Id>, o: Id, newOps: seq<Id>, i: nat)
    requires i < |ops| && ops[i] == o && NoRepeats(ops)
    ensures Swap(ops, o, newOps) == ops[..i] + newOps + ops[i + 1..]
  {
    assert ops == [ops[0]] + ops[1..];
    if i > 0 {
      assert NoRepeats(ops[1..]) && ops[1..][i - 1] == o;
      SwapExactly(ops[1..], o, newOps, i - 1);
      assert [ops[0]] + (ops[1..][..i - 1] + newOps + ops[1..][i..]) == ops[..i] + newOps + ops[i + 1..];
    } else {
      NothingWithout(ops[1..], o);
    }
  }

  /** What a call leaves in the block lists: the operations it is about where it puts them, all others in their order. */
  ghost predicate Edits(s: State, call: Call, t: State)
  {
    match call
    case Insert(newOps, b, at) =>
      b in s.ops && at <= |s.ops[b]| && t.ops == s.ops[b := s.ops[b][..at] + newOps + s.ops[b][at..]]
    case Erase(o) =>
      exists b, i :: b in s.ops && 0 <= i < |s.ops[b]| && s.ops[b][i] == o && t.ops == s.ops[b := s.ops[b][..i] + s.ops[b][i + 1..]]
    case Replace(o, newOps) =>
      exists b, i :: b in s.ops && 0 <= i < |s.ops[b]| && s.ops[b][i] == o
                     && t.ops == s.ops[b := s.ops[b][..i] + newOps + s.ops[b][i + 1..]]
    case Inline(from, into, at) =>
      && from in s.ops && into in s.ops && at <= |s.ops[into]|
      && t.ops == s.ops[into := s.ops[into][..at] + s.ops[from] + s.ops[into][at..]][from := []]
    case MoveRegion(_, _) => t.ops == s.ops
  }

  lemma CallEdits(s: State, cur: Node, call: Call)
    requires Consistent(s) && Allowed(s, cur, call)
    ensures Edits(s, call, Effect(s, call))
  {
    if call.Erase? || call.Replace? {
      var b := s.parent[OpNode(call.op)].id;
      assert ConsistentAt(s, b);
      assert IsChild(s, OpNode(call.op), BlockNode(b));
      var i :| 0 <= i < |s.ops[b]| && s.ops[b][i] == call.op;
      if call.Erase? {
        WithoutExactly(s.ops[b], call.op, i);
      } else {
        SwapExactly(s.ops[b], call.op, call.newOps, i);
      }
    }
  }

  /** The blocks of the region are those of the new one afterwards, and no other parent has changed. */
  lemma RegionMoves(s: State, cur: Node, r: Id, f: Id, x: Node, p: Node)
    requires Allowed(s, cur, MoveRegion(r, f)) && r != f
    ensures IsChild(Effect(s, MoveRegion(r, f)), x, p) <==>
              if p == RegionNode(r) then false
              else if p == RegionNode(f) then IsChild(s, x, RegionNode(f)) || IsChild(s, x, RegionNode(r))
              else IsChild(s, x, p)
  {
  }

  /** Parent pointers and block lists still agree after a call. */
  lemma CallKeepsConsistent(s: State, cur: Node, call: Call)
    requires Consistent(s) && Allowed(s, cur, call)
    ensures Consistent(Effect(s, call))
  {
    match call
    case Insert(newOps, b, at) => InsertConsistent(s, cur, newOps, b, at);
    case Erase(o) => EraseConsistent(s, cur, o);
    case Replace(o, newOps) => ReplaceConsistent(s, cur, o, newOps);
    case Inline(from, into, at) => InlineConsistent(s, cur, from, into, at);
    case MoveRegion(_, _) =>
      var t := Effect(s, call);
      forall b | b in t.ops ensures ConsistentAt(t, b) {
        assert ConsistentAt(s, b);
        forall o ensures IsChild(t, OpNode(o), BlockNode(b)) <==> IsChild(s, OpNode(o), BlockNode(b)) {
        }
      }
  }

  lemma InsertConsistent(s: State, cur: Node, newOps: seq<Id>, b: Id, at: nat)
    requires Consistent(s) && Allowed(s, cur, Insert(newOps, b, at))
    ensures Consistent(Effect(s, Insert(newOps, b, at)))
  {
    var t := Effect(s, Insert(newOps, b, at));
    forall c | c in t.ops ensures ConsistentAt(t, c) {
      assert ConsistentAt(s, c);
      assert forall o :: o in newOps ==> OpNode(o) !in s.parent && !IsChild(s, OpNode(o), BlockNode(c));
      forall o ensures IsChild(t, OpNode(o), BlockNode(c)) <==> if o in newOps then c == b else IsChild(s, OpNode(o), BlockNode(c)) {
      }
      if c == b {
        InsertedNoRepeats(s.ops[b], at, newOps);
      }
    }
  }

  lemma InsertedNoRepeats(ops: seq<Id>, at: nat, newOps: seq<Id>)
    requires at <= |ops| && NoRepeats(ops) && NoRepeats(newOps) && forall o :: o in newOps ==> o !in ops
    ensures NoRepeats(ops[..at] + newOps + ops[at..])
    ensures forall o :: o in ops[..at] + newOps + ops[at..] <==> o in ops || o in newOps
  {
    var now := ops[..at] + newOps + ops[at..];
    assert ops == ops[..at] + ops[at..];
    forall i, j | 0 <= i < j < |now| ensures now[i] != now[j] {
      assert at <= i < at + |newOps| ==> now[i] in newOps;
      assert at <= j < at + |newOps| ==> now[j] in newOps;
    }
  }

  lemma EraseConsistent(s: State, cur: Node, o: Id)
    requires Consistent(s) && Allowed(s, cur, Erase(o))
    ensures Consistent(Effect(s, Erase(o)))
  {
    var t, b := Effect(s, Erase(o)), s.parent[OpNode(o)].id;
    assert ConsistentAt(s, b) && IsChild(s, OpNode(o), BlockNode(b));
    var i :| 0 <= i < |s.ops[b]| && s.ops[b][i] == o;
    WithoutExactly(s.ops[b], o, i);
    forall c | c in t.ops ensures ConsistentAt(t, c) {
      assert ConsistentAt(s, c);
      forall x ensures IsChild(t, OpNode(x), BlockNode(c)) <==> x != o && IsChild(s, OpNode(x), BlockNode(c)) {
      }
      if c == b {
        RemovedNoRepeats(s.ops[b], i);
      }
    }
  }

  lemma RemovedNoRepeats(ops: seq<Id>, i: nat)
    requires i < |ops| && NoRepeats(ops)
    ensures NoRepeats(ops[..i] + ops[i + 1..])
    ensures forall o :: o in ops[..i] + ops[i + 1..] <==> o in ops && o != ops[i]
  {
    var now := ops[..i] + ops[i + 1..];
    assert ops == ops[..i] + [ops[i]] + ops[i + 1..];
    forall o | o in ops && o != ops[i] ensures o in now {
      var k :| 0 <= k < |ops| && ops[k] == o;
      assert now[if k < i then k else k - 1] == o;
    }
  }

  lemma ReplaceConsistent(s: State, cur: Node, o: Id, newOps: seq<Id>)
    requires Consistent(s) && Allowed(s, cur, Replace(o, newOps))
    ensures Consistent(Effect(s, Replace(o, newOps)))
  {
    var t, b := Effect(s, Replace(o, newOps)), s.parent[OpNode(o)].id;
    assert ConsistentAt(s, b) && IsChild(s, OpNode(o), BlockNode(b));
    var i :| 0 <= i < |s.ops[b]| && s.ops[b][i] == o;
    SwapExactly(s.ops[b], o, newOps, i);
    forall c | c in t.ops ensures ConsistentAt(t, c) {
      assert ConsistentAt(s, c);
      assert forall x :: x in newOps ==> x != o && OpNode(x) !in s.parent && !IsChild(s, OpNode(x), BlockNode(c));
      forall x ensures IsChild(t, OpNode(x), BlockNode(c)) <==>
                       if x in newOps then c == b else x != o && IsChild(s, OpNode(x), BlockNode(c)) {
      }
      if c == b {
        var rest := s.ops[b][..i] + s.ops[b][i + 1..];
        RemovedNoRepeats(s.ops[b], i);
        assert rest[..i] == s.ops[b][..i] && rest[i..] == s.ops[b][i + 1..];
        InsertedNoRepeats(rest, i, newOps);
      }
    }
  }

  lemma InlineConsistent(s: State, cur: Node, from: Id, into: Id, at: nat)
    requires Consistent(s) && Allowed(s, cur, Inline(from, into, at))
    ensures Consistent(Effect(s, Inline(from, into, at)))
  {
    var t := Effect(s, Inline(from, into, at));
    assert ConsistentAt(s, from) && ConsistentAt(s, into);
    forall c | c in t.ops ensures ConsistentAt(t, c) {
      assert ConsistentAt(s, c);
      forall x ensures IsChild(t, OpNode(x), BlockNode(c)) <==>
                       c != from && (IsChild(s, OpNode(x), BlockNode(c)) || (c == into && IsChild(s, OpNode(x), BlockNode(from)))) {
      }
      if c == into {
        InsertedNoRepeats(s.ops[into], at, s.ops[from]);
      }
    }
  }

  /** So they agree throughout a pattern. */
  lemma {:induction false} PatternKeepsConsistent(s: State, cur: Node, m: Node, calls: seq<Call>)
    requires Consistent(s) && StaysAttached(s, cur, m, calls)
    ensures Consistent(After(s, cur, m, calls))
    decreases |calls|
  {
    if calls != [] {
      CallKeepsConsistent(s, cur, calls[0]);
      PatternKeepsConsistent(Effect(s, calls[0]), cur, m, calls[1..]);
    }
  }

  /** The operations attached to a block of the tree. */
  ghost predicate InSomeBlock(s: State, o: Id)
  {
    exists b :: b in s.ops && o in s.ops[b]
  }

  ghost predicate HasBlock(s: State, o: Id)
  {
    exists b :: b in s.ops && IsChild(s, OpNode(o), BlockNode(b))
  }

  lemma ChildrenAreInBlocks(s: State, o: Id)
    requires Consistent(s)
    ensures InSomeBlock(s, o) <==> HasBlock(s, o)
  {
    forall b | b in s.ops ensures o in s.ops[b] <==> IsChild(s, OpNode(o), BlockNode(b)) {
      assert ConsistentAt(s, b);
    }
  }

  /** No call loses an operation: it adds those it inserts and removes the one it erases. */
  lemma CallConserves(s: State, cur: Node, call: Call, o: Id)
    requires Consistent(s) && Allowed(s, cur, call)
    ensures InSomeBlock(Effect(s, call), o) <==>
              match call
              case Insert(newOps, _, _) => o in newOps || InSomeBlock(s, o)
              case Erase(gone) => o != gone && InSomeBlock(s, o)
              case Replace(gone, newOps) => o in newOps || (o != gone && InSomeBlock(s, o))
              case _ => InSomeBlock(s, o)
  {
    CallKeepsConsistent(s, cur, call);
    ChildrenAreInBlocks(s, o);
    ChildrenAreInBlocks(Effect(s, call), o);
    match call
    case Insert(newOps, b, _) => AddedHaveBlocks(s, cur, call, newOps, b, o);
    case Erase(gone) => OthersKeepBlocks(s, cur, call, gone, o);
    case Replace(gone, newOps) =>
      if o in newOps {
        AddedHaveBlocks(s, cur, call, newOps, s.parent[OpNode(gone)].id, o);
      } else {
        OthersKeepBlocks(s, cur, call, gone, o);
      }
    case Inline(_, _, _) => InlinedHaveBlocks(s, cur, call, o);
    case MoveRegion(_, _) =>
      assert forall c :: IsChild(Effect(s, call), OpNode(o), BlockNode(c)) <==> IsChild(s, OpNode(o), BlockNode(c));
  }

  lemma AddedHaveBlocks(s: State, cur: Node, call: Call, newOps: seq<Id>, b: Id, o: Id)
    requires Allowed(s, cur, call)
    requires (call.Insert? && call.block == b) || (call.Replace? && s.parent[OpNode(call.op)].id == b && o in newOps)
    requires call.newOps == newOps
    ensures HasBlock(Effect(s, call), o) <==> o in newOps || HasBlock(s, o)
  {
    var t := Effect(s, call);
    if o in newOps {
      assert IsChild(t, OpNode(o), BlockNode(b));
    } else {
      assert forall c :: IsChild(t, OpNode(o), BlockNode(c)) <==> IsChild(s, OpNode(o), BlockNode(c));
    }
  }

  lemma OthersKeepBlocks(s: State, cur: Node, call: Call, gone: Id, o: Id)
    requires Allowed(s, cur, call)
    requires call == Erase(gone) || (call.Replace? && call.op == gone && o !in call.newOps)
    ensures HasBlock(Effect(s, call), o) <==> o != gone && HasBlock(s, o)
  {
    var t := Effect(s, call);
    if o != gone {
      assert forall c :: IsChild(t, OpNode(o), BlockNode(c)) <==> IsChild(s, OpNode(o), BlockNode(c));
    }
  }

  lemma InlinedHaveBlocks(s: State, cur: Node, call: Call, o: Id)
    requires call.Inline? && Allowed(s, cur, call)
    ensures HasBlock(Effect(s, call), o) <==> HasBlock(s, o)
  {
    var t := Effect(s, call);
    if c :| c in s.ops && IsChild(s, OpNode(o), BlockNode(c)) {
      assert IsChild(t, OpNode(o), BlockNode(if c == call.from then call.into else c));
    }
    if c :| c in t.ops && IsChild(t, OpNode(o), BlockNode(c)) {
      assert IsChild(s, OpNode(o), BlockNode(c)) || IsChild(s, OpNode(o), BlockNode(call.from));
    }
  }
}
