/**
  The depth-first walker. `Walk` yields the ordered trace of listener
  invocations: `Enter(v)` where the enter listener is called for visit `v`
  (before any of the node's children), `Leave(v)` where the leave listener is
  called (after all of them). Whether the enter listener calls `this.skip()`
  on a visit is the parameter `skip`; a skipped node's children are not
  walked, its own leave still fires.
*/
module Walker {
  import opened Wrappers
  import opened Estree

  /** The arguments of one listener call: the node and, except for the root,
      its parent, the parent's field holding it and the array index. */
  datatype Visit = Visit(node: Node, parent: Option<Node>, prop: Option<string>, index: Option<nat>)

  datatype Event = Enter(visit: Visit) | Leave(visit: Visit)

  function RootVisit(root: Node): Visit
  {
    Visit(root, None, None, None)
  }

  function ChildVisit(parent: Node, c: ChildRef): Visit
  {
    Visit(c.node, Some(parent), Some(c.prop), c.index)
  }

  /** The enter listener of a walk that never calls `skip`. */
  function NeverSkip(v: Visit): bool
  {
    false
  }

  function Walk(v: Visit, skip: Visit -> bool): seq<Event>
    decreases v.node, 1
  {
    [Enter(v)]
    + (if skip(v) then [] else WalkChildren(v.node, Children(v.node), skip))
    + [Leave(v)]
  }

  function WalkChildren(parent: Node, cs: seq<ChildRef>, skip: Visit -> bool): seq<Event>
    requires forall c :: c in cs ==> (parent decreases to c.node)
    decreases parent, 0, |cs|
  {
    if cs == [] then []
    else Walk(ChildVisit(parent, cs[0]), skip) + WalkChildren(parent, cs[1..], skip)
  }

  /** The nodes whose enter listener is called, in call order. */
  function Entered(t: seq<Event>): (ns: seq<Node>)
    ensures |ns| <= |t|
  {
    if t == [] then []
    else Entered(t[..|t| - 1]) + (if t[|t| - 1].Enter? then [t[|t| - 1].visit.node] else [])
  }

  /** Where the trace of the `i`-th child begins within its siblings' trace. */
  function Offset(parent: Node, cs: seq<ChildRef>, skip: Visit -> bool, i: nat): nat
    requires forall c :: c in cs ==> (parent decreases to c.node)
    requires i <= |cs|
  {
    |WalkChildren(parent, cs[..i], skip)|
  }

  /** For every visit but the root's, `parent[prop] == node`, or
      `parent[prop][index] == node` when the field is an array. */
  ghost predicate Linked(x: Visit)
  {
    && x.parent.Some?
    && x.prop.Some?
    && ChildAt(x.parent.value, x.prop.value, x.index) == Some(x.node)
  }

  /** `enter(n)` is the first event of n's walk and `leave(n)` the last; every
      event in between is about a proper descendant of n. */
  lemma {:induction false} WalkBrackets(v: Visit, skip: Visit -> bool)
    ensures var t := Walk(v, skip);
      && |t| >= 2
      && t[0] == Enter(v)
      && t[|t| - 1] == Leave(v)
      && forall k :: 0 < k < |t| - 1 ==> t[k].visit.node in Nodes(v.node)[1..]
  {
    var t := Walk(v, skip);
    if !skip(v) {
      var inner := WalkChildren(v.node, Children(v.node), skip);
      ChildrenStayInside(v.node, Children(v.node), skip);
      assert Nodes(v.node)[1..] == ChildNodes(v.node, Children(v.node));
      forall k | 0 < k < |t| - 1 ensures t[k].visit.node in Nodes(v.node)[1..] {
        assert t[k] == inner[k - 1];
      }
    }
  }

  lemma {:induction false} WalkStaysInside(v: Visit, skip: Visit -> bool)
    ensures forall e :: e in Walk(v, skip) ==> e.visit.node in Nodes(v.node)
    decreases v.node, 1
  {
    ChildrenStayInside(v.node, Children(v.node), skip);
  }

  lemma {:induction false} ChildrenStayInside(parent: Node, cs: seq<ChildRef>, skip: Visit -> bool)
    requires forall c :: c in cs ==> (parent decreases to c.node)
    ensures forall e :: e in WalkChildren(parent, cs, skip) ==> e.visit.node in ChildNodes(parent, cs)
    decreases parent, 0, |cs|
  {
    if cs != [] {
      WalkStaysInside(ChildVisit(parent, cs[0]), skip);
      ChildrenStayInside(parent, cs[1..], skip);
    }
  }

  /** In trace `t`, every enter event whose listener calls skip is followed
      at once by the leave event of the same visit. */
  ghost predicate SkipsAtOnce(t: seq<Event>, skip: Visit -> bool)
  {
    forall k :: 0 <= k < |t| && t[k].Enter? && skip(t[k].visit) ==>
      k + 1 < |t| && t[k + 1] == Leave(t[k].visit)
  }

  lemma {:induction false} SkipsAtOnceAppend(a: seq<Event>, b: seq<Event>, skip: Visit -> bool)
    requires SkipsAtOnce(a, skip) && SkipsAtOnce(b, skip)
    ensures SkipsAtOnce(a + b, skip)
  {
    var t := a + b;
    forall k | 0 <= k < |t| && t[k].Enter? && skip(t[k].visit)
      ensures k + 1 < |t| && t[k + 1] == Leave(t[k].visit)
    {
      if k < |a| {
        assert t[k] == a[k];
        assert t[k + 1] == a[k + 1];
      } else {
        assert t[k] == b[k - |a|];
        assert t[k + 1] == b[k + 1 - |a|];
      }
    }
  }

  /** When `enter(n)` calls skip, the very next event is `leave(n)`: no event
      fires for any descendant of n, anywhere in the walk. */
  lemma {:induction false} SkipLeavesAtOnce(v: Visit, skip: Visit -> bool)
    ensures SkipsAtOnce(Walk(v, skip), skip)
    decreases v.node, 1
  {
    if !skip(v) {
      ChildrenSkipLeaveAtOnce(v.node, Children(v.node), skip);
      SkipsAtOnceAppend([Enter(v)], WalkChildren(v.node, Children(v.node), skip), skip);
      SkipsAtOnceAppend([Enter(v)] + WalkChildren(v.node, Children(v.node), skip), [Leave(v)], skip);
    }
  }

  lemma {:induction false} ChildrenSkipLeaveAtOnce(parent: Node, cs: seq<ChildRef>, skip: Visit -> bool)
    requires forall c :: c in cs ==> (parent decreases to c.node)
    ensures SkipsAtOnce(WalkChildren(parent, cs, skip), skip)
    decreases parent, 0, |cs|
  {
    if cs != [] {
      SkipLeavesAtOnce(ChildVisit(parent, cs[0]), skip);
      ChildrenSkipLeaveAtOnce(parent, cs[1..], skip);
      SkipsAtOnceAppend(Walk(ChildVisit(parent, cs[0]), skip), WalkChildren(parent, cs[1..], skip), skip);
    }
  }

  lemma {:induction false} WalkChildrenAppend(parent: Node, a: seq<ChildRef>, b: seq<ChildRef>, skip: Visit -> bool)
    requires forall c :: c in a + b ==> (parent decreases to c.node)
    ensures WalkChildren(parent, a + b, skip) == WalkChildren(parent, a, skip) + WalkChildren(parent, b, skip)
    decreases |a|
  {
    if a != [] {
      assert (a + b)[0] == a[0];
      assert (a + b)[1..] == a[1..] + b;
      WalkChildrenAppend(parent, a[1..], b, skip);
    } else {
      assert a + b == b;
    }
  }

  /** The walk of the i-th child is one contiguous block of its siblings'
      trace, starting at `Offset(i)` and ending just before `Offset(i + 1)`. */
  lemma {:induction false} ChildBlock(parent: Node, cs: seq<ChildRef>, skip: Visit -> bool, i: nat)
    requires forall c :: c in cs ==> (parent decreases to c.node)
    requires i < |cs|
    ensures var t := WalkChildren(parent, cs, skip);
      var w := Walk(ChildVisit(parent, cs[i]), skip);
      && Offset(parent, cs, skip, i + 1) == Offset(parent, cs, skip, i) + |w|
      && Offset(parent, cs, skip, i + 1) <= |t|
      && t[Offset(parent, cs, skip, i)..Offset(parent, cs, skip, i + 1)] == w
  {
    var w := Walk(ChildVisit(parent, cs[i]), skip);
    assert cs[..i + 1] == cs[..i] + [cs[i]];
    WalkChildrenAppend(parent, cs[..i], [cs[i]], skip);
    assert WalkChildren(parent, [cs[i]], skip) == w + WalkChildren(parent, [], skip);
    assert cs == cs[..i + 1] + cs[i + 1..];
    WalkChildrenAppend(parent, cs[..i + 1], cs[i + 1..], skip);
  }

  /** Siblings are walked in order: for children i < j, `enter(c_i)` precedes
      `leave(c_i)`, which precedes `enter(c_j)`. */
  lemma {:induction false} SiblingsInOrder(parent: Node, cs: seq<ChildRef>, skip: Visit -> bool, i: nat, j: nat)
    requires forall c :: c in cs ==> (parent decreases to c.node)
    requires i < j < |cs|
    ensures var t := WalkChildren(parent, cs, skip);
      var p := Offset(parent, cs, skip, i);
      var q := Offset(parent, cs, skip, j);
      var l := Offset(parent, cs, skip, i + 1) - 1;
      && p < l < q < |t|
      && t[p] == Enter(ChildVisit(parent, cs[i]))
      && t[l] == Leave(ChildVisit(parent, cs[i]))
      && t[q] == Enter(ChildVisit(parent, cs[j]))
  {
    var t := WalkChildren(parent, cs, skip);
    var vi := ChildVisit(parent, cs[i]);
    var vj := ChildVisit(parent, cs[j]);
    ChildBlock(parent, cs, skip, i);
    ChildBlock(parent, cs, skip, j);
    WalkBrackets(vi, skip);
    WalkBrackets(vj, skip);
    OffsetMonotone(parent, cs, skip, i + 1, j);
    var p := Offset(parent, cs, skip, i);
    var q := Offset(parent, cs, skip, j);
    var wi := Walk(vi, skip);
    var wj := Walk(vj, skip);
    ElementOfSlice(t, p, p + |wi|, 0);
    ElementOfSlice(t, p, p + |wi|, |wi| - 1);
    ElementOfSlice(t, q, q + |wj|, 0);
  }

  lemma ElementOfSlice<T>(t: seq<T>, a: nat, b: nat, k: nat)
    requires a <= b <= |t| && k < b - a
    ensures t[a + k] == t[a..b][k]
  {
  }

  lemma {:induction false} OffsetMonotone(parent: Node, cs: seq<ChildRef>, skip: Visit -> bool, i: nat, j: nat)
    requires forall c :: c in cs ==> (parent decreases to c.node)
    requires i <= j <= |cs|
    ensures Offset(parent, cs, skip, i) <= Offset(parent, cs, skip, j)
    decreases j - i
  {
    if i < j {
      ChildBlock(parent, cs, skip, i);
      OffsetMonotone(parent, cs, skip, i + 1, j);
    }
  }

  /** Every visit of a walk but the starting one is linked to its parent. */
  lemma {:induction false} WalkLinked(v: Visit, skip: Visit -> bool)
    requires WellFormed(v.node)
    ensures forall e :: e in Walk(v, skip) ==> e.visit == v || Linked(e.visit)
    decreases v.node, 1
  {
    ChildrenWalkLinked(v.node, Children(v.node), skip);
  }

  lemma {:induction false} ChildrenWalkLinked(parent: Node, cs: seq<ChildRef>, skip: Visit -> bool)
    requires WellFormed(parent)
    requires forall c :: c in cs ==> c in Children(parent)
    ensures forall e :: e in WalkChildren(parent, cs, skip) ==> Linked(e.visit)
    decreases parent, 0, |cs|
  {
    if cs != [] {
      ChildrenAreLinked(parent, cs[0]);
      WalkLinked(ChildVisit(parent, cs[0]), skip);
      ChildrenWalkLinked(parent, cs[1..], skip);
    }
  }

  /** Walking from a root: the first and last events are the root's, with no
      parent, field or index; every other event is linked to its parent. */
  lemma {:induction false} RootWalkLinked(root: Node, skip: Visit -> bool)
    requires WellFormed(root)
    ensures var t := Walk(RootVisit(root), skip);
      && t[0].visit == t[|t| - 1].visit == Visit(root, None, None, None)
      && forall k :: 0 < k < |t| - 1 ==> Linked(t[k].visit)
  {
    var v := RootVisit(root);
    var t := Walk(v, skip);
    if !skip(v) {
      var inner := WalkChildren(root, Children(root), skip);
      ChildrenWalkLinked(root, Children(root), skip);
      forall k | 0 < k < |t| - 1 ensures Linked(t[k].visit) {
        assert t[k] == inner[k - 1];
      }
    }
  }

  lemma {:induction false} EnteredAppend(a: seq<Event>, b: seq<Event>)
    ensures Entered(a + b) == Entered(a) + Entered(b)
    decreases |b|
  {
    if b != [] {
      assert (a + b)[..|a + b| - 1] == a + b[..|b| - 1];
      assert (a + b)[|a + b| - 1] == b[|b| - 1];
      EnteredAppend(a, b[..|b| - 1]);
    } else {
      assert a + b == a;
    }
  }

  /** A walk that never skips enters every node of the tree exactly in
      pre-order. */
  lemma {:induction false} EnteredIsPreOrder(v: Visit)
    ensures Entered(Walk(v, NeverSkip)) == Nodes(v.node)
    decreases v.node, 1
  {
    var inner := WalkChildren(v.node, Children(v.node), NeverSkip);
    EnteredAppend([Enter(v)], inner);
    EnteredAppend([Enter(v)] + inner, [Leave(v)]);
    assert Entered([Enter(v)]) == [v.node] by {
      assert [Enter(v)][..0] == [];
    }
    assert Entered([Leave(v)]) == [] by {
      assert [Leave(v)][..0] == [];
    }
    ChildrenEnteredInPreOrder(v.node, Children(v.node));
  }

  lemma {:induction false} ChildrenEnteredInPreOrder(parent: Node, cs: seq<ChildRef>)
    requires forall c :: c in cs ==> (parent decreases to c.node)
    ensures Entered(WalkChildren(parent, cs, NeverSkip)) == ChildNodes(parent, cs)
    decreases parent, 0, |cs|
  {
    if cs != [] {
      EnteredIsPreOrder(ChildVisit(parent, cs[0]));
      ChildrenEnteredInPreOrder(parent, cs[1..]);
      EnteredAppend(Walk(ChildVisit(parent, cs[0]), NeverSkip), WalkChildren(parent, cs[1..], NeverSkip));
    }
  }
}
