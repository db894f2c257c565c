/**
  The syntax-tree model the engine works on: ESTree nodes as values.

  A node carries its type tag, its own fields in object-key order and an
  optional source location. A field holds a single child node, an array whose
  slots are nodes or holes (`null`), or a value that is not a node (a string,
  a number, a non-node object); only the first two contribute children.
  Being an inductive datatype, a tree cannot be cyclic.
*/
module Estree {
  import opened Wrappers

  /** An ESTree position; the column may be missing in a deserialised tree. */
  datatype Position = Position(line: int, column: Option<int>)

  /** An ESTree source location; either end may be missing. */
  datatype SourceLocation = SourceLocation(start: Option<Position>, end: Option<Position>)

  /** An opaque JSON payload, as attached to a finding. */
  datatype Json =
    | JNull
    | JBool(b: bool)
    | JNum(n: int)
    | JStr(s: string)
    | JArray(items: seq<Json>)
    | JObject(members: seq<(string, Json)>)

  /** JavaScript truthiness of a JSON value (`if (x)`). */
  predicate Truthy(j: Json)
  {
    match j
    case JNull => false
    case JBool(b) => b
    case JNum(n) => n != 0
    case JStr(s) => s != ""
    case JArray(_) => true
    case JObject(_) => true
  }

  datatype Node = Node(tag: string, fields: seq<Field>, loc: Option<SourceLocation>)

  datatype Field = Field(name: string, value: Slot)

  datatype Slot =
    | Single(child: Node)
    | Many(elems: seq<Option<Node>>)
    | Leaf

  /** A child of a node together with the field that holds it and, when that
      field is an array, the child's index in it. */
  datatype ChildRef = ChildRef(node: Node, prop: string, index: Option<nat>)

  /** The children of a node in traversal order: fields in key order, array
      elements in index order, holes skipped. */
  function Children(n: Node): (cs: seq<ChildRef>)
    ensures forall c :: c in cs ==> (n decreases to c.node)
  {
    FieldChildren(n.fields)
  }

  function FieldChildren(fs: seq<Field>): (cs: seq<ChildRef>)
    ensures forall c :: c in cs ==> exists f :: f in fs && (f.value decreases to c.node)
  {
    if fs == [] then [] else SlotChildren(fs[0].name, fs[0].value) + FieldChildren(fs[1..])
  }

  function SlotChildren(name: string, s: Slot): (cs: seq<ChildRef>)
    ensures forall c :: c in cs ==> (s decreases to c.node)
  {
    match s
    case Single(c) => [ChildRef(c, name, None)]
    case Many(es) =>
      var cs := ElemChildren(name, es, 0);
      assert forall c :: c in cs ==> Some(c.node) in es;
      cs
    case Leaf => []
  }

  function ElemChildren(name: string, es: seq<Option<Node>>, j: nat): (cs: seq<ChildRef>)
    ensures forall c :: c in cs ==> Some(c.node) in es
    decreases |es| - j
  {
    if j >= |es| then []
    else
      (match es[j] case Some(c) => [ChildRef(c, name, Some(j))] case None => [])
      + ElemChildren(name, es, j + 1)
  }

  /** `parent[prop]`: the value of the first field named `prop`. */
  function Get(fs: seq<Field>, prop: string): Option<Slot>
  {
    if fs == [] then None
    else if fs[0].name == prop then Some(fs[0].value)
    else Get(fs[1..], prop)
  }

  /** `parent[prop]` when `index` is absent, `parent[prop][index]` when the
      field is an array; `None` when that is not a node. */
  function ChildAt(parent: Node, prop: string, index: Option<nat>): Option<Node>
  {
    match Get(parent.fields, prop)
    case None => None
    case Some(s) => SlotAt(s, index)
  }

  function SlotAt(s: Slot, index: Option<nat>): Option<Node>
  {
    match s
    case Single(c) => if index.None? then Some(c) else None
    case Many(es) => if index.Some? && index.value < |es| then es[index.value] else None
    case Leaf => None
  }

  /** A JavaScript object has no two keys with the same name. */
  ghost predicate DistinctNames(fs: seq<Field>)
  {
    forall i, j :: 0 <= i < j < |fs| ==> fs[i].name != fs[j].name
  }

  /** Every node of the tree has distinct field names. */
  ghost predicate WellFormed(n: Node)
    decreases n
  {
    && DistinctNames(n.fields)
    && forall c :: c in Children(n) ==> WellFormed(c.node)
  }

  /** Every node of the tree, in pre-order. */
  function Nodes(n: Node): (ns: seq<Node>)
    decreases n, 1
  {
    [n] + ChildNodes(n, Children(n))
  }

  function ChildNodes(parent: Node, cs: seq<ChildRef>): seq<Node>
    requires forall c :: c in cs ==> (parent decreases to c.node)
    decreases parent, 0, |cs|
  {
    if cs == [] then [] else Nodes(cs[0].node) + ChildNodes(parent, cs[1..])
  }

  /** The nodes of a sequence whose type tag is `tag`, in order. */
  function OfTag(ns: seq<Node>, tag: string): (r: seq<Node>)
    ensures forall m :: m in r <==> m in ns && m.tag == tag
    ensures |r| <= |ns|
  {
    if ns == [] then []
    else
      var last := ns[|ns| - 1];
      assert ns == ns[..|ns| - 1] + [last];
      OfTag(ns[..|ns| - 1], tag) + (if last.tag == tag then [last] else [])
  }

  /** Each child listed by `Children` sits in its parent where it says:
      `parent[prop] == node`, or `parent[prop][index] == node` for an array. */
  lemma {:induction false} ChildrenAreLinked(n: Node, c: ChildRef)
    requires DistinctNames(n.fields)
    requires c in Children(n)
    ensures ChildAt(n, c.prop, c.index) == Some(c.node)
  {
    var k := FieldChildIndex(n.fields, c);
    GetDistinct(n.fields, k);
  }

  /** Conversely, every node reachable as `parent[prop]` or
      `parent[prop][index]` is listed by `Children`. */
  lemma {:induction false} LinkedAreChildren(n: Node, prop: string, index: Option<nat>, d: Node)
    requires ChildAt(n, prop, index) == Some(d)
    ensures ChildRef(d, prop, index) in Children(n)
  {
    GetListed(n.fields, prop, index, d);
  }

  lemma {:induction false} FieldChildIndex(fs: seq<Field>, c: ChildRef) returns (k: nat)
    requires c in FieldChildren(fs)
    ensures k < |fs| && fs[k].name == c.prop && SlotAt(fs[k].value, c.index) == Some(c.node)
    decreases |fs|
  {
    var head := SlotChildren(fs[0].name, fs[0].value);
    if c in head {
      SlotChildLinked(fs[0].name, fs[0].value, c);
      k := 0;
    } else {
      var k' := FieldChildIndex(fs[1..], c);
      k := k' + 1;
    }
  }

  lemma {:induction false} SlotChildLinked(name: string, s: Slot, c: ChildRef)
    requires c in SlotChildren(name, s)
    ensures c.prop == name && SlotAt(s, c.index) == Some(c.node)
  {
    if s.Many? {
      ElemChildLinked(name, s.elems, 0, c);
    }
  }

  lemma {:induction false} ElemChildLinked(name: string, es: seq<Option<Node>>, j: nat, c: ChildRef)
    requires c in ElemChildren(name, es, j)
    ensures c.prop == name && c.index.Some? && j <= c.index.value < |es|
    ensures es[c.index.value] == Some(c.node)
    decreases |es| - j
  {
    var head := match es[j] case Some(x) => [ChildRef(x, name, Some(j))] case None => [];
    if c !in head {
      ElemChildLinked(name, es, j + 1, c);
    }
  }

  lemma {:induction false} GetDistinct(fs: seq<Field>, k: nat)
    requires DistinctNames(fs) && k < |fs|
    ensures Get(fs, fs[k].name) == Some(fs[k].value)
    decreases k
  {
    if k > 0 {
      assert fs[0].name != fs[k].name;
      assert DistinctNames(fs[1..]) by {
        forall i, j | 0 <= i < j < |fs| - 1 ensures fs[1..][i].name != fs[1..][j].name {
          assert fs[1..][i] == fs[i + 1] && fs[1..][j] == fs[j + 1];
        }
      }
      GetDistinct(fs[1..], k - 1);
    }
  }

  lemma {:induction false} GetListed(fs: seq<Field>, prop: string, index: Option<nat>, d: Node)
    requires Get(fs, prop).Some? && SlotAt(Get(fs, prop).value, index) == Some(d)
    ensures ChildRef(d, prop, index) in FieldChildren(fs)
    decreases |fs|
  {
    if fs[0].name == prop {
      SlotListed(prop, fs[0].value, index, d);
    } else {
      GetListed(fs[1..], prop, index, d);
    }
  }

  lemma {:induction false} SlotListed(name: string, s: Slot, index: Option<nat>, d: Node)
    requires SlotAt(s, index) == Some(d)
    ensures ChildRef(d, name, index) in SlotChildren(name, s)
  {
    if s.Many? {
      ElemListed(name, s.elems, 0, index.value, d);
    }
  }

  lemma {:induction false} ElemListed(name: string, es: seq<Option<Node>>, j: nat, i: nat, d: Node)
    requires j <= i < |es| && es[i] == Some(d)
    ensures ChildRef(d, name, Some(i)) in ElemChildren(name, es, j)
    decreases |es| - j
  {
    if j < i {
      ElemListed(name, es, j + 1, i, d);
    }
  }
}
