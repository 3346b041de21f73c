/**
 * The host rendering tree the runtime writes into, as an arena of nodes. Each
 * node has a parent and an ordered list of children; an element also carries
 * its class name, inline style, attribute table, properties and the set of
 * (event, handler) listeners registered on it.
 */
module Host {
  import opened Wrappers
  import opened Seqs
  import Values

  type NodeId = nat

  /** A registered listener: the event name and the handler's identity. */
  type Listener = (string, Values.Handler)

  datatype HostKind = TextNode(data: string) | ElementNode(tagName: string)

  datatype ElementAttrs = ElementAttrs(
    className: string,
    style: map<string, Values.Value>,
    attributes: map<string, Values.Value>,
    properties: map<string, Values.Value>,
    listeners: set<Listener>)

  /** The state of a freshly created node: no class, style, attributes, properties or listeners. */
  const NoAttrs: ElementAttrs := ElementAttrs("", map[], map[], map[], {})

  datatype HostNode = HostNode(kind: HostKind, parent: Option<NodeId>, children: seq<NodeId>, attrs: ElementAttrs)

  type Nodes = map<NodeId, HostNode>

  /** A node's parent, if it has one, lists it among its children. */
  ghost predicate ParentLinked(nodes: Nodes, n: NodeId)
    requires n in nodes
  {
    match nodes[n].parent
    case None => true
    case Some(p) => p in nodes && n in nodes[p].children
  }

  /** A node's children are distinct nodes of the arena whose parent is that node. */
  ghost predicate ChildrenLinked(nodes: Nodes, n: NodeId)
    requires n in nodes
  {
    && Distinct(nodes[n].children)
    && forall c | c in nodes[n].children :: c in nodes && nodes[c].parent == Some(n)
  }

  /** Parent and child links agree everywhere. */
  ghost predicate WellFormed(nodes: Nodes)
  {
    forall n | n in nodes :: ParentLinked(nodes, n) && ChildrenLinked(nodes, n)
  }

  /** `x` is in the arena but in nobody's child list and has no parent. */
  ghost predicate Detached(nodes: Nodes, x: NodeId)
  {
    && x in nodes
    && nodes[x].parent.None?
    && forall n | n in nodes :: x !in nodes[n].children
  }

  /** `children` without `x`. */
  function RemoveFrom(children: seq<NodeId>, x: NodeId): (r: seq<NodeId>)
    ensures forall c :: c in r <==> c in children && c != x
  {
    Filter(children, c => c != x)
  }

  /** `document.createTextNode(data)` stored under the fresh id `id`. */
  function AddText(nodes: Nodes, id: NodeId, data: string): Nodes
  {
    nodes[id := HostNode(TextNode(data), None, [], NoAttrs)]
  }

  /** `document.createElement(tag)` stored under the fresh id `id`. */
  function AddElement(nodes: Nodes, id: NodeId, tag: string): Nodes
  {
    nodes[id := HostNode(ElementNode(tag), None, [], NoAttrs)]
  }

  /** `parent.append(child)` for a child that has no parent yet: it becomes the last child. */
  function AppendChild(nodes: Nodes, parent: NodeId, child: NodeId): (r: Nodes)
    requires parent in nodes && child in nodes && parent != child
  {
    nodes[child := nodes[child].(parent := Some(parent))]
         [parent := nodes[parent].(children := nodes[parent].children + [child])]
  }

  /** `x.remove()`: `x` leaves its parent's child list; without a parent nothing happens. */
  function Detach(nodes: Nodes, x: NodeId): (r: Nodes)
    ensures r.Keys == nodes.Keys
    ensures forall n | n in nodes :: r[n].kind == nodes[n].kind && r[n].attrs == nodes[n].attrs
  {
    if x !in nodes then nodes
    else
      match nodes[x].parent
      case None => nodes
      case Some(p) =>
        var n1 := if p in nodes then nodes[p := nodes[p].(children := RemoveFrom(nodes[p].children, x))] else nodes;
        n1[x := n1[x].(parent := None)]
  }

  /** `x`'s attribute state replaced by `a`. */
  function WithAttrs(nodes: Nodes, x: NodeId, a: ElementAttrs): Nodes
    requires x in nodes
  {
    nodes[x := nodes[x].(attrs := a)]
  }

  /** A later replacement of `x`'s attribute state overrides an earlier one. */
  lemma WithAttrsTwice(nodes: Nodes, x: NodeId, a: ElementAttrs, b: ElementAttrs)
    requires x in nodes
    ensures WithAttrs(WithAttrs(nodes, x, a), x, b) == WithAttrs(nodes, x, b)
    ensures WithAttrs(nodes, x, a)[x].attrs == a && WithAttrs(nodes, x, a)[x].kind == nodes[x].kind
  {
  }

  /** Each listener in `ls` unregistered from `x`. */
  function WithoutListeners(nodes: Nodes, x: NodeId, ls: set<Listener>): (r: Nodes)
    requires x in nodes
    ensures r.Keys == nodes.Keys
    ensures r[x].attrs.listeners == nodes[x].attrs.listeners - ls
    ensures r[x] == nodes[x].(attrs := r[x].attrs) && r[x].attrs == nodes[x].attrs.(listeners := r[x].attrs.listeners)
    ensures forall n | n in nodes && n != x :: r[n] == nodes[n]
  {
    WithAttrs(nodes, x, nodes[x].attrs.(listeners := nodes[x].attrs.listeners - ls))
  }

  /** Changing only attribute state keeps the tree well formed. */
  lemma WithAttrsWellFormed(nodes: Nodes, x: NodeId, a: ElementAttrs)
    requires WellFormed(nodes) && x in nodes
    ensures WellFormed(WithAttrs(nodes, x, a))
    ensures forall y | Detached(nodes, y) :: Detached(WithAttrs(nodes, x, a), y)
  {
    var r := WithAttrs(nodes, x, a);
    forall n | n in r ensures ParentLinked(r, n) && ChildrenLinked(r, n) {
      assert ParentLinked(nodes, n) && ChildrenLinked(nodes, n);
    }
  }

  /** A fresh, parentless node keeps the tree well formed. */
  lemma AddNodeWellFormed(nodes: Nodes, id: NodeId, node: HostNode)
    requires WellFormed(nodes) && id !in nodes
    requires node.parent.None? && node.children == []
    ensures WellFormed(nodes[id := node])
    ensures Detached(nodes[id := node], id)
  {
    var r := nodes[id := node];
    forall n | n in r ensures ParentLinked(r, n) && ChildrenLinked(r, n) {
      if n != id {
        assert ParentLinked(nodes, n) && ChildrenLinked(nodes, n);
      }
    }
    forall n | n in r ensures id !in r[n].children {
      if n != id {
        assert ChildrenLinked(nodes, n);
      }
    }
  }

  /** Appending a parentless node keeps the tree well formed. */
  lemma AppendChildWellFormed(nodes: Nodes, parent: NodeId, child: NodeId)
    requires WellFormed(nodes)
    requires parent in nodes && child in nodes && parent != child
    requires nodes[child].parent.None?
    ensures WellFormed(AppendChild(nodes, parent, child))
  {
    var r := AppendChild(nodes, parent, child);
    assert child !in nodes[parent].children by {
      assert ChildrenLinked(nodes, parent);
    }
    forall n | n in r ensures ParentLinked(r, n) && ChildrenLinked(r, n) {
      assert ParentLinked(nodes, n) && ChildrenLinked(nodes, n);
      if n == parent {
        var cs := r[parent].children;
        assert cs == nodes[parent].children + [child];
        forall i, j | 0 <= i < j < |cs| ensures cs[i] != cs[j] {
          if j == |cs| - 1 {
            assert cs[i] in nodes[parent].children;
          }
        }
      } else {
        forall c | c in r[n].children ensures c != child {
          assert c in nodes[n].children;
        }
      }
    }
  }

  /** `x.remove()` keeps the tree well formed and leaves `x` detached. */
  lemma DetachWellFormed(nodes: Nodes, x: NodeId)
    requires WellFormed(nodes) && x in nodes
    ensures WellFormed(Detach(nodes, x))
    ensures Detached(Detach(nodes, x), x)
  {
    var r := Detach(nodes, x);
    assert ParentLinked(nodes, x);
    match nodes[x].parent
    case None =>
      forall n | n in nodes ensures x !in nodes[n].children {
        assert ChildrenLinked(nodes, n);
      }
    case Some(p) =>
      assert r[x].parent == None;
      forall n | n in r ensures ParentLinked(r, n) && ChildrenLinked(r, n) && x !in r[n].children {
        assert ParentLinked(nodes, n) && ChildrenLinked(nodes, n);
        if n == p {
          FilterDistinct(nodes[p].children, c => c != x);
          assert r[n].children == RemoveFrom(nodes[p].children, x);
        } else {
          assert r[n].children == nodes[n].children;
          assert x !in nodes[n].children;
        }
        if n != x {
          assert r[n].parent == nodes[n].parent;
          match nodes[n].parent
          case None =>
          case Some(q) =>
            assert ParentLinked(nodes, n);
            if q == p {
              assert n in RemoveFrom(nodes[p].children, x);
            } else {
              assert r[q].children == nodes[q].children;
            }
        }
      }
  }

  /** Detaching one node leaves every already detached node detached. */
  lemma DetachKeepsDetached(nodes: Nodes, x: NodeId, y: NodeId)
    requires Detached(nodes, y)
    ensures Detached(Detach(nodes, x), y)
  {
  }

  /** Unregistering two batches of listeners one after the other unregisters their union. */
  lemma WithoutListenersTwice(nodes: Nodes, x: NodeId, ls1: set<Listener>, ls2: set<Listener>)
    requires x in nodes
    ensures WithoutListeners(WithoutListeners(nodes, x, ls1), x, ls2) == WithoutListeners(nodes, x, ls1 + ls2)
  {
    assert nodes[x].attrs.listeners - ls1 - ls2 == nodes[x].attrs.listeners - (ls1 + ls2);
  }

  /** Unregistering listeners keeps the tree well formed and keeps detached nodes detached. */
  lemma WithoutListenersWellFormed(nodes: Nodes, x: NodeId, ls: set<Listener>)
    requires x in nodes
    ensures WellFormed(nodes) ==> WellFormed(WithoutListeners(nodes, x, ls))
    ensures forall y | Detached(nodes, y) :: Detached(WithoutListeners(nodes, x, ls), y)
  {
    if WellFormed(nodes) {
      WithAttrsWellFormed(nodes, x, nodes[x].attrs.(listeners := nodes[x].attrs.listeners - ls));
    }
  }

  /** Removing the last child again gives back the earlier list. */
  lemma RemoveAppended(cs: seq<NodeId>, id: NodeId)
    requires id !in cs
    ensures RemoveFrom(cs + [id], id) == cs
  {
    FilterConcat(cs, [id], c => c != id);
    FilterKeepsAll(cs, c => c != id);
  }

  /**
   * Appending a fresh text node and then removing it restores every other
   * node: the parent's child list is what it was, and the text node stays
   * behind, detached.
   */
  lemma AppendThenDetach(nodes: Nodes, parent: NodeId, id: NodeId, data: string)
    requires WellFormed(nodes) && parent in nodes && id !in nodes
    ensures Detach(AppendChild(AddText(nodes, id, data), parent, id), id) == AddText(nodes, id, data)
  {
    var n1 := AddText(nodes, id, data);
    var n2 := AppendChild(n1, parent, id);
    var cs := nodes[parent].children;
    assert id !in cs by {
      assert ChildrenLinked(nodes, parent);
    }
    RemoveAppended(cs, id);
    assert n2[id].parent == Some(parent) && n2[parent].children == cs + [id];
    var m1 := n2[parent := n2[parent].(children := cs)];
    assert m1 == n1[id := n1[id].(parent := Some(parent))];
    assert Detach(n2, id) == m1[id := m1[id].(parent := None)];
  }

  /** The host's document: the node arena, the next fresh id, and the properties it refuses to null. */
  class HostTree {
    var nodes: Nodes
    var next: NodeId
    /** Property names whose assignment to `null` the host rejects with an exception. */
    const nullRejecting: set<string>

    ghost predicate Valid()
      reads this
    {
      WellFormed(nodes) && forall n | n in nodes :: n < next
    }

    constructor(nullRejecting: set<string>)
      ensures Valid() && nodes == map[] && next == 0
      ensures this.nullRejecting == nullRejecting
    {
      nodes := map[];
      next := 0;
      this.nullRejecting := nullRejecting;
    }

    /** `document.createTextNode(data)`. */
    method CreateTextNode(data: string) returns (id: NodeId)
      requires Valid()
      modifies this
      ensures Valid() && id == old(next) && next == old(next) + 1
      ensures id !in old(nodes) && nodes == AddText(old(nodes), id, data)
    {
      id := next;
      AddNodeWellFormed(nodes, id, HostNode(TextNode(data), None, [], NoAttrs));
      nodes := AddText(nodes, id, data);
      next := next + 1;
    }

    /** `document.createElement(tag)`. */
    method CreateElement(tag: string) returns (id: NodeId)
      requires Valid()
      modifies this
      ensures Valid() && id == old(next) && next == old(next) + 1
      ensures id !in old(nodes) && nodes == AddElement(old(nodes), id, tag)
    {
      id := next;
      AddNodeWellFormed(nodes, id, HostNode(ElementNode(tag), None, [], NoAttrs));
      nodes := AddElement(nodes, id, tag);
      next := next + 1;
    }

    /** `parent.append(child)` for a child that has no parent yet. */
    method Append(parent: NodeId, child: NodeId)
      requires Valid()
      requires parent in nodes && child in nodes && parent != child
      requires nodes[parent].kind.ElementNode? && nodes[child].parent.None?
      modifies this
      ensures Valid() && next == old(next)
      ensures nodes == AppendChild(old(nodes), parent, child)
    {
      AppendChildWellFormed(nodes, parent, child);
      nodes := AppendChild(nodes, parent, child);
    }

    /** `x.remove()`. */
    method Remove(x: NodeId)
      requires Valid() && x in nodes
      modifies this
      ensures Valid() && next == old(next)
      ensures nodes == Detach(old(nodes), x)
    {
      DetachWellFormed(nodes, x);
      nodes := Detach(nodes, x);
    }

    /** `x.removeEventListener(event, handler)`. */
    method RemoveEventListener(x: NodeId, event: string, handler: Values.Handler)
      requires Valid() && x in nodes
      modifies this
      ensures Valid() && next == old(next)
      ensures nodes == WithoutListeners(old(nodes), x, {(event, handler)})
    {
      WithoutListenersWellFormed(nodes, x, {(event, handler)});
      nodes := WithoutListeners(nodes, x, {(event, handler)});
    }

    /** Writes to `x.className`, `x.style`, `x`'s attribute table or its properties. */
    method SetAttrs(x: NodeId, a: ElementAttrs)
      requires Valid() && x in nodes
      modifies this
      ensures Valid() && next == old(next)
      ensures nodes == WithAttrs(old(nodes), x, a)
    {
      WithAttrsWellFormed(nodes, x, a);
      nodes := WithAttrs(nodes, x, a);
    }
  }
}
