/**
 * Model of packages/runtime/src/destroy-dom.js: unmounting a virtual tree
 * recursively, detaching host nodes, unregistering recorded listeners and
 * clearing `el`. The helpers receive the vnode they work on; the runtime's
 * dispatcher omits that argument, which `DestroyAsWritten` models.
 */
module DestroyDom {
  import opened Wrappers
  import opened Objects
  import opened Seqs
  import opened Host
  import opened VDom
  import opened VTrees
  import opened MountDom
  import Values

  /** The (event, handler) pairs of a recorded `listeners` object. */
  function ListenerSet(listeners: Entries<Values.Handler>): set<Listener>
  {
    set i | 0 <= i < |listeners| :: listeners[i]
  }

  /** `removeTextNode(vdom)`: `el.remove()`, which fails when `el` is missing. */
  function TextRemoved(st: DomState, p: Path): (Outcome, DomState)
  {
    if p !in st.el || st.el[p] !in st.host then (Err(TypeError), st)
    else (Ok, st.(host := Detach(st.host, st.el[p])))
  }

  /**
   * `destroyDOM(vdom)` for the vnode `node` at path `p`: the helper for its
   * type, then `delete vdom.el` if the helper did not throw.
   */
  function DestroySpec(st: DomState, p: Path, node: VNode): (r: (Outcome, DomState))
    ensures r.1.host.Keys == st.host.Keys
    decreases node, 2, 0
  {
    match node
    case Text(_) =>
      var (o, st1) := TextRemoved(st, p);
      if o.Err? then (o, st1) else (Ok, st1.(el := st1.el - {p}))
    case Element(_, _, cs) =>
      var (o, st1) := ElementRemoved(st, p, cs);
      if o.Err? then (o, st1) else (Ok, st1.(el := st1.el - {p}))
    case Fragment(cs) =>
      var (o, st1) := DestroyChildren(st, p, cs, 0);
      if o.Err? then (o, st1) else (Ok, st1.(el := st1.el - {p}))
    case Other(name) => (Err(UnknownType(name)), st)
  }

  /**
   * `removeElementNode(vdom)`: detach `el`, destroy the children in order, then
   * unregister the recorded listeners and delete the `listeners` record.
   */
  function ElementRemoved(st: DomState, p: Path, children: seq<VNode>): (r: (Outcome, DomState))
    ensures r.1.host.Keys == st.host.Keys
    decreases children, 1, 0
  {
    if p !in st.el || st.el[p] !in st.host then (Err(TypeError), st)
    else
      var x := st.el[p];
      var (o, st1) := DestroyChildren(st.(host := Detach(st.host, x)), p, children, 0);
      if o.Err? then (o, st1) else (Ok, Unlistened(st1, x, p))
  }

  /**
   * `if (listeners) { removeEventListeners(listeners, el); delete vdom.listeners }`
   * for the vnode at `p` whose host node is `x`.
   */
  function Unlistened(st: DomState, x: NodeId, p: Path): DomState
    requires x in st.host
  {
    if p in st.listeners then
      st.(host := WithoutListeners(st.host, x, ListenerSet(st.listeners[p])), listeners := st.listeners - {p})
    else st
  }

  /** `children.forEach(destroyDOM)` from child `i` on: the first error stops the walk. */
  function DestroyChildren(st: DomState, p: Path, children: seq<VNode>, i: nat): (r: (Outcome, DomState))
    requires i <= |children|
    ensures r.1.host.Keys == st.host.Keys
    decreases children, 0, |children| - i
  {
    if i == |children| then (Ok, st)
    else
      var (o, st1) := DestroySpec(st, p + [i], children[i]);
      if o.Err? then (o, st1) else DestroyChildren(st1, p, children, i + 1)
  }

  /** Detaching a host node is an admissible step. */
  lemma DetachEvolves(st: DomState, x: NodeId)
    requires x in st.host
    ensures Evolves(st, st.(host := Detach(st.host, x)))
    ensures forall p :: SameOutside(st, st.(host := Detach(st.host, x)), p)
  {
    if WellFormed(st.host) {
      DetachWellFormed(st.host, x);
    }
    forall y | Detached(st.host, y) ensures Detached(Detach(st.host, x), y) {
      DetachKeepsDetached(st.host, x, y);
    }
    var h, h2 := st.host, Detach(st.host, x);
    forall n | n in h ensures NodeEvolves(h[n], h2[n]) {
      NodeEvolvesRefl(h[n]);
      if h[x].parent.Some? && h[x].parent.value == n {
        assert IsSubsequence(RemoveFrom(h[n].children, x), h[n].children);
      }
    }
  }

  /** Unregistering the recorded listeners of slot `p` and deleting the record is an admissible step. */
  lemma UnlistenEvolves(st: DomState, x: NodeId, p: Path)
    requires x in st.host
    ensures Evolves(st, Unlistened(st, x, p))
    ensures SameOutside(st, Unlistened(st, x, p), p)
  {
    HostEvolvesRefl(st.host);
    if p in st.listeners {
      WithoutListenersWellFormed(st.host, x, ListenerSet(st.listeners[p]));
      NodeEvolvesRefl(st.host[x]);
    }
  }

  /**
   * Destroying never creates, deletes or retypes host nodes, only unregisters
   * listeners, keeps the tree well formed and detached nodes detached, only
   * clears slots, and touches no slot outside the subtree at `p`.
   */
  lemma {:induction false} DestroyEvolves(st: DomState, p: Path, node: VNode)
    ensures Evolves(st, DestroySpec(st, p, node).1)
    ensures SameOutside(st, DestroySpec(st, p, node).1, p)
    decreases node, 2, 0
  {
    match node
    case Text(_) =>
      if p in st.el && st.el[p] in st.host {
        DetachEvolves(st, st.el[p]);
        var st1 := st.(host := Detach(st.host, st.el[p]));
        ClearElEvolves(st1, p);
        EvolvesTransitive(st, st1, st1.(el := st1.el - {p}));
      } else {
        HostEvolvesRefl(st.host);
      }
    case Element(_, _, cs) =>
      ElementEvolves(st, p, cs);
      var (o, st1) := ElementRemoved(st, p, cs);
      if o.Ok? {
        ClearElEvolves(st1, p);
        EvolvesTransitive(st, st1, st1.(el := st1.el - {p}));
        SameOutsideTransitive(st, st1, st1.(el := st1.el - {p}), p);
      }
    case Fragment(cs) =>
      DestroyChildrenEvolves(st, p, cs, 0);
      var (o, st1) := DestroyChildren(st, p, cs, 0);
      BelowImpliesOutside(st, st1, p);
      if o.Ok? {
        ClearElEvolves(st1, p);
        EvolvesTransitive(st, st1, st1.(el := st1.el - {p}));
        SameOutsideTransitive(st, st1, st1.(el := st1.el - {p}), p);
      }
    case Other(_) =>
      HostEvolvesRefl(st.host);
  }

  /** The frame of `removeElementNode`: the subtree's slots, `p` included, are the only ones it touches. */
  lemma {:induction false} ElementEvolves(st: DomState, p: Path, cs: seq<VNode>)
    ensures Evolves(st, ElementRemoved(st, p, cs).1)
    ensures SameOutside(st, ElementRemoved(st, p, cs).1, p)
    decreases cs, 1, 0
  {
    if p in st.el && st.el[p] in st.host {
      var x := st.el[p];
      var st0 := st.(host := Detach(st.host, x));
      DetachEvolves(st, x);
      DestroyChildrenEvolves(st0, p, cs, 0);
      var (o, st1) := DestroyChildren(st0, p, cs, 0);
      ElementSteps(st, st0, st1, x, p);
      assert ElementRemoved(st, p, cs).1 == if o.Ok? then Unlistened(st1, x, p) else st1;
    } else {
      HostEvolvesRefl(st.host);
    }
  }

  /** Detaching, walking the children and unregistering the listeners compose into an admissible step. */
  lemma ElementSteps(st: DomState, st0: DomState, st1: DomState, x: NodeId, p: Path)
    requires Evolves(st, st0) && SameOutside(st, st0, p)
    requires Evolves(st0, st1) && SameOutsideBelow(st0, st1, p) && x in st1.host
    ensures Evolves(st, st1) && SameOutside(st, st1, p)
    ensures Evolves(st, Unlistened(st1, x, p)) && SameOutside(st, Unlistened(st1, x, p), p)
  {
    EvolvesTransitive(st, st0, st1);
    BelowImpliesOutside(st0, st1, p);
    SameOutsideTransitive(st, st0, st1, p);
    UnlistenEvolves(st1, x, p);
    EvolvesTransitive(st, st1, Unlistened(st1, x, p));
    SameOutsideTransitive(st, st1, Unlistened(st1, x, p), p);
  }

  /** The frame of the children walk: only slots strictly below `p` are touched. */
  lemma {:induction false} DestroyChildrenEvolves(st: DomState, p: Path, cs: seq<VNode>, i: nat)
    requires i <= |cs|
    ensures Evolves(st, DestroyChildren(st, p, cs, i).1)
    ensures SameOutsideBelow(st, DestroyChildren(st, p, cs, i).1, p)
    decreases cs, 0, |cs| - i
  {
    if i < |cs| {
      DestroyEvolves(st, p + [i], cs[i]);
      var (o, st1) := DestroySpec(st, p + [i], cs[i]);
      assert SameOutsideBelow(st, st1, p) by {
        forall q | !(Prefix(p, q) && |p| < |q|) ensures SlotsAgree(st, st1, q) {
          assert !Prefix(p + [i], q);
        }
      }
      if o.Ok? {
        DestroyChildrenEvolves(st1, p, cs, i + 1);
        EvolvesTransitive(st, st1, DestroyChildren(st1, p, cs, i + 1).1);
      }
    } else {
      HostEvolvesRefl(st.host);
    }
  }

  /** The vnode at `q` can be unmounted: a text or element vnode has an `el` in the host tree. */
  ghost predicate MountedAt(st: DomState, q: Path, v: VNode)
  {
    match v
    case Text(_) => q in st.el && st.el[q] in st.host
    case Element(_, _, _) => q in st.el && st.el[q] in st.host
    case Fragment(_) => true
    case Other(_) => false
  }

  /** Every vnode of the subtree at `p` can be unmounted. */
  ghost predicate Mounted(st: DomState, p: Path, node: VNode)
  {
    forall q | ValidPath(node, q) :: MountedAt(st, p + q, At(node, q))
  }

  /** Every vnode below children `i..` of the vnode at `p` can be unmounted. */
  ghost predicate MountedChildren(st: DomState, p: Path, cs: seq<VNode>, i: nat)
  {
    forall j, q | i <= j < |cs| && ValidPath(cs[j], q) :: MountedAt(st, p + [j] + q, At(cs[j], q))
  }

  /**
   * The vnode `v` at `q`, mounted in `st0`, is unmounted in `r`: no `el`, no
   * `listeners` record on an element, its host node detached (for a
   * well-formed tree), and none of its recorded listeners still registered.
   */
  ghost predicate UnmountedAt(st0: DomState, r: DomState, q: Path, v: VNode)
  {
    && q !in r.el
    && (v.Element? ==> q !in r.listeners)
    && ((v.Text? || v.Element?) && q in st0.el && WellFormed(st0.host) ==> Detached(r.host, st0.el[q]))
    && (v.Element? && q in st0.el && q in st0.listeners && st0.el[q] in r.host ==>
          ListenerSet(st0.listeners[q]) !! r.host[st0.el[q]].attrs.listeners)
  }

  ghost predicate Unmounted(st0: DomState, r: DomState, p: Path, node: VNode)
  {
    forall q | ValidPath(node, q) :: UnmountedAt(st0, r, p + q, At(node, q))
  }

  ghost predicate ChildrenUnmounted(st0: DomState, r: DomState, p: Path, cs: seq<VNode>, i: nat)
  {
    forall j, q | i <= j < |cs| && ValidPath(cs[j], q) :: UnmountedAt(st0, r, p + [j] + q, At(cs[j], q))
  }

  /** A mounted subtree is a mounted root over mounted children. */
  lemma MountedSplit(st: DomState, p: Path, node: VNode)
    requires Mounted(st, p, node)
    ensures MountedAt(st, p, node) && MountedChildren(st, p, ChildrenOf(node), 0)
  {
    assert ValidPath(node, []) && p + [] == p;
    forall j, q | 0 <= j < |ChildrenOf(node)| && ValidPath(ChildrenOf(node)[j], q)
      ensures MountedAt(st, p + [j] + q, At(ChildrenOf(node)[j], q))
    {
      PathIntoChild(node, j, q);
      assert p + ([j] + q) == p + [j] + q;
    }
  }

  /** An unmounted root over unmounted children is an unmounted subtree. */
  lemma UnmountedJoin(st0: DomState, r: DomState, p: Path, node: VNode)
    requires UnmountedAt(st0, r, p, node) && ChildrenUnmounted(st0, r, p, ChildrenOf(node), 0)
    ensures Unmounted(st0, r, p, node)
  {
    forall q | ValidPath(node, q) ensures UnmountedAt(st0, r, p + q, At(node, q)) {
      if q == [] {
        assert p + q == p;
      } else {
        PathSplit(node, q);
        assert p + q == p + [q[0]] + q[1..];
      }
    }
  }

  /** Later admissible steps keep an unmounted vnode unmounted. */
  lemma UnmountedAtEvolves(st0: DomState, r: DomState, r2: DomState, q: Path, v: VNode)
    requires UnmountedAt(st0, r, q, v) && Evolves(r, r2)
    ensures UnmountedAt(st0, r2, q, v)
  {
  }

  /** What is established for a child, relative to the state the child started from, holds relative to the start. */
  lemma UnmountedAtRebase(st0: DomState, st1: DomState, r: DomState, q: Path, v: VNode)
    requires UnmountedAt(st1, r, q, v) && SlotsAgree(st0, st1, q) && (WellFormed(st0.host) ==> WellFormed(st1.host))
    ensures UnmountedAt(st0, r, q, v)
  {
  }

  /** Destroying child `i` leaves the later siblings mounted. */
  lemma MountedSiblings(st: DomState, st1: DomState, p: Path, cs: seq<VNode>, i: nat)
    requires i < |cs| && MountedChildren(st, p, cs, i)
    requires st1.host.Keys == st.host.Keys && SameOutside(st, st1, p + [i])
    ensures MountedChildren(st1, p, cs, i + 1)
  {
    forall j, q | i + 1 <= j < |cs| && ValidPath(cs[j], q) ensures MountedAt(st1, p + [j] + q, At(cs[j], q)) {
      SiblingsDisjoint(p, i, j, q);
      assert SlotsAgree(st, st1, p + [j] + q);
    }
  }

  /**
   * Destroying a subtree whose text and element vnodes all have an `el`
   * succeeds and unmounts every vnode of it: `el` and `listeners` cleared,
   * host nodes detached, recorded listeners unregistered.
   */
  lemma {:induction false} DestroyUnmounts(st: DomState, p: Path, node: VNode)
    requires Mounted(st, p, node)
    ensures DestroySpec(st, p, node).0 == Ok
    ensures Unmounted(st, DestroySpec(st, p, node).1, p, node)
    decreases node, 2, 0
  {
    MountedSplit(st, p, node);
    var (o, r) := DestroySpec(st, p, node);
    match node
    case Text(_) =>
      var x := st.el[p];
      if WellFormed(st.host) {
        DetachWellFormed(st.host, x);
      }
      assert UnmountedAt(st, r, p, node);
      UnmountedJoin(st, r, p, node);
    case Element(_, _, cs) =>
      ElementUnmounts(st, p, cs);
      var (o1, st1) := ElementRemoved(st, p, cs);
      ClearElEvolves(st1, p);
      assert UnmountedAt(st, r, p, node);
      ChildrenUnmountedEvolves(st, st1, r, p, cs, 0);
      UnmountedJoin(st, r, p, node);
    case Fragment(cs) =>
      ChildrenUnmount(st, p, cs, 0);
      var (o1, st1) := DestroyChildren(st, p, cs, 0);
      ClearElEvolves(st1, p);
      ChildrenUnmountedEvolves(st, st1, r, p, cs, 0);
      UnmountedJoin(st, r, p, node);
  }

  lemma ChildrenUnmountedEvolves(st0: DomState, r: DomState, r2: DomState, p: Path, cs: seq<VNode>, i: nat)
    requires ChildrenUnmounted(st0, r, p, cs, i) && Evolves(r, r2)
    ensures ChildrenUnmounted(st0, r2, p, cs, i)
  {
    forall j, q | i <= j < |cs| && ValidPath(cs[j], q) ensures UnmountedAt(st0, r2, p + [j] + q, At(cs[j], q)) {
      UnmountedAtEvolves(st0, r, r2, p + [j] + q, At(cs[j], q));
    }
  }

  /** Detaching `el` first does not change what the children walk establishes about the slots. */
  lemma ChildrenUnmountedRebase(st: DomState, st0: DomState, r: DomState, p: Path, cs: seq<VNode>)
    requires ChildrenUnmounted(st0, r, p, cs, 0)
    requires st0.el == st.el && st0.listeners == st.listeners && (WellFormed(st.host) ==> WellFormed(st0.host))
    ensures ChildrenUnmounted(st, r, p, cs, 0)
  {
    forall j, q | 0 <= j < |cs| && ValidPath(cs[j], q) ensures UnmountedAt(st, r, p + [j] + q, At(cs[j], q)) {
      UnmountedAtRebase(st, st0, r, p + [j] + q, At(cs[j], q));
    }
  }

  /** Unregistering the recorded listeners leaves none of them registered and deletes the record. */
  lemma UnlistenEffect(st: DomState, x: NodeId, p: Path)
    requires x in st.host
    ensures var r := Unlistened(st, x, p);
      p !in r.listeners && r.el == st.el
      && (p in st.listeners ==> ListenerSet(st.listeners[p]) !! r.host[x].attrs.listeners)
  {
  }

  /** `removeElementNode` on a mounted element: its own node and every vnode below it are unmounted. */
  lemma {:induction false} ElementUnmounts(st: DomState, p: Path, cs: seq<VNode>)
    requires p in st.el && st.el[p] in st.host && MountedChildren(st, p, cs, 0)
    ensures ElementRemoved(st, p, cs).0 == Ok
    ensures var r := ElementRemoved(st, p, cs).1;
      && ChildrenUnmounted(st, r, p, cs, 0)
      && p !in r.listeners && p in r.el
      && (WellFormed(st.host) ==> Detached(r.host, st.el[p]))
      && (p in st.listeners ==> ListenerSet(st.listeners[p]) !! r.host[st.el[p]].attrs.listeners)
    decreases cs, 1, 0
  {
    var x := st.el[p];
    var st0 := st.(host := Detach(st.host, x));
    DetachEvolves(st, x);
    if WellFormed(st.host) {
      DetachWellFormed(st.host, x);
    }
    ChildrenUnmount(st0, p, cs, 0);
    DestroyChildrenEvolves(st0, p, cs, 0);
    var (o, st1) := DestroyChildren(st0, p, cs, 0);
    assert SlotsAgree(st0, st1, p);
    ChildrenUnmountedRebase(st, st0, st1, p, cs);
    UnlistenEvolves(st1, x, p);
    UnlistenEffect(st1, x, p);
    var st2 := Unlistened(st1, x, p);
    ChildrenUnmountedEvolves(st, st1, st2, p, cs, 0);
    assert ElementRemoved(st, p, cs) == (Ok, st2);
  }

  /** The children walk over mounted children succeeds and unmounts each of them. */
  lemma {:induction false} ChildrenUnmount(st: DomState, p: Path, cs: seq<VNode>, i: nat)
    requires i <= |cs| && MountedChildren(st, p, cs, i)
    ensures DestroyChildren(st, p, cs, i).0 == Ok
    ensures ChildrenUnmounted(st, DestroyChildren(st, p, cs, i).1, p, cs, i)
    decreases cs, 0, |cs| - i
  {
    if i < |cs| {
      assert Mounted(st, p + [i], cs[i]) by {
        forall q | ValidPath(cs[i], q) ensures MountedAt(st, p + [i] + q, At(cs[i], q)) {
        }
      }
      DestroyUnmounts(st, p + [i], cs[i]);
      DestroyEvolves(st, p + [i], cs[i]);
      var (o, st1) := DestroySpec(st, p + [i], cs[i]);
      MountedSiblings(st, st1, p, cs, i);
      ChildrenUnmount(st1, p, cs, i + 1);
      DestroyChildrenEvolves(st1, p, cs, i + 1);
      ChildrenUnmountedCons(st, st1, DestroyChildren(st1, p, cs, i + 1).1, p, cs, i);
    }
  }

  /** Unmounting child `i` and then the later children unmounts the children from `i` on. */
  lemma ChildrenUnmountedCons(st: DomState, st1: DomState, r: DomState, p: Path, cs: seq<VNode>, i: nat)
    requires i < |cs|
    requires Unmounted(st, st1, p + [i], cs[i]) && Evolves(st, st1) && SameOutside(st, st1, p + [i])
    requires Evolves(st1, r) && ChildrenUnmounted(st1, r, p, cs, i + 1)
    ensures ChildrenUnmounted(st, r, p, cs, i)
  {
    forall j, q | i <= j < |cs| && ValidPath(cs[j], q) ensures UnmountedAt(st, r, p + [j] + q, At(cs[j], q)) {
      if j == i {
        UnmountedAtEvolves(st, st1, r, p + [i] + q, At(cs[i], q));
      } else {
        SiblingsDisjoint(p, i, j, q);
        assert SlotsAgree(st, st1, p + [j] + q);
        UnmountedAtRebase(st, st1, r, p + [j] + q, At(cs[j], q));
      }
    }
  }

  /**
   * Destroying a mounted text vnode removes its host node from its parent's
   * child list, leaves the other children in order and every other node as
   * it was, and clears `el`.
   */
  lemma DestroyText(st: DomState, p: Path, value: string)
    requires WellFormed(st.host) && p in st.el && st.el[p] in st.host
    ensures var (o, r) := DestroySpec(st, p, Text(value)); var x := st.el[p];
      && o == Ok
      && r.el == st.el - {p} && r.listeners == st.listeners
      && WellFormed(r.host) && Detached(r.host, x)
      && (st.host[x].parent != Some(x) ==> r.host[x] == st.host[x].(parent := None))
      && (forall n | n in st.host && n != x && Some(n) != st.host[x].parent :: r.host[n] == st.host[n])
      && (st.host[x].parent.Some? ==>
            r.host[st.host[x].parent.value].children == RemoveFrom(st.host[st.host[x].parent.value].children, x))
  {
    DetachWellFormed(st.host, st.el[p]);
  }

  /** A vnode of unknown type raises an error naming its type and changes nothing. */
  lemma DestroyUnknown(st: DomState, p: Path, node: VNode)
    requires TypeOf(node) != TEXT && TypeOf(node) != ELEMENT && TypeOf(node) != FRAGMENT
    ensures DestroySpec(st, p, node) == (Err(UnknownType(TypeOf(node))), st)
  {
  }

  /** A text or element vnode without `el` cannot be destroyed: `el.remove()` fails before anything changes. */
  lemma DestroyWithoutEl(st: DomState, p: Path, node: VNode)
    requires node.Text? || node.Element?
    requires p !in st.el
    ensures DestroySpec(st, p, node) == (Err(TypeError), st)
  {
  }

  /**
   * Mounting a text vnode into a parent and destroying it again restores the
   * parent's child list and the vnode's slots; the host keeps the detached
   * text node, which nothing references.
   */
  lemma MountThenDestroy(st: DomState, newId: NodeId, p: Path, value: string, parentEl: NodeId)
    requires WellFormed(st.host) && newId !in st.host && parentEl in st.host && p !in st.el
    ensures DestroySpec(MountSpec(st, newId, p, Text(value), Some(parentEl)).1, p, Text(value))
         == (Ok, st.(host := AddText(st.host, newId, value)))
  {
    AppendThenDetach(st.host, parentEl, newId, value);
    assert st.el[p := newId] - {p} == st.el;
  }

  /**
   * `destroyDOM(vdom)` as written: the dispatcher calls `removeTextNode()`,
   * `removeElementNode()` and `removeFragmentNode()` without the vnode, so the
   * helpers destructure `undefined` and throw before anything changes.
   */
  function DestroyAsWritten(st: DomState, p: Path, node: VNode): (r: (Outcome, DomState))
    ensures r.1 == st
    ensures r.0.Err?
  {
    match node
    case Other(name) => (Err(UnknownType(name)), st)
    case _ => (Err(TypeError), st)
  }

  /**
   * The runtime's own test case fails as written: the text vnode
   * `hString("helloWorld")` mounted into the body cannot be destroyed, while
   * the helpers, given the vnode, destroy it.
   */
  lemma DestroyAsWrittenFailsOnMountedText(st: DomState, body: NodeId, newId: NodeId)
    requires WellFormed(st.host) && body in st.host && newId !in st.host && [] !in st.el
    ensures var mounted := MountSpec(st, newId, [], HString("helloWorld"), Some(body));
      && mounted.0 == Ok
      && DestroyAsWritten(mounted.1, [], HString("helloWorld")) == (Err(TypeError), mounted.1)
      && DestroySpec(mounted.1, [], HString("helloWorld")).0 == Ok
  {
    MountThenDestroy(st, newId, [], "helloWorld", body);
  }

  /** `removeEventListeners(listeners, el)`: unregisters each recorded (event, handler) pair. */
  method RemoveEventListeners(host: HostTree, listeners: Entries<Values.Handler>, el: NodeId)
    requires host.Valid() && el in host.nodes
    modifies host
    ensures host.Valid() && host.next == old(host.next)
    ensures host.nodes == WithoutListeners(old(host.nodes), el, ListenerSet(listeners))
  {
    ghost var nodes0 := host.nodes;
    assert ListenerSet(listeners[..0]) == {};
    assert WithoutListeners(nodes0, el, {}) == nodes0 by {
      assert nodes0[el].attrs.listeners - {} == nodes0[el].attrs.listeners;
    }
    var i := 0;
    while i < |listeners|
      invariant 0 <= i <= |listeners|
      invariant host.Valid() && host.next == old(host.next) && el in host.nodes
      invariant host.nodes == WithoutListeners(nodes0, el, ListenerSet(listeners[..i]))
    {
      var (event, handler) := listeners[i];
      host.RemoveEventListener(el, event, handler);
      WithoutListenersTwice(nodes0, el, ListenerSet(listeners[..i]), {(event, handler)});
      assert ListenerSet(listeners[..i + 1]) == ListenerSet(listeners[..i]) + {(event, handler)} by {
        assert forall k | 0 <= k < i :: listeners[..i + 1][k] == listeners[..i][k];
        assert listeners[..i + 1][i] == listeners[i];
      }
      i := i + 1;
    }
    assert listeners[..|listeners|] == listeners;
  }

  /** `removeTextNode(vdom)`. */
  method RemoveTextNode(t: VTree, host: HostTree, path: Path) returns (outcome: Outcome)
    requires host.Valid()
    modifies host
    ensures host.Valid() && host.next == old(host.next)
    ensures (outcome, State(t, host)) == TextRemoved(old(State(t, host)), path)
  {
    if path !in t.el || t.el[path] !in host.nodes {
      return Err(TypeError);
    }
    host.Remove(t.el[path]);
    outcome := Ok;
  }

  /** `removeElementNode(vdom)` for the element vnode at `path`. */
  method RemoveElementNode(t: VTree, host: HostTree, path: Path) returns (outcome: Outcome)
    requires host.Valid() && ValidPath(t.root, path) && At(t.root, path).Element?
    modifies t, host
    ensures host.Valid() && host.next == old(host.next)
    ensures (outcome, State(t, host)) == ElementRemoved(old(State(t, host)), path, At(t.root, path).children)
    decreases At(t.root, path), 1
  {
    if path !in t.el || t.el[path] !in host.nodes {
      return Err(TypeError);
    }
    var el := t.el[path];
    host.Remove(el);
    outcome := DestroyChildNodes(t, host, path);
    if outcome.Err? {
      return;
    }
    if path in t.listeners {
      RemoveEventListeners(host, t.listeners[path], el);
      t.listeners := t.listeners - {path};
    }
  }

  /**
   * `children.forEach((child) => destroyDOM(child))`, the whole of
   * `removeFragmentNode(vdom)` and the second step of `removeElementNode(vdom)`.
   */
  method DestroyChildNodes(t: VTree, host: HostTree, path: Path) returns (outcome: Outcome)
    requires host.Valid() && ValidPath(t.root, path)
    modifies t, host
    ensures host.Valid() && host.next == old(host.next)
    ensures (outcome, State(t, host)) == DestroyChildren(old(State(t, host)), path, ChildrenOf(At(t.root, path)), 0)
    decreases At(t.root, path), 0
  {
    var children := ChildrenOf(At(t.root, path));
    ghost var start := State(t, host);
    var i := 0;
    while i < |children|
      invariant 0 <= i <= |children|
      invariant host.Valid() && host.next == old(host.next)
      invariant DestroyChildren(State(t, host), path, children, i) == DestroyChildren(start, path, children, 0)
    {
      AtExtend(t.root, path, i);
      ghost var before := State(t, host);
      var o := DestroyDOM(t, host, path + [i]);
      if o.Err? {
        assert DestroyChildren(before, path, children, i) == (o, State(t, host));
        return o;
      }
      i := i + 1;
    }
    outcome := Ok;
  }

  /** `destroyDOM(vdom)` for the vnode at `path`, with each helper given the vnode. */
  method DestroyDOM(t: VTree, host: HostTree, path: Path) returns (outcome: Outcome)
    requires host.Valid() && ValidPath(t.root, path)
    modifies t, host
    ensures host.Valid() && host.next == old(host.next)
    ensures (outcome, State(t, host)) == DestroySpec(old(State(t, host)), path, At(t.root, path))
    decreases At(t.root, path), 2
  {
    match At(t.root, path) {
      case Text(_) =>
        outcome := RemoveTextNode(t, host, path);
      case Element(_, _, _) =>
        outcome := RemoveElementNode(t, host, path);
      case Fragment(_) =>
        outcome := DestroyChildNodes(t, host, path);
      case Other(name) =>
        return Err(UnknownType(name));
    }
    if outcome.Ok? {
      t.el := t.el - {path};
    }
  }
}
