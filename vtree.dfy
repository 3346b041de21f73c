/**
 * The mutable side of a virtual tree. The vnodes themselves are the values
 * `h` builds; what `mountDOM` and `destroyDOM` write into them — the `el`
 * reference to a host node and the recorded `listeners` — is kept in slots
 * keyed by the vnode's path from the root.
 */
module VTrees {
  import opened Wrappers
  import opened Seqs
  import opened Objects
  import opened VDom
  import opened Host
  import Values

  /** The child indices leading from the root to a vnode. */
  type Path = seq<nat>

  /** The children of an element or fragment; text nodes and unknown nodes have none. */
  function ChildrenOf(v: VNode): seq<VNode>
  {
    match v
    case Element(_, _, cs) => cs
    case Fragment(cs) => cs
    case _ => []
  }

  /** `q` leads from `v` to one of its descendants (or to `v` itself when empty). */
  predicate ValidPath(v: VNode, q: Path)
    decreases |q|
  {
    q == [] || (q[0] < |ChildrenOf(v)| && ValidPath(ChildrenOf(v)[q[0]], q[1..]))
  }

  /** The vnode `q` leads to from `v`. */
  function At(v: VNode, q: Path): VNode
    requires ValidPath(v, q)
    decreases |q|
  {
    if q == [] then v else At(ChildrenOf(v)[q[0]], q[1..])
  }

  /** A path into child `j` is that child's index followed by a path inside the child. */
  lemma PathIntoChild(v: VNode, j: nat, q: Path)
    requires j < |ChildrenOf(v)|
    ensures ValidPath(v, [j] + q) == ValidPath(ChildrenOf(v)[j], q)
    ensures ValidPath(v, [j] + q) ==> At(v, [j] + q) == At(ChildrenOf(v)[j], q)
  {
    assert ([j] + q)[0] == j && ([j] + q)[1..] == q;
  }

  /** Every non-empty path starts with a child index. */
  lemma PathSplit(v: VNode, q: Path)
    requires ValidPath(v, q) && q != []
    ensures q == [q[0]] + q[1..] && q[0] < |ChildrenOf(v)|
    ensures ValidPath(ChildrenOf(v)[q[0]], q[1..]) && At(v, q) == At(ChildrenOf(v)[q[0]], q[1..])
  {
  }

  /** Extending a path by a child index leads to that child. */
  lemma {:induction false} AtExtend(v: VNode, q: Path, i: nat)
    requires ValidPath(v, q) && i < |ChildrenOf(At(v, q))|
    ensures ValidPath(v, q + [i]) && At(v, q + [i]) == ChildrenOf(At(v, q))[i]
    decreases |q|
  {
    if q == [] {
      assert q + [i] == [i] && [i][1..] == [];
    } else {
      assert (q + [i])[0] == q[0] && (q + [i])[1..] == q[1..] + [i];
      AtExtend(ChildrenOf(v)[q[0]], q[1..], i);
    }
  }

  /** `p` is `q` or an ancestor's path of `q`. */
  predicate Prefix(p: Path, q: Path)
  {
    |p| <= |q| && q[..|p|] == p
  }

  /** Paths into two different children of `p` never have one another as prefix. */
  lemma SiblingsDisjoint(p: Path, i: nat, j: nat, q: Path)
    requires i != j
    ensures !Prefix(p + [i], p + [j] + q)
  {
    assert (p + [j] + q)[|p|] == j && (p + [i])[|p|] == i;
  }

  /** An error raised while mounting or destroying. */
  datatype DomError =
    | TypeError                      // a property of `undefined` was read, or `undefined` was called
    | UnknownType(typeName: string)  // `Can't mount DOM of type ...` / `Can't destroy DOM of type ...`

  datatype Outcome = Ok | Err(error: DomError)

  /** The host arena together with the `el` and `listeners` slots of a virtual tree. */
  datatype DomState = DomState(host: Nodes, el: map<Path, NodeId>, listeners: map<Path, Entries<Values.Handler>>)

  /** Slot `q` holds the same `el` and the same `listeners` in both states. */
  predicate SlotsAgree(st: DomState, r: DomState, q: Path)
  {
    && (q in st.el <==> q in r.el) && (q in st.el ==> st.el[q] == r.el[q])
    && (q in st.listeners <==> q in r.listeners) && (q in st.listeners ==> st.listeners[q] == r.listeners[q])
  }

  /**
   * What unmounting may do to one host node: its kind and its class, style,
   * attributes and properties stay, listeners are only unregistered, it may
   * lose its parent and it may lose children, the others keeping their order.
   */
  predicate NodeEvolves(a: HostNode, b: HostNode)
  {
    && b.kind == a.kind
    && b.attrs == a.attrs.(listeners := b.attrs.listeners)
    && b.attrs.listeners <= a.attrs.listeners
    && (b.parent == a.parent || b.parent.None?)
    && IsSubsequence(b.children, a.children)
  }

  lemma NodeEvolvesRefl(a: HostNode)
    ensures NodeEvolves(a, a)
  {
    SubsequenceRefl(a.children);
  }

  lemma NodeEvolvesTransitive(a: HostNode, b: HostNode, c: HostNode)
    requires NodeEvolves(a, b) && NodeEvolves(b, c)
    ensures NodeEvolves(a, c)
  {
    SubsequenceTransitive(c.children, b.children, a.children);
  }

  /**
   * What unmounting may do to the host tree: nodes are neither created nor
   * deleted, each node only evolves as `NodeEvolves` allows, a well-formed
   * tree stays well formed and a detached node stays detached.
   */
  ghost predicate HostEvolves(h: Nodes, h2: Nodes)
  {
    && h2.Keys == h.Keys
    && (forall n | n in h :: NodeEvolves(h[n], h2[n]))
    && (WellFormed(h) ==> WellFormed(h2))
    && (forall y | Detached(h, y) :: Detached(h2, y))
  }

  /** Slots are only cleared, never written. */
  predicate SlotsShrink(st: DomState, r: DomState)
  {
    && r.el.Keys <= st.el.Keys && (forall q | q in r.el :: r.el[q] == st.el[q])
    && r.listeners.Keys <= st.listeners.Keys && (forall q | q in r.listeners :: r.listeners[q] == st.listeners[q])
  }

  /** What unmounting may do to a state. */
  ghost predicate Evolves(st: DomState, r: DomState)
  {
    HostEvolves(st.host, r.host) && SlotsShrink(st, r)
  }

  /** The slots outside the subtree at `p` are untouched. */
  ghost predicate SameOutside(st: DomState, r: DomState, p: Path)
  {
    forall q | !Prefix(p, q) :: SlotsAgree(st, r, q)
  }

  /** The slots strictly below `p` are the only ones touched. */
  ghost predicate SameOutsideBelow(st: DomState, r: DomState, p: Path)
  {
    forall q | !(Prefix(p, q) && |p| < |q|) :: SlotsAgree(st, r, q)
  }

  lemma EvolvesTransitive(s1: DomState, s2: DomState, s3: DomState)
    requires Evolves(s1, s2) && Evolves(s2, s3)
    ensures Evolves(s1, s3)
  {
    forall n | n in s1.host ensures NodeEvolves(s1.host[n], s3.host[n]) {
      NodeEvolvesTransitive(s1.host[n], s2.host[n], s3.host[n]);
    }
  }

  /** Leaving the host tree alone is an admissible host step. */
  lemma HostEvolvesRefl(h: Nodes)
    ensures HostEvolves(h, h)
  {
    forall n | n in h ensures NodeEvolves(h[n], h[n]) {
      NodeEvolvesRefl(h[n]);
    }
  }

  lemma SameOutsideTransitive(s1: DomState, s2: DomState, s3: DomState, p: Path)
    requires SameOutside(s1, s2, p) && SameOutside(s2, s3, p)
    ensures SameOutside(s1, s3, p)
  {
  }

  lemma BelowImpliesOutside(st: DomState, r: DomState, p: Path)
    requires SameOutsideBelow(st, r, p)
    ensures SameOutside(st, r, p)
  {
    forall q | !Prefix(p, q) ensures SlotsAgree(st, r, q) {
      assert !(Prefix(p, q) && |p| < |q|);
    }
  }

  /** Clearing slot `p`'s `el` is an admissible step that touches nothing else. */
  lemma ClearElEvolves(st: DomState, p: Path)
    ensures Evolves(st, st.(el := st.el - {p}))
    ensures SameOutside(st, st.(el := st.el - {p}), p)
  {
    HostEvolvesRefl(st.host);
  }

  /** A virtual tree whose vnodes can be mounted and unmounted. */
  class VTree {
    /** The vnode tree, as `h`, `hString` and `hFragment` built it. */
    const root: VNode
    /** `vdom.el` of each vnode that has one. */
    var el: map<Path, NodeId>
    /** `vdom.listeners` of each element vnode that records its listeners. */
    var listeners: map<Path, Entries<Values.Handler>>

    constructor(root: VNode, el: map<Path, NodeId>, listeners: map<Path, Entries<Values.Handler>>)
      ensures this.root == root && this.el == el && this.listeners == listeners
    {
      this.root := root;
      this.el := el;
      this.listeners := listeners;
    }
  }

  /** The combined state of a virtual tree and the host tree. */
  function State(t: VTree, host: HostTree): DomState
    reads t, host
  {
    DomState(host.nodes, t.el, t.listeners)
  }
}
