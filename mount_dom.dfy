/**
 * Model of packages/runtime/src/mount-dom.js. Only text vnodes are mounted;
 * the element and fragment cases are empty stubs in the runtime.
 */
module MountDom {
  import opened Wrappers
  import opened Host
  import opened VDom
  import opened VTrees

  /**
   * The outcome and the state `mountDOM(vdom, parentEl)` leaves, for the vnode
   * `node` at path `p`, when the host hands out `newId` as the next node id.
   * For a text vnode the host node is created and recorded in `el` before the
   * append, so a missing parent (`None`) fails only after those two steps.
   */
  function MountSpec(st: DomState, newId: NodeId, p: Path, node: VNode, parentEl: Option<NodeId>): (Outcome, DomState)
    requires newId !in st.host
    requires parentEl.Some? ==> parentEl.value in st.host
  {
    match node
    case Text(value) =>
      var created := st.(host := AddText(st.host, newId, value), el := st.el[p := newId]);
      if parentEl.None? then (Err(TypeError), created)
      else (Ok, created.(host := AppendChild(created.host, parentEl.value, newId)))
    case Element(_, _, _) => (Ok, st)
    case Fragment(_) => (Ok, st)
    case Other(name) => (Err(UnknownType(name)), st)
  }

  /**
   * Mounting a text vnode into a parent: a newId text node holding exactly the
   * vnode's value becomes the parent's last child, the parent's earlier
   * children keep their order, `el` records the new node, and nothing else in
   * the host tree or the slots changes.
   */
  lemma MountText(st: DomState, newId: NodeId, p: Path, value: string, parentEl: NodeId)
    requires newId !in st.host && parentEl in st.host
    ensures var (o, r) := MountSpec(st, newId, p, Text(value), Some(parentEl));
      && o == Ok
      && r.host.Keys == st.host.Keys + {newId}
      && r.host[newId] == HostNode(TextNode(value), Some(parentEl), [], NoAttrs)
      && r.host[parentEl] == st.host[parentEl].(children := st.host[parentEl].children + [newId])
      && (forall n | n in st.host && n != parentEl :: r.host[n] == st.host[n])
      && r.el == st.el[p := newId] && r.listeners == st.listeners
      && (WellFormed(st.host) ==> WellFormed(r.host))
  {
    var created := AddText(st.host, newId, value);
    if WellFormed(st.host) {
      AddNodeWellFormed(st.host, newId, HostNode(TextNode(value), None, [], NoAttrs));
      AppendChildWellFormed(created, parentEl, newId);
    }
  }

  /** Without a parent the text node is still created and recorded, then the append fails. */
  lemma MountTextWithoutParent(st: DomState, newId: NodeId, p: Path, value: string)
    requires newId !in st.host
    ensures var (o, r) := MountSpec(st, newId, p, Text(value), None);
      && o == Err(TypeError)
      && r.el == st.el[p := newId] && r.listeners == st.listeners
      && (WellFormed(st.host) ==> WellFormed(r.host) && Detached(r.host, newId))
      && r.host[newId].kind == TextNode(value)
      && (forall n | n in st.host :: r.host[n] == st.host[n])
  {
    if WellFormed(st.host) {
      AddNodeWellFormed(st.host, newId, HostNode(TextNode(value), None, [], NoAttrs));
    }
  }

  /** Element and fragment vnodes are not mounted at all: nothing changes and no error is raised. */
  lemma MountStubs(st: DomState, newId: NodeId, p: Path, node: VNode, parentEl: Option<NodeId>)
    requires newId !in st.host
    requires parentEl.Some? ==> parentEl.value in st.host
    requires node.Element? || node.Fragment?
    ensures MountSpec(st, newId, p, node, parentEl) == (Ok, st)
  {
  }

  /** A vnode of unknown type raises an error naming its type and changes nothing. */
  lemma MountUnknown(st: DomState, newId: NodeId, p: Path, node: VNode, parentEl: Option<NodeId>)
    requires newId !in st.host
    requires parentEl.Some? ==> parentEl.value in st.host
    requires TypeOf(node) != TEXT && TypeOf(node) != ELEMENT && TypeOf(node) != FRAGMENT
    ensures MountSpec(st, newId, p, node, parentEl) == (Err(UnknownType(TypeOf(node))), st)
  {
  }

  /** `createTextNode(vdom, parentEl)`. */
  method CreateTextNode(t: VTree, host: HostTree, path: Path, value: string, parentEl: Option<NodeId>) returns (outcome: Outcome)
    requires host.Valid()
    requires parentEl.Some? ==> parentEl.value in host.nodes && host.nodes[parentEl.value].kind.ElementNode?
    modifies t, host
    ensures host.Valid() && host.next == old(host.next) + 1
    ensures (outcome, State(t, host)) == MountSpec(old(State(t, host)), old(host.next), path, Text(value), parentEl)
  {
    var textNode := host.CreateTextNode(value);
    t.el := t.el[path := textNode];
    if parentEl.None? {
      outcome := Err(TypeError);
    } else {
      host.Append(parentEl.value, textNode);
      outcome := Ok;
    }
  }

  /** `mountDOM(vdom, parentEl)` for the vnode at `path`; `None` is a missing parent. */
  method MountDOM(t: VTree, host: HostTree, path: Path, parentEl: Option<NodeId>) returns (outcome: Outcome)
    requires host.Valid() && ValidPath(t.root, path)
    requires parentEl.Some? ==> parentEl.value in host.nodes && host.nodes[parentEl.value].kind.ElementNode?
    modifies t, host
    ensures host.Valid()
    ensures (outcome, State(t, host)) == MountSpec(old(State(t, host)), old(host.next), path, At(t.root, path), parentEl)
  {
    var vdom := At(t.root, path);
    match vdom {
      case Text(value) =>
        outcome := CreateTextNode(t, host, path, value, parentEl);
      case Element(_, _, _) =>
        outcome := Ok;
      case Fragment(_) =>
        outcome := Ok;
      case Other(name) =>
        outcome := Err(UnknownType(name));
    }
  }
}
