/**
 * Model of packages/runtime/src/h.js: the three kinds of virtual node and the
 * constructors `h`, `hString` and `hFragment`, which normalise child lists.
 */
module VDom {
  import opened Wrappers
  import opened Arrays
  import opened Objects
  import Values

  /** `DOM_TYPES`: the `type` tag of each kind of virtual node. */
  const TEXT: string := "text"
  const ELEMENT: string := "element"
  const FRAGMENT: string := "fragment"

  /** A `type` tag that is none of `DOM_TYPES`. */
  type UnknownTypeName = s: string | s != TEXT && s != ELEMENT && s != FRAGMENT witness ""

  /** Element props: `class`, `style`, `on` and plain attributes, in key order. */
  type Props = Entries<Values.Value>

  /**
   * A virtual node. `Other` stands for an object whose `type` is not one of
   * `DOM_TYPES`; the constructors never build one, but a child list may hold one.
   */
  datatype VNode =
    | Text(value: string)
    | Element(tag: string, props: Props, children: seq<VNode>)
    | Fragment(children: seq<VNode>)
    | Other(typeName: UnknownTypeName)

  /** The `type` field of a virtual node. */
  function TypeOf(v: VNode): (t: string)
    ensures t == TEXT <==> v.Text?
    ensures t == ELEMENT <==> v.Element?
    ensures t == FRAGMENT <==> v.Fragment?
  {
    match v
    case Text(_) => TEXT
    case Element(_, _, _) => ELEMENT
    case Fragment(_) => FRAGMENT
    case Other(name) => name
  }

  /** What an application may put in a child list, besides `null` and `undefined`. */
  datatype Child = StrChild(s: string) | NodeChild(node: VNode)

  /** `typeof child === "string" ? hString(child) : child`. */
  function ToVNode(c: Child): VNode
  {
    match c
    case StrChild(s) => HString(s)
    case NodeChild(n) => n
  }

  /** `mapTextNodes(children)`, applied to a list that has already lost its nulls. */
  function MapTextNodes(children: seq<Nullable<Child>>): (r: seq<VNode>)
    requires NoNulls(children)
    ensures |r| == |children|
    ensures forall i | 0 <= i < |r| ::
      r[i] == (if children[i].value.StrChild? then Text(children[i].value.s) else children[i].value.node)
  {
    seq(|children|, i requires 0 <= i < |children| => ToVNode(children[i].value))
  }

  /** `mapTextNodes(withoutNulls(children))`, the normalisation `h` and `hFragment` share. */
  function NormalizeChildren(children: seq<Nullable<Child>>): seq<VNode>
  {
    MapTextNodes(WithoutNulls(children))
  }

  /**
   * Reference definition of a normalised child list, one input entry at a
   * time: `null` and `undefined` vanish, strings become text nodes, every other
   * child is kept as it is, and the order is the input order.
   */
  function Normalized(children: seq<Nullable<Child>>): seq<VNode>
  {
    if children == [] then []
    else
      match children[0]
      case Defined(c) => [ToVNode(c)] + Normalized(children[1..])
      case _ => Normalized(children[1..])
  }

  /** Mapping a list that starts with `c` maps `c` first. */
  lemma MapTextNodesCons(c: Nullable<Child>, rest: seq<Nullable<Child>>)
    requires c.Defined? && NoNulls(rest)
    ensures NoNulls([c] + rest)
    ensures MapTextNodes([c] + rest) == [ToVNode(c.value)] + MapTextNodes(rest)
  {
    var l := [c] + rest;
    assert NoNulls(l) by {
      forall i | 0 <= i < |l| ensures l[i].Defined? {
        if i > 0 { assert l[i] == rest[i - 1]; }
      }
    }
    var a, b := MapTextNodes(l), [ToVNode(c.value)] + MapTextNodes(rest);
    forall i | 0 <= i < |a| ensures a[i] == b[i] {
      if i > 0 { assert l[i] == rest[i - 1]; }
    }
  }

  /** The runtime's normalisation agrees with the reference definition. */
  lemma {:induction false} NormalizeChildrenIsNormalized(children: seq<Nullable<Child>>)
    ensures NormalizeChildren(children) == Normalized(children)
  {
    if children != [] {
      NormalizeChildrenIsNormalized(children[1..]);
      var rest := WithoutNulls(children[1..]);
      assert WithoutNulls(children) == Seqs.Filter(children, NotNull);
      if children[0].Defined? {
        assert WithoutNulls(children) == [children[0]] + rest;
        MapTextNodesCons(children[0], rest);
      } else {
        assert WithoutNulls(children) == rest;
      }
    }
  }

  /** A normalised child list has one node per input entry that is not `null` or `undefined`. */
  lemma NormalizedCount(children: seq<Nullable<Child>>)
    ensures |NormalizeChildren(children)| == CountDefined(children)
  {
    WithoutNullsCount(children);
  }

  /** Each string child becomes a text node holding that string, at the same relative position. */
  lemma {:induction false} NormalizedStrings(prefix: seq<Nullable<Child>>, s: string, suffix: seq<Nullable<Child>>)
    ensures |Normalized(prefix + [Defined(StrChild(s))] + suffix)| > CountDefined(prefix)
    ensures Normalized(prefix + [Defined(StrChild(s))] + suffix)[CountDefined(prefix)] == Text(s)
  {
    var children := prefix + [Defined(StrChild(s))] + suffix;
    if prefix == [] {
      assert children[0] == Defined(StrChild(s));
    } else {
      assert children[0] == prefix[0];
      assert children[1..] == prefix[1..] + [Defined(StrChild(s))] + suffix;
      NormalizedStrings(prefix[1..], s, suffix);
    }
  }

  /**
   * `h(tag, props = {}, children = [])`: an element node with the given tag and
   * props, unchanged, and the normalised children. `None` stands for an
   * omitted (undefined) argument.
   */
  function H(tag: string, props: Option<Props>, children: Option<seq<Nullable<Child>>>): (v: VNode)
    ensures v.Element? && TypeOf(v) == ELEMENT
    ensures v.tag == tag
    ensures v.props == (if props.Some? then props.value else [])
    ensures v.children == Normalized(if children.Some? then children.value else [])
  {
    var cs := if children.Some? then children.value else [];
    NormalizeChildrenIsNormalized(cs);
    Element(tag, if props.Some? then props.value else [], NormalizeChildren(cs))
  }

  /** `hString(str)`: a text node holding `str` verbatim and nothing else. */
  function HString(str: string): (v: VNode)
    ensures v.Text? && TypeOf(v) == TEXT && v.value == str
  {
    Text(str)
  }

  /** `hFragment(vNodes)`: a fragment of the normalised children, without tag or props. */
  function HFragment(vNodes: seq<Nullable<Child>>): (v: VNode)
    ensures v.Fragment? && TypeOf(v) == FRAGMENT
    ensures v.children == Normalized(vNodes)
  {
    NormalizeChildrenIsNormalized(vNodes);
    Fragment(NormalizeChildren(vNodes))
  }

  /** The element built in the runtime's own `h` test. */
  lemma ElementExample()
    ensures H("div", Some([("id", Values.Str("test")), ("class", Values.Str("container"))]),
              Some([Defined(NodeChild(HString("helloWorld"))),
                    Defined(NodeChild(H("button", Some([]), Some([Defined(StrChild("Submit"))]))))]))
         == Element("div", [("id", Values.Str("test")), ("class", Values.Str("container"))],
                    [Text("helloWorld"), Element("button", [], [Text("Submit")])])
  {
    var inner: seq<Nullable<Child>> := [Defined(StrChild("Submit"))];
    assert Normalized(inner) == [Text("Submit")];
    var outer: seq<Nullable<Child>> := [Defined(NodeChild(Text("helloWorld"))),
                                        Defined(NodeChild(Element("button", [], [Text("Submit")])))];
    assert outer[1..][1..] == [];
    assert Normalized(outer) == [Text("helloWorld"), Element("button", [], [Text("Submit")])];
  }
}
