/**
 * Model of packages/runtime/src/attributes.js: writing a vnode's props onto a
 * host element. Each operation is a method on the host arena; what it leaves
 * behind is given by a function of the element's previous attribute state.
 */
module Attributes {
  import opened Wrappers
  import opened Seqs
  import opened Values
  import opened Objects
  import opened Host

  /** The ASCII whitespace that separates class tokens. */
  predicate IsWhitespace(c: char)
  {
    c == ' ' || c == '\t' || c == '\n' || c == '\r' || c == '\U{C}'
  }

  /** A token `classList.add` accepts: non-empty and without whitespace. */
  predicate ValidToken(t: string)
  {
    t != "" && forall i | 0 <= i < |t| :: !IsWhitespace(t[i])
  }

  /** The tokens in the order of their first occurrence, each once (a token list is an ordered set). */
  function Dedup(ts: seq<string>): (r: seq<string>)
    ensures Distinct(r)
    ensures forall t :: t in r <==> t in ts
  {
    if ts == [] then []
    else
      var d := Dedup(ts[..|ts| - 1]);
      assert forall t :: t in ts <==> t in ts[..|ts| - 1] || t == ts[|ts| - 1] by {
        assert ts == ts[..|ts| - 1] + [ts[|ts| - 1]];
      }
      if ts[|ts| - 1] in d then d else d + [ts[|ts| - 1]]
  }

  /** Without repeated tokens there is nothing to drop. */
  lemma {:induction false} DedupOfDistinct(ts: seq<string>)
    requires Distinct(ts)
    ensures Dedup(ts) == ts
  {
    if ts != [] {
      var init := ts[..|ts| - 1];
      assert Distinct(init) by {
        forall i, j | 0 <= i < j < |init| ensures init[i] != init[j] {
          assert init[i] == ts[i] && init[j] == ts[j];
        }
      }
      DedupOfDistinct(init);
      assert ts[|ts| - 1] !in init by {
        forall k | 0 <= k < |init| ensures init[k] != ts[|ts| - 1] {
          assert init[k] == ts[k];
        }
      }
      assert ts == init + [ts[|ts| - 1]];
    }
  }

  /** `tokens.join(sep)`. */
  function Join(tokens: seq<string>, sep: string): string
  {
    if tokens == [] then ""
    else if |tokens| == 1 then tokens[0]
    else Join(tokens[..|tokens| - 1], sep) + sep + tokens[|tokens| - 1]
  }

  /**
   * The class name `setClass(el, className)` leaves: it first clears the
   * class, then assigns a string verbatim or adds the tokens of an array.
   */
  function ClassNameFor(className: Value): (r: string)
    requires className.StrList? ==> forall i | 0 <= i < |className.items| :: ValidToken(className.items[i])
    ensures className.Str? ==> r == className.s
    ensures className.StrList? && Distinct(className.items) ==> r == Join(className.items, " ")
    ensures !className.Str? && !className.StrList? ==> r == ""
  {
    match className
    case Str(s) => s
    case StrList(ts) =>
      if Distinct(ts) then DedupOfDistinct(ts); Join(Dedup(ts), " ")
      else Join(Dedup(ts), " ")
    case _ => ""
  }

  /** The class list of the runtime's test: `["foo", "bar", "test"]` gives `"foo bar test"`. */
  lemma ClassListExample()
    ensures ClassNameFor(StrList(["foo", "bar", "test"])) == "foo bar test"
  {
    var ts := ["foo", "bar", "test"];
    assert ValidToken("foo") && ValidToken("bar") && ValidToken("test");
    assert Distinct(ts);
    assert ts[..2] == ["foo", "bar"] && ts[..2][..1] == ["foo"];
    assert Join(["foo"], " ") == "foo";
    assert Join(["foo", "bar"], " ") == "foo bar";
    assert Join(ts, " ") == "foo bar test";
  }

  /** The two maps agree at `k`: both lack it or both hold the same value. */
  predicate Agree(m1: map<string, Value>, m2: map<string, Value>, k: string)
  {
    (k in m1 <==> k in m2) && (k in m1 ==> m1[k] == m2[k])
  }

  /** The style map after `setStyle` for each entry, in order. */
  function ApplyStyles(style: map<string, Value>, entries: Entries<Value>): map<string, Value>
  {
    if entries == [] then style
    else
      var last := entries[|entries| - 1];
      ApplyStyles(style, entries[..|entries| - 1])[last.0 := last.1]
  }

  /**
   * Each style entry sets its own property, and style properties the entries
   * do not mention keep their values.
   */
  lemma {:induction false} ApplyStylesEffect(style: map<string, Value>, entries: Entries<Value>)
    ensures forall k | !HasKey(entries, k) :: Agree(style, ApplyStyles(style, entries), k)
    ensures DistinctKeys(entries) ==>
      forall i | 0 <= i < |entries| :: entries[i].0 in ApplyStyles(style, entries) && ApplyStyles(style, entries)[entries[i].0] == entries[i].1
  {
    if entries != [] {
      var init := entries[..|entries| - 1];
      var last := entries[|entries| - 1];
      ApplyStylesEffect(style, init);
      assert Keys(entries) == Keys(init) + [last.0];
      forall k | !HasKey(entries, k) ensures Agree(style, ApplyStyles(style, entries), k) {
        assert !HasKey(init, k) && k != last.0;
      }
      if DistinctKeys(entries) {
        assert DistinctKeys(init) by {
          forall i, j | 0 <= i < j < |init| ensures Keys(init)[i] != Keys(init)[j] {
            assert Keys(entries)[i] != Keys(entries)[j];
          }
        }
        forall i | 0 <= i < |init| ensures init[i].0 != last.0 {
          assert Keys(entries)[i] != Keys(entries)[|entries| - 1];
        }
      }
    }
  }

  /** `name.startsWith(prefix)`. */
  predicate StartsWith(name: string, prefix: string)
  {
    |prefix| <= |name| && name[..|prefix|] == prefix
  }

  /**
   * `removeAttribute(el, name)`: the property is set to null unless the host
   * rejects that (the rejection is caught), and the attribute is removed in
   * every case.
   */
  function AttributeRemoved(a: ElementAttrs, name: string, nullRejecting: set<string>): ElementAttrs
  {
    var a1 := if name in nullRejecting then a else a.(properties := a.properties[name := Null]);
    a1.(attributes := a1.attributes - {name})
  }

  /**
   * `setAttribute(el, name, value)`: `null` removes, a `data-` name goes to the
   * attribute table, any other name is written as a property.
   */
  function AttributeSet(a: ElementAttrs, name: string, value: Value, nullRejecting: set<string>): ElementAttrs
  {
    if value == Null then AttributeRemoved(a, name, nullRejecting)
    else if StartsWith(name, "data-") then a.(attributes := a.attributes[name := value])
    else a.(properties := a.properties[name := value])
  }

  /** The attribute state after `setAttribute` for each entry, in order. */
  function ApplyOthers(a: ElementAttrs, entries: Entries<Value>, nullRejecting: set<string>): ElementAttrs
  {
    if entries == [] then a
    else
      var last := entries[|entries| - 1];
      AttributeSet(ApplyOthers(a, entries[..|entries| - 1], nullRejecting), last.0, last.1, nullRejecting)
  }

  /** What `setAttribute` does with the entry `(name, value)` of a list without repeated keys. */
  ghost predicate EntryApplied(a: ElementAttrs, r: ElementAttrs, name: string, value: Value, nullRejecting: set<string>)
  {
    if value == Null then
      && name !in r.attributes
      && (if name in nullRejecting then Agree(a.properties, r.properties, name)
          else name in r.properties && r.properties[name] == Null)
    else if StartsWith(name, "data-") then
      name in r.attributes && r.attributes[name] == value && Agree(a.properties, r.properties, name)
    else
      name in r.properties && r.properties[name] == value && Agree(a.attributes, r.attributes, name)
  }

  /** `setAttribute` of one name changes nothing but that name's attribute and property. */
  lemma AttributeSetFrame(a: ElementAttrs, name: string, value: Value, nullRejecting: set<string>, k: string)
    requires k != name
    ensures var r := AttributeSet(a, name, value, nullRejecting);
      Agree(a.attributes, r.attributes, k) && Agree(a.properties, r.properties, k)
  {
  }

  /**
   * Writing plain attributes never touches the class, the style or the
   * listeners, and never changes a name the entries do not mention.
   */
  lemma {:induction false} ApplyOthersFrame(a: ElementAttrs, entries: Entries<Value>, nullRejecting: set<string>)
    ensures var r := ApplyOthers(a, entries, nullRejecting);
      && r.className == a.className && r.style == a.style && r.listeners == a.listeners
      && (forall k | !HasKey(entries, k) :: Agree(a.attributes, r.attributes, k) && Agree(a.properties, r.properties, k))
  {
    if entries != [] {
      var init := entries[..|entries| - 1];
      var last := entries[|entries| - 1];
      ApplyOthersFrame(a, init, nullRejecting);
      assert Keys(entries) == Keys(init) + [last.0];
      var mid := ApplyOthers(a, init, nullRejecting);
      forall k | !HasKey(entries, k)
        ensures Agree(a.attributes, ApplyOthers(a, entries, nullRejecting).attributes, k)
        ensures Agree(a.properties, ApplyOthers(a, entries, nullRejecting).properties, k)
      {
        assert !HasKey(init, k) && k != last.0;
        AttributeSetFrame(mid, last.0, last.1, nullRejecting, k);
      }
    }
  }

  /** Each entry of a list without repeated keys is applied as `setAttribute` prescribes. */
  lemma {:induction false} ApplyOthersEntries(a: ElementAttrs, entries: Entries<Value>, nullRejecting: set<string>)
    requires DistinctKeys(entries)
    ensures forall i | 0 <= i < |entries| ::
      EntryApplied(a, ApplyOthers(a, entries, nullRejecting), entries[i].0, entries[i].1, nullRejecting)
  {
    if entries != [] {
      var init := entries[..|entries| - 1];
      var last := entries[|entries| - 1];
      assert Keys(entries) == Keys(init) + [last.0];
      assert DistinctKeys(init) by {
        forall i, j | 0 <= i < j < |init| ensures Keys(init)[i] != Keys(init)[j] {
          assert Keys(entries)[i] != Keys(entries)[j];
        }
      }
      ApplyOthersEntries(a, init, nullRejecting);
      var mid := ApplyOthers(a, init, nullRejecting);
      var r := ApplyOthers(a, entries, nullRejecting);
      assert !HasKey(init, last.0) by {
        forall i | 0 <= i < |init| ensures Keys(init)[i] != last.0 {
          assert Keys(entries)[i] != Keys(entries)[|entries| - 1];
        }
      }
      ApplyOthersFrame(a, init, nullRejecting);
      assert EntryApplied(a, r, last.0, last.1, nullRejecting);
      forall i | 0 <= i < |init| ensures EntryApplied(a, r, init[i].0, init[i].1, nullRejecting) {
        assert Keys(entries)[i] != Keys(entries)[|entries| - 1];
        AttributeSetFrame(mid, last.0, last.1, nullRejecting, init[i].0);
      }
      forall i | 0 <= i < |entries| ensures EntryApplied(a, r, entries[i].0, entries[i].1, nullRejecting) {
        if i < |init| {
          assert entries[i] == init[i];
        }
      }
    }
  }

  /** The value of `attributes[key]`, `undefined` when the key is absent. */
  function ValueOf(attributes: Entries<Value>, key: string): Value
  {
    match Lookup(attributes, key)
    case Some(v) => v
    case None => Undefined
  }

  /** `Object.entries(style)` for an object; other values are treated as having no entries. */
  function StyleEntries(style: Value): Entries<Value>
  {
    if style.Obj? then style.entries else []
  }

  /** The `...otherAttributes` of `const { class: className, style, ...otherAttributes } = attributes`. */
  function RestEntries(attributes: Entries<Value>): (r: Entries<Value>)
    ensures forall k :: HasKey(r, k) <==> HasKey(attributes, k) && k != "class" && k != "style"
    ensures DistinctKeys(attributes) ==> DistinctKeys(r)
  {
    RestKeys(attributes);
    if DistinctKeys(attributes) then
      FilterDistinctKeys(attributes, (e: (string, Value)) => e.0 != "class" && e.0 != "style");
      Filter(attributes, (e: (string, Value)) => e.0 != "class" && e.0 != "style")
    else
      Filter(attributes, (e: (string, Value)) => e.0 != "class" && e.0 != "style")
  }

  /** The keys left after dropping the `class` and `style` entries. */
  lemma RestKeys(attributes: Entries<Value>)
    ensures var r := Filter(attributes, (e: (string, Value)) => e.0 != "class" && e.0 != "style");
      forall k :: HasKey(r, k) <==> HasKey(attributes, k) && k != "class" && k != "style"
  {
    var r := Filter(attributes, (e: (string, Value)) => e.0 != "class" && e.0 != "style");
    forall k ensures HasKey(r, k) <==> HasKey(attributes, k) && k != "class" && k != "style" {
      if HasKey(r, k) {
        var i :| 0 <= i < |r| && Keys(r)[i] == k;
        assert r[i] in attributes;
        var j :| 0 <= j < |attributes| && attributes[j] == r[i];
        assert Keys(attributes)[j] == k;
      }
      if HasKey(attributes, k) && k != "class" && k != "style" {
        var j :| 0 <= j < |attributes| && Keys(attributes)[j] == k;
        assert attributes[j] in r;
        var i :| 0 <= i < |r| && r[i] == attributes[j];
        assert Keys(r)[i] == k;
      }
    }
  }

  /** The class value, if it is a list, consists of tokens `classList.add` accepts. */
  predicate ClassTokensValid(className: Value)
  {
    className.StrList? ==> forall i | 0 <= i < |className.items| :: ValidToken(className.items[i])
  }

  /**
   * The attribute state `setAttributes(el, attributes)` leaves: the class only
   * when `class` is truthy, the style entries only when `style` is truthy, and
   * then every other entry, `on` included, through `setAttribute`.
   */
  function AttributesApplied(a: ElementAttrs, attributes: Entries<Value>, nullRejecting: set<string>): ElementAttrs
    requires ClassTokensValid(ValueOf(attributes, "class"))
  {
    var className := ValueOf(attributes, "class");
    var a1 := if Truthy(className) then a.(className := ClassNameFor(className)) else a;
    var style := ValueOf(attributes, "style");
    var a2 := if Truthy(style) then a1.(style := ApplyStyles(a1.style, StyleEntries(style))) else a1;
    ApplyOthers(a2, RestEntries(attributes), nullRejecting)
  }

  /**
   * What `setAttributes` promises: the class is replaced only by a truthy
   * `class`; the style changes only for a truthy `style`, and then each style
   * entry sets its property while the properties it does not mention keep
   * their values; the listeners are untouched, names that are not mentioned
   * keep their attribute and property, and every other entry (`on` among them)
   * is applied as `setAttribute` prescribes.
   */
  lemma AttributesAppliedEffect(a: ElementAttrs, attributes: Entries<Value>, nullRejecting: set<string>)
    requires ClassTokensValid(ValueOf(attributes, "class"))
    requires DistinctKeys(attributes)
    ensures var r := AttributesApplied(a, attributes, nullRejecting);
      && r.className == (if Truthy(ValueOf(attributes, "class")) then ClassNameFor(ValueOf(attributes, "class")) else a.className)
      && (!Truthy(ValueOf(attributes, "style")) ==> r.style == a.style)
      && (forall k | !HasKey(StyleEntries(ValueOf(attributes, "style")), k) :: Agree(a.style, r.style, k))
      && (Truthy(ValueOf(attributes, "style")) && DistinctKeys(StyleEntries(ValueOf(attributes, "style"))) ==>
            forall i | 0 <= i < |StyleEntries(ValueOf(attributes, "style"))| ::
              var e := StyleEntries(ValueOf(attributes, "style"))[i];
              e.0 in r.style && r.style[e.0] == e.1)
      && r.listeners == a.listeners
      && (forall k | !HasKey(attributes, k) :: Agree(a.attributes, r.attributes, k) && Agree(a.properties, r.properties, k))
      && (forall i | 0 <= i < |attributes| && attributes[i].0 != "class" && attributes[i].0 != "style" ::
            EntryApplied(a, r, attributes[i].0, attributes[i].1, nullRejecting))
  {
    var className := ValueOf(attributes, "class");
    var a1 := if Truthy(className) then a.(className := ClassNameFor(className)) else a;
    var style := ValueOf(attributes, "style");
    var a2 := if Truthy(style) then a1.(style := ApplyStyles(a1.style, StyleEntries(style))) else a1;
    ApplyStylesEffect(a1.style, StyleEntries(style));
    var rest := RestEntries(attributes);
    ApplyOthersFrame(a2, rest, nullRejecting);
    ApplyOthersEntries(a2, rest, nullRejecting);
    var r := ApplyOthers(a2, rest, nullRejecting);
    forall i | 0 <= i < |attributes| && attributes[i].0 != "class" && attributes[i].0 != "style"
      ensures EntryApplied(a, r, attributes[i].0, attributes[i].1, nullRejecting)
    {
      assert attributes[i] in rest;
      var j :| 0 <= j < |rest| && rest[j] == attributes[i];
      assert EntryApplied(a2, r, rest[j].0, rest[j].1, nullRejecting);
    }
  }

  /** An `on` entry is not set aside: it is written as the property `on`. */
  lemma OnIsAProperty(a: ElementAttrs, attributes: Entries<Value>, nullRejecting: set<string>, handlers: Entries<Value>)
    requires ClassTokensValid(ValueOf(attributes, "class"))
    requires DistinctKeys(attributes)
    requires Lookup(attributes, "on") == Some(Obj(handlers))
    ensures "on" in AttributesApplied(a, attributes, nullRejecting).properties
    ensures AttributesApplied(a, attributes, nullRejecting).properties["on"] == Obj(handlers)
  {
    AttributesAppliedEffect(a, attributes, nullRejecting);
    var i :| 0 <= i < |attributes| && attributes[i] == ("on", Obj(handlers));
    assert !StartsWith("on", "data-");
  }

  /** `setClass(el, className)`. */
  method SetClass(host: HostTree, el: NodeId, className: Value)
    requires host.Valid() && el in host.nodes && host.nodes[el].kind.ElementNode?
    requires ClassTokensValid(className)
    modifies host
    ensures host.Valid() && host.next == old(host.next)
    ensures host.nodes == WithAttrs(old(host.nodes), el, old(host.nodes[el].attrs).(className := ClassNameFor(className)))
  {
    host.SetAttrs(el, host.nodes[el].attrs.(className := ""));
    match className {
      case Str(s) =>
        host.SetAttrs(el, host.nodes[el].attrs.(className := s));
      case StrList(ts) =>
        host.SetAttrs(el, host.nodes[el].attrs.(className := Join(Dedup(ts), " ")));
      case _ =>
    }
  }

  /** `setStyle(el, name, value)`. */
  method SetStyle(host: HostTree, el: NodeId, name: string, value: Value)
    requires host.Valid() && el in host.nodes && host.nodes[el].kind.ElementNode?
    modifies host
    ensures host.Valid() && host.next == old(host.next)
    ensures host.nodes == WithAttrs(old(host.nodes), el,
      old(host.nodes[el].attrs).(style := old(host.nodes[el].attrs.style)[name := value]))
  {
    host.SetAttrs(el, host.nodes[el].attrs.(style := host.nodes[el].attrs.style[name := value]));
  }

  /** `removeStyle(el, name)`: the style property becomes null. */
  method RemoveStyle(host: HostTree, el: NodeId, name: string)
    requires host.Valid() && el in host.nodes && host.nodes[el].kind.ElementNode?
    modifies host
    ensures host.Valid() && host.next == old(host.next)
    ensures host.nodes == WithAttrs(old(host.nodes), el,
      old(host.nodes[el].attrs).(style := old(host.nodes[el].attrs.style)[name := Null]))
  {
    host.SetAttrs(el, host.nodes[el].attrs.(style := host.nodes[el].attrs.style[name := Null]));
  }

  /** `removeAttribute(el, name)`; `warned` tells whether the host rejected nulling the property. */
  method RemoveAttribute(host: HostTree, el: NodeId, name: string) returns (warned: bool)
    requires host.Valid() && el in host.nodes && host.nodes[el].kind.ElementNode?
    modifies host
    ensures host.Valid() && host.next == old(host.next)
    ensures warned <==> name in host.nullRejecting
    ensures host.nodes == WithAttrs(old(host.nodes), el, AttributeRemoved(old(host.nodes[el].attrs), name, host.nullRejecting))
  {
    warned := name in host.nullRejecting;
    if !warned {
      host.SetAttrs(el, host.nodes[el].attrs.(properties := host.nodes[el].attrs.properties[name := Null]));
    }
    host.SetAttrs(el, host.nodes[el].attrs.(attributes := host.nodes[el].attrs.attributes - {name}));
  }

  /** `setAttribute(el, name, value)`. */
  method SetAttribute(host: HostTree, el: NodeId, name: string, value: Value)
    requires host.Valid() && el in host.nodes && host.nodes[el].kind.ElementNode?
    modifies host
    ensures host.Valid() && host.next == old(host.next)
    ensures host.nodes == WithAttrs(old(host.nodes), el, AttributeSet(old(host.nodes[el].attrs), name, value, host.nullRejecting))
  {
    if value == Null {
      var _ := RemoveAttribute(host, el, name);
    } else if StartsWith(name, "data-") {
      host.SetAttrs(el, host.nodes[el].attrs.(attributes := host.nodes[el].attrs.attributes[name := value]));
    } else {
      host.SetAttrs(el, host.nodes[el].attrs.(properties := host.nodes[el].attrs.properties[name := value]));
    }
  }

  /** The loop of `setAttributes` that calls `setStyle` for each style entry. */
  method SetStyles(host: HostTree, el: NodeId, entries: Entries<Value>)
    requires host.Valid() && el in host.nodes && host.nodes[el].kind.ElementNode?
    modifies host
    ensures host.Valid() && host.next == old(host.next)
    ensures host.nodes == WithAttrs(old(host.nodes), el,
      old(host.nodes[el].attrs).(style := ApplyStyles(old(host.nodes[el].attrs.style), entries)))
  {
    ghost var nodes0 := host.nodes;
    ghost var a := host.nodes[el].attrs;
    var i := 0;
    while i < |entries|
      invariant 0 <= i <= |entries|
      invariant host.Valid() && host.next == old(host.next)
      invariant host.nodes == WithAttrs(nodes0, el, a.(style := ApplyStyles(a.style, entries[..i])))
    {
      assert entries[..i + 1][..i] == entries[..i];
      SetStyle(host, el, entries[i].0, entries[i].1);
      i := i + 1;
    }
    assert entries[..|entries|] == entries;
  }

  /** The loop of `setAttributes` that calls `setAttribute` for each remaining entry. */
  method SetOtherAttributes(host: HostTree, el: NodeId, entries: Entries<Value>)
    requires host.Valid() && el in host.nodes && host.nodes[el].kind.ElementNode?
    modifies host
    ensures host.Valid() && host.next == old(host.next)
    ensures host.nodes == WithAttrs(old(host.nodes), el, ApplyOthers(old(host.nodes[el].attrs), entries, host.nullRejecting))
  {
    ghost var nodes0 := host.nodes;
    ghost var a := host.nodes[el].attrs;
    var i := 0;
    while i < |entries|
      invariant 0 <= i <= |entries|
      invariant host.Valid() && host.next == old(host.next)
      invariant host.nodes == WithAttrs(nodes0, el, ApplyOthers(a, entries[..i], host.nullRejecting))
    {
      assert entries[..i + 1][..i] == entries[..i];
      SetAttribute(host, el, entries[i].0, entries[i].1);
      i := i + 1;
    }
    assert entries[..|entries|] == entries;
  }

  /** `setAttributes(el, attributes)`. */
  method SetAttributes(host: HostTree, el: NodeId, attributes: Entries<Value>)
    requires host.Valid() && el in host.nodes && host.nodes[el].kind.ElementNode?
    requires ClassTokensValid(ValueOf(attributes, "class"))
    modifies host
    ensures host.Valid() && host.next == old(host.next)
    ensures host.nodes == WithAttrs(old(host.nodes), el, AttributesApplied(old(host.nodes[el].attrs), attributes, host.nullRejecting))
  {
    ghost var nodes0 := host.nodes;
    ghost var a := host.nodes[el].attrs;
    var className := ValueOf(attributes, "class");
    var style := ValueOf(attributes, "style");
    var otherAttributes := RestEntries(attributes);
    if Truthy(className) {
      SetClass(host, el, className);
      WithAttrsTwice(nodes0, el, a, a.(className := ClassNameFor(className)));
    }
    ghost var a1 := if Truthy(className) then a.(className := ClassNameFor(className)) else a;
    assert host.nodes == WithAttrs(nodes0, el, a1);
    if Truthy(style) {
      SetStyles(host, el, StyleEntries(style));
      WithAttrsTwice(nodes0, el, a1, a1.(style := ApplyStyles(a1.style, StyleEntries(style))));
    }
    ghost var a2 := if Truthy(style) then a1.(style := ApplyStyles(a1.style, StyleEntries(style))) else a1;
    assert host.nodes == WithAttrs(nodes0, el, a2);
    WithAttrsTwice(nodes0, el, a, a2);
    SetOtherAttributes(host, el, otherAttributes);
    WithAttrsTwice(nodes0, el, a2, ApplyOthers(a2, otherAttributes, host.nullRejecting));
    assert host.nodes == WithAttrs(nodes0, el, ApplyOthers(a2, otherAttributes, host.nullRejecting));
  }
}
