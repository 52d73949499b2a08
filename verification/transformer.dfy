/**
 * The per-file transformation of index.js: `obtainAttributesFromProperties`
 * with `transformPropertyName`, `obtainAttributesFromEvents`, and the record
 * assembled by `proccessMetadataFileAsync`.
 */
module Transformer {
  import opened Wrappers
  import opened Descriptors
  import opened Naming

  /** A JavaScript `if (x)` test on an optional string: absent and `""` are falsy. */
  function IfTruthy(d: Option<string>): (r: Option<string>)
    ensures r.Some? <==> d.Some? && d.value != ""
    ensures r.Some? ==> r == d
  {
    if d.Some? && d.value != "" then d else None
  }

  /** The names carried by a `values` list. */
  function ValueNames(vs: seq<Value>): (r: seq<string>)
    ensures |r| == |vs|
  {
    seq(|vs|, i requires 0 <= i < |vs| => vs[i].name)
  }

  /** `enumValues.map(value => ({name: value}))`. */
  function EnumValues(enumValues: seq<string>): (r: seq<Value>)
    ensures ValueNames(r) == enumValues
  {
    seq(|enumValues|, i requires 0 <= i < |enumValues| => Value(enumValues[i]))
  }

  /** transformPropertyName: the dotted path of `key` below `prefix`. */
  function TransformPropertyName(prefix: string, key: string): (r: string)
    ensures r == "" <==> prefix == "" && key == ""
    ensures prefix == "" ==> r == key
    ensures prefix != "" ==> r == prefix + "." + key
  {
    if |prefix| > 0 then prefix + "." + key else key
  }

  /** The attribute emitted for the property `p` found at dotted path `path`. */
  function PlainAttribute(path: string, p: Property): (a: Attribute)
    requires path != ""
    ensures a.name == TransformUpperName(path)
    ensures a.description.Some? <==> p.description.Some? && p.description.value != ""
    ensures a.description.Some? ==> a.description == p.description
    ensures a.values.Some? <==> p.enumValues.Some?
    ensures a.values.Some? ==> ValueNames(a.values.value) == p.enumValues.value
  {
    Attribute(
      TransformUpperName(path),
      IfTruthy(p.description),
      if p.enumValues.Some? then Some(EnumValues(p.enumValues.value)) else None)
  }

  /** The names below `prefix` can be normalised: either the prefix is non-empty or no key is empty. */
  predicate PlainNameable(prefix: string, m: Props) {
    prefix != "" || NamedKeys(m.entries)
  }

  /** The number of property nodes in the tree `m`, groups and their descendants included. */
  function NodeCount(m: Props): (n: nat)
    decreases m, 1
    ensures n >= |m.entries|
  {
    NodesFrom(m, 0)
  }

  /** The number of nodes in the subtrees of the entries `i..` of `m`, each entry counting itself. */
  function NodesFrom(m: Props, i: nat): (n: nat)
    requires i <= |m.entries|
    decreases m, 0, |m.entries| - i
    ensures n >= |m.entries| - i
  {
    if i == |m.entries| then 0
    else
      var p := m.entries[i].1;
      1 + (if p.properties.Some? then NodeCount(p.properties.value) else 0) + NodesFrom(m, i + 1)
  }

  /** The first `map` of obtainAttributesFromProperties without a suffix: one attribute per key of this level. */
  function LevelAttributes(prefix: string, m: Props): (r: seq<Attribute>)
    requires PlainNameable(prefix, m)
    ensures |r| == |m.entries|
  {
    seq(|m.entries|, i requires 0 <= i < |m.entries| =>
      PlainAttribute(TransformPropertyName(prefix, m.entries[i].0), m.entries[i].1))
  }

  /**
   * The second `map` of obtainAttributesFromProperties: for the entries
   * `i..` in order, the attributes of each nested group under its dotted path.
   */
  function GroupAttributes(prefix: string, m: Props, i: nat): (r: seq<Attribute>)
    requires i <= |m.entries| && PlainNameable(prefix, m)
    decreases m, 0, |m.entries| - i
  {
    if i == |m.entries| then []
    else
      GroupAt(prefix, m, i) + GroupAttributes(prefix, m, i + 1)
  }

  /** The attributes of the group held by entry `i`, under its dotted path; nothing for a leaf. */
  function GroupAt(prefix: string, m: Props, i: nat): (r: seq<Attribute>)
    requires i < |m.entries| && PlainNameable(prefix, m)
    decreases m, 0, 0
    ensures m.entries[i].1.properties.None? ==> r == []
  {
    var p := m.entries[i].1;
    if p.properties.Some? then PlainAttributes(TransformPropertyName(prefix, m.entries[i].0), p.properties.value) else []
  }

  /**
   * obtainAttributesFromProperties(prefix, properties) with no suffix: the
   * keys of this level first, in key order, then every nested group's
   * attributes.
   */
  function PlainAttributes(prefix: string, m: Props): (r: seq<Attribute>)
    requires PlainNameable(prefix, m)
    decreases m, 1
    ensures |r| >= |m.entries|
  {
    LevelAttributes(prefix, m) + GroupAttributes(prefix, m, 0)
  }

  /** Every node of the tree, group or leaf, yields exactly one plain attribute. */
  lemma {:induction false} PlainAttributesCount(prefix: string, m: Props)
    requires PlainNameable(prefix, m)
    decreases m, 1
    ensures |PlainAttributes(prefix, m)| == NodeCount(m)
  {
    GroupAttributesCount(prefix, m, 0);
  }

  /** The groups of entries `i..` contribute one attribute per node below them. */
  lemma {:induction false} GroupAttributesCount(prefix: string, m: Props, i: nat)
    requires i <= |m.entries| && PlainNameable(prefix, m)
    decreases m, 0, |m.entries| - i
    ensures |GroupAttributes(prefix, m, i)| + (|m.entries| - i) == NodesFrom(m, i)
  {
    if i < |m.entries| {
      var p := m.entries[i].1;
      if p.properties.Some? {
        PlainAttributesCount(TransformPropertyName(prefix, m.entries[i].0), p.properties.value);
      }
      GroupAttributesCount(prefix, m, i + 1);
    }
  }

  /** The keys of the current level come first, in key order, each named after its own dotted path. */
  lemma {:induction false} PlainAttributesLevelFirst(prefix: string, m: Props)
    requires PlainNameable(prefix, m)
    ensures |PlainAttributes(prefix, m)| >= |m.entries|
    ensures forall i :: 0 <= i < |m.entries| ==>
      PlainAttributes(prefix, m)[i] == PlainAttribute(TransformPropertyName(prefix, m.entries[i].0), m.entries[i].1)
  {
    assert PlainAttributes(prefix, m)[..|m.entries|] == LevelAttributes(prefix, m);
  }

  /** The synthesised description of a change-listener attribute. */
  function ListenerDescription(key: string): (d: string)
    ensures |d| == |key| + 50
    ensures d[39..39 + |key|] == key
  {
    "Property change listener function for '" + key + "' attribute"
  }

  /**
   * obtainAttributesFromProperties(prefix, properties, suffix) with a
   * non-empty suffix: one attribute per key of this level only, named
   * prefix + normalised key + suffix, with the synthesised description
   * and no values.
   */
  function ListenerAttributes(prefix: string, m: Props, suffix: string): (r: seq<Attribute>)
    requires NamedKeys(m.entries)
    ensures |r| == |m.entries|
    ensures forall i :: 0 <= i < |m.entries| ==>
      && r[i].name == prefix + TransformUpperName(m.entries[i].0) + suffix
      && r[i].description == Some(ListenerDescription(m.entries[i].0))
      && r[i].values == None
  {
    seq(|m.entries|, i requires 0 <= i < |m.entries| =>
      Attribute(
        prefix + TransformUpperName(m.entries[i].0) + suffix,
        Some(ListenerDescription(m.entries[i].0)),
        None))
  }

  /** What obtainAttributesFromProperties needs so that no key reaches transformUpperName empty. */
  predicate Nameable(prefix: string, properties: Option<Props>, suffix: string) {
    var m := properties.GetOr(Props([]));
    if suffix != "" then NamedKeys(m.entries) else PlainNameable(prefix, m)
  }

  /**
   * obtainAttributesFromProperties: an absent object counts as `{}`; a
   * truthy suffix selects the listener form, otherwise the recursive plain form.
   */
  function AttributesFromProperties(prefix: string, properties: Option<Props>, suffix: string): (r: seq<Attribute>)
    requires Nameable(prefix, properties, suffix)
    ensures properties.None? ==> r == []
    ensures suffix != "" ==> |r| == |properties.GetOr(Props([])).entries|
    ensures suffix == "" ==> |r| == NodeCount(properties.GetOr(Props([])))
  {
    var m := properties.GetOr(Props([]));
    if suffix != "" then ListenerAttributes(prefix, m, suffix)
    else PlainAttributesCount(prefix, m); PlainAttributes(prefix, m)
  }

  /** obtainAttributesFromEvents: one attribute per event key, in key order. */
  function EventAttributes(events: Option<seq<(string, Event)>>): (r: seq<Attribute>)
    requires NamedKeys(events.GetOr([]))
    ensures var evs := events.GetOr([]);
      && |r| == |evs|
      && forall i :: 0 <= i < |evs| ==>
        && r[i].name == TransformEventName(evs[i].0)
        && (r[i].description.Some? <==> evs[i].1.description.Some? && evs[i].1.description.value != "")
        && (r[i].description.Some? ==> r[i].description == evs[i].1.description)
        && r[i].values == None
  {
    var evs := events.GetOr([]);
    seq(|evs|, i requires 0 <= i < |evs| =>
      Attribute(TransformEventName(evs[i].0), IfTruthy(evs[i].1.description), None))
  }

  /** The top-level property object and event object of a component, `{}` when absent. */
  function TopProps(c: Component): Props {
    c.properties.GetOr(Props([]))
  }

  function TopEvents(c: Component): seq<(string, Event)> {
    c.events.GetOr([])
  }

  /**
   * The transformation of one parsed metadata file. It throws (here:
   * `Failure`) exactly when a top-level property key or an event key is
   * empty, because those reach transformUpperName unprefixed.
   */
  function Transform(c: Component): (r: Result<ComponentTag, Failure>)
    ensures r.Success? <==> NamedKeys(TopProps(c).entries) && NamedKeys(TopEvents(c))
    ensures r.Success? ==>
      && r.value.name == c.name
      && (r.value.description.Some? <==> c.description.Some? && c.description.value != "")
      && (r.value.description.Some? ==> r.value.description == c.description)
  {
    if !NamedKeys(TopProps(c).entries) || !NamedKeys(TopEvents(c)) then Failure(EmptyIdentifier)
    else
      var attributes := AttributesFromProperties("", c.properties, "");
      var attributes := attributes + AttributesFromProperties("on-", c.properties, "-changed");
      var attributes := attributes + EventAttributes(c.events);
      Success(ComponentTag(c.name, IfTruthy(c.description), attributes))
  }

  // ----- Paths through the property tree -----

  /** `path` lists entry indices from the top of `m` down to one node; every step but the last enters a group. */
  ghost predicate IsPath(m: Props, path: seq<nat>)
    decreases m
  {
    && |path| > 0
    && path[0] < |m.entries|
    && (|path| == 1 ||
        (m.entries[path[0]].1.properties.Some? &&
         IsPath(m.entries[path[0]].1.properties.value, path[1..])))
  }

  /** The dotted key path of the node at `path`, below `prefix`. */
  ghost function PathName(prefix: string, m: Props, path: seq<nat>): (r: string)
    requires IsPath(m, path)
    decreases m
    ensures PlainNameable(prefix, m) ==> r != ""
  {
    var q := TransformPropertyName(prefix, m.entries[path[0]].0);
    if |path| == 1 then q
    else PathName(q, m.entries[path[0]].1.properties.value, path[1..])
  }

  /** The property descriptor at `path`. */
  ghost function NodeAt(m: Props, path: seq<nat>): Property
    requires IsPath(m, path)
    decreases m
  {
    var p := m.entries[path[0]].1;
    if |path| == 1 then p else NodeAt(p.properties.value, path[1..])
  }

  /** `a` is the attribute of the node at `path`, named after its dotted path below `prefix`. */
  ghost predicate AttributeOfPath(prefix: string, m: Props, path: seq<nat>, a: Attribute) {
    && PlainNameable(prefix, m)
    && IsPath(m, path)
    && a == PlainAttribute(PathName(prefix, m, path), NodeAt(m, path))
  }

  /** A path inside the group of entry `k` extends to a path of `m` with the same name and node. */
  lemma {:induction false} PathIntoGroup(prefix: string, m: Props, k: nat, tail: seq<nat>)
    requires k < |m.entries| && m.entries[k].1.properties.Some?
    requires IsPath(m.entries[k].1.properties.value, tail)
    ensures IsPath(m, [k] + tail)
    ensures PathName(prefix, m, [k] + tail)
         == PathName(TransformPropertyName(prefix, m.entries[k].0), m.entries[k].1.properties.value, tail)
    ensures NodeAt(m, [k] + tail) == NodeAt(m.entries[k].1.properties.value, tail)
  {
    assert ([k] + tail)[1..] == tail;
  }

  /** Every attribute of a group listed at or after entry `i` appears in GroupAttributes(prefix, m, i). */
  lemma {:induction false} GroupAttributesInclude(prefix: string, m: Props, i: nat, k: nat, a: Attribute)
    requires PlainNameable(prefix, m)
    requires i <= k < |m.entries| && m.entries[k].1.properties.Some?
    requires a in GroupAt(prefix, m, k)
    ensures a in GroupAttributes(prefix, m, i)
    decreases k - i
  {
    assert GroupAttributes(prefix, m, i) == GroupAt(prefix, m, i) + GroupAttributes(prefix, m, i + 1);
    if i < k {
      GroupAttributesInclude(prefix, m, i + 1, k, a);
    }
  }

  /** Every attribute in GroupAttributes(prefix, m, i) comes from the group of some entry at or after `i`. */
  lemma {:induction false} GroupAttributesFrom(prefix: string, m: Props, i: nat, a: Attribute)
    requires PlainNameable(prefix, m) && i <= |m.entries|
    requires a in GroupAttributes(prefix, m, i)
    ensures exists k :: i <= k < |m.entries| && a in GroupAt(prefix, m, k)
    decreases |m.entries| - i
  {
    assert GroupAttributes(prefix, m, i) == GroupAt(prefix, m, i) + GroupAttributes(prefix, m, i + 1);
    if a !in GroupAt(prefix, m, i) {
      GroupAttributesFrom(prefix, m, i + 1, a);
    }
  }

  /**
   * Completeness of the flattening: every node of the tree, group or leaf,
   * at any depth, yields its attribute, named after its dotted path.
   */
  lemma {:induction false} PlainAttributesComplete(prefix: string, m: Props, path: seq<nat>)
    requires PlainNameable(prefix, m) && IsPath(m, path)
    ensures PlainAttribute(PathName(prefix, m, path), NodeAt(m, path)) in PlainAttributes(prefix, m)
    decreases m
  {
    var k := path[0];
    var key := m.entries[k].0;
    var q := TransformPropertyName(prefix, key);
    if |path| == 1 {
      assert PlainAttributes(prefix, m)[k] == PlainAttribute(q, m.entries[k].1);
    } else {
      var c := m.entries[k].1.properties.value;
      PlainAttributesComplete(q, c, path[1..]);
      var a := PlainAttribute(PathName(prefix, m, path), NodeAt(m, path));
      assert a in GroupAt(prefix, m, k);
      GroupAttributesInclude(prefix, m, 0, k, a);
    }
  }

  /**
   * Soundness of the flattening: every attribute produced is the attribute
   * of some node of the tree, named after that node's dotted path.
   */
  lemma {:induction false} PlainAttributesSound(prefix: string, m: Props, a: Attribute)
    requires PlainNameable(prefix, m)
    requires a in PlainAttributes(prefix, m)
    ensures exists path :: AttributeOfPath(prefix, m, path, a)
    decreases m, 1
  {
    var level := LevelAttributes(prefix, m);
    if a in level {
      var k: nat :| k < |level| && level[k] == a;
      assert AttributeOfPath(prefix, m, [k], a);
    } else {
      GroupAttributesFrom(prefix, m, 0, a);
      var k: nat :| k < |m.entries| && a in GroupAt(prefix, m, k);
      assert m.entries[k].1.properties.Some?;
      GroupAtSound(prefix, m, k, a);
    }
  }

  /** An attribute of the group held by entry `k` is the attribute of a node below that entry. */
  lemma {:induction false} GroupAtSound(prefix: string, m: Props, k: nat, a: Attribute)
    requires PlainNameable(prefix, m) && k < |m.entries| && m.entries[k].1.properties.Some?
    requires a in PlainAttributes(TransformPropertyName(prefix, m.entries[k].0), m.entries[k].1.properties.value)
    ensures exists path :: AttributeOfPath(prefix, m, path, a)
    decreases m, 0
  {
    var q := TransformPropertyName(prefix, m.entries[k].0);
    var c := m.entries[k].1.properties.value;
    PlainAttributesSound(q, c, a);
    var tail :| AttributeOfPath(q, c, tail, a);
    PathIntoGroup(prefix, m, k, tail);
    assert AttributeOfPath(prefix, m, [k] + tail, a);
  }

  // ----- The assembled record -----

  /** The attributes of a component are its plain attributes, then its listener attributes, then its event attributes. */
  lemma {:induction false} ComponentAttributes(c: Component)
    requires Transform(c).Success?
    ensures Transform(c).value.attributes ==
      PlainAttributes("", TopProps(c)) + ListenerAttributes("on-", TopProps(c), "-changed") + EventAttributes(c.events)
  {
  }

  /** Total attribute count: every property node, plus one listener per top-level key, plus one per event key. */
  lemma {:induction false} ComponentAttributeCount(c: Component)
    requires Transform(c).Success?
    ensures |Transform(c).value.attributes| == NodeCount(TopProps(c)) + |TopProps(c).entries| + |TopEvents(c)|
  {
    ComponentAttributes(c);
    PlainAttributesCount("", TopProps(c));
  }

  /**
   * The attributes of a component, position by position: the top-level
   * properties' own attributes open the list, the listener attributes start
   * right after the whole plain list, and the event attributes follow them.
   */
  lemma {:induction false} ComponentAttributeLayout(c: Component)
    requires Transform(c).Success?
    ensures var attrs := Transform(c).value.attributes;
      var m := TopProps(c);
      var n := NodeCount(m);
      && |attrs| == n + |m.entries| + |TopEvents(c)|
      && attrs[..n] == PlainAttributes("", m)
      && (forall i :: 0 <= i < |m.entries| ==>
            attrs[i] == PlainAttribute(m.entries[i].0, m.entries[i].1))
      && attrs[n..n + |m.entries|] == ListenerAttributes("on-", m, "-changed")
      && attrs[n + |m.entries|..] == EventAttributes(c.events)
  {
    var m := TopProps(c);
    ComponentAttributes(c);
    PlainAttributesCount("", m);
    PlainAttributesLevelFirst("", m);
  }

  /** A descriptor with neither properties nor events yields a record with no attributes. */
  lemma {:induction false} EmptyComponent(c: Component)
    requires c.properties.None? && c.events.None?
    ensures Transform(c).Success? && Transform(c).value.attributes == []
  {
    assert NodeCount(Props([])) == 0;
  }

  /** The listener attribute generated for the top-level key `key`. */
  function ListenerAttribute(key: string): (a: Attribute)
    requires key != ""
    ensures a == ListenerAttributes("on-", Props([(key, Property(None, None, None))]), "-changed")[0]
  {
    Attribute("on-" + TransformUpperName(key) + "-changed", Some(ListenerDescription(key)), None)
  }

  /** The plain attributes of a level holding one key: that key's attribute, then its group's. */
  lemma {:induction false} OneEntryPlainAttributes(prefix: string, m: Props, key: string, p: Property)
    requires m == Props([(key, p)]) && (prefix != "" || key != "")
    ensures PlainNameable(prefix, m) && PlainAttributes(prefix, m) ==
      [PlainAttribute(TransformPropertyName(prefix, key), p)]
      + (if p.properties.Some? then PlainAttributes(TransformPropertyName(prefix, key), p.properties.value) else [])
  {
    var path := TransformPropertyName(prefix, key);
    assert PlainNameable(prefix, m) by {
      assert m.entries[0].0 == key;
    }
    assert LevelAttributes(prefix, m) == [PlainAttribute(path, p)] by {
      assert |LevelAttributes(prefix, m)| == 1;
    }
    assert GroupAttributes(prefix, m, 0) == GroupAt(prefix, m, 0) by {
      assert GroupAttributes(prefix, m, 1) == [];
    }
  }

  /**
   * A descriptor with one top-level property and no events: the property's
   * own attribute, then its group's attributes (if it is a group), then its
   * listener.
   */
  lemma {:induction false} OnePropertyComponent(c: Component, key: string, p: Property)
    requires c.properties == Some(Props([(key, p)])) && c.events.None? && key != ""
    ensures Transform(c) == Success(ComponentTag(c.name, IfTruthy(c.description),
      [PlainAttribute(key, p)]
      + (if p.properties.Some? then PlainAttributes(key, p.properties.value) else [])
      + [ListenerAttribute(key)]))
  {
    var m := TopProps(c);
    var plain := [PlainAttribute(key, p)] + (if p.properties.Some? then PlainAttributes(key, p.properties.value) else []);
    assert NamedKeys(m.entries) && NamedKeys(TopEvents(c)) by {
      assert m.entries[0].0 == key;
    }
    assert AttributesFromProperties("", c.properties, "") == plain by {
      OneEntryPlainAttributes("", m, key, p);
    }
    assert AttributesFromProperties("on-", c.properties, "-changed") == [ListenerAttribute(key)] by {
      assert |ListenerAttributes("on-", m, "-changed")| == 1;
    }
    assert EventAttributes(c.events) == [];
    assert Transform(c) == Success(ComponentTag(c.name, IfTruthy(c.description), plain + [ListenerAttribute(key)] + []));
    assert plain + [ListenerAttribute(key)] + [] == plain + [ListenerAttribute(key)];
  }

  // ----- Worked examples -----

  /**
   * The two attributes generated for a lower-case key (such as `chroming`)
   * holding a described enumeration: the key is kept as it is, and the
   * values follow the enumeration in order.
   */
  lemma {:induction false} ExampleEnumAttributes(key: string, p: Property)
    requires key != "" && NoUpper(key)
    requires p == Property(Some("d"), Some(["half", "outlined"]), None)
    ensures PlainAttribute(key, p) == Attribute(key, Some("d"), Some([Value("half"), Value("outlined")]))
    ensures ListenerAttribute(key) == Attribute("on-" + key + "-changed", Some(ListenerDescription(key)), None)
  {
    UpperNameFixedPoints(key);
    assert EnumValues(["half", "outlined"]) == [Value("half"), Value("outlined")];
  }

  /** A property with a description and an enumeration yields a plain attribute with values, and its listener. */
  lemma {:induction false} ExampleEnumProperty(c: Component, key: string)
    requires key != "" && NoUpper(key)
    requires c == Component(Some("oj-button"), None,
      Some(Props([(key, Property(Some("d"), Some(["half", "outlined"]), None))])), None)
    ensures Transform(c) == Success(ComponentTag(Some("oj-button"), None, [
      Attribute(key, Some("d"), Some([Value("half"), Value("outlined")])),
      Attribute("on-" + key + "-changed", Some(ListenerDescription(key)), None)]))
  {
    var p := Property(Some("d"), Some(["half", "outlined"]), None);
    ExampleEnumAttributes(key, p);
    OnePropertyComponent(c, key, p);
    assert [PlainAttribute(key, p)] + [] + [ListenerAttribute(key)] == [PlainAttribute(key, p), ListenerAttribute(key)];
  }

  /** A dotted path of two lower-case keys has no upper-case letter either. */
  lemma {:induction false} DottedPathNoUpper(key: string, child: string)
    requires key != "" && NoUpper(key) && NoUpper(child)
    ensures TransformPropertyName(key, child) == key + "." + child
    ensures NoUpper(key + "." + child)
  {
    var path := key + "." + child;
    forall i | 0 <= i < |path|
      ensures !IsUpper(path[i])
    {
      if i < |key| {
        assert path[i] == key[i];
      } else if i > |key| {
        assert path[i] == child[i - |key| - 1];
      }
    }
  }

  /**
   * A group key with one leaf below it, both without upper-case letters:
   * the group's own attribute, the leaf's attribute under the dotted path,
   * and a listener for the top-level key only.
   */
  lemma {:induction false} NestedGroupOfLowerCaseKeys(c: Component, key: string, child: string)
    requires key != "" && NoUpper(key) && NoUpper(child)
    requires c.properties == Some(Props([(key, Property(None, None, Some(Props([(child, Property(None, None, None))]))))]))
    requires c.events.None?
    ensures Transform(c) == Success(ComponentTag(c.name, IfTruthy(c.description), [
      Attribute(key, None, None),
      Attribute(key + "." + child, None, None),
      Attribute("on-" + key + "-changed", Some(ListenerDescription(key)), None)]))
  {
    var leaf := Property(None, None, None);
    var inner := Props([(child, leaf)]);
    var group := Property(None, None, Some(inner));
    assert TransformUpperName(key) == key by { UpperNameFixedPoints(key); }
    assert PlainAttributes(key, inner) == [Attribute(key + "." + child, None, None)] by {
      DottedPathNoUpper(key, child);
      UpperNameFixedPoints(key + "." + child);
      OneEntryPlainAttributes(key, inner, child, leaf);
    }
    OnePropertyComponent(c, key, group);
    assert [PlainAttribute(key, group)] + PlainAttributes(key, inner) + [ListenerAttribute(key)]
      == [PlainAttribute(key, group), PlainAttributes(key, inner)[0], ListenerAttribute(key)];
  }

  /**
   * An event key becomes an `on-` attribute carrying the event's
   * description; an empty component description is dropped. The event key
   * is passed in pieces fixed by `requires`, because a literal argument makes
   * the solver unfold the string too early.
   */
  lemma {:induction false} ExampleEvent(c: Component, a: string, b: string, d: string)
    requires a == "oj" && b == "Before" && d == "Expand"
    requires c == Component(Some("oj-tree"), Some(""), None, Some([(a + b + d, Event(Some("fires before expand")))]))
    ensures Transform(c) == Success(ComponentTag(Some("oj-tree"), None, [
      Attribute("on-oj-before-expand", Some("fires before expand"), None)]))
  {
    var key := a + b + d;
    ExampleEventName(a, b, d);
    assert |a| == 2;
    assert |key| > 0;
    assert NamedKeys(TopEvents(c));
    ComponentAttributes(c);
    assert PlainAttributes("", Props([])) == [];
    assert ListenerAttributes("on-", Props([]), "-changed") == [];
    var e := EventAttributes(c.events);
    assert |e| == 1 && e[0] == Attribute(TransformEventName(key), Some("fires before expand"), None);
    assert e == [e[0]];
    assert Transform(c).value.attributes == [] + [] + e;
    assert Transform(c).value.description == None;
    assert Transform(c).Success?;
    assert Transform(c).value.name == Some("oj-tree");
    assert e[0] == Attribute("on-oj-before-expand", Some("fires before expand"), None);
    assert Transform(c).value.attributes == [Attribute("on-oj-before-expand", Some("fires before expand"), None)];
  }
}
