/** The autoload resource tree returned by `GetResourceDescription`
    (`L1DriverResourceInfo` in l1_driver_resource_info.py): a resource with
    identifying fields, an optional incoming mapping, ordered child
    resources and a name-keyed attribute table, and the structure of its
    XML rendering. */
module ResourceInfo {
  import opened Wrappers
  import opened Text

  /** Attribute values: the source stores strings and small integers and
      renders both with `str()`. */
  datatype AttrValue = StrValue(s: string) | IntValue(i: int)

  /** `str(value)` */
  function Show(v: AttrValue): string
  {
    match v
    case StrValue(s) => s
    case IntValue(i) => IntToString(i)
  }

  datatype Attribute = Attribute(typename: string, value: AttrValue)

  datatype Resource = Resource(
    name: string,
    address: string,
    family: string,
    model: string,
    serial: string,
    mapPath: Option<string>,
    children: seq<Resource>,
    attributes: map<string, Attribute>)

  /** Default serial number of a resource created without one. */
  const DefaultSerial: string := "-1"

  /** Default type name of an attribute set without one. */
  const DefaultTypename: string := "String"

  /** The constructor with its defaults: no mapping, serial "-1". */
  function NewResource(name: string, address: string, family: string, model: string): (r: Resource)
    ensures r.name == name && r.address == address && r.family == family && r.model == model
    ensures r.serial == "-1" && r.mapPath == None
    ensures r.children == [] && r.attributes == map[]
  {
    Resource(name, address, family, model, DefaultSerial, None, [], map[])
  }

  /** The constructor with an explicit mapping path and serial. */
  function NewResourceWith(name: string, address: string, family: string, model: string,
                           mapPath: Option<string>, serial: string): (r: Resource)
    ensures r.name == name && r.address == address && r.family == family && r.model == model
    ensures r.serial == serial && r.mapPath == mapPath
    ensures r.children == [] && r.attributes == map[]
  {
    Resource(name, address, family, model, serial, mapPath, [], map[])
  }

  /** `add_subresource`: appends, keeping earlier children in place. */
  function AddSubresource(r: Resource, child: Resource): (r': Resource)
    ensures |r'.children| == |r.children| + 1
    ensures r'.children[..|r.children|] == r.children && r'.children[|r.children|] == child
    ensures r'.attributes == r.attributes && r'.mapPath == r.mapPath && r'.serial == r.serial
  {
    r.(children := r.children + [child])
  }

  /** `set_attribute`: stores (typename, value) under the name, replacing
      any earlier entry. */
  function SetAttribute(r: Resource, name: string, value: AttrValue, typename: string): (r': Resource)
    ensures r'.attributes.Keys == r.attributes.Keys + {name}
    ensures r'.children == r.children && r'.mapPath == r.mapPath && r'.serial == r.serial
  {
    r.(attributes := r.attributes[name := Attribute(typename, value)])
  }

  /** `get_attribute`: the value stored under the name; an unknown name
      raises `KeyError`, modelled as `Err`. */
  function GetAttribute(r: Resource, name: string): (v: Result<AttrValue, string>)
    ensures v.Ok? <==> name in r.attributes
  {
    if name in r.attributes then Ok(r.attributes[name].value) else Err(name)
  }

  /** Reading an attribute back yields the value most recently set for it,
      and setting one name leaves every other name as it was. */
  lemma GetAfterSet(r: Resource, name: string, value: AttrValue, typename: string, other: string)
    ensures GetAttribute(SetAttribute(r, name, value, typename), name) == Ok(value)
    ensures other != name ==>
      GetAttribute(SetAttribute(r, name, value, typename), other) == GetAttribute(r, other)
  {
  }

  /** A fresh resource has no attribute at all, so every lookup raises. */
  lemma FreshResourceHasNoAttributes(name: string, address: string, family: string, model: string, key: string)
    ensures GetAttribute(NewResource(name, address, family, model), key).Err?
  {
  }

  // ---------------------------------------------------------------------
  // Rendering (`to_string`)
  // ---------------------------------------------------------------------

  /** The structure `to_string(tabs)` emits for one resource: its
      indentation prefix, the five identifying XML attributes in order, the
      rendered children, each stored attribute as (Type, Value) text, and
      the optional `ResourceMapping/IncomingMapping` element. */
  datatype Rendered = Rendered(
    indent: string,
    header: seq<(string, string)>,
    children: seq<Rendered>,
    attributes: map<string, (string, string)>,
    mapping: Option<string>)

  /** Four spaces per nesting level. */
  const Step: string := "    "

  function Spaces(n: nat): (s: string)
    ensures |s| == n
    ensures forall k :: 0 <= k < n ==> s[k] == ' '
  {
    if n == 0 then "" else " " + Spaces(n - 1)
  }

  /** Python truthiness of `map_path`: neither None nor the empty string. */
  predicate Truthy(p: Option<string>) {
    p.Some? && p.value != ""
  }

  function Render(r: Resource, tabs: string): (x: Rendered)
    ensures x.indent == tabs
    ensures |x.children| == |r.children|
    ensures x.attributes.Keys == r.attributes.Keys
    ensures x.mapping.Some? <==> Truthy(r.mapPath)
    decreases r
  {
    Rendered(
      tabs,
      [("Name", r.name), ("Address", r.address), ("ResourceFamilyName", r.family),
       ("ResourceModelName", r.model), ("SerialNumber", r.serial)],
      seq(|r.children|, i requires 0 <= i < |r.children| => Render(r.children[i], tabs + Step)),
      map n | n in r.attributes :: (r.attributes[n].typename, Show(r.attributes[n].value)),
      if Truthy(r.mapPath) then Some(r.mapPath.value) else None)
  }

  /** The resource reached by following child positions from `r`. */
  function Descend(r: Resource, path: seq<nat>): Option<Resource>
    decreases |path|
  {
    if |path| == 0 then Some(r)
    else if path[0] < |r.children| then Descend(r.children[path[0]], path[1..])
    else None
  }

  /** The rendered node reached by following child positions. */
  function DescendRendered(x: Rendered, path: seq<nat>): Option<Rendered>
    decreases |path|
  {
    if |path| == 0 then Some(x)
    else if path[0] < |x.children| then DescendRendered(x.children[path[0]], path[1..])
    else None
  }

  /** Rendering keeps the tree's shape and order: the resource at any
      child path is rendered at the same path, indented four more spaces
      per level of nesting. */
  lemma {:induction false} RenderKeepsShape(r: Resource, tabs: string, path: seq<nat>)
    ensures Descend(r, path).Some? <==> DescendRendered(Render(r, tabs), path).Some?
    ensures Descend(r, path).Some? ==>
      DescendRendered(Render(r, tabs), path).value
        == Render(Descend(r, path).value, tabs + Spaces(4 * |path|))
    decreases |path|
  {
    if |path| == 0 {
      assert tabs + Spaces(0) == tabs;
    } else if path[0] < |r.children| {
      var c := r.children[path[0]];
      RenderKeepsShape(c, tabs + Step, path[1..]);
      assert Spaces(4 * |path|) == Step + Spaces(4 * |path[1..]|) by {
        SpacesSplit(4, 4 * |path[1..]|);
      }
      assert tabs + Step + Spaces(4 * |path[1..]|) == tabs + Spaces(4 * |path|);
    }
  }

  lemma SpacesSplit(a: nat, b: nat)
    ensures Spaces(a + b) == Spaces(a) + Spaces(b)
  {
    var l := Spaces(a + b);
    var rr := Spaces(a) + Spaces(b);
    assert |l| == |rr|;
    forall k | 0 <= k < |l|
      ensures l[k] == rr[k]
    {
    }
  }

  /** Each stored attribute is rendered exactly once, with its type name and
      its value as `str()` prints it. */
  lemma RenderAttribute(r: Resource, tabs: string, name: string)
    requires name in r.attributes
    ensures Render(r, tabs).attributes[name]
      == (r.attributes[name].typename, Show(r.attributes[name].value))
  {
  }

  /** A set attribute with the default type renders as ("String", str(value)). */
  lemma RenderSetAttribute(r: Resource, name: string, value: AttrValue, tabs: string)
    ensures Render(SetAttribute(r, name, value, DefaultTypename), tabs).attributes[name]
      == ("String", Show(value))
  {
  }
}
