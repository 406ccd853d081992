/** The XML tree serializer of responses and the XML tree parser of requests. Both work on
    element trees; reading and writing XML text is left to the XML library. */
module XmlModel {
  import opened PyDict
  import opened Shapes
  import opened Outcomes
  import opened Scalars

  datatype Node = Node(tag: string, text: string, kids: seq<Node>)

  /** What a structure finds under one tag: a single element or a list of them. */
  datatype Payload = One(node: Node) | Many(nodes: seq<Node>)

  // ---------------------------------------------------------------- printing

  /** The elements that serializing `v` under `name` appends to the parent. */
  function Serialized(model: Model, ref: Ref, v: Val, name: string): seq<Node>
    decreases v, 1
  {
    match (ShapeOf(model, ref), v)
    case (Scalar(kind), _) => if FitsKind(kind, v) then [Node(name, Printed(kind, v), [])] else []
    case (Structure(members), Struct(fields)) => [Node(name, "", SerializedFields(model, members, fields))]
    case (ListOf(item, flattened), List(items)) =>
      if flattened then SerializedItems(model, item, items, Wire(item, name))
      else [Node(name, "", SerializedItems(model, item, items, Wire(item, "member")))]
    case (MapOf(key, value, flattened), Map(entries)) =>
      if flattened then SerializedEntries(model, key, value, entries, name)
      else [Node(name, "", SerializedEntries(model, key, value, entries, "entry"))]
    case _ => []
  }

  /** Null members and members that the shape does not have are skipped. */
  function SerializedFields(model: Model, members: seq<Member>, fields: seq<(string, Val)>): seq<Node>
    decreases fields, 0
  {
    if fields == [] then []
    else SerializedField(model, members, fields[0]) + SerializedFields(model, members, fields[1..])
  }

  function SerializedField(model: Model, members: seq<Member>, f: (string, Val)): seq<Node>
    decreases f, 0
  {
    match FindMember(members, f.0)
    case None => []
    case Some(m) => if f.1 == Null then [] else Serialized(model, m.ref, f.1, Wire(m.ref, f.0))
  }

  function SerializedItems(model: Model, item: Ref, items: seq<Val>, element: string): seq<Node>
    decreases items, 0
  {
    if items == [] then []
    else SerializedItem(model, item, items[0], element) + SerializedItems(model, item, items[1..], element)
  }

  function SerializedItem(model: Model, item: Ref, x: Val, element: string): seq<Node>
    decreases x, 2
  {
    if x == Null then [] else Serialized(model, item, x, element)
  }

  function SerializedEntries(model: Model, key: Ref, value: Ref, entries: seq<(Val, Val)>, element: string): seq<Node>
    decreases entries, 0
  {
    if entries == [] then []
    else SerializedEntry(model, key, value, entries[0], element)
         + SerializedEntries(model, key, value, entries[1..], element)
  }

  function SerializedEntry(model: Model, key: Ref, value: Ref, e: (Val, Val), element: string): seq<Node>
    decreases e, 0
  {
    if e.1 == Null then []
    else [Node(element, "", Serialized(model, key, e.0, Wire(key, "key")) + Serialized(model, value, e.1, Wire(value, "value")))]
  }

  // ---------------------------------------------------------------- parsing

  function Size(n: Node): (r: nat)
    ensures r > 0
  {
    1 + Sizes(n.kids)
  }

  function Sizes(nodes: seq<Node>): nat {
    if nodes == [] then 0 else Size(nodes[0]) + Sizes(nodes[1..])
  }

  function PayloadSize(p: Payload): nat {
    match p case One(n) => Size(n) case Many(ns) => Sizes(ns)
  }

  /** Lists of elements come from grouping, so they have at least two. */
  predicate Proper(p: Payload) {
    p.Many? ==> |p.nodes| >= 2
  }

  lemma HeadSize(nodes: seq<Node>)
    requires nodes != []
    ensures Size(nodes[0]) <= Sizes(nodes) && Sizes(nodes[0].kids) < Sizes(nodes)
    ensures |nodes| >= 2 ==> Size(nodes[0]) < Sizes(nodes)
    ensures |nodes| == 1 ==> Sizes(nodes) == Size(nodes[0])
    ensures Sizes(nodes[1..]) < Sizes(nodes)
  {
  }

  /** The elements with a tag, in document order. */
  function Tagged(nodes: seq<Node>, tag: string): (r: seq<Node>)
    ensures Sizes(r) <= Sizes(nodes)
  {
    if nodes == [] then []
    else if nodes[0].tag == tag then
      var r := Tagged(nodes[1..], tag);
      assert ([nodes[0]] + r)[1..] == r;
      [nodes[0]] + r
    else Tagged(nodes[1..], tag)
  }

  /** What `_build_name_to_xml_node` holds under a tag: repeated elements become a list. */
  function Group(nodes: seq<Node>, tag: string): (r: Option<Payload>)
    ensures r.Some? ==> PayloadSize(r.value) <= Sizes(nodes) && Proper(r.value)
  {
    Packed(Tagged(nodes, tag))
  }

  function Packed(nodes: seq<Node>): (r: Option<Payload>)
    ensures r.Some? ==> PayloadSize(r.value) == Sizes(nodes) && Proper(r.value)
  {
    if |nodes| == 0 then None
    else if |nodes| == 1 then assert Sizes(nodes) == Size(nodes[0]) + Sizes(nodes[1..]); Some(One(nodes[0]))
    else Some(Many(nodes))
  }

  /** `_member_key_name`. */
  function MemberTag(model: Model, m: Member): string {
    TagUnder(model, m.ref, Wire(m.ref, m.name))
  }

  /** The tag of the elements a value gets under a name: flattened lists use the name of
      their items when there is one. */
  function TagUnder(model: Model, ref: Ref, name: string): string {
    match ShapeOf(model, ref)
    case ListOf(item, flattened) => if flattened then Wire(item, name) else name
    case _ => name
  }

  /** Flattening is a trait of structure members: no flattened list holds a flattened
      collection. Without this the parser would not stop on a list that holds itself. */
  ghost predicate Grounded(model: Model) {
    forall id | id in model && model[id].ListOf? && model[id].flattened :: !Flattened(ShapeOf(model, model[id].item))
  }

  function Rank(shape: Shape): nat {
    if Flattened(shape) then 2 else 1
  }

  function Parse(model: Model, ref: Ref, p: Payload): Outcome<Val>
    requires Grounded(model) && Proper(p)
    decreases PayloadSize(p), if p.Many? then 5 else Rank(ShapeOf(model, ref)), 2
  {
    match ShapeOf(model, ref)
    case Scalar(kind) => if p.One? then ReadText(kind, p.node.text) else Err
    case Structure(members) =>
      var node := if p.One? then p.node else (HeadSize(p.nodes); p.nodes[0]);
      var fields :- ParseMembers(model, members, node.kids);
      Ok(Struct(fields))
    case ListOf(item, flattened) =>
      var nodes := match p case Many(ns) => ns case One(n) => if flattened then [n] else n.kids;
      assert p.One? && flattened ==> Sizes(nodes) == Size(p.node) by { if nodes != [] { HeadSize(nodes); } }
      var items :- ParseItems(model, item, nodes);
      Ok(List(items))
    case MapOf(key, value, flattened) =>
      var nodes := match p case Many(ns) => ns case One(n) => if flattened then [n] else n.kids;
      assert p.One? && flattened ==> Sizes(nodes) == Size(p.node) by { if nodes != [] { HeadSize(nodes); } }
      var entries :- ParseEntries(model, key, value, nodes, []);
      Ok(Map(entries))
  }

  function ParseMembers(model: Model, members: seq<Member>, kids: seq<Node>): Outcome<seq<(string, Val)>>
    requires Grounded(model)
    decreases Sizes(kids), 8, |members|
  {
    if members == [] then Ok([])
    else
      var m := members[0];
      var first :- ParseMember(model, m, kids);
      var others :- ParseMembers(model, members[1..], kids);
      Ok(first + others)
  }

  /** A missing required member is set to None. */
  function ParseMember(model: Model, m: Member, kids: seq<Node>): Outcome<seq<(string, Val)>>
    requires Grounded(model)
    decreases Sizes(kids), 7, 0
  {
    match Group(kids, MemberTag(model, m))
    case Some(p) =>
      var v :- Parse(model, m.ref, p);
      Ok([(m.name, v)])
    case None => Ok(if m.required then [(m.name, Null)] else [])
  }

  function ParseItems(model: Model, item: Ref, nodes: seq<Node>): Outcome<seq<Val>>
    requires Grounded(model)
    decreases Sizes(nodes), if |nodes| >= 2 then 4 else Rank(ShapeOf(model, item)), 3
  {
    if nodes == [] then Ok([])
    else
      HeadSize(nodes);
      var x :- Parse(model, item, One(nodes[0]));
      var xs :- ParseItems(model, item, nodes[1..]);
      Ok([x] + xs)
  }

  function ParseEntries(
    model: Model, key: Ref, value: Ref, nodes: seq<Node>, d: Dict<Val, Val>): Outcome<Dict<Val, Val>>
    requires Grounded(model)
    decreases Sizes(nodes), 0, 0
  {
    if nodes == [] then Ok(d)
    else
      HeadSize(nodes);
      var e :- ParsePair(model, key, value, nodes[0].kids, (Null, Null));
      if Hashable(e.0) then ParseEntries(model, key, value, nodes[1..], Set(d, e.0, e.1)) else Err
  }

  /** The children of an entry: keys and values in any order, anything else is an error. */
  function ParsePair(model: Model, key: Ref, value: Ref, kids: seq<Node>, e: (Val, Val)): Outcome<(Val, Val)>
    requires Grounded(model)
    decreases Sizes(kids), 6, 0
  {
    if kids == [] then Ok(e)
    else
      HeadSize(kids);
      if kids[0].tag == Wire(key, "key") then
        var k :- Parse(model, key, One(kids[0]));
        ParsePair(model, key, value, kids[1..], (k, e.1))
      else if kids[0].tag == Wire(value, "value") then
        var v :- Parse(model, value, One(kids[0]));
        ParsePair(model, key, value, kids[1..], (e.0, v))
      else Err
  }
}
