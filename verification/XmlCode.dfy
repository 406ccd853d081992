/** The XML serializer, which builds an element tree in place, and the loops of the XML
    parser, proved against the functions of `XmlModel`. */
module XmlCode {
  import opened PyDict
  import opened Shapes
  import opened Outcomes
  import opened Scalars
  import opened Sequences
  import opened XmlElements
  import opened XmlModel

  // ---------------------------------------------------------------- serializer

  /** `_serialize`: appends to the children of `parent`. */
  method SerializeShape(model: Model, ref: Ref, v: Val, name: string, parent: Element)
    requires parent.Valid()
    modifies parent
    ensures Grown(parent, Serialized(model, ref, v, name))
    decreases v, 1
  {
    match (ShapeOf(model, ref), v)
    case (Scalar(kind), _) =>
      if FitsKind(kind, v) {
        AddText(Printed(kind, v), name, parent);
      } else {
        Unchanged(parent);
      }
    case (Structure(members), Struct(fields)) => AddStructure(model, members, fields, name, parent);
    case (ListOf(item, flattened), List(items)) =>
      if flattened {
        SerializeList(model, item, items, Wire(item, name), parent);
      } else {
        AddList(model, item, items, Wire(item, "member"), name, parent);
      }
    case (MapOf(key, value, flattened), Map(entries)) =>
      if flattened {
        SerializeMap(model, key, value, entries, name, parent);
      } else {
        AddMap(model, key, value, entries, "entry", name, parent);
      }
    case _ => Unchanged(parent);
  }

  twostate lemma Unchanged(e: Element)
    requires old(e.Valid()) && unchanged(e) && unchanged(e.repr)
    ensures Grown(e, [])
  {
    assert Trees(e.kids) + [] == Trees(e.kids);
  }

  method AddText(text: string, name: string, parent: Element)
    requires parent.Valid()
    modifies parent
    ensures Grown(parent, [Node(name, text, [])])
  {
    var node := new Element(name);
    node.text := text;
    assert node.Tree() == Node(name, text, []);
    parent.Append(node);
  }

  method AddStructure(model: Model, members: seq<Member>, fields: seq<(string, Val)>, name: string, parent: Element)
    requires parent.Valid()
    modifies parent
    ensures Grown(parent, [Node(name, "", SerializedFields(model, members, fields))])
    decreases fields, 1
  {
    var node := new Element(name);
    SerializeStructure(model, members, fields, node);
    assert Trees(node.kids) == SerializedFields(model, members, fields);
    parent.Append(node);
  }

  method AddList(model: Model, item: Ref, items: seq<Val>, element: string, name: string, parent: Element)
    requires parent.Valid()
    modifies parent
    ensures Grown(parent, [Node(name, "", SerializedItems(model, item, items, element))])
    decreases items, 1
  {
    var node := new Element(name);
    SerializeList(model, item, items, element, node);
    NothingBefore(SerializedItems(model, item, items, element));
    parent.Append(node);
  }

  lemma NothingBefore(nodes: seq<Node>)
    ensures [] + nodes == nodes
  {
  }

  method AddMap(model: Model, key: Ref, value: Ref, entries: seq<(Val, Val)>, element: string, name: string, parent: Element)
    requires parent.Valid()
    modifies parent
    ensures Grown(parent, [Node(name, "", SerializedEntries(model, key, value, entries, element))])
    decreases entries, 1
  {
    var node := new Element(name);
    SerializeMap(model, key, value, entries, element, node);
    NothingBefore(SerializedEntries(model, key, value, entries, element));
    parent.Append(node);
  }

  method SerializeStructure(model: Model, members: seq<Member>, fields: seq<(string, Val)>, node: Element)
    requires node.Valid()
    modifies node
    ensures Grown(node, SerializedFields(model, members, fields))
    decreases fields, 0
  {
    ghost var done: seq<Node> := [];
    Unchanged(node);
    for i := 0 to |fields|
      invariant Grown(node, done)
      invariant SerializedFields(model, members, fields) == done + SerializedFields(model, members, fields[i..])
    {
      ghost var more := SerializedField(model, members, fields[i]);
      FieldTurn(model, members, fields, i, done);
      SerializeField(model, members, fields[i], node);
      Assoc(old(Trees(node.kids)), done, more);
      done := done + more;
    }
    assert fields[|fields|..] == [] && done + [] == done;
  }

  lemma FieldTurn(model: Model, members: seq<Member>, fields: seq<(string, Val)>, i: nat, done: seq<Node>)
    requires i < |fields|
    ensures done + SerializedFields(model, members, fields[i..])
         == done + SerializedField(model, members, fields[i]) + SerializedFields(model, members, fields[i + 1..])
  {
    assert fields[i..][1..] == fields[i + 1..];
    Assoc(done, SerializedField(model, members, fields[i]), SerializedFields(model, members, fields[i + 1..]));
  }

  method SerializeField(model: Model, members: seq<Member>, f: (string, Val), node: Element)
    requires node.Valid()
    modifies node
    ensures Grown(node, SerializedField(model, members, f))
    decreases f, 0
  {
    var m := FindMember(members, f.0);
    if f.1 != Null && m.Some? {
      SerializeShape(model, m.value.ref, f.1, Wire(m.value.ref, f.0), node);
    } else {
      Unchanged(node);
    }
  }

  method SerializeList(model: Model, item: Ref, items: seq<Val>, element: string, node: Element)
    requires node.Valid()
    modifies node
    ensures Grown(node, SerializedItems(model, item, items, element))
    decreases items, 0
  {
    ghost var done: seq<Node> := [];
    Unchanged(node);
    for i := 0 to |items|
      invariant Grown(node, done)
      invariant SerializedItems(model, item, items, element) == done + SerializedItems(model, item, items[i..], element)
    {
      ItemTurn(model, item, items, i, element, done);
      ghost var more := SerializedItem(model, item, items[i], element);
      if items[i] != Null {
        SerializeShape(model, item, items[i], element, node);
      }
      Assoc(old(Trees(node.kids)), done, more);
      done := done + more;
    }
    assert items[|items|..] == [] && done + [] == done;
  }

  lemma ItemTurn(model: Model, item: Ref, items: seq<Val>, i: nat, element: string, done: seq<Node>)
    requires i < |items|
    ensures done + SerializedItems(model, item, items[i..], element)
         == done + SerializedItem(model, item, items[i], element) + SerializedItems(model, item, items[i + 1..], element)
  {
    assert items[i..][1..] == items[i + 1..];
    Assoc(done, SerializedItem(model, item, items[i], element), SerializedItems(model, item, items[i + 1..], element));
  }

  method SerializeMap(model: Model, key: Ref, value: Ref, entries: seq<(Val, Val)>, element: string, node: Element)
    requires node.Valid()
    modifies node
    ensures Grown(node, SerializedEntries(model, key, value, entries, element))
    decreases entries, 0
  {
    ghost var done: seq<Node> := [];
    Unchanged(node);
    for i := 0 to |entries|
      invariant Grown(node, done)
      invariant SerializedEntries(model, key, value, entries, element)
             == done + SerializedEntries(model, key, value, entries[i..], element)
    {
      EntryTurn(model, key, value, entries, i, element, done);
      ghost var more := SerializedEntry(model, key, value, entries[i], element);
      SerializeEntry(model, key, value, entries[i], element, node);
      Assoc(old(Trees(node.kids)), done, more);
      done := done + more;
    }
    assert entries[|entries|..] == [] && done + [] == done;
  }

  lemma EntryTurn(
    model: Model, key: Ref, value: Ref, entries: seq<(Val, Val)>, i: nat, element: string, done: seq<Node>)
    requires i < |entries|
    ensures done + SerializedEntries(model, key, value, entries[i..], element)
         == done + SerializedEntry(model, key, value, entries[i], element)
            + SerializedEntries(model, key, value, entries[i + 1..], element)
  {
    assert entries[i..][1..] == entries[i + 1..];
    Assoc(done, SerializedEntry(model, key, value, entries[i], element),
          SerializedEntries(model, key, value, entries[i + 1..], element));
  }

  method SerializeEntry(model: Model, key: Ref, value: Ref, e: (Val, Val), element: string, parent: Element)
    requires parent.Valid()
    modifies parent
    ensures Grown(parent, SerializedEntry(model, key, value, e, element))
    decreases e, 2
  {
    if e.1 == Null {
      Unchanged(parent);
      return;
    }
    var node := NewEntry(model, key, value, e, element);
    parent.Append(node);
  }

  method NewEntry(model: Model, key: Ref, value: Ref, e: (Val, Val), element: string) returns (node: Element)
    requires e.1 != Null
    ensures node.Valid() && fresh(node.repr) && [node.Tree()] == SerializedEntry(model, key, value, e, element)
    decreases e, 1
  {
    node := new Element(element);
    SerializePair(model, key, value, e, node);
    assert Trees(node.kids)
        == Serialized(model, key, e.0, Wire(key, "key")) + Serialized(model, value, e.1, Wire(value, "value"));
  }

  method SerializePair(model: Model, key: Ref, value: Ref, e: (Val, Val), node: Element)
    requires node.Valid()
    modifies node
    ensures Grown(node, Serialized(model, key, e.0, Wire(key, "key")) + Serialized(model, value, e.1, Wire(value, "value")))
    decreases e, 0
  {
    SerializeShape(model, key, e.0, Wire(key, "key"), node);
    SerializeShape(model, value, e.1, Wire(value, "value"), node);
    Assoc(old(Trees(node.kids)), Serialized(model, key, e.0, Wire(key, "key")),
          Serialized(model, value, e.1, Wire(value, "value")));
  }

  // ---------------------------------------------------------------- parser

  ghost predicate Holds(d: Dict<string, Payload>, nodes: seq<Node>, tag: string) {
    Get(d, tag) == Group(nodes, tag)
  }

  ghost predicate Indexes(d: Dict<string, Payload>, nodes: seq<Node>) {
    forall tag: string :: Holds(d, nodes, tag)
  }

  /** `_build_name_to_xml_node`: a dict from tags to an element or, once repeated, a list. */
  method BuildNameToXmlNode(nodes: seq<Node>) returns (d: Dict<string, Payload>)
    ensures Indexes(d, nodes)
  {
    d := [];
    for i := 0 to |nodes|
      invariant Indexes(d, nodes[..i])
    {
      ghost var before := d;
      var key := nodes[i].tag;
      var found := Get(d, key);
      match found {
        case Some(One(first)) => d := Set(d, key, Many([first, nodes[i]]));
        case Some(Many(list)) => d := Set(d, key, Many(list + [nodes[i]]));
        case None => d := Set(d, key, One(nodes[i]));
      }
      ghost var seen := nodes[..i + 1];
      assert seen == nodes[..i] + [nodes[i]];
      forall tag: string ensures Holds(d, seen, tag) {
        assert Holds(before, nodes[..i], tag);
        GetAfterSet(before, key, Get(d, key).value, tag);
        GroupSnoc(nodes[..i], nodes[i], tag);
      }
    }
    assert nodes[..|nodes|] == nodes;
  }

  lemma GroupSnoc(nodes: seq<Node>, n: Node, tag: string)
    ensures Group(nodes + [n], tag) ==
      if n.tag != tag then Group(nodes, tag)
      else match Group(nodes, tag)
        case None => Some(One(n))
        case Some(One(first)) => Some(Many([first, n]))
        case Some(Many(list)) => Some(Many(list + [n]))
  {
    TaggedSnoc(nodes, n, tag);
    var before := Tagged(nodes, tag);
    assert before + [] == before;
    if |before| == 1 {
      assert before + [n] == [before[0], n];
    }
  }

  lemma {:induction false} TaggedSnoc(nodes: seq<Node>, n: Node, tag: string)
    ensures Tagged(nodes + [n], tag) == Tagged(nodes, tag) + if n.tag == tag then [n] else []
  {
    if nodes == [] {
      assert [] + [n] == [n] && [n][1..] == [];
    } else {
      assert (nodes + [n])[1..] == nodes[1..] + [n];
      TaggedSnoc(nodes[1..], n, tag);
    }
  }

  method ReadShape(model: Model, ref: Ref, p: Payload) returns (r: Outcome<Val>)
    requires Grounded(model) && Proper(p)
    ensures r == Parse(model, ref, p)
    decreases PayloadSize(p), if p.Many? then 5 else Rank(ShapeOf(model, ref)), 2
  {
    match ShapeOf(model, ref)
    case Scalar(kind) => r := if p.One? then ReadText(kind, p.node.text) else Err;
    case Structure(members) =>
      if p.Many? {
        HeadSize(p.nodes);
      }
      var node := if p.One? then p.node else p.nodes[0];
      var fields :- ReadStructure(model, members, node.kids);
      r := Ok(Struct(fields));
    case ListOf(item, flattened) =>
      var nodes := match p case Many(ns) => ns case One(n) => if flattened then [n] else n.kids;
      if p.One? && flattened {
        HeadSize(nodes);
      }
      var items :- ReadList(model, item, nodes);
      r := Ok(List(items));
    case MapOf(key, value, flattened) =>
      var nodes := match p case Many(ns) => ns case One(n) => if flattened then [n] else n.kids;
      if p.One? && flattened {
        HeadSize(nodes);
      }
      var entries :- ReadMap(model, key, value, nodes);
      r := Ok(Map(entries));
  }

  method ReadStructure(model: Model, members: seq<Member>, kids: seq<Node>) returns (r: Outcome<seq<(string, Val)>>)
    requires Grounded(model)
    ensures r == ParseMembers(model, members, kids)
    decreases Sizes(kids), 8, |members|
  {
    var dict := BuildNameToXmlNode(kids);
    var parsed: seq<(string, Val)> := [];
    for i := 0 to |members|
      invariant ParseMembers(model, members, kids) == Then(parsed, ParseMembers(model, members[i..], kids))
    {
      var m := members[i];
      assert members[i..][0] == m && members[i..][1..] == members[i + 1..];
      var node := Get(dict, MemberTag(model, m));
      assert Holds(dict, kids, MemberTag(model, m));
      if node.Some? {
        var v :- ReadShape(model, m.ref, node.value);
        ThenAgain(parsed, [(m.name, v)], ParseMembers(model, members[i + 1..], kids));
        parsed := parsed + [(m.name, v)];
      } else if m.required {
        ThenAgain(parsed, [(m.name, Null)], ParseMembers(model, members[i + 1..], kids));
        parsed := parsed + [(m.name, Null)];
      } else {
        ThenAgain(parsed, [], ParseMembers(model, members[i + 1..], kids));
        assert parsed + [] == parsed;
      }
    }
    assert members[|members|..] == [];
    return Ok(parsed);
  }

  method ReadList(model: Model, item: Ref, nodes: seq<Node>) returns (r: Outcome<seq<Val>>)
    requires Grounded(model)
    ensures r == ParseItems(model, item, nodes)
    decreases Sizes(nodes), if |nodes| >= 2 then 4 else Rank(ShapeOf(model, item)), 3
  {
    var parsed: seq<Val> := [];
    for i := 0 to |nodes|
      invariant ParseItems(model, item, nodes) == Then(parsed, ParseItems(model, item, nodes[i..]))
    {
      assert nodes[i..][0] == nodes[i] && nodes[i..][1..] == nodes[i + 1..];
      SizeAt(nodes, i);
      var x :- ReadShape(model, item, One(nodes[i]));
      ThenAgain(parsed, [x], ParseItems(model, item, nodes[i + 1..]));
      parsed := parsed + [x];
    }
    assert nodes[|nodes|..] == [];
    return Ok(parsed);
  }

  lemma {:induction false} SizeAt(nodes: seq<Node>, i: nat)
    requires i < |nodes|
    ensures Size(nodes[i]) <= Sizes(nodes) && (|nodes| >= 2 ==> Size(nodes[i]) < Sizes(nodes))
  {
    HeadSize(nodes);
    if i > 0 {
      SizeAt(nodes[1..], i - 1);
    }
  }

  method ReadMap(model: Model, key: Ref, value: Ref, nodes: seq<Node>) returns (r: Outcome<Dict<Val, Val>>)
    requires Grounded(model)
    ensures r == ParseEntries(model, key, value, nodes, [])
    decreases Sizes(nodes), 0, 0
  {
    var parsed: Dict<Val, Val> := [];
    for i := 0 to |nodes|
      invariant ParseEntries(model, key, value, nodes, []) == ParseEntries(model, key, value, nodes[i..], parsed)
    {
      assert nodes[i..][0] == nodes[i] && nodes[i..][1..] == nodes[i + 1..];
      SizeAt(nodes, i);
      var e :- ReadPair(model, key, value, nodes[i].kids);
      if !Hashable(e.0) {
        return Err;
      }
      parsed := Set(parsed, e.0, e.1);
    }
    assert nodes[|nodes|..] == [];
    return Ok(parsed);
  }

  method ReadPair(model: Model, key: Ref, value: Ref, kids: seq<Node>) returns (r: Outcome<(Val, Val)>)
    requires Grounded(model)
    ensures r == ParsePair(model, key, value, kids, (Null, Null))
    decreases Sizes(kids), 6, 0
  {
    var k, v := Null, Null;
    for i := 0 to |kids|
      invariant ParsePair(model, key, value, kids, (Null, Null)) == ParsePair(model, key, value, kids[i..], (k, v))
    {
      assert kids[i..][0] == kids[i] && kids[i..][1..] == kids[i + 1..];
      SizeAt(kids, i);
      if kids[i].tag == Wire(key, "key") {
        k :- ReadShape(model, key, One(kids[i]));
      } else if kids[i].tag == Wire(value, "value") {
        v :- ReadShape(model, value, One(kids[i]));
      } else {
        return Err;
      }
    }
    assert kids[|kids|..] == [];
    return Ok((k, v));
  }
}
