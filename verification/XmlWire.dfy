/** The XML tree of a value, in the words of the XML protocols: which tags the elements have
    and what is inside them. The serializer makes exactly this tree. */
module XmlWire {
  import opened PyDict
  import opened Shapes
  import opened Outcomes
  import opened XmlModel
  import Base64
  import Unicode

  // ---------------------------------------------------------------- the protocol

  /** The text of an element. */
  function Text(kind: Kind, v: Val): string
    requires FitsKind(kind, v)
  {
    match v
    case Bool(true) => "true"
    case Bool(false) => "false"
    case Bytes(bytes) => Base64.Encode(bytes)
    case Str(text) => if kind == Blob then Base64.Encode(Unicode.EncodeUtf8(text)) else text
  }

  /** The elements of a value that is called `name` where it is used. A list that is not
      flattened is one element whose children have the name of the items, or `member`; a map
      that is not flattened is one element whose children are called `entry`. The items of a
      flattened list have their own name or that of the list, the entries of a flattened map
      that of the map. Nulls leave nothing. */
  function Drawn(model: Model, ref: Ref, v: Val, name: string): seq<Node>
    decreases v, 1
  {
    match (ShapeOf(model, ref), v)
    case (Scalar(kind), _) => if FitsKind(kind, v) then [Node(name, Text(kind, v), [])] else []
    case (Structure(members), Struct(fields)) => [Node(name, "", DrawnFields(model, members, fields))]
    case (ListOf(item, true), List(items)) =>
      (match item.name
       case Some(own) => DrawnItems(model, item, items, own)
       case None => DrawnItems(model, item, items, name))
    case (ListOf(item, false), List(items)) =>
      (match item.name
       case Some(own) => [Node(name, "", DrawnItems(model, item, items, own))]
       case None => [Node(name, "", DrawnItems(model, item, items, "member"))])
    case (MapOf(key, value, true), Map(entries)) => DrawnEntries(model, key, value, entries, name)
    case (MapOf(key, value, false), Map(entries)) => [Node(name, "", DrawnEntries(model, key, value, entries, "entry"))]
    case _ => []
  }

  /** The elements of the members that are there and that the shape has, in the order of the
      value, under their own name or the name of the member. */
  function DrawnFields(model: Model, members: seq<Member>, fields: seq<(string, Val)>): seq<Node>
    decreases fields, 0
  {
    if fields == [] then [] else DrawnField(model, members, fields[0]) + DrawnFields(model, members, fields[1..])
  }

  function DrawnField(model: Model, members: seq<Member>, f: (string, Val)): seq<Node>
    decreases f, 0
  {
    if f.1 == Null then []
    else
      match FindMember(members, f.0)
      case None => []
      case Some(Member(_, Ref(id, Some(own)), _)) => Drawn(model, Ref(id, Some(own)), f.1, own)
      case Some(Member(_, Ref(id, None), _)) => Drawn(model, Ref(id, None), f.1, f.0)
  }

  function DrawnItems(model: Model, item: Ref, items: seq<Val>, element: string): seq<Node>
    decreases items, 0
  {
    if items == [] then []
    else if items[0] == Null then DrawnItems(model, item, items[1..], element)
    else Drawn(model, item, items[0], element) + DrawnItems(model, item, items[1..], element)
  }

  /** One element for each entry: the key and then the value. */
  function DrawnEntries(model: Model, key: Ref, value: Ref, entries: seq<(Val, Val)>, element: string): seq<Node>
    decreases entries, 0
  {
    if entries == [] then []
    else if entries[0].1 == Null then DrawnEntries(model, key, value, entries[1..], element)
    else [Node(element, "", DrawnPair(model, key, value, entries[0]))]
         + DrawnEntries(model, key, value, entries[1..], element)
  }

  function DrawnPair(model: Model, key: Ref, value: Ref, e: (Val, Val)): seq<Node>
    decreases e, 0
  {
    (match key.name
     case Some(own) => Drawn(model, key, e.0, own)
     case None => Drawn(model, key, e.0, "key"))
    + (match value.name
       case Some(own) => Drawn(model, value, e.1, own)
       case None => Drawn(model, value, e.1, "value"))
  }

  // ---------------------------------------------------------------- the serializer draws it

  lemma {:induction false} SerializedAsDrawn(model: Model, ref: Ref, v: Val, name: string)
    ensures Serialized(model, ref, v, name) == Drawn(model, ref, v, name)
    decreases v, 1
  {
    match (ShapeOf(model, ref), v)
    case (Scalar(kind), _) =>
    case (Structure(members), Struct(fields)) => FieldsAsDrawn(model, members, fields);
    case (ListOf(item, flattened), List(items)) =>
      ItemsAsDrawn(model, item, items, if item.name.Some? then item.name.value else if flattened then name else "member");
    case (MapOf(key, value, flattened), Map(entries)) =>
      EntriesAsDrawn(model, key, value, entries, if flattened then name else "entry");
    case _ =>
  }

  lemma {:induction false} FieldsAsDrawn(model: Model, members: seq<Member>, fields: seq<(string, Val)>)
    ensures SerializedFields(model, members, fields) == DrawnFields(model, members, fields)
    decreases fields, 0
  {
    if fields != [] {
      FieldAsDrawn(model, members, fields[0]);
      FieldsAsDrawn(model, members, fields[1..]);
    }
  }

  lemma FieldAsDrawn(model: Model, members: seq<Member>, f: (string, Val))
    ensures SerializedField(model, members, f) == DrawnField(model, members, f)
    decreases f, 0
  {
    var m := FindMember(members, f.0);
    if f.1 != Null && m.Some? {
      SerializedAsDrawn(model, m.value.ref, f.1, if m.value.ref.name.Some? then m.value.ref.name.value else f.0);
    }
  }

  lemma {:induction false} ItemsAsDrawn(model: Model, item: Ref, items: seq<Val>, element: string)
    ensures SerializedItems(model, item, items, element) == DrawnItems(model, item, items, element)
    decreases items, 0
  {
    if items != [] {
      if items[0] != Null { SerializedAsDrawn(model, item, items[0], element); }
      ItemsAsDrawn(model, item, items[1..], element);
      NothingInFront(DrawnItems(model, item, items[1..], element));
    }
  }

  lemma NothingInFront(nodes: seq<Node>)
    ensures [] + nodes == nodes
  {
  }

  lemma {:induction false} EntriesAsDrawn(model: Model, key: Ref, value: Ref, entries: seq<(Val, Val)>, element: string)
    ensures SerializedEntries(model, key, value, entries, element) == DrawnEntries(model, key, value, entries, element)
    decreases entries, 0
  {
    if entries != [] {
      PairAsDrawn(model, key, value, entries[0]);
      EntriesAsDrawn(model, key, value, entries[1..], element);
      NothingInFront(DrawnEntries(model, key, value, entries[1..], element));
    }
  }

  lemma PairAsDrawn(model: Model, key: Ref, value: Ref, e: (Val, Val))
    ensures Serialized(model, key, e.0, Wire(key, "key")) + Serialized(model, value, e.1, Wire(value, "value"))
         == DrawnPair(model, key, value, e)
    decreases e, 0
  {
    SerializedAsDrawn(model, key, e.0, if key.name.Some? then key.name.value else "key");
    SerializedAsDrawn(model, value, e.1, if value.name.Some? then value.name.value else "value");
  }

  // ---------------------------------------------------------------- tags

  ghost predicate AllTagged(nodes: seq<Node>, tag: string) {
    forall n | n in nodes :: n.tag == tag
  }

  /** A list whose items are not flattened: one element, and every child of it has the name
      of the items, or `member`. */
  lemma ListTags(model: Model, ref: Ref, items: seq<Val>, name: string)
    requires ShapeOf(model, ref).ListOf? && !ShapeOf(model, ref).flattened
    requires !Flattened(ShapeOf(model, ShapeOf(model, ref).item))
    ensures var nodes, own := Serialized(model, ref, List(items), name), ShapeOf(model, ref).item.name;
      && |nodes| == 1 && nodes[0].tag == name && nodes[0].text == ""
      && AllTagged(nodes[0].kids, if own.Some? then own.value else "member")
  {
    SerializedAsDrawn(model, ref, List(items), name);
    var item := ShapeOf(model, ref).item;
    ItemTags(model, item, items, if item.name.Some? then item.name.value else "member");
  }

  lemma {:induction false} ItemTags(model: Model, item: Ref, items: seq<Val>, element: string)
    requires !Flattened(ShapeOf(model, item))
    ensures AllTagged(DrawnItems(model, item, items, element), element)
    decreases items
  {
    if items != [] { ItemTags(model, item, items[1..], element); }
  }

  /** A flattened list: its elements have the name of the items, or that of the list. */
  lemma FlattenedTags(model: Model, ref: Ref, items: seq<Val>, name: string)
    requires ShapeOf(model, ref).ListOf? && ShapeOf(model, ref).flattened
    requires !Flattened(ShapeOf(model, ShapeOf(model, ref).item))
    ensures var own := ShapeOf(model, ref).item.name;
      AllTagged(Serialized(model, ref, List(items), name), if own.Some? then own.value else name)
  {
    SerializedAsDrawn(model, ref, List(items), name);
    var item := ShapeOf(model, ref).item;
    ItemTags(model, item, items, if item.name.Some? then item.name.value else name);
  }

  /** An element that holds a key and then a value. */
  ghost predicate IsEntry(n: Node, keyTag: string, valueTag: string) {
    n.text == "" && |n.kids| == 2 && n.kids[0].tag == keyTag && n.kids[1].tag == valueTag
  }

  /** The entries of a map: children called `entry` of one element, or elements with the name
      of the map when it is flattened. */
  lemma MapTags(model: Model, ref: Ref, entries: seq<(Val, Val)>, name: string)
    requires ShapeOf(model, ref).MapOf? && forall e | e in entries :: PlainEntry(model, ref, e)
    ensures var nodes, shape := Serialized(model, ref, Map(entries), name), ShapeOf(model, ref);
      && (!shape.flattened ==> |nodes| == 1 && nodes[0].tag == name && nodes[0].text == "")
      && var all := if shape.flattened then nodes else nodes[0].kids;
      && AllTagged(all, if shape.flattened then name else "entry")
      && forall n | n in all :: IsEntry(n, if shape.key.name.Some? then shape.key.name.value else "key",
                                        if shape.value.name.Some? then shape.value.name.value else "value")
  {
    SerializedAsDrawn(model, ref, Map(entries), name);
    EntryTags(model, ref, entries, if ShapeOf(model, ref).flattened then name else "entry");
  }

  /** Key and value fit shapes that become one element. */
  ghost predicate PlainEntry(model: Model, ref: Ref, e: (Val, Val))
    requires ShapeOf(model, ref).MapOf?
  {
    var shape := ShapeOf(model, ref);
    && !Flattened(ShapeOf(model, shape.key)) && !Flattened(ShapeOf(model, shape.value))
    && Typed(model, shape.key, e.0) && (e.1 == Null || Typed(model, shape.value, e.1))
  }

  lemma {:induction false} EntryTags(model: Model, ref: Ref, entries: seq<(Val, Val)>, element: string)
    requires ShapeOf(model, ref).MapOf? && forall e | e in entries :: PlainEntry(model, ref, e)
    ensures var shape := ShapeOf(model, ref);
      var nodes := DrawnEntries(model, shape.key, shape.value, entries, element);
      && AllTagged(nodes, element)
      && forall n | n in nodes :: IsEntry(n, if shape.key.name.Some? then shape.key.name.value else "key",
                                          if shape.value.name.Some? then shape.value.name.value else "value")
    decreases entries
  {
    if entries != [] {
      assert PlainEntry(model, ref, entries[0]);
      EntryTags(model, ref, entries[1..], element);
      if entries[0].1 != Null { PairTags(model, ref, entries[0], element); }
    }
  }

  lemma PairTags(model: Model, ref: Ref, e: (Val, Val), element: string)
    requires ShapeOf(model, ref).MapOf? && PlainEntry(model, ref, e) && e.1 != Null
    ensures var shape := ShapeOf(model, ref);
      IsEntry(Node(element, "", DrawnPair(model, shape.key, shape.value, e)),
              if shape.key.name.Some? then shape.key.name.value else "key",
              if shape.value.name.Some? then shape.value.name.value else "value")
  {
    OneElementEach(model, ShapeOf(model, ref).key, e.0);
    OneElementEach(model, ShapeOf(model, ref).value, e.1);
  }

  lemma OneElementEach(model: Model, ref: Ref, v: Val)
    requires Typed(model, ref, v) && !Flattened(ShapeOf(model, ref))
    ensures forall name :: |Drawn(model, ref, v, name)| == 1 && Drawn(model, ref, v, name)[0].tag == name
  {
  }

  // ---------------------------------------------------------------- entries as they are read

  /** The last child with a tag, or -1. */
  function LastWith(kids: seq<Node>, tag: string): (i: int)
    ensures -1 <= i < |kids|
  {
    if kids == [] then -1
    else if kids[|kids| - 1].tag == tag then |kids| - 1
    else LastWith(kids[..|kids| - 1], tag)
  }

  /** What an entry is read as, whatever the order of its children: the last child with the
      name of the key and the last one with the name of the value, and None for one that is
      missing. */
  ghost predicate IsPairOf(model: Model, key: Ref, value: Ref, kids: seq<Node>, e: (Val, Val))
    requires Grounded(model)
  {
    var k := LastWith(kids, if key.name.Some? then key.name.value else "key");
    var v := LastWith(kids, if value.name.Some? then value.name.value else "value");
    && (if k < 0 then e.0 == Null else Parse(model, key, One(kids[k])) == Ok(e.0))
    && (if v < 0 then e.1 == Null else Parse(model, value, One(kids[v])) == Ok(e.1))
  }

  /** A child that must not be there, or that cannot be read. */
  ghost predicate BadChild(model: Model, key: Ref, value: Ref, n: Node)
    requires Grounded(model)
  {
    if n.tag == (if key.name.Some? then key.name.value else "key") then Parse(model, key, One(n)).Err?
    else if n.tag == (if value.name.Some? then value.name.value else "value") then Parse(model, value, One(n)).Err?
    else true
  }

  /** An entry is read exactly if none of its children is bad. */
  lemma {:induction false} PairIsRead(model: Model, key: Ref, value: Ref, kids: seq<Node>)
    requires Grounded(model)
    requires (if key.name.Some? then key.name.value else "key") != (if value.name.Some? then value.name.value else "value")
    ensures var r := ParsePair(model, key, value, kids, (Null, Null));
      && (r.Ok? <==> forall n | n in kids :: !BadChild(model, key, value, n))
      && (r.Ok? ==> IsPairOf(model, key, value, kids, r.value))
    decreases |kids|
  {
    if kids != [] {
      var init, last := kids[..|kids| - 1], kids[|kids| - 1];
      PairIsRead(model, key, value, init);
      PairSnoc(model, key, value, init, last, (Null, Null));
      assert kids == init + [last];
      var r := ParsePair(model, key, value, init, (Null, Null));
      if r.Ok? && !BadChild(model, key, value, last) { LastCounts(model, key, value, init, last, r.value); }
    }
  }

  lemma LastCounts(model: Model, key: Ref, value: Ref, init: seq<Node>, last: Node, e: (Val, Val))
    requires Grounded(model) && IsPairOf(model, key, value, init, e) && !BadChild(model, key, value, last)
    requires (if key.name.Some? then key.name.value else "key") != (if value.name.Some? then value.name.value else "value")
    ensures var r := OneMore(model, key, value, last, e); r.Ok? && IsPairOf(model, key, value, init + [last], r.value)
  {
    LastSnoc(init, last, if key.name.Some? then key.name.value else "key");
    LastSnoc(init, last, if value.name.Some? then value.name.value else "value");
  }

  lemma LastSnoc(init: seq<Node>, last: Node, tag: string)
    ensures var all, i := init + [last], LastWith(init, tag);
      && LastWith(all, tag) == (if last.tag == tag then |init| else i)
      && all[|init|] == last && (i >= 0 ==> all[i] == init[i])
  {
    assert (init + [last])[..|init|] == init;
  }

  lemma {:induction false} PairSnoc(model: Model, key: Ref, value: Ref, kids: seq<Node>, n: Node, e: (Val, Val))
    requires Grounded(model)
    ensures ParsePair(model, key, value, kids + [n], e)
         == var r := ParsePair(model, key, value, kids, e); if r.Err? then Err else OneMore(model, key, value, n, r.value)
    decreases |kids|
  {
    if kids == [] {
      assert kids + [n] == [n] && [n][1..] == kids;
    } else {
      assert (kids + [n])[1..] == kids[1..] + [n] && (kids + [n])[0] == kids[0];
      if kids[0].tag == Wire(key, "key") {
        var k := Parse(model, key, One(kids[0]));
        if k.Ok? { PairSnoc(model, key, value, kids[1..], n, (k.value, e.1)); }
      } else if kids[0].tag == Wire(value, "value") {
        var v := Parse(model, value, One(kids[0]));
        if v.Ok? { PairSnoc(model, key, value, kids[1..], n, (e.0, v.value)); }
      }
    }
  }

  function OneMore(model: Model, key: Ref, value: Ref, n: Node, e: (Val, Val)): Outcome<(Val, Val)>
    requires Grounded(model)
  {
    if n.tag == Wire(key, "key") then
      var k := Parse(model, key, One(n));
      if k.Err? then Err else Ok((k.value, e.1))
    else if n.tag == Wire(value, "value") then
      var v := Parse(model, value, One(n));
      if v.Err? then Err else Ok((e.0, v.value))
    else Err
  }
  // ---------------------------------------------------------------- elements as they are read

  /** The elements, one by one, are read as these items. */
  ghost predicate ReadAsItems(model: Model, item: Ref, nodes: seq<Node>, r: Outcome<Val>)
    requires Grounded(model)
  {
    && (r.Ok? <==> forall n | n in nodes :: Parse(model, item, One(n)).Ok?)
    && (r.Ok? ==>
          && r.value.List? && |r.value.items| == |nodes|
          && forall i :: 0 <= i < |nodes| ==> Parse(model, item, One(nodes[i])) == Ok(r.value.items[i]))
  }

  /** The pair in an element that is an entry: see `PairIsRead`. */
  function PairIn(model: Model, key: Ref, value: Ref, n: Node): Outcome<(Val, Val)>
    requires Grounded(model)
  {
    ParsePair(model, key, value, n.kids, (Null, Null))
  }

  /** The value of the last entry with a key. */
  function LastValue(model: Model, key: Ref, value: Ref, nodes: seq<Node>, k: Val): Option<Val>
    requires Grounded(model)
  {
    if nodes == [] then None
    else
      var e := PairIn(model, key, value, nodes[|nodes| - 1]);
      if e.Ok? && e.value.0 == k then Some(e.value.1) else LastValue(model, key, value, nodes[..|nodes| - 1], k)
  }

  /** Each element is an entry with a hashable key, and the last entry with a key decides. */
  ghost predicate ReadAsEntries(model: Model, key: Ref, value: Ref, nodes: seq<Node>, r: Outcome<Val>)
    requires Grounded(model)
  {
    && (r.Ok? <==> forall n | n in nodes :: var e := PairIn(model, key, value, n); e.Ok? && Hashable(e.value.0))
    && (r.Ok? ==>
          && r.value.Map? && Distinct(r.value.entries)
          && forall k :: Get(r.value.entries, k) == LastValue(model, key, value, nodes, k))
  }

  lemma {:induction false} ItemsAreRead(model: Model, item: Ref, nodes: seq<Node>)
    requires Grounded(model)
    ensures var r := ParseItems(model, item, nodes); ReadAsItems(model, item, nodes, if r.Ok? then Ok(List(r.value)) else Err)
    decreases |nodes|
  {
    if nodes != [] {
      ItemsAreRead(model, item, nodes[1..]);
      assert nodes == [nodes[0]] + nodes[1..] && nodes[0] in nodes;
    }
  }

  lemma {:induction false} LastValueCons(model: Model, key: Ref, value: Ref, nodes: seq<Node>, k: Val)
    requires Grounded(model) && nodes != []
    ensures LastValue(model, key, value, nodes, k)
         == var others, e := LastValue(model, key, value, nodes[1..], k), PairIn(model, key, value, nodes[0]);
            if others.Some? then others else if e.Ok? && e.value.0 == k then Some(e.value.1) else None
    decreases |nodes|
  {
    var init, more := nodes[..|nodes| - 1], nodes[1..];
    if |nodes| == 1 {
      assert more == [] && init == [];
    } else {
      LastValueCons(model, key, value, init, k);
      assert init[1..] == more[..|more| - 1] && init[0] == nodes[0] && more[|more| - 1] == nodes[|nodes| - 1];
    }
  }

  /** What a dict holds under a key once the entries were assigned. */
  function Decided(model: Model, key: Ref, value: Ref, nodes: seq<Node>, d: Dict<Val, Val>, k: Val): Option<Val>
    requires Grounded(model)
  {
    var last := LastValue(model, key, value, nodes, k);
    if last.Some? then last else Get(d, k)
  }

  lemma {:induction false} EntriesReadable(model: Model, key: Ref, value: Ref, nodes: seq<Node>, d: Dict<Val, Val>)
    requires Grounded(model)
    ensures ParseEntries(model, key, value, nodes, d).Ok?
      <==> forall n | n in nodes :: var e := PairIn(model, key, value, n); e.Ok? && Hashable(e.value.0)
    decreases |nodes|
  {
    if nodes != [] {
      var e := PairIn(model, key, value, nodes[0]);
      assert nodes == [nodes[0]] + nodes[1..] && nodes[0] in nodes;
      if e.Ok? && Hashable(e.value.0) { EntriesReadable(model, key, value, nodes[1..], Set(d, e.value.0, e.value.1)); }
    }
  }

  lemma DecidedCons(model: Model, key: Ref, value: Ref, nodes: seq<Node>, d: Dict<Val, Val>, k: Val)
    requires Grounded(model) && nodes != [] && PairIn(model, key, value, nodes[0]).Ok?
    ensures var e := PairIn(model, key, value, nodes[0]).value;
      Decided(model, key, value, nodes, d, k) == Decided(model, key, value, nodes[1..], Set(d, e.0, e.1), k)
  {
    var e := PairIn(model, key, value, nodes[0]).value;
    GetAfterSet(d, e.0, e.1, k);
    LastValueCons(model, key, value, nodes, k);
  }

  lemma {:induction false} EntriesAreRead(model: Model, key: Ref, value: Ref, nodes: seq<Node>, d: Dict<Val, Val>)
    requires Grounded(model) && Distinct(d) && ParseEntries(model, key, value, nodes, d).Ok?
    ensures var r := ParseEntries(model, key, value, nodes, d).value;
      Distinct(r) && forall k :: Get(r, k) == Decided(model, key, value, nodes, d, k)
    decreases |nodes|
  {
    if nodes != [] {
      var e := PairIn(model, key, value, nodes[0]).value;
      SetKeepsDistinct(d, e.0, e.1);
      EntriesAreRead(model, key, value, nodes[1..], Set(d, e.0, e.1));
      forall k { DecidedCons(model, key, value, nodes, d, k); }
    }
  }

  lemma MapIsRead(model: Model, key: Ref, value: Ref, nodes: seq<Node>)
    requires Grounded(model)
    ensures var r := ParseEntries(model, key, value, nodes, []);
      ReadAsEntries(model, key, value, nodes, if r.Ok? then Ok(Map(r.value)) else Err)
  {
    EntriesReadable(model, key, value, nodes, []);
    var r := ParseEntries(model, key, value, nodes, []);
    if r.Ok? { EntriesAreRead(model, key, value, nodes, []); }
  }

  /** One element under the name of a member. */
  lemma OneElement(model: Model, ref: Ref, n: Node)
    requires Grounded(model)
    ensures var r := Parse(model, ref, One(n));
      match ShapeOf(model, ref)
      case ListOf(item, flattened) => ReadAsItems(model, item, if flattened then [n] else n.kids, r)
      case MapOf(key, value, flattened) => ReadAsEntries(model, key, value, if flattened then [n] else n.kids, r)
      case _ => true
  {
    match ShapeOf(model, ref)
    case ListOf(item, flattened) => ItemsAreRead(model, item, if flattened then [n] else n.kids);
    case MapOf(key, value, flattened) => MapIsRead(model, key, value, if flattened then [n] else n.kids);
    case _ =>
  }

  /** Several elements under the name of a member: a structure takes the first one, a list or
      a map takes each of them, and a scalar cannot be read. */
  lemma SeveralElements(model: Model, ref: Ref, nodes: seq<Node>)
    requires Grounded(model) && |nodes| >= 2
    ensures var r := Parse(model, ref, Many(nodes));
      match ShapeOf(model, ref)
      case Scalar(_) => r == Err
      case Structure(_) => r == Parse(model, ref, One(nodes[0]))
      case ListOf(item, _) => ReadAsItems(model, item, nodes, r)
      case MapOf(key, value, _) => ReadAsEntries(model, key, value, nodes, r)
  {
    match ShapeOf(model, ref)
    case Scalar(_) =>
    case Structure(_) =>
    case ListOf(item, _) => ItemsAreRead(model, item, nodes);
    case MapOf(key, value, _) => MapIsRead(model, key, value, nodes);
  }
}
