/** Parsing the tree that was serialized gives back the value in normal form: flattened
    lists and maps are regrouped, nulls and empty flattened collections are gone. */
module XmlTheorems {
  import opened PyDict
  import opened Shapes
  import opened Outcomes
  import opened Scalars
  import opened XmlModel

  /** Siblings can be told apart: member names and their tags are distinct, and so are the
      key and value tags of a map. */
  ghost predicate Unambiguous(model: Model) {
    Grounded(model) && forall id | id in model :: UnambiguousShape(model, model[id])
  }

  ghost predicate UnambiguousShape(model: Model, shape: Shape) {
    match shape
    case Structure(members) => UnambiguousMembers(model, members)
    case MapOf(key, value, _) => ShapeOf(model, key) == Scalar(Text) && Wire(key, "key") != Wire(value, "value")
    case _ => true
  }

  ghost predicate UnambiguousMembers(model: Model, members: seq<Member>) {
    forall i, j | 0 <= i < j < |members| ::
      members[i].name != members[j].name && MemberTag(model, members[i]) != MemberTag(model, members[j])
  }

  /** Every item of a list and every value of a map becomes exactly one element, and map
      values keep their tag. This is so whenever no flattened collection is directly inside
      another collection. */
  ghost predicate Regroups(model: Model, ref: Ref, v: Val)
    decreases v, 1
  {
    match (ShapeOf(model, ref), v)
    case (Structure(members), Struct(fields)) => forall f | f in fields :: RegroupsField(model, members, f)
    case (ListOf(item, _), List(items)) =>
      forall x | x in items :: x != Null ==> Elements(model, item, x) == 1 && Regroups(model, item, x)
    case (MapOf(_, value, _), Map(entries)) => forall e | e in entries :: RegroupsEntry(model, value, e)
    case _ => true
  }

  ghost predicate RegroupsField(model: Model, members: seq<Member>, f: (string, Val))
    decreases f, 0
  {
    var m := FindMember(members, f.0);
    m.Some? && f.1 != Null ==> Regroups(model, m.value.ref, f.1)
  }

  ghost predicate RegroupsEntry(model: Model, value: Ref, e: (Val, Val))
    decreases e, 0
  {
    e.1 != Null ==>
      && Elements(model, value, e.1) == 1 && Regroups(model, value, e.1)
      && TagUnder(model, value, Wire(value, "value")) == Wire(value, "value")
  }

  // ---------------------------------------------------------------- tags

  lemma {:induction false} TaggedConcat(a: seq<Node>, b: seq<Node>, tag: string)
    ensures Tagged(a + b, tag) == Tagged(a, tag) + Tagged(b, tag)
  {
    if a == [] {
      assert a + b == b;
    } else {
      assert (a + b)[1..] == a[1..] + b;
      TaggedConcat(a[1..], b, tag);
    }
  }

  lemma {:induction false} TaggedAll(nodes: seq<Node>, tag: string, wanted: string)
    requires forall n | n in nodes :: n.tag == tag
    ensures Tagged(nodes, wanted) == if tag == wanted then nodes else []
  {
    if nodes != [] {
      assert nodes[0] in nodes;
      TaggedAll(nodes[1..], tag, wanted);
    }
  }

  /** How many elements a value becomes, and that they all carry its tag. */
  lemma {:induction false} SerializedElements(model: Model, ref: Ref, v: Val, name: string)
    requires Grounded(model) && Typed(model, ref, v)
    ensures |Serialized(model, ref, v, name)| == Elements(model, ref, v)
    ensures forall n | n in Serialized(model, ref, v, name) :: n.tag == TagUnder(model, ref, name)
    decreases v, 1
  {
    match (ShapeOf(model, ref), v)
    case (ListOf(item, flattened), List(items)) =>
      if flattened { SerializedItemElements(model, item, items, Wire(item, name)); }
    case (MapOf(key, value, flattened), Map(entries)) =>
      if flattened { SerializedEntryElements(model, key, value, entries, name); }
    case _ =>
  }

  lemma {:induction false} SerializedItemElements(model: Model, item: Ref, items: seq<Val>, element: string)
    requires Grounded(model) && !Flattened(ShapeOf(model, item))
    requires forall x | x in items :: x == Null || Typed(model, item, x)
    ensures |SerializedItems(model, item, items, element)| == CountItems(items)
    ensures forall n | n in SerializedItems(model, item, items, element) :: n.tag == element
    decreases items, 0
  {
    if items != [] {
      assert items[0] in items;
      if items[0] != Null { SerializedElements(model, item, items[0], element); }
      SerializedItemElements(model, item, items[1..], element);
    }
  }

  lemma {:induction false} SerializedEntryElements(model: Model, key: Ref, value: Ref, entries: seq<(Val, Val)>, element: string)
    ensures |SerializedEntries(model, key, value, entries, element)| == CountEntries(entries)
    ensures forall n | n in SerializedEntries(model, key, value, entries, element) :: n.tag == element
    decreases entries, 0
  {
    if entries != [] {
      SerializedEntryElements(model, key, value, entries[1..], element);
    }
  }

  // ---------------------------------------------------------------- round trip

  ghost predicate Fits(model: Model, ref: Ref, v: Val) {
    Unambiguous(model) && Typed(model, ref, v) && Regroups(model, ref, v)
  }

  /** The round trip: whatever elements a value became, grouping and parsing them gives its
      normal form. A value that became no element at all is an empty flattened collection. */
  lemma {:induction false} RoundTrip(model: Model, ref: Ref, v: Val, name: string)
    requires Fits(model, ref, v) && Elements(model, ref, v) > 0
    ensures var p := Packed(Serialized(model, ref, v, name));
      p.Some? && Parse(model, ref, p.value) == Ok(Normal(model, ref, v, true))
    decreases v, 2
  {
    SerializedElements(model, ref, v, name);
    var nodes := Serialized(model, ref, v, name);
    assert |nodes| == 1 ==> [nodes[0]] == nodes;
    match (ShapeOf(model, ref), v)
    case (Scalar(kind), _) => ReadPrinted(kind, v);
    case (Structure(members), Struct(fields)) =>
      assert UnambiguousShape(model, model[ref.id]);
      MembersBack(model, members, members, fields);
    case (ListOf(item, flattened), List(items)) =>
      ItemsBack(model, item, items, if flattened then Wire(item, name) else Wire(item, "member"));
    case (MapOf(key, value, flattened), Map(entries)) =>
      assert UnambiguousShape(model, model[ref.id]);
      EntriesBack(model, key, value, entries, if flattened then name else "entry", []);
      AssignedIsAppended(model, value, [], entries, true);
      assert [] + NormalEntries(model, value, entries, true) == NormalEntries(model, value, entries, true);
    case _ =>
  }

  lemma {:induction false} ItemsBack(model: Model, item: Ref, items: seq<Val>, element: string)
    requires Unambiguous(model)
    requires forall x | x in items :: x == Null || (Fits(model, item, x) && Elements(model, item, x) == 1)
    ensures ParseItems(model, item, SerializedItems(model, item, items, element)) == Ok(NormalItems(model, item, items, true))
    decreases items, 1
  {
    if items != [] {
      assert items[0] in items;
      ItemsBack(model, item, items[1..], element);
      var others := SerializedItems(model, item, items[1..], element);
      if items[0] == Null {
        assert [] + others == others;
        assert [] + NormalItems(model, item, items[1..], true) == NormalItems(model, item, items[1..], true);
      } else {
        RoundTrip(model, item, items[0], element);
        SerializedElements(model, item, items[0], element);
        var first := Serialized(model, item, items[0], element);
        assert (first + others)[0] == first[0] && (first + others)[1..] == others;
      }
    }
  }

  lemma EntryBack(model: Model, key: Ref, value: Ref, e: (Val, Val))
    requires Unambiguous(model) && ShapeOf(model, key) == Scalar(Text) && Wire(key, "key") != Wire(value, "value")
    requires TypedEntry(model, key, value, e) && RegroupsEntry(model, value, e) && e.1 != Null
    ensures
      var kids := Serialized(model, key, e.0, Wire(key, "key")) + Serialized(model, value, e.1, Wire(value, "value"));
      ParsePair(model, key, value, kids, (Null, Null)) == Ok((e.0, Normal(model, value, e.1, true)))
    decreases e, 0
  {
    var k, v := Serialized(model, key, e.0, Wire(key, "key")), Serialized(model, value, e.1, Wire(value, "value"));
    RoundTrip(model, value, e.1, Wire(value, "value"));
    SerializedElements(model, value, e.1, Wire(value, "value"));
    assert v == [v[0]] && v[0] in v;
    assert (k + v)[0] == k[0] && (k + v)[1..] == v && v[1..] == [];
    assert ParsePair(model, key, value, v, (e.0, Null)) == Ok((e.0, Normal(model, value, e.1, true))) by {
      assert ParsePair(model, key, value, v[1..], (e.0, Normal(model, value, e.1, true))).Ok?;
    }
  }

  /** One turn of the entry loop over serialized entries. */
  lemma EntryTurn(model: Model, key: Ref, value: Ref, e: (Val, Val), element: string, others: seq<Node>, d: Dict<Val, Val>)
    requires Unambiguous(model) && ShapeOf(model, key) == Scalar(Text) && Wire(key, "key") != Wire(value, "value")
    requires TypedEntry(model, key, value, e) && RegroupsEntry(model, value, e) && e.1 != Null
    ensures ParseEntries(model, key, value, SerializedEntry(model, key, value, e, element) + others, d)
         == ParseEntries(model, key, value, others, Set(d, e.0, Normal(model, value, e.1, true)))
    decreases e, 1
  {
    var first := SerializedEntry(model, key, value, e, element);
    EntryBack(model, key, value, e);
    assert (first + others)[0] == first[0] && (first + others)[1..] == others;
    assert Hashable(e.0);
  }

  lemma {:induction false} EntriesBack(
    model: Model, key: Ref, value: Ref, entries: seq<(Val, Val)>, element: string, d: Dict<Val, Val>)
    requires Unambiguous(model) && ShapeOf(model, key) == Scalar(Text) && Wire(key, "key") != Wire(value, "value")
    requires forall e | e in entries :: TypedEntry(model, key, value, e) && RegroupsEntry(model, value, e)
    requires Fresh(d, entries)
    ensures ParseEntries(model, key, value, SerializedEntries(model, key, value, entries, element), d)
         == Ok(Assigned(model, value, d, entries, true))
    decreases entries, 1
  {
    if entries != [] {
      var e, d' := entries[0], d + NormalEntry(model, value, entries[0], true);
      StillFresh(model, value, d, entries, true);
      EntriesBack(model, key, value, entries[1..], element, d');
      var first, others := SerializedEntry(model, key, value, e, element),
                           SerializedEntries(model, key, value, entries[1..], element);
      if e.1 == Null {
        assert first + others == others && d' == d;
      } else {
        EntryTurn(model, key, value, e, element, others, d);
        SetFresh(d, e.0, Normal(model, value, e.1, true));
      }
    }
  }

  // ---------------------------------------------------------------- structures

  /** The elements that one member contributed. */
  function FieldNodes(model: Model, members: seq<Member>, m: Member, fields: seq<(string, Val)>): seq<Node> {
    if fields == [] then []
    else if fields[0].0 == m.name then SerializedField(model, members, fields[0])
    else FieldNodes(model, members, m, fields[1..])
  }

  /** Grouping by tag finds exactly the elements of the member, in order, wherever the
      member stands in the dict. */
  lemma {:induction false} TaggedMember(model: Model, members: seq<Member>, m: Member, fields: seq<(string, Val)>)
    requires Grounded(model) && UnambiguousMembers(model, members) && m in members
    requires Distinct(fields) && forall f | f in fields :: TypedField(model, members, f)
    ensures Tagged(SerializedFields(model, members, fields), MemberTag(model, m)) == FieldNodes(model, members, m, fields)
    decreases fields
  {
    if fields != [] {
      var f, tag := fields[0], MemberTag(model, m);
      assert f in fields;
      var first, others := SerializedField(model, members, f), SerializedFields(model, members, fields[1..]);
      TaggedConcat(first, others, tag);
      TaggedMember(model, members, m, fields[1..]);
      TaggedField(model, members, m, f);
      if f.0 == m.name {
        OtherFields(model, members, m, fields);
      }
    }
  }

  lemma TaggedField(model: Model, members: seq<Member>, m: Member, f: (string, Val))
    requires Grounded(model) && UnambiguousMembers(model, members) && m in members && TypedField(model, members, f)
    ensures Tagged(SerializedField(model, members, f), MemberTag(model, m))
         == if f.0 == m.name then SerializedField(model, members, f) else []
  {
    var o := FindMember(members, f.0);
    if o.Some? && f.1 != Null {
      SerializedElements(model, o.value.ref, f.1, Wire(o.value.ref, f.0));
      TaggedAll(SerializedField(model, members, f), MemberTag(model, o.value), MemberTag(model, m));
      SameMember(model, members, m, o.value);
    }
  }

  lemma SameMember(model: Model, members: seq<Member>, m: Member, o: Member)
    requires UnambiguousMembers(model, members) && m in members && o in members
    ensures m.name == o.name <==> MemberTag(model, m) == MemberTag(model, o)
    ensures m.name == o.name ==> m == o
  {
  }

  lemma {:induction false} OtherFields(model: Model, members: seq<Member>, m: Member, fields: seq<(string, Val)>)
    requires fields != [] && Distinct(fields) && fields[0].0 == m.name
    ensures FieldNodes(model, members, m, fields[1..]) == []
    decreases |fields|
  {
    if |fields| > 1 {
      assert fields[1].0 != fields[0].0;
      var shorter := [fields[0]] + fields[2..];
      forall i, j | 0 <= i < j < |shorter| ensures shorter[i].0 != shorter[j].0 {
        assert shorter[j] == fields[j + 1] && shorter[i] == fields[if i == 0 then 0 else i + 1];
      }
      OtherFields(model, members, m, shorter);
      assert shorter[1..] == fields[1..][1..];
    }
  }

  lemma FieldBack(model: Model, members: seq<Member>, m: Member, f: (string, Val))
    requires Unambiguous(model) && UnambiguousMembers(model, members) && m in members && f.0 == m.name
    requires TypedField(model, members, f) && RegroupsField(model, members, f)
    ensures
      var p, normal := Packed(SerializedField(model, members, f)), NormalField(model, m, f, true);
      if p.None? then normal == Missing(m)
      else var r := Parse(model, m.ref, p.value); r.Ok? && normal == [(m.name, r.value)]
    decreases f, 0
  {
    var o := FindMember(members, f.0);
    SameMember(model, members, m, o.value);
    if f.1 != Null {
      SerializedElements(model, m.ref, f.1, Wire(m.ref, f.0));
      if Elements(model, m.ref, f.1) > 0 {
        RoundTrip(model, m.ref, f.1, Wire(m.ref, f.0));
      }
    }
  }

  lemma {:induction false} MemberBack(model: Model, members: seq<Member>, m: Member, fields: seq<(string, Val)>)
    requires Unambiguous(model) && UnambiguousMembers(model, members) && m in members
    requires forall f | f in fields :: TypedField(model, members, f) && RegroupsField(model, members, f)
    ensures
      var p, normal := Packed(FieldNodes(model, members, m, fields)), NormalMember(model, m, fields, true);
      if p.None? then normal == Missing(m)
      else var r := Parse(model, m.ref, p.value); r.Ok? && normal == [(m.name, r.value)]
    decreases fields, 0
  {
    if fields != [] {
      assert fields[0] in fields;
      if fields[0].0 == m.name {
        FieldBack(model, members, m, fields[0]);
      } else {
        MemberBack(model, members, m, fields[1..]);
      }
    }
  }

  lemma {:induction false} MembersBack(model: Model, members: seq<Member>, todo: seq<Member>, fields: seq<(string, Val)>)
    requires Unambiguous(model) && UnambiguousMembers(model, members) && forall m | m in todo :: m in members
    requires Distinct(fields)
    requires forall f | f in fields :: TypedField(model, members, f) && RegroupsField(model, members, f)
    ensures ParseMembers(model, todo, SerializedFields(model, members, fields))
         == Ok(NormalMembers(model, todo, fields, true))
    decreases fields, 1, |todo|
  {
    if todo != [] {
      var m := todo[0];
      assert m in todo;
      TaggedMember(model, members, m, fields);
      MemberBack(model, members, m, fields);
      MembersBack(model, members, todo[1..], fields);
    }
  }

  /** The condition is needed: a list of flattened lists comes back as a list of singletons. */
  lemma FlattenedInsideListIsSplit(a: string, b: string)
    ensures
      var model: Model := map["Rows" := ListOf(Ref("Row", None), false), "Row" := ListOf(Ref("Cell", None), true),
                              "Cell" := Scalar(Text)];
      var v := List([List([Str(a), Str(b)])]);
      && Unambiguous(model) && Typed(model, Ref("Rows", None), v) && !Regroups(model, Ref("Rows", None), v)
      && var p := Packed(Serialized(model, Ref("Rows", None), v, "Rows"));
         p.Some? && Parse(model, Ref("Rows", None), p.value) == Ok(List([List([Str(a)]), List([Str(b)])]))
  {
    var model: Model := map["Rows" := ListOf(Ref("Row", None), false), "Row" := ListOf(Ref("Cell", None), true),
                            "Cell" := Scalar(Text)];
    var cell, row, rows := Ref("Cell", None), Ref("Row", None), Ref("Rows", None);
    var x := List([Str(a), Str(b)]);
    var na, nb := Node("member", a, []), Node("member", b, []);
    TwoItems(model, cell, Str(a), Str(b), "member");
    assert CountItems(x.items) == 1 + CountItems(x.items[1..]) && x.items[1..] == [Str(b)];
    assert CountItems([Str(b)]) == 1 + CountItems([Str(b)][1..]) && [Str(b)][1..] == [];
    assert Elements(model, row, x) == 2 && x in [x];
    assert SerializedItem(model, row, x, "member") == [na, nb] && [x][1..] == [];
    assert SerializedItems(model, row, [x], "member") == [na, nb] + [];
    assert SerializedItems(model, row, [x], Wire(row, "member")) == [na, nb];
    assert Serialized(model, rows, List([x]), "Rows") == [Node("Rows", "", [na, nb])];
    ParseTwo(model, cell, na, nb);
    ParseTwo(model, cell, nb, na);
    ParseTwo(model, row, na, nb);
  }

  lemma TwoItems(model: Model, item: Ref, a: Val, b: Val, element: string)
    requires a != Null && b != Null
    ensures SerializedItems(model, item, [a, b], element)
         == Serialized(model, item, a, element) + Serialized(model, item, b, element)
  {
    assert [a, b][1..] == [b] && [b][1..] == [];
    assert SerializedItems(model, item, [b], element) == Serialized(model, item, b, element) + [];
  }

  lemma ParseTwo(model: Model, item: Ref, m: Node, n: Node)
    requires Grounded(model) && Parse(model, item, One(m)).Ok? && Parse(model, item, One(n)).Ok?
    ensures ParseItems(model, item, [m]) == Ok([Parse(model, item, One(m)).value])
    ensures ParseItems(model, item, [m, n]) == Ok([Parse(model, item, One(m)).value, Parse(model, item, One(n)).value])
  {
    assert [m][1..] == [] && [n][1..] == [] && [m, n][1..] == [n];
    var x, y := Parse(model, item, One(m)).value, Parse(model, item, One(n)).value;
    assert [x] + [] == [x] && [y] + [] == [y] && [x] + [y] == [x, y];
    assert ParseItems(model, item, []) == Ok([]);
    assert ParseItems(model, item, [n]) == Ok([Parse(model, item, One(n)).value]);
  }
}
