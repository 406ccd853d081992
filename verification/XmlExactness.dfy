/** The XML round trip holds exactly for the values that regroup: when an item of a list or a
    value of a map becomes no element, or several, or elements with another tag, something
    else comes back. */
module XmlExactness {
  import opened PyDict
  import opened Sequences
  import opened Shapes
  import opened Outcomes
  import opened XmlModel
  import opened XmlTheorems

  /** The value that comes back is the normal form of the value that was sent. */
  ghost predicate ComesBack(model: Model, ref: Ref, v: Val, name: string)
    requires Grounded(model)
  {
    var p := Packed(Serialized(model, ref, v, name));
    p.Some? && Parse(model, ref, p.value) == Ok(Normal(model, ref, v, true))
  }

  /** The number of elements of a collection, and 1 for anything else. */
  function Count(v: Val): nat {
    match v case List(items) => |items| case Map(entries) => |entries| case _ => 1
  }

  lemma {:induction false} NormalItemsCount(model: Model, item: Ref, items: seq<Val>)
    ensures |NormalItems(model, item, items, true)| == CountItems(items)
    decreases items
  {
    if items != [] { NormalItemsCount(model, item, items[1..]); }
  }

  lemma {:induction false} NormalEntriesCount(model: Model, value: Ref, entries: seq<(Val, Val)>)
    ensures |NormalEntries(model, value, entries, true)| == CountEntries(entries)
    decreases entries
  {
    if entries != [] { NormalEntriesCount(model, value, entries[1..]); }
  }

  /** A flattened collection has as many elements as its normal form. */
  lemma FlattenedCount(model: Model, ref: Ref, v: Val)
    requires Typed(model, ref, v) && Flattened(ShapeOf(model, ref))
    ensures Elements(model, ref, v) == Count(Normal(model, ref, v, true))
  {
    match (ShapeOf(model, ref), v)
    case (ListOf(item, _), List(items)) => NormalItemsCount(model, item, items);
    case (MapOf(_, value, _), Map(entries)) => NormalEntriesCount(model, value, entries);
  }

  /** A single element of a flattened collection is read as a collection of one. */
  lemma OneIsSingleton(model: Model, ref: Ref, n: Node)
    requires Grounded(model) && Flattened(ShapeOf(model, ref)) && Parse(model, ref, One(n)).Ok?
    ensures Count(Parse(model, ref, One(n)).value) == 1
  {
    match ShapeOf(model, ref)
    case ListOf(item, _) => assert ParseItems(model, item, [n][1..]) == Ok([]);
    case MapOf(key, value, _) =>
      var e := ParsePair(model, key, value, n.kids, (Null, Null));
      assert [n][1..] == [] && ParseEntries(model, key, value, [n], []) == ParseEntries(model, key, value, [], Set([], e.value.0, e.value.1));
  }

  lemma NormalIsNotNull(model: Model, ref: Ref, v: Val)
    requires Typed(model, ref, v)
    ensures Normal(model, ref, v, true) != Null
  {
  }

  /** A value that comes back from its first element alone became one element. */
  lemma OneElement(model: Model, ref: Ref, v: Val, n: Node)
    requires Grounded(model) && Parse(model, ref, One(n)) == Ok(Normal(model, ref, v, true))
    requires Typed(model, ref, v)
    ensures Elements(model, ref, v) == 1
  {
    if Flattened(ShapeOf(model, ref)) {
      OneIsSingleton(model, ref, n);
      FlattenedCount(model, ref, v);
    }
  }

  // ---------------------------------------------------------------- lists

  lemma {:induction false} ItemsOnly(model: Model, item: Ref, items: seq<Val>, element: string)
    requires Unambiguous(model)
    requires ParseItems(model, item, SerializedItems(model, item, items, element)) == Ok(NormalItems(model, item, items, true))
    requires forall x | x in items :: x == Null || Typed(model, item, x)
    ensures forall x | x in items && x != Null :: Elements(model, item, x) == 1 && Regroups(model, item, x)
    decreases items, 0
  {
    if items != [] {
      var x := items[0];
      assert x in items;
      var first, others := SerializedItem(model, item, x, element), SerializedItems(model, item, items[1..], element);
      if x == Null {
        assert first + others == others;
        assert NormalItems(model, item, items, true) == NormalItems(model, item, items[1..], true);
      } else {
        var nodes := first + others;
        FirstItem(model, item, nodes, Normal(model, item, x, true), NormalItems(model, item, items[1..], true));
        OneElement(model, item, x, nodes[0]);
        SerializedElements(model, item, x, element);
        assert first == [nodes[0]] && nodes[1..] == others;
        OnlyIf(model, item, x, element);
      }
      ItemsOnly(model, item, items[1..], element);
    }
  }

  lemma FirstItem(model: Model, item: Ref, nodes: seq<Node>, v: Val, others: seq<Val>)
    requires Grounded(model) && ParseItems(model, item, nodes) == Ok([v] + others)
    ensures nodes != [] && Parse(model, item, One(nodes[0])) == Ok(v)
    ensures ParseItems(model, item, nodes[1..]) == Ok(others)
  {
    assert nodes != [];
    var x, xs := Parse(model, item, One(nodes[0])), ParseItems(model, item, nodes[1..]);
    assert ([x.value] + xs.value)[0] == ([v] + others)[0];
    assert ([x.value] + xs.value)[1..] == ([v] + others)[1..] == others;
  }

  // ---------------------------------------------------------------- maps

  lemma {:induction false} SetGrows(d: Dict<Val, Val>, k: Val, v: Val)
    ensures |d| <= |Set(d, k, v)| <= |d| + 1
    ensures |Set(d, k, v)| == |d| + 1 ==> Set(d, k, v) == d + [(k, v)]
  {
    if d != [] && d[0].0 != k {
      SetGrows(d[1..], k, v);
    }
  }

  /** If every entry element adds an entry, the dict before them is kept as it was. */
  lemma {:induction false} EntriesGrow(model: Model, key: Ref, value: Ref, nodes: seq<Node>, d: Dict<Val, Val>)
    requires Grounded(model) && ParseEntries(model, key, value, nodes, d).Ok?
    ensures var r := ParseEntries(model, key, value, nodes, d).value;
      |d| <= |r| <= |d| + |nodes| && (|r| == |d| + |nodes| ==> d <= r)
    decreases |nodes|
  {
    if nodes != [] {
      var e := ParsePair(model, key, value, nodes[0].kids, (Null, Null)).value;
      SetGrows(d, e.0, e.1);
      EntriesGrow(model, key, value, nodes[1..], Set(d, e.0, e.1));
    }
  }

  lemma NextAfter(d: Dict<Val, Val>, p: (Val, Val), e: (Val, Val), others: Dict<Val, Val>)
    requires d + [p] <= d + [e] + others
    ensures p == e
  {
    assert (d + [p])[|d|] == p && (d + [e] + others)[|d|] == e;
  }

  lemma FirstEntry(model: Model, key: Ref, value: Ref, nodes: seq<Node>, d: Dict<Val, Val>, e: (Val, Val), others: Dict<Val, Val>)
    requires Grounded(model) && nodes != [] && |nodes| == 1 + |others|
    requires ParseEntries(model, key, value, nodes, d) == Ok(d + [e] + others)
    ensures ParsePair(model, key, value, nodes[0].kids, (Null, Null)) == Ok(e)
    ensures ParseEntries(model, key, value, nodes[1..], d + [e]) == Ok(d + [e] + others)
  {
    var p := ParsePair(model, key, value, nodes[0].kids, (Null, Null)).value;
    var d' := Set(d, p.0, p.1);
    assert ParseEntries(model, key, value, nodes[1..], d') == Ok(d + [e] + others);
    SetGrows(d, p.0, p.1);
    EntriesGrow(model, key, value, nodes[1..], d');
    NextAfter(d, p, e, others);
  }

  lemma {:induction false} EntriesOnly(
    model: Model, key: Ref, value: Ref, entries: seq<(Val, Val)>, element: string, d: Dict<Val, Val>)
    requires Unambiguous(model)
    requires ParseEntries(model, key, value, SerializedEntries(model, key, value, entries, element), d)
          == Ok(d + NormalEntries(model, value, entries, true))
    requires ShapeOf(model, key) == Scalar(Text) && Wire(key, "key") != Wire(value, "value")
    requires forall e | e in entries :: TypedEntry(model, key, value, e)
    ensures forall e | e in entries :: RegroupsEntry(model, value, e)
    decreases entries, 0
  {
    if entries != [] {
      var e, others := entries[0], SerializedEntries(model, key, value, entries[1..], element);
      assert e in entries;
      var first := SerializedEntry(model, key, value, e, element);
      var rest := NormalEntries(model, value, entries[1..], true);
      if e.1 == Null {
        assert first + others == others && NormalEntries(model, value, entries, true) == rest;
        EntriesOnly(model, key, value, entries[1..], element, d);
      } else {
        var normal := (e.0, Normal(model, value, e.1, true));
        SerializedEntryElements(model, key, value, entries[1..], element);
        NormalEntriesCount(model, value, entries[1..]);
        assert (first + others)[0] == first[0] && (first + others)[1..] == others;
        Assoc(d, [normal], rest);
        FirstEntry(model, key, value, first + others, d, normal, rest);
        EntryOnly(model, key, value, e);
        EntriesOnly(model, key, value, entries[1..], element, d + [normal]);
      }
    }
  }

  /** What the children of an entry behind its key are read as, when they all have one tag. */
  lemma {:induction false} SameTagPair(model: Model, key: Ref, value: Ref, kids: seq<Node>, tag: string, e: (Val, Val))
    requires Grounded(model) && Wire(key, "key") != Wire(value, "value") && forall n | n in kids :: n.tag == tag
    requires kids != [] && ParsePair(model, key, value, kids, e).Ok?
    ensures var r, last := ParsePair(model, key, value, kids, e).value, kids[|kids| - 1];
      if tag == Wire(value, "value") then Parse(model, value, One(last)) == Ok(r.1) else r.1 == e.1
    decreases |kids|
  {
    assert kids[0] in kids;
    if |kids| > 1 {
      var e' := if tag == Wire(key, "key") then (Parse(model, key, One(kids[0])).value, e.1)
                else (e.0, Parse(model, value, One(kids[0])).value);
      SameTagPair(model, key, value, kids[1..], tag, e');
    } else {
      assert kids[1..] == [];
    }
  }

  lemma EntryOnly(model: Model, key: Ref, value: Ref, e: (Val, Val))
    requires Unambiguous(model)
    requires
      var kids := Serialized(model, key, e.0, Wire(key, "key")) + Serialized(model, value, e.1, Wire(value, "value"));
      ParsePair(model, key, value, kids, (Null, Null)) == Ok((e.0, Normal(model, value, e.1, true)))
    requires ShapeOf(model, key) == Scalar(Text) && Wire(key, "key") != Wire(value, "value")
    requires TypedEntry(model, key, value, e) && e.1 != Null
    ensures RegroupsEntry(model, value, e)
    decreases e, 0
  {
    var tag := Wire(value, "value");
    var k, v := Serialized(model, key, e.0, Wire(key, "key")), Serialized(model, value, e.1, tag);
    NormalIsNotNull(model, value, e.1);
    SerializedElements(model, value, e.1, tag);
    assert (k + v)[0] == k[0] && (k + v)[1..] == v;
    assert ParsePair(model, key, value, v, (e.0, Null)) == Ok((e.0, Normal(model, value, e.1, true)));
    assert v != [];
    SameTagPair(model, key, value, v, TagUnder(model, value, tag), (e.0, Null));
    OneElement(model, value, e.1, v[|v| - 1]);
    OnlyIf(model, value, e.1, tag);
  }

  // ---------------------------------------------------------------- structures

  /** A value without elements has nothing that could fail to regroup. */
  lemma NothingRegroups(model: Model, ref: Ref, v: Val)
    requires Typed(model, ref, v) && Elements(model, ref, v) == 0
    ensures Regroups(model, ref, v)
  {
    match (ShapeOf(model, ref), v)
    case (ListOf(item, _), List(items)) => NoItems(items);
    case (MapOf(_, value, _), Map(entries)) => NoEntries(entries);
  }

  lemma {:induction false} NoItems(items: seq<Val>)
    requires CountItems(items) == 0
    ensures forall x | x in items :: x == Null
  {
    if items != [] {
      NoItems(items[1..]);
      assert items == [items[0]] + items[1..];
    }
  }

  lemma {:induction false} NoEntries(entries: seq<(Val, Val)>)
    requires CountEntries(entries) == 0
    ensures forall e | e in entries :: e.1 == Null
  {
    if entries != [] {
      NoEntries(entries[1..]);
      assert entries == [entries[0]] + entries[1..];
    }
  }

  lemma FieldOnly(model: Model, members: seq<Member>, m: Member, f: (string, Val))
    requires Unambiguous(model)
    requires
      var p := Packed(SerializedField(model, members, f));
      p.Some? ==> Parse(model, m.ref, p.value).Ok? && NormalField(model, m, f, true) == [(m.name, Parse(model, m.ref, p.value).value)]
    requires UnambiguousMembers(model, members) && m in members && f.0 == m.name
    requires TypedField(model, members, f)
    ensures RegroupsField(model, members, f)
    decreases f, 0
  {
    var o := FindMember(members, f.0);
    SameMember(model, members, m, o.value);
    if f.1 != Null {
      SerializedElements(model, m.ref, f.1, Wire(m.ref, f.0));
      if Elements(model, m.ref, f.1) > 0 {
        OnlyIf(model, m.ref, f.1, Wire(m.ref, f.0));
      } else {
        NothingRegroups(model, m.ref, f.1);
      }
    }
  }

  /** The element of a member is there exactly if its normal form has a value for it. */
  lemma {:induction false} SameLength(model: Model, members: seq<Member>, m: Member, fields: seq<(string, Val)>)
    requires Unambiguous(model) && UnambiguousMembers(model, members) && m in members
    requires forall f | f in fields :: TypedField(model, members, f)
    ensures
      var p, normal := Packed(FieldNodes(model, members, m, fields)), NormalMember(model, m, fields, true);
      if p.None? then normal == Missing(m) else |normal| == 1
    decreases fields
  {
    if fields != [] {
      var f := fields[0];
      assert f in fields;
      if f.0 != m.name {
        SameLength(model, members, m, fields[1..]);
      } else {
        SameMember(model, members, m, FindMember(members, f.0).value);
        if f.1 != Null { SerializedElements(model, m.ref, f.1, Wire(m.ref, f.0)); }
      }
    }
  }

  lemma {:induction false} MemberOnly(model: Model, members: seq<Member>, m: Member, fields: seq<(string, Val)>)
    requires Unambiguous(model)
    requires
      var p := Packed(FieldNodes(model, members, m, fields));
      p.Some? ==> Parse(model, m.ref, p.value).Ok?
                  && NormalMember(model, m, fields, true) == [(m.name, Parse(model, m.ref, p.value).value)]
    requires UnambiguousMembers(model, members) && m in members
    requires Distinct(fields) && forall f | f in fields :: TypedField(model, members, f)
    ensures forall f | f in fields && f.0 == m.name :: RegroupsField(model, members, f)
    decreases fields, 0
  {
    if fields != [] {
      var f := fields[0];
      assert f in fields;
      if f.0 == m.name {
        FieldOnly(model, members, m, f);
        forall g | g in fields && g.0 == m.name ensures g == f {
          var i :| 0 <= i < |fields| && fields[i] == g;
        }
      } else {
        MemberOnly(model, members, m, fields[1..]);
      }
    }
  }

  lemma SplitEqual<T>(a: seq<T>, b: seq<T>, c: seq<T>, d: seq<T>)
    requires a + b == c + d && |a| == |c|
    ensures a == c && b == d
  {
    assert a == (a + b)[..|a|] == c && b == (a + b)[|a|..] == d;
  }

  lemma {:induction false} MembersOnly(model: Model, members: seq<Member>, todo: seq<Member>, fields: seq<(string, Val)>)
    requires Unambiguous(model)
    requires ParseMembers(model, todo, SerializedFields(model, members, fields)) == Ok(NormalMembers(model, todo, fields, true))
    requires UnambiguousMembers(model, members) && forall m | m in todo :: m in members
    requires Distinct(fields) && forall f | f in fields :: TypedField(model, members, f)
    ensures forall m, f | m in todo && f in fields && f.0 == m.name :: RegroupsField(model, members, f)
    decreases fields, 1, |todo|
  {
    if todo != [] {
      var m, kids := todo[0], SerializedFields(model, members, fields);
      assert m in todo;
      TaggedMember(model, members, m, fields);
      SameLength(model, members, m, fields);
      var first, others := ParseMember(model, m, kids), ParseMembers(model, todo[1..], kids);
      SplitEqual(first.value, others.value, NormalMember(model, m, fields, true), NormalMembers(model, todo[1..], fields, true));
      MemberOnly(model, members, m, fields);
      MembersOnly(model, members, todo[1..], fields);
      forall o, f | o in todo && f in fields && f.0 == o.name ensures RegroupsField(model, members, f) {
        if o != m { assert o in todo[1..]; }
      }
    }
  }

  // ---------------------------------------------------------------- the theorem

  lemma {:induction false} OnlyIf(model: Model, ref: Ref, v: Val, name: string)
    requires Unambiguous(model) && Typed(model, ref, v) && ComesBack(model, ref, v, name)
    ensures Regroups(model, ref, v)
    decreases v, 2
  {
    var nodes := Serialized(model, ref, v, name);
    assert |nodes| == 1 ==> [nodes[0]] == nodes;
    match (ShapeOf(model, ref), v)
    case (Structure(members), Struct(fields)) =>
      assert UnambiguousShape(model, model[ref.id]);
      MembersOnly(model, members, members, fields);
      forall f | f in fields ensures RegroupsField(model, members, f) {
        var m := FindMember(members, f.0);
        if m.Some? { assert m.value in members; }
      }
    case (ListOf(item, flattened), List(items)) =>
      ItemsOnly(model, item, items, if flattened then Wire(item, name) else Wire(item, "member"));
    case (MapOf(key, value, flattened), Map(entries)) =>
      assert UnambiguousShape(model, model[ref.id]);
      assert [] + NormalEntries(model, value, entries, true) == NormalEntries(model, value, entries, true);
      EntriesOnly(model, key, value, entries, if flattened then name else "entry", []);
    case _ =>
  }

  /** A value comes back in normal form if and only if it regroups; a value that became no
      element at all is an empty flattened collection and is absent afterwards. */
  lemma RoundTripExactly(model: Model, ref: Ref, v: Val, name: string)
    requires Unambiguous(model) && Typed(model, ref, v)
    ensures Elements(model, ref, v) > 0 ==> (ComesBack(model, ref, v, name) <==> Regroups(model, ref, v))
    ensures Elements(model, ref, v) == 0 <==> Packed(Serialized(model, ref, v, name)).None?
  {
    SerializedElements(model, ref, v, name);
    if Elements(model, ref, v) > 0 {
      if Regroups(model, ref, v) { RoundTrip(model, ref, v, name); }
      if ComesBack(model, ref, v, name) { OnlyIf(model, ref, v, name); }
    }
  }
}
