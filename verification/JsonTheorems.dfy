/** Parsing the JSON that was serialized gives back the value in normal form. */
module JsonTheorems {
  import opened PyDict
  import opened Sequences
  import opened Shapes
  import opened Outcomes
  import opened Scalars
  import opened JsonModel

  /** Member names are distinct and so are their wire names; map keys are scalars. */
  ghost predicate Injective(model: Model) {
    forall id | id in model :: InjectiveShape(model, model[id])
  }

  ghost predicate InjectiveShape(model: Model, shape: Shape) {
    match shape
    case Structure(members) => InjectiveMembers(members)
    case MapOf(key, _, _) => ShapeOf(model, key) == Scalar(Text)
    case _ => true
  }

  ghost predicate InjectiveMembers(members: seq<Member>) {
    forall i, j | 0 <= i < j < |members| ::
      members[i].name != members[j].name && WireOf(members[i]) != WireOf(members[j])
  }

  function WireOf(m: Member): string {
    Wire(m.ref, m.name)
  }

  lemma SameMember(members: seq<Member>, m: Member, o: Member)
    requires InjectiveMembers(members) && m in members && o in members
    ensures m.name == o.name <==> WireOf(m) == WireOf(o)
    ensures m.name == o.name ==> m == o
  {
  }

  /** The round trip, for every value that fits its shape. */
  lemma {:induction false} RoundTrip(model: Model, ref: Ref, v: Val)
    requires Injective(model) && Typed(model, ref, v)
    ensures Parse(model, ref, Encoded(model, ref, v)) == Ok(Normal(model, ref, v, false))
    decreases v, 3
  {
    match (ShapeOf(model, ref), v)
    case (Scalar(kind), _) => if kind == Blob { BlobBack(v); }
    case (Structure(members), Struct(fields)) =>
      assert InjectiveShape(model, model[ref.id]);
      MembersBack(model, members, members, fields);
    case (ListOf(item, _), List(items)) => ItemsBack(model, item, items);
    case (MapOf(key, value, _), Map(entries)) =>
      assert InjectiveShape(model, model[ref.id]);
      MapBack(model, key, value, entries);
    case _ =>
  }

  lemma MapBack(model: Model, key: Ref, value: Ref, entries: seq<(Val, Val)>)
    requires Injective(model) && ShapeOf(model, key) == Scalar(Text) && Distinct(entries)
    requires forall e | e in entries :: TypedEntry(model, key, value, e)
    ensures
      ParseEntries(model, key, value, EncodedEntries(model, value, entries, []), [])
      == Ok(NormalEntries(model, value, entries, false))
    decreases entries, 2
  {
    forall e | e in entries ensures e.0.Str? { assert TypedEntry(model, key, value, e) && Typed(model, key, e.0); }
    EntriesAppended(model, value, entries, []);
    assert [] + EncodedPairs(model, value, entries) == EncodedPairs(model, value, entries);
    EntriesBack(model, key, value, entries, []);
    AssignedIsAppended(model, value, [], entries, false);
    assert [] + NormalEntries(model, value, entries, false) == NormalEntries(model, value, entries, false);
  }

  lemma {:induction false} ItemsBack(model: Model, item: Ref, items: seq<Val>)
    requires Injective(model) && forall x | x in items :: x == Null || Typed(model, item, x)
    ensures ParseItems(model, item, EncodedItems(model, item, items)) == Ok(NormalItems(model, item, items, false))
    decreases items, 1
  {
    if items != [] {
      assert items[0] in items;
      ItemsBack(model, item, items[1..]);
      var others := EncodedItems(model, item, items[1..]);
      if items[0] == Null {
        assert [] + others == others;
        assert [] + NormalItems(model, item, items[1..], false) == NormalItems(model, item, items[1..], false);
      } else {
        RoundTrip(model, item, items[0]);
        var first := [Encoded(model, item, items[0])];
        assert (first + others)[0] == first[0] && (first + others)[1..] == others;
      }
    }
  }

  // ---------------------------------------------------------------- maps

  /** The entries of a JSON object for a map without its null values. */
  function EncodedPairs(model: Model, value: Ref, entries: seq<(Val, Val)>): Dict<string, Json> {
    if entries == [] then []
    else EncodedEntry(model, value, entries[0], []) + EncodedPairs(model, value, entries[1..])
  }

  ghost predicate FreshText(body: Dict<string, Json>, entries: seq<(Val, Val)>) {
    forall e | e in entries :: e.0.Str? && !HasKey(body, e.0.text)
  }

  lemma EntryAppended(model: Model, value: Ref, entries: seq<(Val, Val)>, body: Dict<string, Json>)
    requires entries != [] && Distinct(entries) && FreshText(body, entries)
    ensures var body' := EncodedEntry(model, value, entries[0], body);
      && body' == body + EncodedEntry(model, value, entries[0], [])
      && FreshText(body', entries[1..])
  {
    var e, body' := entries[0], EncodedEntry(model, value, entries[0], body);
    assert e in entries;
    if e.1 == Null {
      assert body' == body;
    } else {
      var j := Encoded(model, value, e.1);
      SetFresh(body, e.0.text, j);
      assert EncodedEntry(model, value, e, []) == [(e.0.text, j)];
    }
    forall i | 0 <= i < |entries[1..]| ensures entries[1..][i].0.Str? && !HasKey(body', entries[1..][i].0.text) {
      var o := entries[i + 1];
      assert o in entries && o.0 != e.0;
    }
  }

  lemma {:induction false} EntriesAppended(model: Model, value: Ref, entries: seq<(Val, Val)>, body: Dict<string, Json>)
    requires Distinct(entries) && FreshText(body, entries)
    ensures EncodedEntries(model, value, entries, body) == body + EncodedPairs(model, value, entries)
    decreases entries
  {
    if entries == [] {
      assert body + EncodedPairs(model, value, entries) == body;
    } else {
      var first, others := EncodedEntry(model, value, entries[0], []), EncodedPairs(model, value, entries[1..]);
      EntryAppended(model, value, entries, body);
      EntriesAppended(model, value, entries[1..], body + first);
      Assoc(body, first, others);
    }
  }

  lemma EntryBack(model: Model, key: Ref, value: Ref, e: (Val, Val))
    requires Injective(model) && ShapeOf(model, key) == Scalar(Text) && TypedEntry(model, key, value, e) && e.1 != Null
    ensures e.0.Str? && ParseEntry(model, key, value, (e.0.text, Encoded(model, value, e.1)))
         == Ok((e.0, Normal(model, value, e.1, false)))
    decreases e, 0
  {
    RoundTrip(model, value, e.1);
  }

  lemma {:induction false} EntriesBack(model: Model, key: Ref, value: Ref, entries: seq<(Val, Val)>, d: Dict<Val, Val>)
    requires Injective(model) && ShapeOf(model, key) == Scalar(Text)
    requires forall e | e in entries :: TypedEntry(model, key, value, e)
    requires Fresh(d, entries)
    ensures ParseEntries(model, key, value, EncodedPairs(model, value, entries), d)
         == Ok(Assigned(model, value, d, entries, false))
    decreases entries, 1
  {
    if entries != [] {
      var e, d' := entries[0], d + NormalEntry(model, value, entries[0], false);
      assert e in entries;
      StillFresh(model, value, d, entries, false);
      EntriesBack(model, key, value, entries[1..], d');
      var first, others := EncodedEntry(model, value, e, []), EncodedPairs(model, value, entries[1..]);
      if e.1 == Null {
        assert first + others == others && d' == d;
      } else {
        EntryBack(model, key, value, e);
        assert first == [(e.0.text, Encoded(model, value, e.1))];
        assert (first + others)[0] == first[0] && (first + others)[1..] == others;
        SetFresh(d, e.0, Normal(model, value, e.1, false));
      }
    }
  }

  // ---------------------------------------------------------------- structures

  /** What one member contributed to the body. */
  function FieldJson(model: Model, members: seq<Member>, m: Member, fields: seq<(string, Val)>): Option<Json> {
    if fields == [] then None
    else if fields[0].0 == m.name then Get(EncodedField(model, members, fields[0], []), WireOf(m))
    else FieldJson(model, members, m, fields[1..])
  }

  lemma EncodedFieldKeeps(model: Model, members: seq<Member>, m: Member, f: (string, Val), body: Dict<string, Json>)
    requires InjectiveMembers(members) && m in members
    ensures Get(EncodedField(model, members, f, body), WireOf(m)) ==
      if f.0 == m.name && f.1 != Null then Some(Encoded(model, m.ref, f.1)) else Get(body, WireOf(m))
  {
    var o := FindMember(members, f.0);
    if o.Some? {
      SameMember(members, m, o.value);
      if f.1 != Null {
        GetAfterSet(body, Wire(o.value.ref, f.0), Encoded(model, o.value.ref, f.1), WireOf(m));
      }
    }
  }

  lemma {:induction false} NotAmong(
    model: Model, members: seq<Member>, m: Member, fields: seq<(string, Val)>, body: Dict<string, Json>)
    requires InjectiveMembers(members) && m in members
    requires forall f | f in fields :: f.0 != m.name
    ensures Get(EncodedFields(model, members, fields, body), WireOf(m)) == Get(body, WireOf(m))
    ensures FieldJson(model, members, m, fields) == None
    decreases fields
  {
    if fields != [] {
      assert fields[0] in fields;
      EncodedFieldKeeps(model, members, m, fields[0], body);
      NotAmong(model, members, m, fields[1..], EncodedField(model, members, fields[0], body));
    }
  }

  /** The body holds for each member what that member contributed, and nothing else. */
  lemma {:induction false} BodyOfMember(
    model: Model, members: seq<Member>, m: Member, fields: seq<(string, Val)>, body: Dict<string, Json>)
    requires InjectiveMembers(members) && m in members && Distinct(fields) && !HasKey(body, WireOf(m))
    ensures Get(EncodedFields(model, members, fields, body), WireOf(m)) == FieldJson(model, members, m, fields)
    decreases fields
  {
    if fields != [] {
      var f := fields[0];
      var body' := EncodedField(model, members, f, body);
      EncodedFieldKeeps(model, members, m, f, body);
      EncodedFieldKeeps(model, members, m, f, []);
      if f.0 == m.name {
        forall o | o in fields[1..] ensures o.0 != m.name {
          var j :| 0 <= j < |fields[1..]| && fields[1..][j] == o;
          assert fields[j + 1] == o;
        }
        NotAmong(model, members, m, fields[1..], body');
      } else {
        BodyOfMember(model, members, m, fields[1..], body');
      }
    }
  }

  lemma {:induction false} ParseMemberByGet(model: Model, m: Member, body: Dict<string, Json>)
    ensures ParseMember(model, m, body) ==
      match Get(body, WireOf(m))
      case None => Ok(Missing(m))
      case Some(j) => ParseFound(model, m, (WireOf(m), j))
    decreases |body|
  {
    if body != [] && body[0].0 != WireOf(m) {
      ParseMemberByGet(model, m, body[1..]);
    }
  }

  lemma FieldBack(model: Model, members: seq<Member>, m: Member, f: (string, Val))
    requires Injective(model) && InjectiveMembers(members) && m in members && f.0 == m.name
    requires TypedField(model, members, f)
    ensures
      var j := Get(EncodedField(model, members, f, []), WireOf(m));
      Ok(NormalField(model, m, f, false)) ==
        if j.None? then Ok(Missing(m)) else ParseFound(model, m, (WireOf(m), j.value))
    decreases f, 0
  {
    var o := FindMember(members, f.0);
    SameMember(members, m, o.value);
    EncodedFieldKeeps(model, members, m, f, []);
    if f.1 != Null {
      RoundTrip(model, m.ref, f.1);
    }
  }

  lemma {:induction false} MemberBack(model: Model, members: seq<Member>, m: Member, fields: seq<(string, Val)>)
    requires Injective(model) && InjectiveMembers(members) && m in members
    requires forall f | f in fields :: TypedField(model, members, f)
    ensures
      var j := FieldJson(model, members, m, fields);
      Ok(NormalMember(model, m, fields, false)) ==
        if j.None? then Ok(Missing(m)) else ParseFound(model, m, (WireOf(m), j.value))
    decreases fields, 1
  {
    if fields != [] {
      assert fields[0] in fields;
      if fields[0].0 == m.name {
        FieldBack(model, members, m, fields[0]);
      } else {
        MemberBack(model, members, m, fields[1..]);
      }
    }
  }

  lemma {:induction false} MembersBack(model: Model, members: seq<Member>, todo: seq<Member>, fields: seq<(string, Val)>)
    requires Injective(model) && InjectiveMembers(members) && forall m | m in todo :: m in members
    requires Distinct(fields) && forall f | f in fields :: TypedField(model, members, f)
    ensures ParseMembers(model, todo, EncodedFields(model, members, fields, []))
         == Ok(NormalMembers(model, todo, fields, false))
    decreases fields, 2, |todo|
  {
    if todo != [] {
      var m := todo[0];
      assert m in todo;
      BodyOfMember(model, members, m, fields, []);
      ParseMemberByGet(model, m, EncodedFields(model, members, fields, []));
      MemberBack(model, members, m, fields);
      MembersBack(model, members, todo[1..], fields);
    }
  }
}
