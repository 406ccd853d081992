/** The JSON value for a Python value, in the words of the JSON protocol. The serializer, which
    assigns into bodies one by one, makes exactly this. */
module JsonWire {
  import opened PyDict
  import opened Sequences
  import opened Shapes
  import opened Outcomes
  import opened JsonModel
  import opened JsonTheorems
  import Base64
  import Unicode

  // ---------------------------------------------------------------- the protocol

  /** Structures and maps are objects and lists are arrays; members have their own name on the
      wire or that of the shape. Booleans stay what they are, blobs are base64 text. Nulls and
      unknown members leave nothing. */
  function Written(model: Model, ref: Ref, v: Val): Json
    decreases v, 1
  {
    match (ShapeOf(model, ref), v)
    case (Scalar(Boolean), Bool(flag)) => JBool(flag)
    case (Scalar(Blob), Bytes(bytes)) => JText(Base64.Encode(bytes))
    case (Scalar(Blob), Str(text)) => JText(Base64.Encode(Unicode.EncodeUtf8(text)))
    case (Scalar(Text), Str(text)) => JText(text)
    case (Structure(members), Struct(fields)) => JObject(WrittenFields(model, members, fields))
    case (ListOf(item, _), List(items)) => JArray(WrittenItems(model, item, items))
    case (MapOf(_, value, _), Map(entries)) => JObject(WrittenEntries(model, value, entries))
    case _ => JNull
  }

  function WrittenFields(model: Model, members: seq<Member>, fields: seq<(string, Val)>): Dict<string, Json>
    decreases fields, 0
  {
    if fields == [] then [] else WrittenField(model, members, fields[0]) + WrittenFields(model, members, fields[1..])
  }

  function WrittenField(model: Model, members: seq<Member>, f: (string, Val)): Dict<string, Json>
    decreases f, 0
  {
    if f.1 == Null then []
    else
      match FindMember(members, f.0)
      case None => []
      case Some(Member(_, Ref(id, Some(own)), _)) => [(own, Written(model, Ref(id, Some(own)), f.1))]
      case Some(Member(_, Ref(id, None), _)) => [(f.0, Written(model, Ref(id, None), f.1))]
  }

  function WrittenItems(model: Model, item: Ref, items: seq<Val>): seq<Json>
    decreases items, 0
  {
    if items == [] then []
    else if items[0] == Null then WrittenItems(model, item, items[1..])
    else [Written(model, item, items[0])] + WrittenItems(model, item, items[1..])
  }

  function WrittenEntries(model: Model, value: Ref, entries: seq<(Val, Val)>): Dict<string, Json>
    decreases entries, 0
  {
    if entries == [] then [] else WrittenEntry(model, value, entries[0]) + WrittenEntries(model, value, entries[1..])
  }

  function WrittenEntry(model: Model, value: Ref, e: (Val, Val)): Dict<string, Json>
    decreases e, 0
  {
    match e
    case (_, Null) => []
    case (Str(key), v) => [(key, Written(model, value, v))]
    case _ => []
  }

  // ---------------------------------------------------------------- the serializer writes it

  lemma {:induction false} EncodedAsWritten(model: Model, ref: Ref, v: Val)
    requires Injective(model) && Typed(model, ref, v)
    ensures Encoded(model, ref, v) == Written(model, ref, v)
    decreases v, 2
  {
    match (ShapeOf(model, ref), v)
    case (Scalar(kind), _) =>
    case (Structure(members), Struct(fields)) =>
      assert InjectiveShape(model, model[ref.id]);
      FieldsAsWritten(model, members, fields, []);
      assert [] + WrittenFields(model, members, fields) == WrittenFields(model, members, fields);
    case (ListOf(item, _), List(items)) => ItemsAsWritten(model, item, items);
    case (MapOf(key, value, _), Map(entries)) =>
      assert InjectiveShape(model, model[ref.id]);
      forall e | e in entries ensures e.0.Str? { assert TypedEntry(model, key, value, e) && Typed(model, key, e.0); }
      EntriesAppended(model, value, entries, []);
      assert [] + EncodedPairs(model, value, entries) == EncodedPairs(model, value, entries);
      PairsAsWritten(model, key, value, entries);
    case _ =>
  }

  lemma {:induction false} ItemsAsWritten(model: Model, item: Ref, items: seq<Val>)
    requires Injective(model) && forall x | x in items :: x == Null || Typed(model, item, x)
    ensures EncodedItems(model, item, items) == WrittenItems(model, item, items)
    decreases items, 1
  {
    if items != [] {
      assert items[0] in items;
      if items[0] != Null { EncodedAsWritten(model, item, items[0]); }
      ItemsAsWritten(model, item, items[1..]);
      assert [] + WrittenItems(model, item, items[1..]) == WrittenItems(model, item, items[1..]);
    }
  }

  lemma {:induction false} PairsAsWritten(model: Model, key: Ref, value: Ref, entries: seq<(Val, Val)>)
    requires Injective(model) && forall e | e in entries :: e.0.Str? && TypedEntry(model, key, value, e)
    ensures EncodedPairs(model, value, entries) == WrittenEntries(model, value, entries)
    decreases entries, 1
  {
    if entries != [] {
      assert entries[0] in entries;
      PairAsWritten(model, key, value, entries[0]);
      PairsAsWritten(model, key, value, entries[1..]);
    }
  }

  lemma PairAsWritten(model: Model, key: Ref, value: Ref, e: (Val, Val))
    requires Injective(model) && e.0.Str? && TypedEntry(model, key, value, e)
    ensures EncodedEntry(model, value, e, []) == WrittenEntry(model, value, e)
    decreases e, 0
  {
    if e.1 != Null { EncodedAsWritten(model, value, e.1); }
  }

  /** None of the fields writes under a key that the body has. */
  ghost predicate Unwritten(members: seq<Member>, fields: seq<(string, Val)>, body: Dict<string, Json>) {
    forall f | f in fields :: var m := FindMember(members, f.0); m.Some? ==> !HasKey(body, WireOf(m.value))
  }

  lemma {:induction false} FieldsAsWritten(model: Model, members: seq<Member>, fields: seq<(string, Val)>, body: Dict<string, Json>)
    requires Injective(model) && InjectiveMembers(members) && Distinct(fields)
    requires forall f | f in fields :: TypedField(model, members, f)
    requires Unwritten(members, fields, body)
    ensures EncodedFields(model, members, fields, body) == body + WrittenFields(model, members, fields)
    decreases fields, 1
  {
    if fields == [] {
      assert body + WrittenFields(model, members, fields) == body;
    } else {
      assert fields[0] in fields;
      var first := WrittenField(model, members, fields[0]);
      FieldAsWritten(model, members, fields[0], body);
      StillUnwritten(model, members, fields, body);
      FieldsAsWritten(model, members, fields[1..], body + first);
      Assoc(body, first, WrittenFields(model, members, fields[1..]));
    }
  }

  lemma FieldAsWritten(model: Model, members: seq<Member>, f: (string, Val), body: Dict<string, Json>)
    requires Injective(model) && TypedField(model, members, f) && Unwritten(members, [f], body)
    ensures EncodedField(model, members, f, body) == body + WrittenField(model, members, f)
    decreases f, 0
  {
    var m := FindMember(members, f.0);
    assert f in [f];
    if f.1 != Null && m.Some? {
      EncodedAsWritten(model, m.value.ref, f.1);
      SetFresh(body, WireOf(m.value), Encoded(model, m.value.ref, f.1));
    } else {
      assert body + [] == body;
    }
  }

  lemma StillUnwritten(model: Model, members: seq<Member>, fields: seq<(string, Val)>, body: Dict<string, Json>)
    requires InjectiveMembers(members) && Distinct(fields) && fields != [] && Unwritten(members, fields, body)
    ensures Unwritten(members, fields[1..], body + WrittenField(model, members, fields[0]))
  {
    var first := WrittenField(model, members, fields[0]);
    forall f | f in fields[1..] && FindMember(members, f.0).Some?
      ensures !HasKey(body + first, WireOf(FindMember(members, f.0).value))
    {
      var i :| 0 <= i < |fields[1..]| && fields[1..][i] == f;
      assert fields[i + 1] == f && f in fields && f.0 != fields[0].0;
      var o := FindMember(members, fields[0].0);
      if o.Some? { SameMember(members, FindMember(members, f.0).value, o.value); }
    }
  }

  // ---------------------------------------------------------------- members as they are read

  /** What is made of the value that was found for a member: if there is none, or it is null,
      the member is None when it is required, and absent otherwise. */
  function Reading(model: Model, m: Member, found: Option<Json>): Outcome<seq<(string, Val)>> {
    match found
    case None => Ok(if m.required then [(m.name, Null)] else [])
    case Some(JNull) => Ok(if m.required then [(m.name, Null)] else [])
    case Some(j) =>
      var r := Parse(model, m.ref, j);
      if r.Err? then Err
      else if r.value == Null then Ok(if m.required then [(m.name, Null)] else [])
      else Ok([(m.name, r.value)])
  }

  lemma FoundIsRead(model: Model, m: Member, e: (string, Json))
    ensures ParseFound(model, m, e) == Reading(model, m, Some(e.1))
  {
    if e.1 == JNull {
      assert Parse(model, m.ref, JNull) == Ok(Null);
    }
  }

  /** A member is looked up under its own name or that of the shape. */
  lemma {:induction false} MemberIsRead(model: Model, m: Member, body: Dict<string, Json>)
    ensures ParseMember(model, m, body)
         == Reading(model, m, Get(body, match m.ref.name case Some(own) => own case None => m.name))
    decreases |body|
  {
    if body != [] {
      FoundIsRead(model, m, body[0]);
      MemberIsRead(model, m, body[1..]);
    }
  }
}
