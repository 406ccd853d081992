/** The JSON serializer, which writes into the body dict that it is given, and the loops of
    the JSON parser, proved against the functions of `JsonModel`. */
module JsonCode {
  import opened PyDict
  import opened Sequences
  import opened Shapes
  import opened Outcomes
  import opened JsonModel
  import opened JsonTheorems

  // ---------------------------------------------------------------- serializer

  /** A dict that is written in place. */
  class Body {
    var members: Dict<string, Json>

    constructor ()
      ensures members == []
    {
      members := [];
    }

    method Assign(key: string, j: Json)
      modifies this
      ensures members == Set(old(members), key, j)
    {
      members := Set(members, key, j);
    }
  }

  /** `_serialize`: writes the value under a key. */
  method SerializeInto(model: Model, ref: Ref, v: Val, body: Body, key: string)
    modifies body
    ensures body.members == Set(old(body.members), key, Encoded(model, ref, v))
    decreases v, 1
  {
    match (ShapeOf(model, ref), v)
    case (Structure(members), Struct(fields)) =>
      var serialized := new Body();
      SerializeStructure(model, members, fields, serialized);
      body.Assign(key, JObject(serialized.members));
    case (ListOf(item, _), List(items)) =>
      var list := SerializeList(model, item, items);
      body.Assign(key, JArray(list));
    case (MapOf(_, value, _), Map(entries)) =>
      var mapped := new Body();
      SerializeMap(model, value, entries, mapped);
      body.Assign(key, JObject(mapped.members));
    case (Scalar(kind), _) => body.Assign(key, if FitsKind(kind, v) then EncodedScalar(kind, v) else JNull);
    case _ => body.Assign(key, JNull);
  }

  method SerializeStructure(model: Model, members: seq<Member>, fields: seq<(string, Val)>, body: Body)
    modifies body
    ensures body.members == EncodedFields(model, members, fields, old(body.members))
    decreases fields, 0
  {
    for i := 0 to |fields|
      invariant EncodedFields(model, members, fields, old(body.members))
             == EncodedFields(model, members, fields[i..], body.members)
    {
      assert fields[i..][0] == fields[i] && fields[i..][1..] == fields[i + 1..];
      SerializeField(model, members, fields[i], body);
    }
    assert fields[|fields|..] == [];
  }

  method SerializeField(model: Model, members: seq<Member>, f: (string, Val), body: Body)
    modifies body
    ensures body.members == EncodedField(model, members, f, old(body.members))
    decreases f, 0
  {
    if f.1 == Null {
      return;
    }
    var m := FindMember(members, f.0);
    if m.Some? {
      SerializeInto(model, m.value.ref, f.1, body, Wire(m.value.ref, f.0));
    }
  }

  /** Each item is serialized into a wrapper under a fixed key and taken out again. */
  method SerializeItem(model: Model, item: Ref, v: Val) returns (j: Json)
    ensures j == Encoded(model, item, v)
    decreases v, 2
  {
    var wrapper := new Body();
    SerializeInto(model, item, v, wrapper, "__current__");
    j := Get(wrapper.members, "__current__").value;
  }

  method SerializeList(model: Model, item: Ref, items: seq<Val>) returns (list: seq<Json>)
    ensures list == EncodedItems(model, item, items)
    decreases items, 0
  {
    list := [];
    for i := 0 to |items|
      invariant EncodedItems(model, item, items) == list + EncodedItems(model, item, items[i..])
    {
      assert items[i..][0] == items[i] && items[i..][1..] == items[i + 1..];
      if items[i] != Null {
        var j := SerializeItem(model, item, items[i]);
        Assoc(list, [j], EncodedItems(model, item, items[i + 1..]));
        list := list + [j];
      } else {
        assert [] + EncodedItems(model, item, items[i + 1..]) == EncodedItems(model, item, items[i + 1..]);
      }
    }
    assert items[|items|..] == [];
  }

  method SerializeMap(model: Model, value: Ref, entries: seq<(Val, Val)>, body: Body)
    modifies body
    ensures body.members == EncodedEntries(model, value, entries, old(body.members))
    decreases entries, 0
  {
    for i := 0 to |entries|
      invariant EncodedEntries(model, value, entries, old(body.members))
             == EncodedEntries(model, value, entries[i..], body.members)
    {
      assert entries[i..][0] == entries[i] && entries[i..][1..] == entries[i + 1..];
      SerializeEntry(model, value, entries[i], body);
    }
    assert entries[|entries|..] == [];
  }

  method SerializeEntry(model: Model, value: Ref, e: (Val, Val), body: Body)
    modifies body
    ensures body.members == EncodedEntry(model, value, e, old(body.members))
    decreases e, 0
  {
    if e.1 != Null && e.0.Str? {
      SerializeInto(model, value, e.1, body, e.0.text);
    }
  }

  /** Serializing a value and parsing what was written gives back its normal form. */
  method Transmit(model: Model, ref: Ref, v: Val) returns (r: Outcome<Val>)
    requires Injective(model) && Typed(model, ref, v)
    ensures r == Ok(Normal(model, ref, v, false))
  {
    var j := SerializeItem(model, ref, v);
    RoundTrip(model, ref, v);
    r := ReadShape(model, ref, j);
  }

  // ---------------------------------------------------------------- parser

  method ReadShape(model: Model, ref: Ref, j: Json) returns (r: Outcome<Val>)
    ensures r == Parse(model, ref, j)
    decreases j, 2, 0
  {
    if j == JNull {
      return Ok(Null);
    }
    match (ShapeOf(model, ref), j)
    case (Scalar(kind), _) => r := ParseScalar(kind, j);
    case (Structure(members), JObject(body)) =>
      var fields :- ReadStructure(model, members, body);
      r := Ok(Struct(fields));
    case (ListOf(item, _), JArray(items)) =>
      var xs :- ReadList(model, item, items);
      r := Ok(List(xs));
    case (MapOf(key, value, _), JObject(body)) =>
      var entries :- ReadMap(model, key, value, body);
      r := Ok(Map(entries));
    case _ => r := Err;
  }

  method ReadStructure(model: Model, members: seq<Member>, body: Dict<string, Json>) returns (r: Outcome<seq<(string, Val)>>)
    ensures r == ParseMembers(model, members, body)
    decreases body, 1, |members|
  {
    var parsed: seq<(string, Val)> := [];
    for i := 0 to |members|
      invariant ParseMembers(model, members, body) == Then(parsed, ParseMembers(model, members[i..], body))
    {
      assert members[i..][0] == members[i] && members[i..][1..] == members[i + 1..];
      var first :- ReadMember(model, members[i], body);
      ThenAgain(parsed, first, ParseMembers(model, members[i + 1..], body));
      parsed := parsed + first;
    }
    assert members[|members|..] == [];
    return Ok(parsed);
  }

  /** `value.get(json_name)` and what becomes of it. */
  method ReadMember(model: Model, m: Member, body: Dict<string, Json>) returns (r: Outcome<seq<(string, Val)>>)
    ensures r == ParseMember(model, m, body)
    decreases body, 0, 0
  {
    for i := 0 to |body|
      invariant ParseMember(model, m, body) == ParseMember(model, m, body[i..])
    {
      assert body[i..][0] == body[i] && body[i..][1..] == body[i + 1..];
      if body[i].0 == Wire(m.ref, m.name) {
        r := ReadFound(model, m, body[i]);
        return;
      }
    }
    assert body[|body|..] == [];
    return Ok(Missing(m));
  }

  method ReadFound(model: Model, m: Member, e: (string, Json)) returns (r: Outcome<seq<(string, Val)>>)
    ensures r == ParseFound(model, m, e)
    decreases e, 0, 0
  {
    var v :- ReadShape(model, m.ref, e.1);
    return Ok(if v != Null then [(m.name, v)] else Missing(m));
  }

  method ReadList(model: Model, item: Ref, items: seq<Json>) returns (r: Outcome<seq<Val>>)
    ensures r == ParseItems(model, item, items)
    decreases items, 0, 0
  {
    var parsed: seq<Val> := [];
    for i := 0 to |items|
      invariant ParseItems(model, item, items) == Then(parsed, ParseItems(model, item, items[i..]))
    {
      assert items[i..][0] == items[i] && items[i..][1..] == items[i + 1..];
      var x :- ReadShape(model, item, items[i]);
      ThenAgain(parsed, [x], ParseItems(model, item, items[i + 1..]));
      parsed := parsed + [x];
    }
    assert items[|items|..] == [];
    return Ok(parsed);
  }

  method ReadMap(model: Model, key: Ref, value: Ref, body: Dict<string, Json>) returns (r: Outcome<Dict<Val, Val>>)
    ensures r == ParseEntries(model, key, value, body, [])
    decreases body, 0, 0
  {
    var parsed: Dict<Val, Val> := [];
    for i := 0 to |body|
      invariant ParseEntries(model, key, value, body, []) == ParseEntries(model, key, value, body[i..], parsed)
    {
      assert body[i..][0] == body[i] && body[i..][1..] == body[i + 1..];
      var e :- ReadEntry(model, key, value, body[i]);
      parsed := Set(parsed, e.0, e.1);
    }
    assert body[|body|..] == [];
    return Ok(parsed);
  }

  method ReadEntry(model: Model, key: Ref, value: Ref, e: (string, Json)) returns (r: Outcome<(Val, Val)>)
    ensures r == ParseEntry(model, key, value, e)
    decreases e, 0, 0
  {
    if !ShapeOf(model, key).Scalar? {
      return Err;
    }
    var k :- ParseScalar(ShapeOf(model, key).kind, JText(e.0));
    var v :- ReadShape(model, value, e.1);
    return Ok((k, v));
  }
}
