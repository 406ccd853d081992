/** The JSON serializer of responses and the JSON parser of requests, between Python values
    and the values that the `json` module prints and reads. */
module JsonModel {
  import opened PyDict
  import opened Shapes
  import opened Outcomes
  import opened Scalars

  datatype Json =
    | JNull
    | JBool(flag: bool)
    | JText(text: string)
    | JArray(items: seq<Json>)
    | JObject(members: Dict<string, Json>)

  // ---------------------------------------------------------------- printing

  function Encoded(model: Model, ref: Ref, v: Val): Json
    decreases v, 1
  {
    match (ShapeOf(model, ref), v)
    case (Structure(members), Struct(fields)) => JObject(EncodedFields(model, members, fields, []))
    case (ListOf(item, _), List(items)) => JArray(EncodedItems(model, item, items))
    case (MapOf(_, value, _), Map(entries)) => JObject(EncodedEntries(model, value, entries, []))
    case (Scalar(kind), _) => if FitsKind(kind, v) then EncodedScalar(kind, v) else JNull
    case _ => JNull
  }

  /** Booleans have a JSON form of their own, blobs become base64 text. */
  function EncodedScalar(kind: Kind, v: Val): Json
    requires FitsKind(kind, v)
  {
    match kind
    case Text => JText(v.text)
    case Blob => JText(BlobText(v))
    case Boolean => JBool(v.flag)
  }

  /** Members are assigned into the body one by one, under their wire names. */
  function EncodedFields(model: Model, members: seq<Member>, fields: seq<(string, Val)>, body: Dict<string, Json>):
    Dict<string, Json>
    decreases fields, 0
  {
    if fields == [] then body
    else EncodedFields(model, members, fields[1..], EncodedField(model, members, fields[0], body))
  }

  function EncodedField(model: Model, members: seq<Member>, f: (string, Val), body: Dict<string, Json>): Dict<string, Json>
    decreases f, 0
  {
    match FindMember(members, f.0)
    case None => body
    case Some(m) => if f.1 == Null then body else Set(body, Wire(m.ref, f.0), Encoded(model, m.ref, f.1))
  }

  function EncodedItems(model: Model, item: Ref, items: seq<Val>): seq<Json>
    decreases items, 0
  {
    if items == [] then []
    else (if items[0] == Null then [] else [Encoded(model, item, items[0])]) + EncodedItems(model, item, items[1..])
  }

  function EncodedEntries(model: Model, value: Ref, entries: seq<(Val, Val)>, body: Dict<string, Json>): Dict<string, Json>
    decreases entries, 0
  {
    if entries == [] then body
    else EncodedEntries(model, value, entries[1..], EncodedEntry(model, value, entries[0], body))
  }

  function EncodedEntry(model: Model, value: Ref, e: (Val, Val), body: Dict<string, Json>): Dict<string, Json>
    decreases e, 0
  {
    if e.1 == Null || !e.0.Str? then body else Set(body, e.0.text, Encoded(model, value, e.1))
  }

  // ---------------------------------------------------------------- parsing

  /** What the `json` module has read, as it is. */
  function Raw(j: Json): (v: Val)
    ensures v == Null <==> j == JNull
    decreases j, 1
  {
    match j
    case JNull => Null
    case JBool(flag) => Bool(flag)
    case JText(text) => Str(text)
    case JArray(items) => List(RawItems(items))
    case JObject(members) => Map(RawEntries(members))
  }

  function RawItems(items: seq<Json>): seq<Val>
    decreases items, 0
  {
    if items == [] then [] else [Raw(items[0])] + RawItems(items[1..])
  }

  function RawEntries(members: Dict<string, Json>): Dict<Val, Val>
    decreases members, 0
  {
    if members == [] then [] else RawEntry(members[0]) + RawEntries(members[1..])
  }

  function RawEntry(e: (string, Json)): Dict<Val, Val>
    decreases e, 0
  {
    [(Str(e.0), Raw(e.1))]
  }

  /** `_noop_parser` passes anything on; a blob must be text. */
  function ParseScalar(kind: Kind, j: Json): Outcome<Val> {
    if kind != Blob then Ok(Raw(j)) else if j.JText? then ReadBlob(j.text) else Err
  }

  function Parse(model: Model, ref: Ref, j: Json): Outcome<Val>
    decreases j, 2, 0
  {
    if j == JNull then Ok(Null)
    else
      match (ShapeOf(model, ref), j)
      case (Scalar(kind), _) => ParseScalar(kind, j)
      case (Structure(members), JObject(body)) =>
        var fields :- ParseMembers(model, members, body);
        Ok(Struct(fields))
      case (ListOf(item, _), JArray(items)) =>
        var xs :- ParseItems(model, item, items);
        Ok(List(xs))
      case (MapOf(key, value, _), JObject(body)) =>
        var entries :- ParseEntries(model, key, value, body, []);
        Ok(Map(entries))
      case _ => Err
  }

  function ParseMembers(model: Model, members: seq<Member>, body: Dict<string, Json>): Outcome<seq<(string, Val)>>
    decreases body, 1, |members|
  {
    if members == [] then Ok([])
    else
      var first :- ParseMember(model, members[0], body);
      var others :- ParseMembers(model, members[1..], body);
      Ok(first + others)
  }

  /** `value.get(json_name)`: absent and null members are the same. */
  function ParseMember(model: Model, m: Member, body: Dict<string, Json>): Outcome<seq<(string, Val)>>
    decreases body, 0, 0
  {
    if body == [] then Ok(Missing(m))
    else if body[0].0 == Wire(m.ref, m.name) then ParseFound(model, m, body[0])
    else ParseMember(model, m, body[1..])
  }

  function ParseFound(model: Model, m: Member, e: (string, Json)): Outcome<seq<(string, Val)>>
    decreases e, 0, 0
  {
    var v :- Parse(model, m.ref, e.1);
    Ok(if v != Null then [(m.name, v)] else Missing(m))
  }

  function ParseItems(model: Model, item: Ref, items: seq<Json>): Outcome<seq<Val>>
    decreases items, 0, 0
  {
    if items == [] then Ok([])
    else
      var x :- Parse(model, item, items[0]);
      var xs :- ParseItems(model, item, items[1..]);
      Ok([x] + xs)
  }

  function ParseEntries(model: Model, key: Ref, value: Ref, body: Dict<string, Json>, d: Dict<Val, Val>):
    Outcome<Dict<Val, Val>>
    decreases body, 0, 0
  {
    if body == [] then Ok(d)
    else
      var e :- ParseEntry(model, key, value, body[0]);
      ParseEntries(model, key, value, body[1..], Set(d, e.0, e.1))
  }

  function ParseEntry(model: Model, key: Ref, value: Ref, e: (string, Json)): Outcome<(Val, Val)>
    decreases e, 0, 0
  {
    match ShapeOf(model, key)
    case Scalar(kind) =>
      var k :- ParseScalar(kind, JText(e.0));
      var v :- Parse(model, value, e.1);
      Ok((k, v))
    case _ => Err
  }
}
