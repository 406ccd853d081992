/** The part of a botocore service model that the protocols look at, and the values that
    services exchange. Shapes refer to each other by name, so they may be recursive. */
module Shapes {
  import opened BigEndian
  import opened PyDict
  import opened Sequences
  import opened Unicode

  /** A use of a shape, with the `name` its serialization settings give it there. */
  datatype Ref = Ref(id: string, name: Option<string>)

  datatype Member = Member(name: string, ref: Ref, required: bool)

  /** Scalars by what happens to them on the wire. `Text` are all that both sides pass on as
      they are. */
  datatype Kind = Text | Blob | Boolean

  datatype Shape =
    | Scalar(kind: Kind)
    | Structure(members: seq<Member>)
    | ListOf(item: Ref, flattened: bool)
    | MapOf(key: Ref, value: Ref, flattened: bool)

  type Model = map<string, Shape>

  function ShapeOf(model: Model, ref: Ref): Shape {
    if ref.id in model then model[ref.id] else Scalar(Text)
  }

  /** `shape.serialization.get("name", default)`. */
  function Wire(ref: Ref, default: string): string {
    if ref.name.Some? then ref.name.value else default
  }

  predicate Flattened(shape: Shape) {
    (shape.ListOf? || shape.MapOf?) && shape.flattened
  }

  /** Values as Python has them: `Null` is None, `Str` any scalar but bytes and booleans in
      its text form. */
  datatype Val =
    | Null
    | Str(text: string)
    | Bytes(bytes: seq<Byte>)
    | Bool(flag: bool)
    | Struct(fields: seq<(string, Val)>)
    | List(items: seq<Val>)
    | Map(entries: seq<(Val, Val)>)

  /** Blobs may be given as text or as bytes. */
  predicate FitsKind(kind: Kind, v: Val) {
    match kind case Text => v.Str? case Blob => v.Str? || v.Bytes? case Boolean => v.Bool?
  }

  /** A blob that is given as text stands for its bytes. */
  function NormalScalar(kind: Kind, v: Val): Val {
    if kind == Blob && v.Str? then Bytes(EncodeUtf8(v.text)) else v
  }

  /** What may be the key of a dict. */
  predicate Hashable(v: Val) {
    !v.Struct? && !v.List? && !v.Map?
  }

  function FindMember(members: seq<Member>, name: string): (r: Option<Member>)
    ensures r.Some? ==> r.value in members && r.value.name == name
    ensures r.None? ==> forall m | m in members :: m.name != name
  {
    if members == [] then None
    else if members[0].name == name then Some(members[0])
    else FindMember(members[1..], name)
  }

  /** Values that fit a shape as the serializers expect it. Nulls may stand for members,
      items and map values; structures may have members that the shape does not know. */
  ghost predicate Typed(model: Model, ref: Ref, v: Val)
    decreases v, 1
  {
    match (ShapeOf(model, ref), v)
    case (Scalar(kind), _) => FitsKind(kind, v)
    case (Structure(members), Struct(fields)) =>
      Distinct(fields) && forall f | f in fields :: TypedField(model, members, f)
    case (ListOf(item, _), List(items)) => forall x | x in items :: x == Null || Typed(model, item, x)
    case (MapOf(key, value, _), Map(entries)) =>
      Distinct(entries) && forall e | e in entries :: TypedEntry(model, key, value, e)
    case _ => false
  }

  ghost predicate TypedField(model: Model, members: seq<Member>, f: (string, Val))
    decreases f, 0
  {
    var m := FindMember(members, f.0);
    f.1 != Null && m.Some? ==> Typed(model, m.value.ref, f.1)
  }

  ghost predicate TypedEntry(model: Model, key: Ref, value: Ref, e: (Val, Val))
    decreases e, 0
  {
    Typed(model, key, e.0) && (e.1 == Null || Typed(model, value, e.1))
  }

  // ---------------------------------------------------------------- normal forms

  function CountItems(items: seq<Val>): nat {
    if items == [] then 0 else (if items[0] == Null then 0 else 1) + CountItems(items[1..])
  }

  function CountEntries(entries: seq<(Val, Val)>): nat {
    if entries == [] then 0 else (if entries[0].1 == Null then 0 else 1) + CountEntries(entries[1..])
  }

  /** How many elements a value becomes in an XML tree: flattened collections become one
      element for each item, everything else becomes one element. */
  function Elements(model: Model, ref: Ref, v: Val): nat {
    match (ShapeOf(model, ref), v)
    case (ListOf(_, flattened), List(items)) => if flattened then CountItems(items) else 1
    case (MapOf(_, _, flattened), Map(entries)) => if flattened then CountEntries(entries) else 1
    case _ => 1
  }

  /** A value without its nulls and unknown members, members in the order of the shape, and
      missing required members set to None. In an XML tree (`tree`) a flattened collection
      without items cannot be told from an absent one. */
  function Normal(model: Model, ref: Ref, v: Val, tree: bool): Val
    decreases v, 2
  {
    match (ShapeOf(model, ref), v)
    case (Scalar(kind), _) => NormalScalar(kind, v)
    case (Structure(members), Struct(fields)) => Struct(NormalMembers(model, members, fields, tree))
    case (ListOf(item, _), List(items)) => List(NormalItems(model, item, items, tree))
    case (MapOf(_, value, _), Map(entries)) => Map(NormalEntries(model, value, entries, tree))
    case _ => v
  }

  function NormalMembers(model: Model, members: seq<Member>, fields: seq<(string, Val)>, tree: bool): seq<(string, Val)>
    decreases fields, 1, |members|
  {
    if members == [] then []
    else NormalMember(model, members[0], fields, tree) + NormalMembers(model, members[1..], fields, tree)
  }

  function Missing(m: Member): seq<(string, Val)> {
    if m.required then [(m.name, Null)] else []
  }

  function NormalMember(model: Model, m: Member, fields: seq<(string, Val)>, tree: bool): seq<(string, Val)>
    decreases fields, 0
  {
    if fields == [] then Missing(m)
    else if fields[0].0 == m.name then NormalField(model, m, fields[0], tree)
    else NormalMember(model, m, fields[1..], tree)
  }

  function NormalField(model: Model, m: Member, f: (string, Val), tree: bool): seq<(string, Val)>
    decreases f, 0
  {
    if f.1 == Null || (tree && Elements(model, m.ref, f.1) == 0) then Missing(m)
    else [(m.name, Normal(model, m.ref, f.1, tree))]
  }

  function NormalItems(model: Model, item: Ref, items: seq<Val>, tree: bool): seq<Val>
    decreases items, 0
  {
    if items == [] then []
    else (if items[0] == Null then [] else [Normal(model, item, items[0], tree)])
         + NormalItems(model, item, items[1..], tree)
  }

  function NormalEntries(model: Model, value: Ref, entries: seq<(Val, Val)>, tree: bool): seq<(Val, Val)>
    decreases entries, 0
  {
    if entries == [] then []
    else NormalEntry(model, value, entries[0], tree) + NormalEntries(model, value, entries[1..], tree)
  }

  function NormalEntry(model: Model, value: Ref, e: (Val, Val), tree: bool): seq<(Val, Val)>
    decreases e, 0
  {
    if e.1 == Null then [] else [(e.0, Normal(model, value, e.1, tree))]
  }

  /** Appending entries whose keys are new to a dict. */
  ghost predicate Fresh(d: Dict<Val, Val>, entries: seq<(Val, Val)>) {
    Distinct(entries) && forall e | e in entries :: !HasKey(d, e.0)
  }

  lemma StillFresh(model: Model, value: Ref, d: Dict<Val, Val>, entries: seq<(Val, Val)>, tree: bool)
    requires entries != [] && Fresh(d, entries)
    ensures Fresh(d + NormalEntry(model, value, entries[0], tree), entries[1..])
  {
  }

  /** `d` after the entries have been assigned one by one. */
  function Assigned(model: Model, value: Ref, d: Dict<Val, Val>, entries: seq<(Val, Val)>, tree: bool): Dict<Val, Val>
    decreases entries
  {
    if entries == [] then d
    else Assigned(model, value, d + NormalEntry(model, value, entries[0], tree), entries[1..], tree)
  }

  lemma {:induction false} AssignedIsAppended(model: Model, value: Ref, d: Dict<Val, Val>, entries: seq<(Val, Val)>, tree: bool)
    ensures Assigned(model, value, d, entries, tree) == d + NormalEntries(model, value, entries, tree)
    decreases entries
  {
    if entries == [] {
      assert d + NormalEntries(model, value, entries, tree) == d;
    } else {
      var first, others := NormalEntry(model, value, entries[0], tree), NormalEntries(model, value, entries[1..], tree);
      AssignedIsAppended(model, value, d + first, entries[1..], tree);
      Assoc(d, first, others);
    }
  }
}
