/** What clients put on the wire for a value, in the words of the Query protocol, and that it
    is what `QueryTheorems` shows to be read back. */
module QueryWire {
  import opened PyDict
  import opened Shapes
  import opened Numerals
  import opened Outcomes
  import opened QueryModel
  import opened QueryTheorems
  import Base64
  import Unicode

  // ---------------------------------------------------------------- the protocol

  /** The value of a parameter. */
  function SentText(kind: Kind, v: Val): string
    requires FitsKind(kind, v)
  {
    match v
    case Bool(true) => "true"
    case Bool(false) => "false"
    case Bytes(bytes) => Base64.Encode(bytes)
    case Str(text) => if kind == Blob then Base64.Encode(Unicode.EncodeUtf8(text)) else text
  }

  /** The parameters for a value under its full name: items of a list are
      `Name.member.1`, `Name.member.2` and so on, with the name of the items for `member` when
      they have one, and `Name.1` when the list is flattened; entries of a map are
      `Name.entry.1.key` and `Name.entry.1.value`, or `Name.1.key` when it is flattened. */
  function Sent(model: Model, path: string, ref: Ref, v: Val): ParamList
    decreases v, 1
  {
    match (ShapeOf(model, ref), v)
    case (Scalar(kind), _) => if FitsKind(kind, v) then [(path, SentText(kind, v))] else []
    case (Structure(members), Struct(fields)) => SentFields(model, path + ".", members, fields)
    case (ListOf(item, true), List(items)) => SentItems(model, path + ".", item, 1, items)
    case (ListOf(item, false), List(items)) =>
      (match item.name
       case Some(name) => SentItems(model, path + "." + name + ".", item, 1, items)
       case None => SentItems(model, path + ".member.", item, 1, items))
    case (MapOf(key, value, true), Map(entries)) => SentEntries(model, path + ".", key, value, 1, entries)
    case (MapOf(key, value, false), Map(entries)) => SentEntries(model, path + ".entry.", key, value, 1, entries)
    case _ => []
  }

  /** Members that are there, in the order of the shape. The items of a flattened list lend
      it their name; anything else may have a name of its own. */
  function SentFields(model: Model, prefix: string, members: seq<Member>, fields: seq<(string, Val)>): ParamList
    decreases fields, 0, |members|
  {
    if members == [] || fields == [] then []
    else if fields[0].0 == members[0].name then
      SentField(model, prefix, members[0], fields[0]) + SentFields(model, prefix, members[1..], fields[1..])
    else SentFields(model, prefix, members[1..], fields)
  }

  function SentField(model: Model, prefix: string, m: Member, f: (string, Val)): ParamList
    decreases f, 0
  {
    var lender := match ShapeOf(model, m.ref) case ListOf(item, true) => item case _ => m.ref;
    match lender.name
    case Some(name) => Sent(model, prefix + name, m.ref, f.1)
    case None => Sent(model, prefix + m.name, m.ref, f.1)
  }

  function SentItems(model: Model, prefix: string, item: Ref, i: nat, items: seq<Val>): ParamList
    decreases items, 0
  {
    if items == [] then []
    else Sent(model, prefix + Dec(i), item, items[0]) + SentItems(model, prefix, item, i + 1, items[1..])
  }

  function SentEntries(model: Model, prefix: string, key: Ref, value: Ref, i: nat, entries: seq<(Val, Val)>): ParamList
    decreases entries, 0
  {
    if entries == [] then []
    else SentEntry(model, prefix + Dec(i), key, value, entries[0])
         + SentEntries(model, prefix, key, value, i + 1, entries[1..])
  }

  function SentEntry(model: Model, path: string, key: Ref, value: Ref, e: (Val, Val)): ParamList
    decreases e, 0
  {
    (match key.name
     case Some(name) => Sent(model, path + "." + name, key, e.0)
     case None => Sent(model, path + ".key", key, e.0))
    + (match value.name
       case Some(name) => Sent(model, path + "." + name, value, e.1)
       case None => Sent(model, path + ".value", value, e.1))
  }

  // ---------------------------------------------------------------- it is what is read

  lemma UnderConcat(name: string, a: ParamList, b: ParamList)
    ensures Under(name, a + b) == Under(name, a) + Under(name, b)
  {
  }

  /** One more level in front of a name. */
  lemma UnderAt(model: Model, path: string, name: string, ref: Ref, v: Val)
    ensures Under(path, ParamsAt(model, name, ref, v)) == ParamsAt(model, path + "." + name, ref, v)
  {
    if !ShapeOf(model, ref).Scalar? {
      var ps := Params(model, ref, v);
      var outer, inner := Under(path, Under(name, ps)), Under(path + "." + name, ps);
      forall i | 0 <= i < |ps| ensures outer[i] == inner[i] {
        assert path + "." + (name + "." + ps[i].0) == path + "." + name + "." + ps[i].0;
      }
      assert outer == inner;
    }
  }

  /** Every parameter of a value has the name and the text that the protocol gives it. */
  lemma {:induction false} ParamsAreSent(model: Model, path: string, ref: Ref, v: Val)
    ensures ParamsAt(model, path, ref, v) == Sent(model, path, ref, v)
    decreases v, 1
  {
    match (ShapeOf(model, ref), v)
    case (Scalar(kind), _) =>
    case (Structure(members), Struct(fields)) => FieldsAreSent(model, path, members, fields);
    case (ListOf(item, flattened), List(items)) =>
      ItemsAreSent(model, path, ListPrefix(item, flattened), item, 1, items);
      ListText(path, item, flattened);
    case (MapOf(key, value, flattened), Map(entries)) =>
      EntriesAreSent(model, path, MapPrefix(flattened), key, value, 1, entries);
      assert path + "." + MapPrefix(flattened) == path + if flattened then "." else ".entry.";
    case _ =>
  }

  lemma {:induction false} FieldsAreSent(model: Model, path: string, members: seq<Member>, fields: seq<(string, Val)>)
    ensures Under(path, ParamsOfFields(model, members, fields)) == SentFields(model, path + ".", members, fields)
    decreases fields, 0, |members|
  {
    if members != [] {
      var m := members[0];
      if fields != [] && fields[0].0 == m.name {
        FieldIsSent(model, path, m, fields[0]);
        FieldsAreSent(model, path, members[1..], fields[1..]);
        UnderConcat(path, ParamsOfField(model, m, fields[0]), ParamsOfFields(model, members[1..], fields[1..]));
      } else {
        FieldsAreSent(model, path, members[1..], fields);
        NoFieldsSent(model, path + ".", members[1..]);
      }
    }
  }

  lemma NoFieldsSent(model: Model, prefix: string, members: seq<Member>)
    ensures SentFields(model, prefix, members, []) == []
  {
  }

  lemma FieldIsSent(model: Model, path: string, m: Member, f: (string, Val))
    ensures Under(path, ParamsOfField(model, m, f)) == SentField(model, path + ".", m, f)
    decreases f, 0
  {
    UnderAt(model, path, MemberKey(model, m), m.ref, f.1);
    ParamsAreSent(model, path + "." + MemberKey(model, m), m.ref, f.1);
  }

  lemma {:induction false} ItemsAreSent(model: Model, path: string, prefix: string, item: Ref, i: nat, items: seq<Val>)
    ensures Under(path, ParamsOfItems(model, item, prefix, i, items))
         == SentItems(model, path + "." + prefix, item, i, items)
    decreases items, 0
  {
    if items != [] {
      UnderAt(model, path, prefix + Dec(i), item, items[0]);
      assert path + "." + (prefix + Dec(i)) == path + "." + prefix + Dec(i);
      ParamsAreSent(model, path + "." + prefix + Dec(i), item, items[0]);
      ItemsAreSent(model, path, prefix, item, i + 1, items[1..]);
      UnderConcat(path, ParamsAt(model, prefix + Dec(i), item, items[0]),
                  ParamsOfItems(model, item, prefix, i + 1, items[1..]));
    }
  }

  lemma {:induction false} EntriesAreSent(
    model: Model, path: string, prefix: string, key: Ref, value: Ref, i: nat, entries: seq<(Val, Val)>)
    ensures Under(path, ParamsOfEntries(model, key, value, prefix, i, entries))
         == SentEntries(model, path + "." + prefix, key, value, i, entries)
    decreases entries, 0
  {
    if entries != [] {
      EntryIsSent(model, path, prefix, key, value, i, entries[0]);
      EntriesAreSent(model, path, prefix, key, value, i + 1, entries[1..]);
      UnderConcat(path, ParamsOfEntry(model, key, value, prefix, i, entries[0]),
                  ParamsOfEntries(model, key, value, prefix, i + 1, entries[1..]));
    }
  }

  lemma EntryIsSent(model: Model, path: string, prefix: string, key: Ref, value: Ref, i: nat, e: (Val, Val))
    ensures Under(path, ParamsOfEntry(model, key, value, prefix, i, e))
         == SentEntry(model, path + "." + prefix + Dec(i), key, value, e)
    decreases e, 0
  {
    var kn, vn, at := KeyName(prefix, i, key), ValueName(prefix, i, value), path + "." + prefix + Dec(i);
    UnderConcat(path, ParamsAt(model, kn, key, e.0), ParamsAt(model, vn, value, e.1));
    UnderAt(model, path, kn, key, e.0);
    UnderAt(model, path, vn, value, e.1);
    ParamsAreSent(model, path + "." + kn, key, e.0);
    ParamsAreSent(model, path + "." + vn, value, e.1);
    KeyText(path, prefix, i, if key.name.Some? then key.name.value else "key");
    KeyText(path, prefix, i, if value.name.Some? then value.name.value else "value");
    assert at + "." + "key" == at + ".key" && at + "." + "value" == at + ".value";
  }

  lemma ListText(path: string, item: Ref, flattened: bool)
    ensures path + "." + ListPrefix(item, flattened)
         == if flattened then path + "."
            else if item.name.Some? then path + "." + item.name.value + "." else path + ".member."
  {
  }

  lemma KeyText(path: string, prefix: string, i: nat, name: string)
    ensures path + "." + (prefix + Dec(i) + "." + name) == path + "." + prefix + Dec(i) + "." + name
  {
  }

  /** The parameters of a whole request. */
  lemma {:induction false} RequestIsSent(model: Model, members: seq<Member>, fields: seq<(string, Val)>)
    ensures ParamsOfFields(model, members, fields) == SentFields(model, "", members, fields)
    decreases |members|
  {
    if members != [] {
      if fields != [] && fields[0].0 == members[0].name {
        ParamsAreSent(model, MemberKey(model, members[0]), members[0].ref, fields[0].1);
        RequestIsSent(model, members[1..], fields[1..]);
        assert "" + MemberKey(model, members[0]) == MemberKey(model, members[0]);
      } else {
        RequestIsSent(model, members[1..], fields);
        NoFieldsSent(model, "", members[1..]);
      }
    }
  }

  /** A request that carries what the protocol prescribes for a structure, and besides only
      parameters that none of its members looks at, is parsed to the structure. */
  lemma SentIsRead(model: Model, ref: Ref, fields: seq<(string, Val)>, node: Node)
    requires Good(model) && ShapeOf(model, ref).Structure? && Canonical(model, ref, Struct(fields)) && Distinct(node)
    requires var ps := SentFields(model, "", ShapeOf(model, ref).members, fields);
      && (forall p | p in ps :: p in node)
      && (forall e | e in node && e !in ps :: NoMemberKey(model, ShapeOf(model, ref).members, e.0))
    ensures Named(model) && Parse(model, ref, node) == Ok(Struct(fields))
  {
    RequestIsSent(model, ShapeOf(model, ref).members, fields);
    RequestRoundTrip(model, ref, Struct(fields), node);
  }
}
