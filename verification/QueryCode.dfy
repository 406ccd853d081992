/** The loops of `QueryRequestParser`, proved against the functions of `QueryModel`. */
module QueryCode {
  import opened PyDict
  import opened Shapes
  import opened Numerals
  import opened Outcomes
  import opened Scalars
  import opened QueryModel

  method FilterNode(name: string, node: Node) returns (filtered: Node)
    ensures filtered == Filter(name, node)
  {
    filtered := [];
    for i := 0 to |node|
      invariant filtered == Filter(name, node[..i])
    {
      assert node[..i + 1][..i] == node[..i];
      if name <= node[i].0 {
        filtered := Set(filtered, Cut(node[i].0, name), node[i].1);
      }
    }
    assert node[..|node|] == node;
  }

  method ReadMember(model: Model, name: string, ref: Ref, node: Node) returns (r: Outcome<Val>)
    requires Named(model) && name != ""
    ensures r == ProcessMember(model, name, ref, node)
    decreases Weight(node), 0, 0
  {
    var shape := ShapeOf(model, ref);
    if shape.Scalar? {
      var text := Get(node, name);
      return if text.Some? then ReadText(shape.kind, text.value) else Ok(Null);
    }
    var sub := FilterNode(name, node);
    if sub == [] {
      return Ok(Null);
    }
    r := ReadShape(model, ref, sub);
  }

  method ReadShape(model: Model, ref: Ref, node: Node) returns (r: Outcome<Val>)
    requires Named(model)
    ensures r == Parse(model, ref, node)
    decreases Weight(node), 3, 0
  {
    match ShapeOf(model, ref)
    case Scalar(_) => r := Err;
    case Structure(members) => r := ReadStructure(model, members, node);
    case ListOf(item, flattened) => r := ReadList(model, item, flattened, node);
    case MapOf(key, value, flattened) => r := ReadMap(model, key, value, flattened, node);
  }

  method ReadStructure(model: Model, members: seq<Member>, node: Node) returns (r: Outcome<Val>)
    requires Named(model) && NamedMembers(model, members)
    ensures
      var fields := ParseMembers(model, members, node);
      r == if fields.Err? then Err else Ok(if fields.value == [] then Null else Struct(fields.value))
    decreases Weight(node), 2, |members|
  {
    var result: seq<(string, Val)> := [];
    for i := 0 to |members|
      invariant ParseMembers(model, members, node) == Then(result, ParseMembers(model, members[i..], node))
    {
      var m := members[i];
      assert members[i..][0] == m && members[i..][1..] == members[i + 1..];
      var value :- ReadMember(model, MemberKey(model, m), m.ref, node);
      ghost var found := if value != Null || m.required then [(m.name, value)] else [];
      ThenAgain(result, found, ParseMembers(model, members[i + 1..], node));
      if value != Null || m.required {
        result := result + [(m.name, value)];
      } else {
        assert result + found == result;
      }
    }
    assert members[|members|..] == [];
    return Ok(if result == [] then Null else Struct(result));
  }

  /** Positions are collected with the values, to be sorted by position at the end; they are
      collected in ascending order, so sorting leaves them as they are. */
  method ReadList(model: Model, item: Ref, flattened: bool, node: Node) returns (r: Outcome<Val>)
    requires Named(model)
    ensures
      var items := ParseItems(model, item, ListPrefix(item, flattened), 1, node);
      r == if items.Err? then Err else Ok(if items.value == [] then Null else List(items.value))
    decreases Weight(node), 2, Left(node, 1)
  {
    var prefix := ListPrefix(item, flattened);
    var result: seq<(nat, Val)> := [];
    var i := 1;
    while true
      invariant i == |result| + 1
      invariant forall k | 0 <= k < |result| :: result[k].0 == k + 1
      invariant ParseItems(model, item, prefix, 1, node)
             == Then(Values(result), ParseItems(model, item, prefix, i, node))
      decreases Left(node, i)
    {
      assert |prefix + Dec(i)| > 0;
      var value :- ReadMember(model, prefix + Dec(i), item, node);
      ItemTurn(model, item, prefix, i, node, value);
      if value == Null {
        break;
      }
      OneMoreItem(result, (i, value), ParseItems(model, item, prefix, i + 1, node));
      result := result + [(i, value)];
      i := i + 1;
    }
    return Ok(if result == [] then Null else List(Values(result)));
  }

  function Values(result: seq<(nat, Val)>): seq<Val> {
    seq(|result|, k requires 0 <= k < |result| => result[k].1)
  }

  lemma OneMoreItem(result: seq<(nat, Val)>, found: (nat, Val), more: Outcome<seq<Val>>)
    ensures Then(Values(result), Then([found.1], more)) == Then(Values(result + [found]), more)
  {
    assert Values(result + [found]) == Values(result) + [found.1];
    ThenAgain(Values(result), [found.1], more);
  }

  method ReadMap(model: Model, key: Ref, value: Ref, flattened: bool, node: Node) returns (r: Outcome<Val>)
    requires Named(model)
    ensures
      var entries := ParseEntries(model, key, value, MapPrefix(flattened), 1, node, []);
      r == if entries.Err? then Err else Ok(if entries.value == [] then Null else Map(entries.value))
    decreases Weight(node), 2, Left(node, 1)
  {
    var prefix := MapPrefix(flattened);
    var result: Dict<Val, Val> := [];
    var i := 1;
    while true
      invariant ParseEntries(model, key, value, prefix, 1, node, [])
             == ParseEntries(model, key, value, prefix, i, node, result)
      decreases Left(node, i)
    {
      assert |KeyName(prefix, i, key)| > 0 && |ValueName(prefix, i, value)| > 0;
      var k :- ReadMember(model, KeyName(prefix, i, key), key, node);
      var v :- ReadMember(model, ValueName(prefix, i, value), value, node);
      EntryTurn(model, key, value, prefix, i, node, result, k, v);
      if k == Null || v == Null {
        break;
      }
      EntryBound(model, key, prefix, i, node, k);
      if !Hashable(k) {
        return Err;
      }
      result := Set(result, k, v);
      i := i + 1;
    }
    return Ok(if result == [] then Null else Map(result));
  }
}
