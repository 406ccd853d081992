/** `QueryRequestParser`: a request is a flat dict of parameters, and nesting is written
    into the keys, as in `Tags.member.2.Key`. */
module QueryModel {
  import opened PyDict
  import opened Shapes
  import opened Numerals
  import opened Outcomes
  import opened Scalars

  type Node = Dict<string, string>

  // ---------------------------------------------------------------- filtering

  /** `k[len(name) + 1:]`. */
  function Cut(k: string, name: string): string {
    if |k| > |name| then k[|name| + 1..] else []
  }

  /** The sum of the key lengths: what bounds the recursion. */
  function Weight(node: Node): nat {
    if node == [] then 0 else |node[0].0| + Weight(node[1..])
  }

  lemma {:induction false} WeightOfSet(node: Node, k: string, v: string)
    ensures Weight(Set(node, k, v)) <= Weight(node) + |k|
  {
    if node != [] && node[0].0 != k {
      WeightOfSet(node[1..], k, v);
    }
  }

  lemma {:induction false} WeightSnoc(node: Node, e: (string, string))
    ensures Weight(node + [e]) == Weight(node) + |e.0|
  {
    if node == [] {
      assert ([] + [e])[1..] == [];
    } else {
      assert (node + [e])[1..] == node[1..] + [e];
      WeightSnoc(node[1..], e);
    }
  }

  lemma {:induction false} KeyWeight(node: Node, k: string)
    requires HasKey(node, k)
    ensures |k| <= Weight(node)
  {
    if node[0].0 != k {
      var i :| 0 <= i < |node| && node[i].0 == k;
      assert node[1..][i - 1] == node[i];
      KeyWeight(node[1..], k);
    }
  }

  /** `_filter_node`: a dict comprehension, so a later entry replaces an earlier one that
      is cut to the same key. The name is matched as a bare prefix. */
  function Filter(name: string, node: Node): (r: Node)
    ensures name != [] ==> Weight(r) + (if r == [] then 0 else 1) <= Weight(node)
  {
    if node == [] then []
    else
      var init, last := node[..|node| - 1], node[|node| - 1];
      var r := Filter(name, init);
      assert Weight(node) == Weight(init) + |last.0| by { WeightSnoc(init, last); assert init + [last] == node; }
      if name <= last.0 then
        WeightOfSet(r, Cut(last.0, name), last.1);
        Set(r, Cut(last.0, name), last.1)
      else r
  }

  /** Some key of the node starts with the name. */
  ghost predicate Mentions(node: Node, name: string) {
    exists i :: 0 <= i < |node| && name <= node[i].0
  }

  lemma {:induction false} FilterMentions(name: string, node: Node)
    ensures Filter(name, node) != [] <==> Mentions(node, name)
  {
    if node != [] {
      var init, last := node[..|node| - 1], node[|node| - 1];
      FilterMentions(name, init);
      if Mentions(init, name) {
        var i :| 0 <= i < |init| && name <= init[i].0;
        assert node[i] == init[i];
      }
      if name <= last.0 {
        assert name <= node[|node| - 1].0;
        assert Get(Filter(name, node), Cut(last.0, name)).Some?;
      } else if Mentions(node, name) {
        var i :| 0 <= i < |node| && name <= node[i].0;
        assert init[i] == node[i];
      }
    }
  }

  // ---------------------------------------------------------------- parsing

  /** The key under which a structure member is looked up. */
  function MemberKey(model: Model, m: Member): string {
    var shape := ShapeOf(model, m.ref);
    if shape.ListOf? && shape.flattened then Wire(shape.item, m.name) else Wire(m.ref, m.name)
  }

  function ListPrefix(item: Ref, flattened: bool): string {
    if flattened then "" else Wire(item, "member") + "."
  }

  function MapPrefix(flattened: bool): string {
    if flattened then "" else "entry."
  }

  function KeyName(prefix: string, i: nat, key: Ref): string {
    prefix + Dec(i) + "." + Wire(key, "key")
  }

  function ValueName(prefix: string, i: nat, value: Ref): string {
    prefix + Dec(i) + "." + Wire(value, "value")
  }

  /** Wire names of structure members are not empty. */
  ghost predicate Named(model: Model) {
    forall id | id in model && model[id].Structure? :: NamedMembers(model, model[id].members)
  }

  ghost predicate NamedMembers(model: Model, members: seq<Member>) {
    forall m | m in members :: MemberKey(model, m) != ""
  }

  /** How far an index loop can still go: an index is printed inside some key. */
  function Left(node: Node, i: nat): nat {
    if i < Pow10(Weight(node)) then Pow10(Weight(node)) - i else 0
  }

  lemma IndexBound(node: Node, prefix: string, i: nat, suffix: string)
    requires Mentions(node, prefix + Dec(i) + suffix)
    ensures Left(node, i + 1) < Left(node, i)
  {
    var n :| 0 <= n < |node| && prefix + Dec(i) + suffix <= node[n].0;
    KeyWeight(node, node[n].0);
    DecBound(i);
    Pow10Monotone(|Dec(i)|, Weight(node));
  }

  /** A value that cannot be read raises, and the request is refused. */
  function ProcessMember(model: Model, name: string, ref: Ref, node: Node): (r: Outcome<Val>)
    requires Named(model) && name != ""
    ensures r.Ok? && r.value != Null ==> Mentions(node, name)
    decreases Weight(node), 0, 0
  {
    match ShapeOf(model, ref)
    case Scalar(kind) =>
      (match Get(node, name)
       case Some(text) => ReadText(kind, text)
       case None => Ok(Null))
    case _ =>
      var sub := Filter(name, node);
      FilterMentions(name, node);
      if sub == [] then Ok(Null) else Parse(model, ref, sub)
  }

  function Parse(model: Model, ref: Ref, node: Node): Outcome<Val>
    requires Named(model)
    decreases Weight(node), 3, 0
  {
    match ShapeOf(model, ref)
    case Scalar(_) => Err
    case Structure(members) =>
      var fields :- ParseMembers(model, members, node);
      Ok(if fields == [] then Null else Struct(fields))
    case ListOf(item, flattened) =>
      var items :- ParseItems(model, item, ListPrefix(item, flattened), 1, node);
      Ok(if items == [] then Null else List(items))
    case MapOf(key, value, flattened) =>
      var entries :- ParseEntries(model, key, value, MapPrefix(flattened), 1, node, []);
      Ok(if entries == [] then Null else Map(entries))
  }

  /** Members in the order of the shape; a missing required member is set to None. */
  function ParseMembers(model: Model, members: seq<Member>, node: Node): Outcome<seq<(string, Val)>>
    requires Named(model) && NamedMembers(model, members)
    decreases Weight(node), 2, |members|
  {
    if members == [] then Ok([])
    else
      var m := members[0];
      var v :- ProcessMember(model, MemberKey(model, m), m.ref, node);
      Then(if v != Null || m.required then [(m.name, v)] else [], ParseMembers(model, members[1..], node))
  }

  /** The items with indices `i`, `i + 1`, ... up to the first one that is missing. */
  function ParseItems(model: Model, item: Ref, prefix: string, i: nat, node: Node): Outcome<seq<Val>>
    requires Named(model)
    decreases Weight(node), 2, Left(node, i)
  {
    assert |prefix + Dec(i)| > 0;
    var v :- ProcessMember(model, prefix + Dec(i), item, node);
    if v == Null then Ok([])
    else
      assert prefix + Dec(i) == prefix + Dec(i) + "";
      IndexBound(node, prefix, i, "");
      Then([v], ParseItems(model, item, prefix, i + 1, node))
  }

  function ParseEntries(
    model: Model, key: Ref, value: Ref, prefix: string, i: nat, node: Node, d: Dict<Val, Val>): Outcome<Dict<Val, Val>>
    requires Named(model)
    decreases Weight(node), 2, Left(node, i)
  {
    assert |KeyName(prefix, i, key)| > 0 && |ValueName(prefix, i, value)| > 0;
    var k :- ProcessMember(model, KeyName(prefix, i, key), key, node);
    var v :- ProcessMember(model, ValueName(prefix, i, value), value, node);
    if k == Null || v == Null then Ok(d)
    else if !Hashable(k) then Err
    else
      assert KeyName(prefix, i, key) == prefix + Dec(i) + ("." + Wire(key, "key"));
      IndexBound(node, prefix, i, "." + Wire(key, "key"));
      ParseEntries(model, key, value, prefix, i + 1, node, Set(d, k, v))
  }

  /** One turn of the index loop of a list. */
  lemma ItemTurn(model: Model, item: Ref, prefix: string, i: nat, node: Node, v: Val)
    requires Named(model) && prefix + Dec(i) != "" && ProcessMember(model, prefix + Dec(i), item, node) == Ok(v)
    ensures ParseItems(model, item, prefix, i, node)
         == if v == Null then Ok([]) else Then([v], ParseItems(model, item, prefix, i + 1, node))
    ensures v != Null ==> Left(node, i + 1) < Left(node, i)
  {
    if v != Null {
      assert prefix + Dec(i) == prefix + Dec(i) + "";
      IndexBound(node, prefix, i, "");
    }
  }

  /** One turn of the index loop of a map. */
  lemma EntryTurn(
    model: Model, key: Ref, value: Ref, prefix: string, i: nat, node: Node, d: Dict<Val, Val>, k: Val, v: Val)
    requires Named(model) && KeyName(prefix, i, key) != "" && ValueName(prefix, i, value) != ""
    requires ProcessMember(model, KeyName(prefix, i, key), key, node) == Ok(k)
    requires ProcessMember(model, ValueName(prefix, i, value), value, node) == Ok(v)
    ensures ParseEntries(model, key, value, prefix, i, node, d)
         == if k == Null || v == Null then Ok(d)
            else if !Hashable(k) then Err
            else ParseEntries(model, key, value, prefix, i + 1, node, Set(d, k, v))
  {
  }

  lemma EntryBound(model: Model, key: Ref, prefix: string, i: nat, node: Node, k: Val)
    requires Named(model) && KeyName(prefix, i, key) != ""
    requires ProcessMember(model, KeyName(prefix, i, key), key, node) == Ok(k) && k != Null
    ensures Left(node, i + 1) < Left(node, i)
  {
    assert KeyName(prefix, i, key) == prefix + Dec(i) + ("." + Wire(key, "key"));
    IndexBound(node, prefix, i, "." + Wire(key, "key"));
  }

  // ---------------------------------------------------------------- what a client sends

  /** The parameters a client sends for a value at `name`: `name` itself for a scalar,
      dotted keys below `name` for everything else. */
  function ParamsAt(model: Model, name: string, ref: Ref, v: Val): seq<(string, string)>
    decreases v, 3
  {
    match ShapeOf(model, ref)
    case Scalar(kind) => if FitsKind(kind, v) then [(name, Printed(kind, v))] else []
    case _ => Under(name, Params(model, ref, v))
  }

  function Under(name: string, params: seq<(string, string)>): (r: seq<(string, string)>)
    ensures |r| == |params|
    ensures forall i :: 0 <= i < |r| ==> r[i] == (name + "." + params[i].0, params[i].1)
  {
    seq(|params|, i requires 0 <= i < |params| => (name + "." + params[i].0, params[i].1))
  }

  function Params(model: Model, ref: Ref, v: Val): seq<(string, string)>
    decreases v, 2
  {
    match (ShapeOf(model, ref), v)
    case (Structure(members), Struct(fields)) => ParamsOfFields(model, members, fields)
    case (ListOf(item, flattened), List(items)) => ParamsOfItems(model, item, ListPrefix(item, flattened), 1, items)
    case (MapOf(key, value, flattened), Map(entries)) =>
      ParamsOfEntries(model, key, value, MapPrefix(flattened), 1, entries)
    case _ => []
  }

  function ParamsOfFields(model: Model, members: seq<Member>, fields: seq<(string, Val)>): seq<(string, string)>
    decreases fields, 0, |members|
  {
    if members == [] then []
    else
      var m := members[0];
      if fields != [] && fields[0].0 == m.name then
        ParamsOfField(model, m, fields[0]) + ParamsOfFields(model, members[1..], fields[1..])
      else ParamsOfFields(model, members[1..], fields)
  }

  function ParamsOfField(model: Model, m: Member, field: (string, Val)): seq<(string, string)>
    decreases field, 0
  {
    ParamsAt(model, MemberKey(model, m), m.ref, field.1)
  }

  function ParamsOfItems(model: Model, item: Ref, prefix: string, i: nat, items: seq<Val>): seq<(string, string)>
    decreases items, 0
  {
    if items == [] then []
    else ParamsAt(model, prefix + Dec(i), item, items[0]) + ParamsOfItems(model, item, prefix, i + 1, items[1..])
  }

  function ParamsOfEntry(model: Model, key: Ref, value: Ref, prefix: string, i: nat, e: (Val, Val)): seq<(string, string)>
    decreases e, 0
  {
    ParamsAt(model, KeyName(prefix, i, key), key, e.0) + ParamsAt(model, ValueName(prefix, i, value), value, e.1)
  }

  function ParamsOfEntries(
    model: Model, key: Ref, value: Ref, prefix: string, i: nat, entries: seq<(Val, Val)>): seq<(string, string)>
    decreases entries, 0
  {
    if entries == [] then []
    else ParamsOfEntry(model, key, value, prefix, i, entries[0])
         + ParamsOfEntries(model, key, value, prefix, i + 1, entries[1..])
  }
}
