/** Query parameters written the way clients write them are parsed back to the value, at
    any nesting depth and in any order of the parameters. */
module QueryTheorems {
  import opened PyDict
  import opened Shapes
  import opened Numerals
  import opened Outcomes
  import opened Scalars
  import opened Sequences
  import opened QueryModel

  type ParamList = seq<(string, string)>

  // ---------------------------------------------------------------- schemas and values

  predicate Plain(name: string) {
    name != "" && !IsDigit(name[0]) && name[0] != '.'
  }

  /** What a schema must satisfy for dotted keys to be unambiguous: sibling names do not look
      like indices, and the name of a sibling is no prefix of another one, unless it is a
      scalar and only looked up as it is; a flattened collection that is directly the item of
      a list tolerates what the list index leaves to it; map keys are text. */
  ghost predicate Good(model: Model) {
    forall id | id in model :: GoodShape(model, model[id])
  }

  ghost predicate GoodShape(model: Model, shape: Shape) {
    match shape
    case Scalar(_) => true
    case Structure(members) => GoodMembers(model, members)
    case ListOf(item, flattened) =>
      Tolerates(model, item) && (!flattened ==> Plain(Wire(item, "member")))
    case MapOf(key, value, flattened) =>
      ShapeOf(model, key) == Scalar(Text) && !Touches(model, Wire(value, "value"), value, Wire(key, "key"))
  }

  /** Keys of longer outer indices do not disturb the item of a list: neither shapes that are
      not flattened, nor flattened maps, nor flattened lists whose own items are quiet. */
  predicate Tolerates(model: Model, ref: Ref) {
    match ShapeOf(model, ref)
    case ListOf(item, flattened) => flattened ==> Quiet(model, item)
    case MapOf(key, value, flattened) => flattened ==> Plain(Wire(key, "key")) && Plain(Wire(value, "value"))
    case _ => true
  }

  /** Keys that look like no name are read as nothing: a structure has no required members,
      which would be set to None. */
  predicate Quiet(model: Model, ref: Ref) {
    match ShapeOf(model, ref)
    case Scalar(_) => true
    case Structure(members) => forall m | m in members :: !m.required
    case shape => !Flattened(shape)
  }

  ghost predicate GoodMembers(model: Model, members: seq<Member>) {
    && (forall m | m in members :: Plain(MemberKey(model, m)))
    && (forall i, j | 0 <= i < |members| && 0 <= j < |members| && i != j ::
          !Touches(model, MemberKey(model, members[i]), members[i].ref, MemberKey(model, members[j])))
  }

  /** Whether looking for a value under a name looks at a key: scalars are looked up, anything
      else is filtered by prefix. */
  predicate Touches(model: Model, name: string, ref: Ref, k: string) {
    if ShapeOf(model, ref).Scalar? then k == name else name <= k
  }

  lemma GoodIsNamed(model: Model)
    requires Good(model)
    ensures Named(model)
  {
  }

  /** Values of the shape in the form the parser produces: members in the order of the
      shape, nothing empty, nulls only for required members. */
  ghost predicate Canonical(model: Model, ref: Ref, v: Val)
    decreases v, 2
  {
    match (ShapeOf(model, ref), v)
    case (Scalar(kind), _) => FitsKind(kind, v) && NormalScalar(kind, v) == v
    case (Structure(members), Struct(fields)) =>
      CanonicalFields(model, members, fields) && exists f | f in fields :: f.1 != Null
    case (ListOf(item, _), List(items)) =>
      items != [] && forall x | x in items :: Canonical(model, item, x)
    case (MapOf(key, value, _), Map(entries)) =>
      && entries != []
      && (forall e | e in entries :: CanonicalEntry(model, key, value, e))
      && Distinct(entries)
    case _ => false
  }

  ghost predicate CanonicalEntry(model: Model, key: Ref, value: Ref, e: (Val, Val))
    decreases e, 0
  {
    Canonical(model, key, e.0) && Canonical(model, value, e.1)
  }

  ghost predicate CanonicalField(model: Model, m: Member, f: (string, Val))
    decreases f, 0
  {
    if f.1 == Null then m.required else Canonical(model, m.ref, f.1)
  }

  ghost predicate CanonicalFields(model: Model, members: seq<Member>, fields: seq<(string, Val)>)
    decreases fields, 0, |members|
  {
    if members == [] then fields == []
    else if fields != [] && fields[0].0 == members[0].name then
      CanonicalField(model, members[0], fields[0]) && CanonicalFields(model, members[1..], fields[1..])
    else !members[0].required && CanonicalFields(model, members[1..], fields)
  }

  // ---------------------------------------------------------------- dicts of parameters

  ghost predicate Key(ps: ParamList, k: string) {
    exists p :: p in ps && p.0 == k
  }

  lemma {:induction false} GetSnoc(d: Node, e: (string, string), k: string)
    requires Distinct(d + [e])
    ensures Get(d + [e], k) == if e.0 == k then Some(e.1) else Get(d, k)
  {
    if d == [] {
      assert ([] + [e])[1..] == [];
    } else {
      var all := d + [e];
      assert all[1..] == d[1..] + [e] && all[0] == d[0];
      assert all[|d|] == e && d[0].0 != e.0;
      GetSnoc(d[1..], e, k);
    }
  }

  lemma {:induction false} FilterIsDistinct(name: string, node: Node)
    ensures Distinct(Filter(name, node))
  {
    if node != [] {
      var init, last := node[..|node| - 1], node[|node| - 1];
      FilterIsDistinct(name, init);
      if name <= last.0 {
        SetKeepsDistinct(Filter(name, init), Cut(last.0, name), last.1);
      }
    }
  }

  /** Where a key of a filtered dict comes from. */
  lemma {:induction false} FilterOrigin(name: string, node: Node, q: string) returns (e: (string, string))
    requires HasKey(Filter(name, node), q)
    ensures e in node && name <= e.0 && Cut(e.0, name) == q
  {
    var init, last := node[..|node| - 1], node[|node| - 1];
    e := last;
    if !(name <= last.0 && Cut(last.0, name) == q) {
      if name <= last.0 {
        GetAfterSet(Filter(name, init), Cut(last.0, name), last.1, q);
      }
      e := FilterOrigin(name, init, q);
    }
  }

  /** A key that only one entry is cut to keeps that entry's value. */
  lemma {:induction false} GetFilter(name: string, node: Node, q: string)
    requires Distinct(node)
    requires forall e | e in node && name <= e.0 && Cut(e.0, name) == q :: e.0 == name + "." + q
    ensures Get(Filter(name, node), q) == Get(node, name + "." + q)
  {
    if node != [] {
      var init, last := node[..|node| - 1], node[|node| - 1];
      assert init + [last] == node;
      GetFilter(name, init, q);
      GetSnoc(init, last, name + "." + q);
      if name <= last.0 {
        GetAfterSet(Filter(name, init), Cut(last.0, name), last.1, q);
      }
      assert last.0 == name + "." + q ==> name <= last.0 && Cut(last.0, name) == q;
    }
  }

  // ---------------------------------------------------------------- stray keys

  /** What a dict may hold besides the parameters of a value. */
  datatype Strays = NoStrays | AnyStrays | Numbered

  /** Keys that never look like a member name. */
  predicate Junk(k: string) {
    k == "" || IsDigit(k[0]) || k[0] == '.'
  }

  /** Digits, a dot and a digit: what is left of a longer index before another index. */
  ghost predicate NumberedJunk(k: string) {
    exists n: nat :: DigitsAndDot(k, n) && n + 1 < |k| && IsDigit(k[n + 1])
  }

  predicate DigitsAndDot(k: string, n: nat) {
    n < |k| && k[n] == '.' && forall i | 0 <= i < n :: IsDigit(k[i])
  }

  ghost predicate IsStray(strays: Strays, k: string) {
    match strays
    case NoStrays => false
    case AnyStrays => Junk(k)
    case Numbered => NumberedJunk(k)
  }

  lemma StraysAreJunk(strays: Strays, k: string)
    requires IsStray(strays, k)
    ensures Junk(k)
  {
    if strays == Numbered {
      var n: nat :| DigitsAndDot(k, n) && n + 1 < |k| && IsDigit(k[n + 1]);
      assert n > 0 ==> IsDigit(k[0]);
    }
  }

  /** A key that is caught under a name but cut to a stray one, e.g. `10.Key` for `1`. */
  ghost predicate Stray(strays: Strays, name: string, k: string) {
    name <= k && |k| > |name| && IsStray(strays, Cut(k, name))
  }

  /** The shape is read correctly beside such keys. */
  predicate Bears(model: Model, ref: Ref, strays: Strays) {
    match strays
    case NoStrays => true
    case AnyStrays => !Flattened(ShapeOf(model, ref))
    case Numbered => Tolerates(model, ref)
  }

  /** The node holds these parameters, and apart from them at most strays. */
  ghost predicate Carries(node: Node, ps: ParamList, strays: Strays) {
    && (forall p | p in ps :: Get(node, p.0) == Some(p.1))
    && (forall e | e in node :: Key(ps, e.0) || IsStray(strays, e.0))
  }

  /** Looking under `name` the node holds the parameters of this value, and apart from them at
      most keys of longer indices. */
  ghost predicate Isolated(model: Model, name: string, ref: Ref, v: Val, node: Node, strays: Strays) {
    var ps := ParamsAt(model, name, ref, v);
    && (forall p | p in ps :: Get(node, p.0) == Some(p.1))
    && (forall e | e in node && Touches(model, name, ref, e.0) :: Key(ps, e.0) || Stray(strays, name, e.0))
  }

  /** Keys of a structure, or of a collection that is not flattened, start like names. */
  lemma KeysStartPlain(model: Model, ref: Ref, v: Val, k: string)
    requires Good(model) && Key(Params(model, ref, v), k) && !Flattened(ShapeOf(model, ref))
    ensures Plain(k)
  {
    match (ShapeOf(model, ref), v)
    case (Structure(members), Struct(fields)) =>
      assert GoodShape(model, model[ref.id]);
      var m := WhichMember(model, members, fields, k);
    case (ListOf(item, flattened), List(items)) =>
      assert GoodShape(model, model[ref.id]);
      var j := WhichItem(model, item, ListPrefix(item, flattened), 1, items, k);
      KeyUnderName(model, ListPrefix(item, flattened) + Dec(j), item, items[j - 1], k);
      assert k[0] == ListPrefix(item, flattened)[0];
    case (MapOf(key, value, flattened), Map(entries)) =>
      var j := WhichEntry(model, key, value, MapPrefix(flattened), 1, entries, k);
      assert k[0] == MapPrefix(flattened)[0] == 'e';
    case _ =>
  }

  lemma KeyUnderName(model: Model, name: string, ref: Ref, v: Val, k: string)
    requires Key(ParamsAt(model, name, ref, v), k)
    ensures name <= k && (k == name || k[|name|] == '.') && Touches(model, name, ref, k)
    ensures !ShapeOf(model, ref).Scalar? ==>
      |k| > |name| && k[|name|] == '.' && Key(Params(model, ref, v), k[|name| + 1..])
  {
  }

  lemma {:induction false} WhichMember(
    model: Model, members: seq<Member>, fields: seq<(string, Val)>, k: string) returns (m: Member)
    requires Key(ParamsOfFields(model, members, fields), k)
    ensures m in members && Touches(model, MemberKey(model, m), m.ref, k)
    decreases |members|
  {
    m := members[0];
    if fields != [] && fields[0].0 == m.name {
      if Key(ParamsOfField(model, m, fields[0]), k) {
        KeyUnderName(model, MemberKey(model, m), m.ref, fields[0].1, k);
      } else {
        m := WhichMember(model, members[1..], fields[1..], k);
      }
    } else {
      m := WhichMember(model, members[1..], fields, k);
    }
  }

  lemma {:induction false} WhichItem(
    model: Model, item: Ref, prefix: string, i: nat, items: seq<Val>, k: string) returns (j: nat)
    requires Key(ParamsOfItems(model, item, prefix, i, items), k)
    ensures i <= j < i + |items| && Key(ParamsAt(model, prefix + Dec(j), item, items[j - i]), k)
    decreases items
  {
    j := i;
    if !Key(ParamsAt(model, prefix + Dec(i), item, items[0]), k) {
      j := WhichItem(model, item, prefix, i + 1, items[1..], k);
    }
  }

  lemma {:induction false} WhichEntry(
    model: Model, key: Ref, value: Ref, prefix: string, i: nat, entries: seq<(Val, Val)>, k: string) returns (j: nat)
    requires Key(ParamsOfEntries(model, key, value, prefix, i, entries), k)
    ensures i <= j < i + |entries| && Key(ParamsOfEntry(model, key, value, prefix, j, entries[j - i]), k)
    ensures prefix + Dec(j) + "." <= k
    decreases entries
  {
    j := i;
    var e := entries[0];
    if Key(ParamsOfEntry(model, key, value, prefix, i, e), k) {
      if Key(ParamsAt(model, KeyName(prefix, i, key), key, e.0), k) {
        KeyUnderName(model, KeyName(prefix, i, key), key, e.0, k);
      } else {
        KeyUnderName(model, ValueName(prefix, i, value), value, e.1, k);
      }
    } else {
      j := WhichEntry(model, key, value, prefix, i + 1, entries[1..], k);
    }
  }

  /** A numeral followed by a dot or by nothing, read against another one. */
  lemma NumeralsApart(prefix: string, i: nat, j: nat, k: string)
    requires prefix + Dec(i) <= k
    requires prefix + Dec(j) <= k && (k == prefix + Dec(j) || k[|prefix + Dec(j)|] == '.')
    ensures i <= j
    ensures i != j ==> |Dec(i)| < |Dec(j)| && Stray(AnyStrays, prefix + Dec(i), k)
  {
    var rest := k[|prefix|..];
    assert Dec(i) <= rest && Dec(j) <= rest;
    forall x | 0 <= x < |Dec(i)| ensures IsDigit(rest[x]) { AllDigits(i, x); }
    assert |Dec(i)| <= |Dec(j)|;
    assert Dec(i) <= Dec(j);
    PrefixOfNumeral(i, j);
    if i != j {
      var n := |prefix + Dec(i)|;
      assert k[n] == Dec(j)[|Dec(i)|] && k[n] in Dec(j);
      if n + 1 < |prefix + Dec(j)| {
        assert k[n + 1] == Dec(j)[|Dec(i)| + 1] && k[n + 1] in Dec(j);
      }
    }
  }

  /** In front of another index, a longer index leaves digits and a dot. */
  lemma LongerIndex(prefix: string, i: nat, j: nat, k: string)
    requires prefix + Dec(i) <= k && i != j
    requires var n := |prefix + Dec(j)|; prefix + Dec(j) <= k && n + 1 < |k| && k[n] == '.' && IsDigit(k[n + 1])
    ensures Stray(Numbered, prefix + Dec(i), k)
  {
    NumeralsApart(prefix, i, j, k);
    Behind(prefix, Dec(i), k);
    Behind(prefix, Dec(j), k);
    DigitsBehind(j, |Dec(i)| + 1, k[|prefix|..]);
  }

  lemma Behind(prefix: string, numeral: string, k: string)
    requires prefix + numeral <= k && |k| > |prefix + numeral|
    ensures var rest, n := k[|prefix|..], |prefix + numeral|;
      && numeral <= rest && Cut(k, prefix + numeral) == rest[|numeral| + 1..]
      && rest[|numeral|] == k[n] && (n + 1 < |k| ==> rest[|numeral| + 1] == k[n + 1])
  {
  }

  lemma DigitsBehind(j: nat, at: nat, k: string)
    requires Dec(j) + "." <= k && at <= |Dec(j)| && |k| > |Dec(j)| + 1 && IsDigit(k[|Dec(j)| + 1])
    ensures NumberedJunk(k[at..])
  {
    var n, cut := |Dec(j)| - at, k[at..];
    forall x | 0 <= x < n ensures IsDigit(cut[x]) {
      AllDigits(j, at + x);
      assert cut[x] == k[at + x] == Dec(j)[at + x];
    }
    assert cut[n] == k[|Dec(j)|] == '.' && cut[n + 1] == k[|Dec(j)| + 1];
    assert DigitsAndDot(cut, n);
  }

  /** The first dot of a key decides what is behind its index. */
  lemma AfterIndex(j: nat, k: string)
    requires Dec(j) + "." <= k && NumberedJunk(k)
    ensures |k| > |Dec(j)| + 1 && IsDigit(k[|Dec(j)| + 1])
  {
    var n: nat :| DigitsAndDot(k, n) && n + 1 < |k| && IsDigit(k[n + 1]);
    assert k[|Dec(j)|] == '.';
    forall x | 0 <= x < |Dec(j)| ensures IsDigit(k[x]) { AllDigits(j, x); }
  }

  /** Keys of a flattened collection start with an index. */
  lemma KeysStartWithDigit(model: Model, ref: Ref, v: Val, k: string)
    requires Key(Params(model, ref, v), k) && Flattened(ShapeOf(model, ref))
    ensures k != "" && IsDigit(k[0])
  {
    match (ShapeOf(model, ref), v)
    case (ListOf(item, _), List(items)) =>
      var j := WhichItem(model, item, "", 1, items, k);
      KeyUnderName(model, "" + Dec(j), item, items[j - 1], k);
      AllDigits(j, 0);
    case (MapOf(key, value, _), Map(entries)) =>
      var j := WhichEntry(model, key, value, "", 1, entries, k);
      AllDigits(j, 0);
  }

  /** Behind its index, a key of a tolerant flattened collection does not go on with another
      one. */
  lemma NotNumbered(model: Model, ref: Ref, v: Val, k: string)
    requires Good(model) && Tolerates(model, ref) && Flattened(ShapeOf(model, ref))
    requires Key(Params(model, ref, v), k)
    ensures !NumberedJunk(k)
  {
    match (ShapeOf(model, ref), v)
    case (ListOf(item, _), List(items)) =>
      var j := WhichItem(model, item, "", 1, items, k);
      ItemNotNumbered(model, item, j, items[j - 1], k);
    case (MapOf(key, value, _), Map(entries)) =>
      var j := WhichEntry(model, key, value, "", 1, entries, k);
      EntryNotNumbered(model, key, value, j, entries[j - 1], k);
  }

  lemma ItemNotNumbered(model: Model, item: Ref, j: nat, x: Val, k: string)
    requires Good(model) && Quiet(model, item) && Key(ParamsAt(model, "" + Dec(j), item, x), k)
    ensures !NumberedJunk(k)
  {
    KeyUnderName(model, "" + Dec(j), item, x, k);
    if NumberedJunk(k) {
      if k == Dec(j) {
        var n: nat :| DigitsAndDot(k, n);
        AllDigits(j, n);
      } else {
        AfterIndex(j, k);
        KeysStartPlain(model, item, x, k[|Dec(j)| + 1..]);
      }
    }
  }

  lemma EntryNotNumbered(model: Model, key: Ref, value: Ref, j: nat, e: (Val, Val), k: string)
    requires Plain(Wire(key, "key")) && Plain(Wire(value, "value"))
    requires Key(ParamsOfEntry(model, key, value, "", j, e), k)
    ensures !NumberedJunk(k)
  {
    if Key(ParamsAt(model, KeyName("", j, key), key, e.0), k) {
      KeyUnderName(model, KeyName("", j, key), key, e.0, k);
      NotBehindIndex(j, Wire(key, "key"), k);
    } else {
      KeyUnderName(model, ValueName("", j, value), value, e.1, k);
      NotBehindIndex(j, Wire(value, "value"), k);
    }
  }

  lemma NotBehindIndex(j: nat, name: string, k: string)
    requires Plain(name) && "" + Dec(j) + "." + name <= k
    ensures !NumberedJunk(k)
  {
    if NumberedJunk(k) {
      assert Dec(j) + "." <= k && k[|Dec(j)| + 1] == name[0];
      AfterIndex(j, k);
    }
  }

  // ---------------------------------------------------------------- one level down

  /** Only the parameter itself is cut to its key: strays are cut to stray keys. */
  lemma OneSource(model: Model, name: string, ref: Ref, v: Val, node: Node, strays: Strays, q: string, e: (string, string))
    requires Good(model) && !ShapeOf(model, ref).Scalar?
    requires Isolated(model, name, ref, v, node, strays)
    requires Bears(model, ref, strays)
    requires Key(Params(model, ref, v), q) && e in node && name <= e.0 && Cut(e.0, name) == q
    ensures e.0 == name + "." + q
  {
    if Key(ParamsAt(model, name, ref, v), e.0) {
      KeyUnderName(model, name, ref, v, e.0);
    } else if Flattened(ShapeOf(model, ref)) {
      NotNumbered(model, ref, v, q);
    } else {
      StraysAreJunk(strays, q);
      KeysStartPlain(model, ref, v, q);
    }
  }

  lemma FilterIsolates(model: Model, name: string, ref: Ref, v: Val, node: Node, strays: Strays)
    requires Good(model) && Distinct(node) && !ShapeOf(model, ref).Scalar?
    requires Isolated(model, name, ref, v, node, strays)
    requires Bears(model, ref, strays)
    ensures Carries(Filter(name, node), Params(model, ref, v), strays)
  {
    var ps, sub := Params(model, ref, v), Filter(name, node);
    forall p | p in ps ensures Get(sub, p.0) == Some(p.1) {
      var i :| 0 <= i < |ps| && ps[i] == p;
      assert Under(name, ps)[i] in ParamsAt(model, name, ref, v);
      forall e | e in node && name <= e.0 && Cut(e.0, name) == p.0 ensures e.0 == name + "." + p.0 {
        OneSource(model, name, ref, v, node, strays, p.0, e);
      }
      GetFilter(name, node, p.0);
    }
    forall e | e in sub ensures Key(ps, e.0) || IsStray(strays, e.0) {
      assert HasKey(sub, e.0);
      var o := FilterOrigin(name, node, e.0);
      if Key(ParamsAt(model, name, ref, v), o.0) {
        KeyUnderName(model, name, ref, v, o.0);
      }
    }
  }

  lemma {:induction false} CanonicalIsNotEmpty(model: Model, ref: Ref, v: Val)
    requires Canonical(model, ref, v) && !ShapeOf(model, ref).Scalar?
    ensures Params(model, ref, v) != []
    decreases v, 2
  {
    match (ShapeOf(model, ref), v)
    case (Structure(members), Struct(fields)) => FieldsNotEmpty(model, members, fields);
    case (ListOf(item, flattened), List(items)) =>
      assert items[0] in items;
      if !ShapeOf(model, item).Scalar? { CanonicalIsNotEmpty(model, item, items[0]); }
      assert ParamsAt(model, ListPrefix(item, flattened) + Dec(1), item, items[0]) != [];
    case (MapOf(key, value, flattened), Map(entries)) => EntryNotEmpty(model, key, value, entries[0]);
      assert ParamsOfEntry(model, key, value, MapPrefix(flattened), 1, entries[0]) != [];
  }

  lemma EntryNotEmpty(model: Model, key: Ref, value: Ref, e: (Val, Val))
    requires CanonicalEntry(model, key, value, e)
    ensures forall name :: ParamsAt(model, name, key, e.0) != []
    decreases e, 0
  {
    if !ShapeOf(model, key).Scalar? { CanonicalIsNotEmpty(model, key, e.0); }
  }

  lemma FieldNotEmpty(model: Model, m: Member, f: (string, Val))
    requires CanonicalField(model, m, f) && f.1 != Null
    ensures ParamsOfField(model, m, f) != []
    decreases f, 0
  {
    if !ShapeOf(model, m.ref).Scalar? { CanonicalIsNotEmpty(model, m.ref, f.1); }
  }

  lemma {:induction false} FieldsNotEmpty(model: Model, members: seq<Member>, fields: seq<(string, Val)>)
    requires CanonicalFields(model, members, fields) && exists f | f in fields :: f.1 != Null
    ensures ParamsOfFields(model, members, fields) != []
    decreases fields, 0, |members|
  {
    if fields[0].0 == members[0].name {
      if fields[0].1 != Null {
        FieldNotEmpty(model, members[0], fields[0]);
      } else {
        FieldsNotEmpty(model, members[1..], fields[1..]);
      }
    } else {
      FieldsNotEmpty(model, members[1..], fields);
    }
  }

  /** A name under which there is nothing to look at is absent. */
  lemma AbsentBack(model: Model, name: string, ref: Ref, node: Node)
    requires Named(model) && name != ""
    requires forall e | e in node :: !Touches(model, name, ref, e.0)
    ensures ProcessMember(model, name, ref, node) == Ok(Null)
  {
    FilterMentions(name, node);
    forall i | 0 <= i < |node| ensures !Touches(model, name, ref, node[i].0) {
      assert node[i] in node;
    }
  }

  /** A value that is isolated below its name is read back. */
  lemma {:induction false} MemberBack(model: Model, name: string, ref: Ref, v: Val, node: Node, strays: Strays)
    requires Good(model) && Named(model) && Distinct(node) && name != ""
    requires Canonical(model, ref, v) && Isolated(model, name, ref, v, node, strays)
    requires Bears(model, ref, strays)
    ensures ProcessMember(model, name, ref, node) == Ok(v)
    decreases v, 3
  {
    if ShapeOf(model, ref).Scalar? {
      var kind := ShapeOf(model, ref).kind;
      assert (name, Printed(kind, v)) in ParamsAt(model, name, ref, v);
      ReadPrinted(kind, v);
    } else {
      FilterIsolates(model, name, ref, v, node, strays);
      FilterIsDistinct(name, node);
      CanonicalIsNotEmpty(model, ref, v);
      assert Params(model, ref, v)[0] in Params(model, ref, v);
      RoundTrip(model, ref, v, Filter(name, node), strays);
    }
  }

  // ---------------------------------------------------------------- round trip

  /** For any dict that carries the parameters of a value, in whatever order. */
  lemma {:induction false} RoundTrip(model: Model, ref: Ref, v: Val, node: Node, strays: Strays)
    requires Good(model) && Named(model) && Canonical(model, ref, v) && !ShapeOf(model, ref).Scalar?
    requires Distinct(node) && Carries(node, Params(model, ref, v), strays)
    requires Bears(model, ref, strays)
    ensures Parse(model, ref, node) == Ok(v)
    decreases v, 2
  {
    assert GoodShape(model, model[ref.id]);
    match (ShapeOf(model, ref), v)
    case (Structure(members), Struct(fields)) =>
      forall e | e in node && IsStray(strays, e.0) ensures NoMemberKey(model, members, e.0) {
        StraysAreJunk(strays, e.0);
      }
      FieldsBack(model, members, fields, node);
    case (ListOf(item, flattened), List(items)) =>
      ItemsBack(model, item, ListPrefix(item, flattened), 1, items, node, strays);
    case (MapOf(key, value, flattened), Map(entries)) =>
      EntriesBack(model, key, value, MapPrefix(flattened), 1, entries, node, strays);
  }

  /** The structure level: keys that no member looks at do not matter. */
  ghost predicate FieldsContext(model: Model, members: seq<Member>, fields: seq<(string, Val)>, node: Node) {
    var ps := ParamsOfFields(model, members, fields);
    && (forall p | p in ps :: Get(node, p.0) == Some(p.1))
    && (forall e | e in node :: Key(ps, e.0) || NoMemberKey(model, members, e.0))
  }

  ghost predicate NoMemberKey(model: Model, members: seq<Member>, k: string) {
    forall m | m in members :: !Touches(model, MemberKey(model, m), m.ref, k)
  }

  ghost predicate FieldsReady(model: Model, members: seq<Member>, fields: seq<(string, Val)>, node: Node) {
    && Good(model) && Named(model) && GoodMembers(model, members) && NamedMembers(model, members)
    && CanonicalFields(model, members, fields) && Distinct(node)
    && FieldsContext(model, members, fields, node)
  }

  /** What the member loop makes of its first member. */
  lemma OneMoreMember(model: Model, members: seq<Member>, node: Node, v: Val)
    requires Named(model) && NamedMembers(model, members) && members != []
    requires ProcessMember(model, MemberKey(model, members[0]), members[0].ref, node) == Ok(v)
    ensures ParseMembers(model, members, node)
         == Then(if v != Null || members[0].required then [(members[0].name, v)] else [],
                 ParseMembers(model, members[1..], node))
  {
  }

  lemma NoMembers(model: Model, fields: seq<(string, Val)>, node: Node)
    requires FieldsReady(model, [], fields, node)
    ensures fields == [] && ParseMembers(model, [], node) == Ok(fields)
  {
  }

  lemma FirstAndRest(fields: seq<(string, Val)>)
    requires fields != []
    ensures Then([fields[0]], Ok(fields[1..])) == Ok(fields)
  {
    assert [fields[0]] + fields[1..] == fields;
  }

  lemma {:induction false} FieldsBack(model: Model, members: seq<Member>, fields: seq<(string, Val)>, node: Node)
    requires FieldsReady(model, members, fields, node)
    ensures ParseMembers(model, members, node) == Ok(fields)
    decreases fields, 0, |members|
  {
    if members == [] {
      NoMembers(model, fields, node);
    } else if fields != [] && fields[0].0 == members[0].name {
      PresentBack(model, members, fields, node);
      FieldsBack(model, members[1..], fields[1..], node);
      FirstAndRest(fields);
    } else {
      AbsentField(model, members, fields, node);
      FieldsBack(model, members[1..], fields, node);
    }
  }

  lemma PresentBack(model: Model, members: seq<Member>, fields: seq<(string, Val)>, node: Node)
    requires members != [] && fields != [] && fields[0].0 == members[0].name
    requires FieldsReady(model, members, fields, node)
    ensures FieldsReady(model, members[1..], fields[1..], node)
    ensures ParseMembers(model, members, node) == Then([fields[0]], ParseMembers(model, members[1..], node))
    decreases fields, 0, 0
  {
    SplitContext(model, members, fields[0], fields[1..], fields, node);
    FieldBack(model, members[0], fields[0], node);
    OneMoreMember(model, members, node, fields[0].1);
  }

  lemma AbsentField(model: Model, members: seq<Member>, fields: seq<(string, Val)>, node: Node)
    requires members != [] && !(fields != [] && fields[0].0 == members[0].name)
    requires FieldsReady(model, members, fields, node)
    ensures FieldsReady(model, members[1..], fields, node)
    ensures ParseMembers(model, members, node) == ParseMembers(model, members[1..], node)
  {
    var m := members[0];
    assert ParamsOfField(model, m, (m.name, Null)) == [];
    SplitContext(model, members, (m.name, Null), fields, fields, node);
    AbsentBack(model, MemberKey(model, m), m.ref, node);
    OneMoreMember(model, members, node, Null);
  }

  lemma SplitContext(model: Model, members: seq<Member>, f: (string, Val), rest: seq<(string, Val)>,
                     fields: seq<(string, Val)>, node: Node)
    requires members != [] && GoodMembers(model, members) && FieldsContext(model, members, fields, node)
    requires ParamsOfFields(model, members, fields)
          == ParamsOfField(model, members[0], f) + ParamsOfFields(model, members[1..], rest)
    ensures forall p | p in ParamsOfField(model, members[0], f) :: Get(node, p.0) == Some(p.1)
    ensures forall e | e in node && Touches(model, MemberKey(model, members[0]), members[0].ref, e.0) ::
      Key(ParamsOfField(model, members[0], f), e.0)
    ensures FieldsContext(model, members[1..], rest, node)
  {
    var m := members[0];
    assert m in members;
    var first, others := ParamsOfField(model, m, f), ParamsOfFields(model, members[1..], rest);
    forall e | e in node && Touches(model, MemberKey(model, m), m.ref, e.0) ensures Key(first, e.0) {
      if Key(others, e.0) {
        var o := WhichMember(model, members[1..], rest, e.0);
        SiblingsApart(model, members, o, e.0);
      }
    }
    forall e | e in node ensures Key(others, e.0) || NoMemberKey(model, members[1..], e.0) {
      if Key(first, e.0) {
        KeyUnderName(model, MemberKey(model, m), m.ref, f.1, e.0);
        forall o | o in members[1..] ensures !Touches(model, MemberKey(model, o), o.ref, e.0) {
          SiblingsApart(model, members, o, e.0);
        }
      }
    }
  }

  lemma SiblingsApart(model: Model, members: seq<Member>, o: Member, k: string)
    requires members != [] && GoodMembers(model, members) && o in members[1..]
    ensures !(Touches(model, MemberKey(model, o), o.ref, k)
              && Touches(model, MemberKey(model, members[0]), members[0].ref, k))
  {
  }

  lemma FieldBack(model: Model, m: Member, f: (string, Val), node: Node)
    requires Good(model) && Named(model) && Distinct(node) && MemberKey(model, m) != ""
    requires CanonicalField(model, m, f)
    requires forall p | p in ParamsOfField(model, m, f) :: Get(node, p.0) == Some(p.1)
    requires forall e | e in node && Touches(model, MemberKey(model, m), m.ref, e.0) ::
      Key(ParamsOfField(model, m, f), e.0)
    ensures ProcessMember(model, MemberKey(model, m), m.ref, node) == Ok(f.1)
    decreases f, 0
  {
    if f.1 == Null {
      assert ParamsOfField(model, m, f) == [];
      AbsentBack(model, MemberKey(model, m), m.ref, node);
    } else {
      MemberBack(model, MemberKey(model, m), m.ref, f.1, node, NoStrays);
    }
  }

  lemma {:induction false} ItemParams(model: Model, item: Ref, prefix: string, i: nat, items: seq<Val>, j: nat, p: (string, string))
    requires i <= j < i + |items| && p in ParamsAt(model, prefix + Dec(j), item, items[j - i])
    ensures p in ParamsOfItems(model, item, prefix, i, items)
    decreases items
  {
    if i < j {
      ItemParams(model, item, prefix, i + 1, items[1..], j, p);
    }
  }

  /** What indices with more digits leave to an item. */
  function StraysOf(model: Model, item: Ref): Strays {
    if Flattened(ShapeOf(model, item)) then Numbered else AnyStrays
  }

  lemma ItemOfKey(model: Model, item: Ref, prefix: string, i: nat, items: seq<Val>, node: Node, strays: Strays, e: (string, string))
    requires ListContext(model, item, prefix, items, node, strays)
    requires e in node && Touches(model, prefix + Dec(i), item, e.0) && i >= 1
    ensures Stray(StraysOf(model, item), prefix + Dec(i), e.0)
      || (i <= |items| && Key(ParamsAt(model, prefix + Dec(i), item, items[i - 1]), e.0))
    ensures i > |items| ==> !Key(ParamsOfItems(model, item, prefix, 1, items), e.0)
  {
    if Key(ParamsOfItems(model, item, prefix, 1, items), e.0) {
      ItemOfParam(model, item, prefix, i, items, e.0);
    } else {
      ItemOfStray(model, item, prefix, i, strays, e.0);
    }
  }

  /** A parameter of some item belongs to index `i` or to a longer one. */
  lemma ItemOfParam(model: Model, item: Ref, prefix: string, i: nat, items: seq<Val>, k: string)
    requires Key(ParamsOfItems(model, item, prefix, 1, items), k)
    requires prefix + Dec(i) <= k && i >= 1
    ensures ItemOrStray(model, item, prefix, i, items, k)
  {
    var j := WhichItem(model, item, prefix, 1, items, k);
    ItemsApart(model, item, prefix, i, j, items[j - 1], k);
  }

  ghost predicate ItemOrStray(model: Model, item: Ref, prefix: string, i: nat, items: seq<Val>, k: string) {
    && 1 <= i <= |items|
    && (Key(ParamsAt(model, prefix + Dec(i), item, items[i - 1]), k) || Stray(StraysOf(model, item), prefix + Dec(i), k))
  }

  lemma ItemsApart(model: Model, item: Ref, prefix: string, i: nat, j: nat, x: Val, k: string)
    requires prefix + Dec(i) <= k && Key(ParamsAt(model, prefix + Dec(j), item, x), k)
    ensures i <= j && (i != j ==> Stray(StraysOf(model, item), prefix + Dec(i), k))
  {
    KeyUnderName(model, prefix + Dec(j), item, x, k);
    NumeralsApart(prefix, i, j, k);
    if i != j && Flattened(ShapeOf(model, item)) {
      var n := |prefix + Dec(j)|;
      KeysStartWithDigit(model, item, x, k[n + 1..]);
      assert k[n + 1] == k[n + 1..][0];
      LongerIndex(prefix, i, j, k);
    }
  }

  /** A key that is stray in the list itself is stray for its items. */
  lemma ItemOfStray(model: Model, item: Ref, prefix: string, i: nat, strays: Strays, k: string)
    requires IsStray(strays, k) && Touches(model, prefix + Dec(i), item, k)
    requires prefix == "" || Plain(prefix)
    requires prefix == "" ==> strays != AnyStrays && (strays == Numbered ==> Quiet(model, item))
    ensures Stray(AnyStrays, prefix + Dec(i), k) && !Flattened(ShapeOf(model, item))
  {
    if prefix != "" { assert false; }
    StraysAreJunk(strays, k);
    var n: nat :| DigitsAndDot(k, n) && n + 1 < |k| && IsDigit(k[n + 1]);
    assert Dec(i) <= k;
    forall x | 0 <= x < |Dec(i)| ensures IsDigit(k[x]) { AllDigits(i, x); }
    assert |k| > |Dec(i)|;
    var cut := k[|Dec(i)| + 1..];
    if n > |Dec(i)| + 1 {
      assert cut[0] == k[|Dec(i)| + 1];
    } else if n == |Dec(i)| + 1 {
      assert cut[0] == k[n];
    } else {
      assert cut[0] == k[n + 1];
    }
  }

  lemma NotNull(model: Model, ref: Ref, v: Val)
    requires Canonical(model, ref, v)
    ensures v != Null
  {
  }

  /** The list level. */
  ghost predicate ListContext(model: Model, item: Ref, prefix: string, items: seq<Val>, node: Node, strays: Strays) {
    && Good(model) && Named(model) && Distinct(node)
    && (prefix == "" || Plain(prefix))
    && (prefix == "" ==> strays != AnyStrays && (strays == Numbered ==> Quiet(model, item)))
    && Tolerates(model, item) && (forall x | x in items :: Canonical(model, item, x))
    && Carries(node, ParamsOfItems(model, item, prefix, 1, items), strays)
  }

  /** Index `i` sees its own item and strays. */
  lemma ItemIsolated(
    model: Model, item: Ref, prefix: string, i: nat, items: seq<Val>, node: Node, strays: Strays)
    requires ListContext(model, item, prefix, items, node, strays)
    requires 1 <= i <= |items|
    ensures Isolated(model, prefix + Dec(i), item, items[i - 1], node, StraysOf(model, item))
  {
    var name := prefix + Dec(i);
    forall e | e in node && Touches(model, name, item, e.0)
      ensures Key(ParamsAt(model, name, item, items[i - 1]), e.0) || Stray(StraysOf(model, item), name, e.0)
    {
      ItemOfKey(model, item, prefix, i, items, node, strays, e);
    }
    forall p | p in ParamsAt(model, name, item, items[i - 1]) ensures Get(node, p.0) == Some(p.1) {
      ItemParams(model, item, prefix, 1, items, i, p);
    }
  }

  lemma ItemAt(
    model: Model, item: Ref, prefix: string, i: nat, items: seq<Val>, node: Node, strays: Strays)
    requires ListContext(model, item, prefix, items, node, strays)
    requires 1 <= i <= |items|
    ensures ProcessMember(model, prefix + Dec(i), item, node) == Ok(items[i - 1]) && items[i - 1] != Null
    decreases items, 0, 0
  {
    assert items[i - 1] in items;
    NotNull(model, item, items[i - 1]);
    ItemIsolated(model, item, prefix, i, items, node, strays);
    MemberBack(model, prefix + Dec(i), item, items[i - 1], node, StraysOf(model, item));
  }

  /** The index after the last one sees nothing, or strays that are read as nothing. */
  lemma NoItem(model: Model, item: Ref, prefix: string, items: seq<Val>, node: Node, strays: Strays)
    requires ListContext(model, item, prefix, items, node, strays)
    ensures ProcessMember(model, prefix + Dec(|items| + 1), item, node) == Ok(Null)
  {
    var name := prefix + Dec(|items| + 1);
    forall e | e in node && Touches(model, name, item, e.0) ensures StrayItem(model, item, prefix, strays, name, e.0) {
      BehindLastItem(model, item, prefix, items, node, strays, e);
    }
    if Quiet(model, item) && !ShapeOf(model, item).Scalar? {
      JunkBelow(model, name, item, node);
    } else {
      AbsentBack(model, name, item, node);
    }
  }

  ghost predicate StrayItem(model: Model, item: Ref, prefix: string, strays: Strays, name: string, k: string) {
    prefix == "" && strays == Numbered && !ShapeOf(model, item).Scalar? && Quiet(model, item) && Stray(AnyStrays, name, k)
  }

  lemma BehindLastItem(model: Model, item: Ref, prefix: string, items: seq<Val>, node: Node, strays: Strays, e: (string, string))
    requires ListContext(model, item, prefix, items, node, strays)
    requires e in node && Touches(model, prefix + Dec(|items| + 1), item, e.0)
    ensures StrayItem(model, item, prefix, strays, prefix + Dec(|items| + 1), e.0)
  {
    var i := |items| + 1;
    if prefix != "" { assert e.0[0] == (prefix + Dec(i))[0] == prefix[0]; }
    ItemOfKey(model, item, prefix, i, items, node, strays, e);
    ItemOfStray(model, item, prefix, i, strays, e.0);
    StraysAreJunk(strays, e.0);
  }

  /** A quiet shape under whose name there are only strays. */
  lemma JunkBelow(model: Model, name: string, ref: Ref, node: Node)
    requires Good(model) && Named(model) && name != "" && Quiet(model, ref) && !ShapeOf(model, ref).Scalar?
    requires forall e | e in node && name <= e.0 :: Stray(AnyStrays, name, e.0)
    ensures ProcessMember(model, name, ref, node) == Ok(Null)
  {
    var sub := Filter(name, node);
    forall e | e in sub ensures Junk(e.0) {
      assert HasKey(sub, e.0);
      var o := FilterOrigin(name, node, e.0);
    }
    JunkIsNothing(model, ref, sub);
  }

  lemma JunkIsNothing(model: Model, ref: Ref, node: Node)
    requires Good(model) && Named(model) && Quiet(model, ref) && !ShapeOf(model, ref).Scalar?
    requires forall e | e in node :: Junk(e.0)
    ensures Parse(model, ref, node) == Ok(Null)
  {
    assert GoodShape(model, model[ref.id]);
    match ShapeOf(model, ref)
    case Structure(members) => NoFields(model, members, node);
    case ListOf(item, flattened) =>
      var prefix := ListPrefix(item, flattened);
      forall e | e in node ensures !Touches(model, prefix + Dec(1), item, e.0) {
        assert (prefix + Dec(1))[0] == prefix[0];
      }
      AbsentBack(model, prefix + Dec(1), item, node);
      ItemTurn(model, item, prefix, 1, node, Null);
    case MapOf(key, value, flattened) =>
      var kn, vn := KeyName(MapPrefix(flattened), 1, key), ValueName(MapPrefix(flattened), 1, value);
      assert kn[0] == vn[0] == 'e';
      AbsentBack(model, kn, key, node);
      AbsentBack(model, vn, value, node);
      EntryTurn(model, key, value, MapPrefix(flattened), 1, node, [], Null, Null);
  }

  lemma {:induction false} NoFields(model: Model, members: seq<Member>, node: Node)
    requires Named(model) && NamedMembers(model, members)
    requires forall m | m in members :: Plain(MemberKey(model, m)) && !m.required
    requires forall e | e in node :: Junk(e.0)
    ensures ParseMembers(model, members, node) == Ok([])
    decreases |members|
  {
    if members != [] {
      assert members[0] in members;
      AbsentBack(model, MemberKey(model, members[0]), members[0].ref, node);
      OneMoreMember(model, members, node, Null);
      NoFields(model, members[1..], node);
    }
  }

  lemma Shift(items: seq<Val>, i: nat)
    requires 1 <= i <= |items|
    ensures [items[i - 1]] + items[i..] == items[i - 1..]
  {
  }

  lemma {:induction false} ItemsBack(
    model: Model, item: Ref, prefix: string, i: nat, items: seq<Val>, node: Node, strays: Strays)
    requires ListContext(model, item, prefix, items, node, strays)
    requires 1 <= i <= |items| + 1
    ensures ParseItems(model, item, prefix, i, node) == Ok(items[i - 1..])
    decreases items, 0, |items| + 1 - i
  {
    assert |prefix + Dec(i)| > 0;
    if i == |items| + 1 {
      NoItem(model, item, prefix, items, node, strays);
      ItemTurn(model, item, prefix, i, node, Null);
    } else {
      ItemAt(model, item, prefix, i, items, node, strays);
      ItemTurn(model, item, prefix, i, node, items[i - 1]);
      ItemsBack(model, item, prefix, i + 1, items, node, strays);
      Shift(items, i);
    }
  }

  lemma {:induction false} EntryParams(
    model: Model, key: Ref, value: Ref, prefix: string, i: nat, entries: seq<(Val, Val)>, j: nat, p: (string, string))
    requires i <= j < i + |entries| && p in ParamsOfEntry(model, key, value, prefix, j, entries[j - i])
    ensures p in ParamsOfEntries(model, key, value, prefix, i, entries)
    decreases entries
  {
    if i < j {
      EntryParams(model, key, value, prefix, i + 1, entries[1..], j, p);
    }
  }

  lemma SameIndex(prefix: string, i: nat, j: nat, k: string)
    requires prefix + Dec(i) + "." <= k && prefix + Dec(j) + "." <= k
    ensures i == j
  {
    assert prefix + Dec(i) <= k && prefix + Dec(j) <= k;
    assert k[|prefix + Dec(i)|] == '.' && k[|prefix + Dec(j)|] == '.';
    NumeralsApart(prefix, i, j, k);
    NumeralsApart(prefix, j, i, k);
  }

  /** The map level. */
  ghost predicate MapContext(
    model: Model, key: Ref, value: Ref, prefix: string, entries: seq<(Val, Val)>, node: Node, strays: Strays) {
    && Good(model) && Named(model) && Distinct(node)
    && (prefix == "" || Plain(prefix))
    && (prefix == "" && strays != NoStrays ==>
          strays == Numbered && Plain(Wire(key, "key")) && Plain(Wire(value, "value")))
    && ShapeOf(model, key) == Scalar(Text) && !Touches(model, Wire(value, "value"), value, Wire(key, "key"))
    && (forall e | e in entries :: CanonicalEntry(model, key, value, e))
    && Distinct(entries)
    && Carries(node, ParamsOfEntries(model, key, value, prefix, 1, entries), strays)
  }

  lemma {:induction false} EntriesBack(
    model: Model, key: Ref, value: Ref, prefix: string, i: nat, entries: seq<(Val, Val)>, node: Node, strays: Strays)
    requires MapContext(model, key, value, prefix, entries, node, strays)
    requires 1 <= i <= |entries| + 1
    ensures ParseEntries(model, key, value, prefix, i, node, entries[..i - 1]) == Ok(entries)
    decreases entries, 0, |entries| + 1 - i
  {
    assert |KeyName(prefix, i, key)| > 0 && |ValueName(prefix, i, value)| > 0;
    if i == |entries| + 1 {
      assert entries[..i - 1] == entries;
      NoEntry(model, key, value, prefix, entries, node, strays);
      EntryTurn(model, key, value, prefix, i, node, entries, Null, Null);
    } else {
      var e := entries[i - 1];
      EntryAt(model, key, value, prefix, i, entries, node, strays);
      EntryTurn(model, key, value, prefix, i, node, entries[..i - 1], e.0, e.1);
      OneMoreEntry(entries, i);
      EntriesBack(model, key, value, prefix, i + 1, entries, node, strays);
    }
  }

  lemma NoEntry(
    model: Model, key: Ref, value: Ref, prefix: string, entries: seq<(Val, Val)>, node: Node, strays: Strays)
    requires MapContext(model, key, value, prefix, entries, node, strays)
    ensures ProcessMember(model, KeyName(prefix, |entries| + 1, key), key, node) == Ok(Null)
    ensures ProcessMember(model, ValueName(prefix, |entries| + 1, value), value, node) == Ok(Null)
  {
    var i := |entries| + 1;
    var kn := KeyName(prefix, i, key);
    var vn := ValueName(prefix, i, value);
    forall e | e in node ensures !Touches(model, kn, key, e.0) && !Touches(model, vn, value, e.0) {
      if Touches(model, kn, key, e.0) || Touches(model, vn, value, e.0) {
        EntryOfKey(model, key, value, prefix, i, entries, node, strays, e);
      }
    }
    AbsentBack(model, kn, key, node);
    AbsentBack(model, vn, value, node);
  }

  lemma EntryAt(
    model: Model, key: Ref, value: Ref, prefix: string, i: nat, entries: seq<(Val, Val)>, node: Node, strays: Strays)
    requires MapContext(model, key, value, prefix, entries, node, strays)
    requires 1 <= i <= |entries|
    ensures ProcessMember(model, KeyName(prefix, i, key), key, node) == Ok(entries[i - 1].0)
    ensures ProcessMember(model, ValueName(prefix, i, value), value, node) == Ok(entries[i - 1].1)
    ensures entries[i - 1].0.Str? && entries[i - 1].1 != Null
    decreases entries, 0, 0
  {
    var e := entries[i - 1];
    assert CanonicalEntry(model, key, value, e);
    NotNull(model, key, e.0);
    NotNull(model, value, e.1);
    forall n | n in node && TouchesEntry(model, key, value, prefix, i, n.0)
      ensures Key(ParamsOfEntry(model, key, value, prefix, i, e), n.0)
    {
      EntryOfKey(model, key, value, prefix, i, entries, node, strays, n);
    }
    forall p | p in ParamsOfEntry(model, key, value, prefix, i, e) ensures Get(node, p.0) == Some(p.1) {
      EntryParams(model, key, value, prefix, 1, entries, i, p);
    }
    EntryBack(model, key, value, prefix, i, e, node);
  }

  lemma OneMoreEntry(entries: seq<(Val, Val)>, i: nat)
    requires 1 <= i <= |entries| && Distinct(entries)
    ensures Set(entries[..i - 1], entries[i - 1].0, entries[i - 1].1) == entries[..i]
  {
    FreshKey(entries, i - 1);
    SetFresh(entries[..i - 1], entries[i - 1].0, entries[i - 1].1);
    assert entries[..i] == entries[..i - 1] + [entries[i - 1]];
  }

  /** Index `i` looks at the key for its key or its value. */
  predicate TouchesEntry(model: Model, key: Ref, value: Ref, prefix: string, i: nat, k: string) {
    Touches(model, KeyName(prefix, i, key), key, k) || Touches(model, ValueName(prefix, i, value), value, k)
  }

  lemma NotStray(model: Model, key: Ref, value: Ref, prefix: string, i: nat, strays: Strays, k: string)
    requires TouchesEntry(model, key, value, prefix, i, k)
    requires prefix == "" || Plain(prefix)
    requires prefix == "" && strays != NoStrays ==>
      strays == Numbered && Plain(Wire(key, "key")) && Plain(Wire(value, "value"))
    ensures !IsStray(strays, k)
  {
    if prefix != "" { assert k[0] == prefix[0]; }
    if IsStray(strays, k) {
      StraysAreJunk(strays, k);
      if prefix != "" {
        assert false;
      } else if KeyName(prefix, i, key) <= k {
        NotBehindIndex(i, Wire(key, "key"), k);
      } else {
        NotBehindIndex(i, Wire(value, "value"), k);
      }
    }
  }

  lemma EntryOfKey(model: Model, key: Ref, value: Ref, prefix: string, i: nat, entries: seq<(Val, Val)>,
                   node: Node, strays: Strays, e: (string, string))
    requires MapContext(model, key, value, prefix, entries, node, strays)
    requires e in node && TouchesEntry(model, key, value, prefix, i, e.0)
    requires 1 <= i <= |entries| + 1
    ensures i <= |entries| && Key(ParamsOfEntry(model, key, value, prefix, i, entries[i - 1]), e.0)
  {
    assert prefix + Dec(i) + "." <= e.0;
    if IsStray(strays, e.0) {
      NotStray(model, key, value, prefix, i, strays, e.0);
    }
    var j := WhichEntry(model, key, value, prefix, 1, entries, e.0);
    SameIndex(prefix, i, j, e.0);
  }

  lemma FreshKey(entries: seq<(Val, Val)>, n: nat)
    requires n < |entries| && Distinct(entries)
    ensures !HasKey(entries[..n], entries[n].0)
  {
  }

  lemma EntryBack(model: Model, key: Ref, value: Ref, prefix: string, i: nat, e: (Val, Val), node: Node)
    requires Good(model) && Named(model) && Distinct(node)
    requires ShapeOf(model, key) == Scalar(Text) && !Touches(model, Wire(value, "value"), value, Wire(key, "key"))
    requires CanonicalEntry(model, key, value, e)
    requires forall p | p in ParamsOfEntry(model, key, value, prefix, i, e) :: Get(node, p.0) == Some(p.1)
    requires forall n | n in node && TouchesEntry(model, key, value, prefix, i, n.0) ::
      Key(ParamsOfEntry(model, key, value, prefix, i, e), n.0)
    ensures ProcessMember(model, KeyName(prefix, i, key), key, node) == Ok(e.0)
    ensures ProcessMember(model, ValueName(prefix, i, value), value, node) == Ok(e.1)
    decreases e, 0
  {
    var kn, vn := KeyName(prefix, i, key), ValueName(prefix, i, value);
    assert (kn, e.0.text) in ParamsOfEntry(model, key, value, prefix, i, e);
    forall n | n in node && Touches(model, vn, value, n.0) ensures Key(ParamsAt(model, vn, value, e.1), n.0) {
      if n.0 == kn {
        Unprefix(prefix + Dec(i) + ".", Wire(value, "value"), Wire(key, "key"));
      }
    }
    MemberBack(model, vn, value, e.1, node, NoStrays);
  }

  // ---------------------------------------------------------------- whole requests

  /** A request carries the parameters of its input structure and any others, such as
      `Action` and `Version`, that no member looks at. */
  lemma RequestRoundTrip(model: Model, ref: Ref, v: Val, node: Node)
    requires Good(model) && Canonical(model, ref, v) && ShapeOf(model, ref).Structure?
    requires Distinct(node)
    requires forall p | p in Params(model, ref, v) :: p in node
    requires forall e | e in node && e !in Params(model, ref, v) ::
      NoMemberKey(model, ShapeOf(model, ref).members, e.0)
    ensures Named(model) && Parse(model, ref, node) == Ok(v)
  {
    GoodIsNamed(model);
    assert GoodShape(model, model[ref.id]);
    var ps := Params(model, ref, v);
    forall p | p in ps ensures Get(node, p.0) == Some(p.1) {
      var i :| 0 <= i < |node| && node[i] == p;
      GetAt(node, i);
    }
    FieldsBack(model, ShapeOf(model, ref).members, v.fields, node);
  }

  lemma DistinctConcat(a: ParamList, b: ParamList)
    requires Distinct(a) && Distinct(b)
    requires forall k :: !(Key(a, k) && Key(b, k))
    ensures Distinct(a + b)
  {
    forall i, j | 0 <= i < j < |a + b| ensures (a + b)[i].0 != (a + b)[j].0 {
      if i < |a| <= j {
        assert a[i] in a && b[j - |a|] in b;
        assert Key(a, a[i].0) && Key(b, b[j - |a|].0);
      }
    }
  }

  lemma {:induction false} ParamsAreDistinct(model: Model, name: string, ref: Ref, v: Val)
    requires Good(model) && Canonical(model, ref, v)
    ensures Distinct(ParamsAt(model, name, ref, v))
    ensures Distinct(Params(model, ref, v))
    decreases v, 2
  {
    match (ShapeOf(model, ref), v) {
    case (Structure(members), Struct(fields)) =>
      assert GoodShape(model, model[ref.id]);
      FieldParamsAreDistinct(model, members, fields);
    case (ListOf(item, flattened), List(items)) =>
      ItemParamsAreDistinct(model, item, ListPrefix(item, flattened), 1, items);
    case (MapOf(key, value, flattened), Map(entries)) =>
      assert GoodShape(model, model[ref.id]);
      EntryParamsAreDistinct(model, key, value, MapPrefix(flattened), 1, entries);
    case _ =>
    }
    DistinctUnder(name, Params(model, ref, v));
  }

  lemma DistinctUnder(name: string, ps: ParamList)
    requires Distinct(ps)
    ensures Distinct(Under(name, ps))
  {
    var r := Under(name, ps);
    forall i, j | 0 <= i < j < |r| ensures r[i].0 != r[j].0 {
      assert r[i].0[|name| + 1..] == ps[i].0 && r[j].0[|name| + 1..] == ps[j].0;
    }
  }

  lemma {:induction false} FieldParamsAreDistinct(model: Model, members: seq<Member>, fields: seq<(string, Val)>)
    requires Good(model) && GoodMembers(model, members) && CanonicalFields(model, members, fields)
    ensures Distinct(ParamsOfFields(model, members, fields))
    decreases fields, 0, |members|
  {
    if members != [] {
      if fields != [] && fields[0].0 == members[0].name {
        var first, others := ParamsOfField(model, members[0], fields[0]), ParamsOfFields(model, members[1..], fields[1..]);
        OneFieldDistinct(model, members[0], fields[0]);
        FieldParamsAreDistinct(model, members[1..], fields[1..]);
        forall k ensures !(Key(first, k) && Key(others, k)) {
          if Key(first, k) && Key(others, k) {
            KeyUnderName(model, MemberKey(model, members[0]), members[0].ref, fields[0].1, k);
            var o := WhichMember(model, members[1..], fields[1..], k);
            SiblingsApart(model, members, o, k);
          }
        }
        DistinctConcat(first, others);
      } else {
        FieldParamsAreDistinct(model, members[1..], fields);
      }
    }
  }

  lemma OneFieldDistinct(model: Model, m: Member, f: (string, Val))
    requires Good(model) && CanonicalField(model, m, f)
    ensures Distinct(ParamsOfField(model, m, f))
    decreases f, 0
  {
    if f.1 != Null { ParamsAreDistinct(model, MemberKey(model, m), m.ref, f.1); }
  }

  lemma {:induction false} ItemParamsAreDistinct(model: Model, item: Ref, prefix: string, i: nat, items: seq<Val>)
    requires Good(model) && forall x | x in items :: Canonical(model, item, x)
    ensures Distinct(ParamsOfItems(model, item, prefix, i, items))
    decreases items, 0
  {
    if items != [] {
      var name := prefix + Dec(i);
      var first, others := ParamsAt(model, name, item, items[0]), ParamsOfItems(model, item, prefix, i + 1, items[1..]);
      ParamsAreDistinct(model, name, item, items[0]);
      ItemParamsAreDistinct(model, item, prefix, i + 1, items[1..]);
      forall k ensures !(Key(first, k) && Key(others, k)) {
        if Key(first, k) && Key(others, k) {
          KeyUnderName(model, name, item, items[0], k);
          var j := WhichItem(model, item, prefix, i + 1, items[1..], k);
          KeyUnderName(model, prefix + Dec(j), item, items[1..][j - i - 1], k);
          NumeralsApart(prefix, j, i, k);
        }
      }
      DistinctConcat(first, others);
    }
  }

  lemma {:induction false} EntryParamsAreDistinct(
    model: Model, key: Ref, value: Ref, prefix: string, i: nat, entries: seq<(Val, Val)>)
    requires Good(model) && ShapeOf(model, key) == Scalar(Text) && !Touches(model, Wire(value, "value"), value, Wire(key, "key"))
    requires forall e | e in entries :: CanonicalEntry(model, key, value, e)
    ensures Distinct(ParamsOfEntries(model, key, value, prefix, i, entries))
    decreases entries, 0
  {
    if entries != [] {
      var first, others := ParamsOfEntry(model, key, value, prefix, i, entries[0]),
                           ParamsOfEntries(model, key, value, prefix, i + 1, entries[1..]);
      OneEntryDistinct(model, key, value, prefix, i, entries[0]);
      EntryParamsAreDistinct(model, key, value, prefix, i + 1, entries[1..]);
      forall k ensures !(Key(first, k) && Key(others, k)) {
        if Key(first, k) && Key(others, k) {
          var a := WhichEntry(model, key, value, prefix, i, [entries[0]], k);
          var b := WhichEntry(model, key, value, prefix, i + 1, entries[1..], k);
          SameIndex(prefix, a, b, k);
        }
      }
      DistinctConcat(first, others);
    }
  }

  lemma OneEntryDistinct(model: Model, key: Ref, value: Ref, prefix: string, i: nat, e: (Val, Val))
    requires Good(model) && ShapeOf(model, key) == Scalar(Text) && !Touches(model, Wire(value, "value"), value, Wire(key, "key"))
    requires CanonicalEntry(model, key, value, e)
    ensures Distinct(ParamsOfEntry(model, key, value, prefix, i, e))
    ensures ParamsOfEntries(model, key, value, prefix, i, [e]) == ParamsOfEntry(model, key, value, prefix, i, e)
    decreases e, 0
  {
    var kn, vn := KeyName(prefix, i, key), ValueName(prefix, i, value);
    ParamsAreDistinct(model, vn, value, e.1);
    forall k ensures !(Key(ParamsAt(model, kn, key, e.0), k) && Key(ParamsAt(model, vn, value, e.1), k)) {
      if Key(ParamsAt(model, kn, key, e.0), k) && Key(ParamsAt(model, vn, value, e.1), k) {
        KeyUnderName(model, vn, value, e.1, k);
        Unprefix(prefix + Dec(i) + ".", Wire(value, "value"), Wire(key, "key"));
      }
    }
    DistinctConcat(ParamsAt(model, kn, key, e.0), ParamsAt(model, vn, value, e.1));
  }

  /** The parameters of a value do not contradict each other, so a request can carry exactly
      them, and it is then parsed to the value. */
  lemma ParamsRoundTrip(model: Model, ref: Ref, v: Val)
    requires Good(model) && Canonical(model, ref, v) && !ShapeOf(model, ref).Scalar?
    ensures Named(model) && Distinct(Params(model, ref, v))
    ensures Parse(model, ref, Params(model, ref, v)) == Ok(v)
  {
    GoodIsNamed(model);
    ParamsAreDistinct(model, "", ref, v);
    var node := Params(model, ref, v);
    forall p | p in node ensures Get(node, p.0) == Some(p.1) {
      var i :| 0 <= i < |node| && node[i] == p;
      GetAt(node, i);
    }
    RoundTrip(model, ref, v, node, NoStrays);
  }
}
