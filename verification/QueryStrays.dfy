/** Where query parameters are not parsed back: a list of flattened lists of structures that
    have a required member. An index of the outer list also catches keys of longer indices,
    and what is left of them looks like one more structure. */
module QueryStrays {
  import opened PyDict
  import opened Shapes
  import opened Numerals
  import opened Outcomes
  import opened QueryModel
  import opened QueryTheorems

  /** A list of flattened lists of structures, whose only member is a required text. */
  ghost predicate Crowded(model: Model, rows: Ref, row: Ref, cell: Ref, m: Member) {
    && ShapeOf(model, rows).ListOf? && ShapeOf(model, rows).item == row
    && ShapeOf(model, row) == ListOf(cell, true)
    && ShapeOf(model, cell) == Structure([m])
    && m.required && ShapeOf(model, m.ref) == Scalar(Text)
  }

  /** Every key that starts with the name is cut to a key of the filtered dict. */
  lemma {:induction false} FilterKeeps(name: string, node: Node, e: (string, string))
    requires e in node && name <= e.0
    ensures HasKey(Filter(name, node), Cut(e.0, name))
  {
    var init, last := node[..|node| - 1], node[|node| - 1];
    var r := Filter(name, init);
    if name <= last.0 {
      GetAfterSet(r, Cut(last.0, name), last.1, Cut(e.0, name));
      if e != last {
        FilterKeeps(name, init, e);
        KeyIsFound(r, Cut(e.0, name));
      }
      FoundIsKey(Set(r, Cut(last.0, name), last.1), Cut(e.0, name));
    } else {
      FilterKeeps(name, init, e);
    }
  }

  lemma {:induction false} KeyIsFound(d: Node, k: string)
    requires HasKey(d, k)
    ensures Get(d, k).Some?
  {
    if d[0].0 != k {
      var i :| 0 <= i < |d| && d[i].0 == k;
      assert d[1..][i - 1] == d[i];
      KeyIsFound(d[1..], k);
    }
  }

  lemma {:induction false} FoundIsKey(d: Node, k: string)
    requires Get(d, k).Some?
    ensures HasKey(d, k)
  {
    if d[0].0 != k {
      FoundIsKey(d[1..], k);
      var i :| 0 <= i < |d[1..]| && d[1..][i].0 == k;
      assert d[i + 1].0 == k;
    }
  }

  /** The structure is read below every name that some key starts with. */
  lemma AlwaysRead(model: Model, rows: Ref, row: Ref, cell: Ref, m: Member, name: string, node: Node)
    requires Named(model) && Crowded(model, rows, row, cell, m) && name != ""
    requires Mentions(node, name)
    ensures var r := ProcessMember(model, name, cell, node); r.Ok? && r.value != Null
  {
    var sub := Filter(name, node);
    FilterMentions(name, node);
    var v := ProcessMember(model, MemberKey(model, m), m.ref, sub);
    assert ParseMembers(model, [m][1..], sub) == Ok([]);
    assert ParseMembers(model, [m], sub) == Then([(m.name, v.value)], Ok([]));
  }

  /** A row whose indices 1 and 2 are mentioned does not come back with one item. */
  lemma NotOne(model: Model, rows: Ref, row: Ref, cell: Ref, m: Member, node: Node, x: Val)
    requires Named(model) && Crowded(model, rows, row, cell, m)
    requires Mentions(node, "" + Dec(1)) && Mentions(node, "" + Dec(2))
    ensures Parse(model, row, node) != Ok(List([x]))
  {
    AlwaysRead(model, rows, row, cell, m, "" + Dec(1), node);
    AlwaysRead(model, rows, row, cell, m, "" + Dec(2), node);
    var one := ProcessMember(model, "" + Dec(1), cell, node).value;
    var two := ProcessMember(model, "" + Dec(2), cell, node).value;
    ItemTurn(model, cell, "", 1, node, one);
    ItemTurn(model, cell, "", 2, node, two);
  }

  /** Some parameter of a row starts with its first index. */
  lemma FirstParam(model: Model, rows: Ref, row: Ref, cell: Ref, m: Member, v: Val) returns (p: (string, string))
    requires Crowded(model, rows, row, cell, m) && Canonical(model, row, v)
    ensures p in Params(model, row, v) && Dec(1) <= p.0
  {
    var x := v.items[0];
    CanonicalIsNotEmpty(model, cell, x);
    p := ParamsAt(model, "" + Dec(1), cell, x)[0];
    ItemParams(model, cell, "", 1, v.items, 1, p);
    KeyUnderName(model, "" + Dec(1), cell, x, p.0);
  }

  /** The row `j` of a value adds a key to what row 1 is read from. */
  lemma RowIsCaught(model: Model, rows: Ref, row: Ref, cell: Ref, m: Member, prefix: string, items: seq<Val>, j: nat)
    returns (k: string)
    requires Crowded(model, rows, row, cell, m) && 1 <= j <= |items| && Dec(1) <= Dec(j)
    requires Canonical(model, row, items[j - 1])
    ensures Dec(1) <= k
    ensures HasKey(Filter(prefix + Dec(1), ParamsOfItems(model, row, prefix, 1, items)), Cut(Dec(j) + "." + k, Dec(1)))
  {
    var p := FirstParam(model, rows, row, cell, m, items[j - 1]);
    k := p.0;
    var name := prefix + Dec(j);
    var i :| 0 <= i < |Params(model, row, items[j - 1])| && Params(model, row, items[j - 1])[i] == p;
    var e := Under(name, Params(model, row, items[j - 1]))[i];
    ItemParams(model, row, prefix, 1, items, j, e);
    assert e.0 == prefix + (Dec(j) + "." + k);
    FilterKeeps(prefix + Dec(1), ParamsOfItems(model, row, prefix, 1, items), e);
    assert Cut(e.0, prefix + Dec(1)) == Cut(Dec(j) + "." + k, Dec(1));
  }

  lemma Numerals102()
    ensures Dec(1) == "1" && Dec(2) == "2" && Dec(102) == "102"
  {
    assert Dec(10) == Dec(1) + ['0'];
    assert Dec(102) == Dec(10) + ['2'];
  }

  /** What row 1 is read from has keys for a first and for a second structure. */
  lemma BothMentioned(model: Model, rows: Ref, row: Ref, cell: Ref, m: Member, prefix: string, items: seq<Val>)
    requires Crowded(model, rows, row, cell, m)
    requires |items| >= 102 && Canonical(model, row, items[0]) && Canonical(model, row, items[101])
    ensures var sub := Filter(prefix + Dec(1), ParamsOfItems(model, row, prefix, 1, items));
      Mentions(sub, "" + Dec(1)) && Mentions(sub, "" + Dec(2))
  {
    Numerals102();
    var k1 := RowIsCaught(model, rows, row, cell, m, prefix, items, 1);
    var k2 := RowIsCaught(model, rows, row, cell, m, prefix, items, 102);
    assert Cut("1." + k1, "1") == k1 && Cut("102." + k2, "1") == "2." + k2;
  }

  /** No such list of more than 101 rows comes back when its first row has one structure:
      the key of row 102 is taken for a second one. */
  lemma StraysMakeItems(model: Model, rows: Ref, row: Ref, cell: Ref, m: Member, items: seq<Val>, x: Val)
    requires Named(model) && Crowded(model, rows, row, cell, m)
    requires |items| >= 102 && items[0] == List([x]) && forall y | y in items :: Canonical(model, row, y)
    ensures Canonical(model, rows, List(items))
    ensures Parse(model, rows, Params(model, rows, List(items))) != Ok(List(items))
  {
    var prefix := ListPrefix(row, ShapeOf(model, rows).flattened);
    var node := ParamsOfItems(model, row, prefix, 1, items);
    assert Canonical(model, row, items[0]) && Canonical(model, row, items[101]);
    BothMentioned(model, rows, row, cell, m, prefix, items);
    NotOne(model, rows, row, cell, m, Filter(prefix + Dec(1), node), x);
    FirstItemDiffers(model, row, prefix, items, node);
  }

  lemma FirstItemDiffers(model: Model, row: Ref, prefix: string, items: seq<Val>, node: Node)
    requires Named(model) && items != [] && items[0] != Null
    requires prefix + Dec(1) != "" && ProcessMember(model, prefix + Dec(1), row, node) != Ok(items[0])
    ensures ParseItems(model, row, prefix, 1, node) != Ok(items)
  {
    var v := ProcessMember(model, prefix + Dec(1), row, node);
    if v.Ok? {
      ItemTurn(model, row, prefix, 1, node, v.value);
      var others := ParseItems(model, row, prefix, 2, node);
      if others.Ok? { assert ([v.value] + others.value)[0] == v.value; }
    }
  }
}
