/** The parser on every byte sequence: it consumes a prefix, and what it returns depends
    on that prefix only. */
module CborLocality {
  import opened BigEndian
  import opened PyDict
  import opened CborModel

  /** `s` without its suffix `rest`. */
  function Used(s: seq<Byte>, rest: seq<Byte>): seq<Byte>
    requires |rest| <= |s|
  {
    s[..|s| - |rest|]
  }

  ghost predicate Splits(s: seq<Byte>, rest: seq<Byte>) {
    |rest| <= |s| && Used(s, rest) + rest == s
  }

  lemma Chain(s: seq<Byte>, t: seq<Byte>, rest: seq<Byte>, other: seq<Byte>)
    requires Splits(s, t) && Splits(t, rest)
    ensures Splits(s, rest)
    ensures Used(s, rest) + other == Used(s, t) + (Used(t, rest) + other)
  {
  }

  lemma First(s: seq<Byte>, rest: seq<Byte>, other: seq<Byte>)
    requires s != [] && Splits(s[1..], rest)
    ensures Splits(s, rest)
    ensures Used(s, rest) + other == [s[0]] + (Used(s[1..], rest) + other)
  {
  }

  lemma TakeIsLocal(s: seq<Byte>, n: nat, other: seq<Byte>)
    requires Take(s, n).Ok?
    ensures var r := Take(s, n); Splits(s, r.rest) && Take(Used(s, r.rest) + other, n) == Ok(r.value, other)
  {
  }

  lemma UnsignedIsLocal(info: nat, s: seq<Byte>, other: seq<Byte>)
    requires ParseUnsigned(info, s).Ok?
    ensures var r := ParseUnsigned(info, s);
      Splits(s, r.rest) && ParseUnsigned(info, Used(s, r.rest) + other) == Ok(r.value, other)
  {
  }

  lemma BytesAreLocal(info: nat, s: seq<Byte>, other: seq<Byte>)
    requires ParseBytes(info, s).Ok?
    ensures var r := ParseBytes(info, s);
      Splits(s, r.rest) && ParseBytes(info, Used(s, r.rest) + other) == Ok(r.value, other)
  {
    if info != INDEFINITE {
      var n := ParseUnsigned(info, s);
      TakeIsLocal(n.rest, n.value, other);
      var rest := Take(n.rest, n.value).rest;
      UnsignedIsLocal(info, s, Used(n.rest, rest) + other);
      Chain(s, n.rest, rest, other);
    } else {
      ChunksAreLocal(s, other);
    }
  }

  lemma ChunkIsLocal(s: seq<Byte>, other: seq<Byte>)
    requires ParseChunk(s).Ok?
    ensures var r := ParseChunk(s);
      Splits(s, r.rest) && ParseChunk(Used(s, r.rest) + other) == Ok(r.value, other)
  {
    var n := ParseUnsigned(s[0] % 32, s[1..]);
    var rest := ParseChunk(s).rest;
    TakeIsLocal(n.rest, n.value, other);
    UnsignedIsLocal(s[0] % 32, s[1..], Used(n.rest, rest) + other);
    Chain(s[1..], n.rest, rest, other);
    First(s, rest, other);
    var u := Used(s[1..], rest) + other;
    assert ([s[0]] + u)[1..] == u;
  }

  lemma {:induction false} ChunksAreLocal(s: seq<Byte>, other: seq<Byte>)
    requires ParseChunks(s).Ok?
    ensures var r := ParseChunks(s);
      Splits(s, r.rest) && ParseChunks(Used(s, r.rest) + other) == Ok(r.value, other)
    decreases |s|
  {
    var rest := ParseChunks(s).rest;
    if s != [] && s[0] == BREAK {
      assert Used(s, rest) + other == [BREAK] + other;
      assert ([BREAK] + other)[1..] == other;
    } else {
      var t := ParseChunk(s).rest;
      ChunksAreLocal(t, other);
      ChunkIsLocal(s, Used(t, rest) + other);
      Chain(s, t, rest, other);
      assert (Used(s, t) + (Used(t, rest) + other))[0] == s[0];
    }
  }

  lemma SimpleIsLocal(info: nat, s: seq<Byte>, other: seq<Byte>)
    requires Simple(info, s).Ok?
    ensures var r := Simple(info, s);
      Splits(s, r.rest) && Simple(info, Used(s, r.rest) + other) == Ok(r.value, other)
  {
  }

  /** An accepted item is a non-empty prefix of the input, and any continuation after that
      prefix is parsed to the same value and left untouched: no accepted encoding is a
      proper prefix of another, and nothing is read past the end of the item. */
  lemma {:induction false} ItemIsLocal(s: seq<Byte>, other: seq<Byte>)
    requires ParseItem(s).Ok?
    ensures var r := ParseItem(s);
      && Splits(s, r.rest) && |r.rest| < |s|
      && ParseItem(Used(s, r.rest) + other) == Ok(r.value, other)
    decreases |s|, 0
  {
    BodyIsLocal(s[0] / 32, s[0] % 32, s[1..], other);
    var rest := ParseItem(s).rest;
    First(s, rest, other);
    var u := Used(s[1..], rest) + other;
    assert ([s[0]] + u)[1..] == u;
  }

  lemma {:induction false} BodyIsLocal(major: nat, info: nat, s: seq<Byte>, other: seq<Byte>)
    requires major < 8 && ParseBody(major, info, s).Ok?
    ensures var r := ParseBody(major, info, s);
      Splits(s, r.rest) && ParseBody(major, info, Used(s, r.rest) + other) == Ok(r.value, other)
    decreases |s|, 4
  {
    if major == UNSIGNED || major == NEGATIVE {
      UnsignedIsLocal(info, s, other);
    } else if major == BLOB || major == STRING {
      BytesAreLocal(info, s, other);
    } else if major == LIST {
      ListIsLocal(info, s, other);
    } else if major == MAP {
      MapIsLocal(info, s, other);
    } else if major == TAG {
      var t := ParseUnsigned(info, s).rest;
      ItemIsLocal(t, other);
      var rest := ParseItem(t).rest;
      UnsignedIsLocal(info, s, Used(t, rest) + other);
      Chain(s, t, rest, other);
    } else {
      SimpleIsLocal(info, s, other);
    }
  }

  lemma {:induction false} ListIsLocal(info: nat, s: seq<Byte>, other: seq<Byte>)
    requires ParseList(info, s).Ok?
    ensures var r := ParseList(info, s);
      Splits(s, r.rest) && ParseList(info, Used(s, r.rest) + other) == Ok(r.value, other)
    decreases |s|, 3
  {
    if info != INDEFINITE {
      var n := ParseUnsigned(info, s);
      ItemsAreLocal(n.value, n.rest, other);
      var rest := ParseList(info, s).rest;
      UnsignedIsLocal(info, s, Used(n.rest, rest) + other);
      Chain(s, n.rest, rest, other);
    } else {
      ItemsToBreakAreLocal(s, other);
    }
  }

  lemma {:induction false} MapIsLocal(info: nat, s: seq<Byte>, other: seq<Byte>)
    requires ParseMap(info, s).Ok?
    ensures var r := ParseMap(info, s);
      Splits(s, r.rest) && ParseMap(info, Used(s, r.rest) + other) == Ok(r.value, other)
    decreases |s|, 3
  {
    if info != INDEFINITE {
      var n := ParseUnsigned(info, s);
      EntriesAreLocal(n.value, n.rest, [], other);
      var rest := ParseMap(info, s).rest;
      UnsignedIsLocal(info, s, Used(n.rest, rest) + other);
      Chain(s, n.rest, rest, other);
    } else {
      EntriesToBreakAreLocal(s, [], other);
    }
  }

  lemma {:induction false} ItemsAreLocal(n: nat, s: seq<Byte>, other: seq<Byte>)
    requires ParseItems(n, s).Ok?
    ensures var r := ParseItems(n, s);
      Splits(s, r.rest) && ParseItems(n, Used(s, r.rest) + other) == Ok(r.value, other)
    decreases |s|, 1
  {
    var rest := ParseItems(n, s).rest;
    if n == 0 {
      assert Used(s, s) + other == other;
    } else {
      var t := ParseItem(s).rest;
      ItemsAreLocal(n - 1, t, other);
      ItemIsLocal(s, Used(t, rest) + other);
      Chain(s, t, rest, other);
    }
  }

  lemma {:induction false} ItemsToBreakAreLocal(s: seq<Byte>, other: seq<Byte>)
    requires ParseItemsToBreak(s).Ok?
    ensures var r := ParseItemsToBreak(s);
      Splits(s, r.rest) && ParseItemsToBreak(Used(s, r.rest) + other) == Ok(r.value, other)
    decreases |s|, 1
  {
    var rest := ParseItemsToBreak(s).rest;
    if s != [] && s[0] == BREAK {
      assert Used(s, rest) + other == [BREAK] + other;
      assert ([BREAK] + other)[1..] == other;
    } else {
      var t := ParseItem(s).rest;
      ItemsToBreakAreLocal(t, other);
      ItemIsLocal(s, Used(t, rest) + other);
      Chain(s, t, rest, other);
      assert (Used(s, t) + (Used(t, rest) + other))[0] == s[0];
    }
  }

  lemma {:induction false} EntryIsLocal(s: seq<Byte>, d: Dict<Data, Data>, other: seq<Byte>)
    requires ParseEntry(s, d).Ok?
    ensures var r := ParseEntry(s, d);
      Splits(s, r.rest) && ParseEntry(Used(s, r.rest) + other, d) == Ok(r.value, other)
    decreases |s|, 1
  {
    var rest := ParseEntry(s, d).rest;
    var t := ParseItem(s).rest;
    ItemIsLocal(t, other);
    ItemIsLocal(s, Used(t, rest) + other);
    Chain(s, t, rest, other);
  }

  lemma {:induction false} EntriesAreLocal(n: nat, s: seq<Byte>, d: Dict<Data, Data>, other: seq<Byte>)
    requires ParseEntries(n, s, d).Ok?
    ensures var r := ParseEntries(n, s, d);
      Splits(s, r.rest) && ParseEntries(n, Used(s, r.rest) + other, d) == Ok(r.value, other)
    decreases |s|, 2
  {
    var rest := ParseEntries(n, s, d).rest;
    if n == 0 {
      assert Used(s, s) + other == other;
    } else {
      var e := ParseEntry(s, d);
      EntriesAreLocal(n - 1, e.rest, e.value, other);
      EntryIsLocal(s, d, Used(e.rest, rest) + other);
      Chain(s, e.rest, rest, other);
    }
  }

  lemma {:induction false} EntriesToBreakAreLocal(s: seq<Byte>, d: Dict<Data, Data>, other: seq<Byte>)
    requires ParseEntriesToBreak(s, d).Ok?
    ensures var r := ParseEntriesToBreak(s, d);
      Splits(s, r.rest) && ParseEntriesToBreak(Used(s, r.rest) + other, d) == Ok(r.value, other)
    decreases |s|, 2
  {
    var rest := ParseEntriesToBreak(s, d).rest;
    if s != [] && s[0] == BREAK {
      assert Used(s, rest) + other == [BREAK] + other;
      assert ([BREAK] + other)[1..] == other;
    } else {
      var e := ParseEntry(s, d);
      EntriesToBreakAreLocal(e.rest, e.value, other);
      EntryIsLocal(s, d, Used(e.rest, rest) + other);
      Chain(s, e.rest, rest, other);
      assert (Used(s, e.rest) + (Used(e.rest, rest) + other))[0] == s[0];
    }
  }
}
