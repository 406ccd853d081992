/** What the CBOR printer and parser promise each other. */
module CborTheorems {
  import opened BigEndian
  import opened PyDict
  import opened Sequences
  import opened CborModel

  // ---------------------------------------------------------------- heads

  lemma ReadHead(major: nat, n: nat, rest: seq<Byte>)
    requires major < 8 && n < LIMIT
    ensures Head(major, n)[0] / 32 == major && Head(major, n)[0] % 32 == Info(n) != INDEFINITE
    ensures (Head(major, n) + rest)[1..] == ToBytes(n, Width(n)) + rest
    ensures ParseUnsigned(Info(n), ToBytes(n, Width(n)) + rest) == Ok(n, rest)
  {
    Powers();
    var arg := ToBytes(n, Width(n));
    assert (arg + rest)[..|arg|] == arg && (arg + rest)[|arg|..] == rest;
    if n >= 24 {
      FromToBytes(n, Width(n));
    }
  }

  /** No head that the parser reads as the argument `n` is shorter than the printed one. */
  lemma ShortestHead(major: nat, info: nat, s: seq<Byte>, n: nat, rest: seq<Byte>)
    requires major < 8 && ParseUnsigned(info, s) == Ok(n, rest)
    ensures n < LIMIT
    ensures |Head(major, n)| <= 1 + |s| - |rest|
  {
    Powers();
    if info >= 24 {
      var k := |s| - |rest|;
      assert n < Pow256(k);
    }
  }

  // ---------------------------------------------------------------- first bytes

  /** No printed item starts with the break byte, so a break is never taken for an item. */
  lemma NeverStartsWithBreak(v: Value, indefinite: bool)
    requires Encodable(v, indefinite)
    ensures Encode(v, indefinite) != [] && Encode(v, indefinite)[0] != BREAK
  {
  }

  // ---------------------------------------------------------------- round trip

  /** A printed string: its head, and what the parser finds behind the initial byte. */
  lemma ReadString(major: nat, b: seq<Byte>, rest: seq<Byte>)
    requires major < 8 && |b| < LIMIT
    ensures
      var arg := ToBytes(|b|, Width(|b|)) + (b + rest);
      && Head(major, |b|) + b + rest == [InitialByte(major, Info(|b|))] + arg
      && ParseBytes(Info(|b|), arg) == Ok(b, rest)
  {
    ReadHead(major, |b|, b + rest);
    assert (b + rest)[..|b|] == b && (b + rest)[|b|..] == rest;
    Assoc(Head(major, |b|), b, rest);
    Assoc([InitialByte(major, Info(|b|))], ToBytes(|b|, Width(|b|)), b + rest);
  }

  lemma RoundTripText(t: Utf8, rest: seq<Byte>)
    requires |t| < LIMIT
    ensures ParseItem(EncodeText(t) + rest) == Ok(DText(t), rest)
  {
    var info, arg := Info(|t|), ToBytes(|t|, Width(|t|)) + (t + rest);
    ReadString(STRING, t, rest);
    Dispatch(STRING, info, arg);
    TextBody(info, arg, t, rest);
  }

  lemma TextBody(info: nat, arg: seq<Byte>, t: Utf8, rest: seq<Byte>)
    requires var r := ParseBytes(info, arg); r.Ok? && r.value == t && r.rest == rest
    ensures ParseBody(STRING, info, arg) == Ok(DText(t), rest)
  {
  }

  lemma RoundTripBlob(b: seq<Byte>, rest: seq<Byte>)
    requires |b| < LIMIT
    ensures ParseItem(Head(BLOB, |b|) + b + rest) == Ok(DBytes(b), rest)
  {
    var info, arg := Info(|b|), ToBytes(|b|, Width(|b|)) + (b + rest);
    ReadString(BLOB, b, rest);
    Dispatch(BLOB, info, arg);
    BlobBody(info, arg, b, rest);
  }

  lemma BlobBody(info: nat, arg: seq<Byte>, b: seq<Byte>, rest: seq<Byte>)
    requires ParseBytes(info, arg) == Ok(b, rest)
    ensures ParseBody(BLOB, info, arg) == Ok(DBytes(b), rest)
  {
  }

  lemma Dispatch(major: nat, info: nat, t: seq<Byte>)
    requires major < 8 && info < 32
    ensures ParseItem([InitialByte(major, info)] + t) == ParseBody(major, info, t)
  {
    var b := InitialByte(major, info);
    assert b / 32 == major && b % 32 == info;
    assert ([b] + t)[1..] == t;
  }

  /** The half-precision patterns printed for infinities and NaN. */
  lemma SpecialNumbers()
    ensures Classify([0x7C, 0x00]) == PosInf && Classify([0xFC, 0x00]) == NegInf
    ensures Classify([0x7E, 0x00]) == NaN
  {
  }

  lemma ReadFloat(info: nat, bits: seq<Byte>, rest: seq<Byte>)
    requires (info == 25 && |bits| == 2) || (info == 26 && |bits| == 4) || (info == 27 && |bits| == 8)
    ensures ParseItem([InitialByte(SIMPLE, info)] + (bits + rest)) == Ok(DFloat(Classify(bits)), rest)
  {
  }

  /** How a float is printed: a number as it is, anything else in half precision. */
  lemma FloatForm(bits: seq<Byte>) returns (info: nat, payload: seq<Byte>)
    requires |bits| == 4 || |bits| == 8
    ensures (info == 25 && |payload| == 2) || (info == 26 && |payload| == 4) || (info == 27 && |payload| == 8)
    ensures EncodeFloat(bits) == [InitialByte(SIMPLE, info)] + payload && Classify(payload) == Classify(bits)
  {
    info, payload := 25, bits;
    SpecialNumbers();
    match Classify(bits) {
      case PosInf => payload := [0x7C, 0x00];
      case NegInf => payload := [0xFC, 0x00];
      case NaN => payload := [0x7E, 0x00];
      case Finite(_) => info := if |bits| == 4 then 26 else 27;
    }
    assert EncodeFloat(bits) == [InitialByte(SIMPLE, info)] + payload;
  }

  lemma RoundTripFloat(bits: seq<Byte>, rest: seq<Byte>)
    requires |bits| == 4 || |bits| == 8
    ensures ParseItem(EncodeFloat(bits) + rest) == Ok(DFloat(Classify(bits)), rest)
  {
    var info, payload := FloatForm(bits);
    FloatCase(info, payload, rest);
  }

  lemma FloatCase(info: nat, bits: seq<Byte>, rest: seq<Byte>)
    requires (info == 25 && |bits| == 2) || (info == 26 && |bits| == 4) || (info == 27 && |bits| == 8)
    ensures ParseItem([InitialByte(SIMPLE, info)] + bits + rest) == Ok(DFloat(Classify(bits)), rest)
  {
    ReadFloat(info, bits, rest);
    assert [InitialByte(SIMPLE, info)] + bits + rest == [InitialByte(SIMPLE, info)] + (bits + rest);
  }

  /** Parsing what was printed gives back its meaning and stops exactly where it ends. */
  lemma {:induction false} RoundTrip(v: Value, indefinite: bool, rest: seq<Byte>)
    requires Valid(v) && Encodable(v, indefinite)
    ensures ParseItem(Encode(v, indefinite) + rest) == Ok(Meaning(v), rest)
    decreases v, 1
  {
    match v
    case List(items) => RoundTripList(items, indefinite, rest);
    case Map(entries) =>
      CountWithoutNulls(entries);
      RoundTripMap(entries, indefinite, rest);
    case Struct(entries) => RoundTripMap(entries, indefinite, rest);
    case _ => RoundTripScalar(v, indefinite, rest);
  }

  lemma RoundTripInt(i: int, rest: seq<Byte>)
    requires -LIMIT <= i < LIMIT
    ensures ParseItem(Encode(Int(i), true) + rest) == Ok(DInt(i), rest)
  {
    if i >= 0 {
      OpenDefinite(UNSIGNED, i, rest);
    } else {
      OpenDefinite(NEGATIVE, -1 - i, rest);
    }
  }

  lemma RoundTripBool(p: bool, rest: seq<Byte>)
    ensures ParseItem(Encode(Bool(p), true) + rest) == Ok(DBool(p), rest)
  {
  }

  lemma RoundTripTimestamp(seconds: Bits64, rest: seq<Byte>)
    requires Classify(seconds).Finite?
    ensures ParseItem(Encode(Timestamp(seconds), true) + rest) == Ok(DTime(DFloat(Finite(seconds))), rest)
  {
    var first, float := InitialByte(TAG, 1), InitialByte(SIMPLE, 27);
    var number := [float] + (seconds + rest);
    ReadFloat(27, seconds, rest);
    assert Encode(Timestamp(seconds), true) + rest == [first] + number;
    Dispatch(TAG, 1, number);
    ReadTag(number);
  }

  lemma ReadTag(s: seq<Byte>)
    requires ParseItem(s).Ok? && IsNumber(ParseItem(s).value)
    ensures ParseBody(TAG, 1, s) == Ok(DTime(ParseItem(s).value), ParseItem(s).rest)
  {
  }

  lemma RoundTripScalar(v: Value, indefinite: bool, rest: seq<Byte>)
    requires Valid(v) && Encodable(v, indefinite) && !v.List? && !v.Map? && !v.Struct?
    ensures ParseItem(Encode(v, indefinite) + rest) == Ok(Meaning(v), rest)
  {
    match v
    case Int(i) => RoundTripInt(i, rest);
    case Blob(b) => RoundTripBlob(b, rest);
    case Text(t) => RoundTripText(t, rest);
    case Bool(p) => RoundTripBool(p, rest);
    case Single(f) => RoundTripFloat(f, rest);
    case Double(d) => RoundTripFloat(d, rest);
    case Timestamp(seconds) => RoundTripTimestamp(seconds, rest);
  }

  lemma RoundTripList(items: seq<Value>, indefinite: bool, rest: seq<Byte>)
    requires forall x | x in items :: Valid(x) && Encodable(x, indefinite)
    requires indefinite || |items| < LIMIT
    ensures ParseItem(Opening(LIST, |items|, indefinite) + EncodeItems(items, indefinite) + Closing(indefinite) + rest)
         == Ok(DList(MeaningOfItems(items)), rest)
    decreases items, 2
  {
    var e := EncodeItems(items, indefinite);
    var opening := Opening(LIST, |items|, indefinite);
    RoundTripItems(items, indefinite, rest);
    OpenList(|items|, indefinite, e + (Closing(indefinite) + rest));
    Regroup(opening, e, Closing(indefinite), rest);
  }

  lemma Regroup(a: seq<Byte>, b: seq<Byte>, c: seq<Byte>, d: seq<Byte>)
    ensures a + b + c + d == a + (b + (c + d))
    ensures c == [] ==> c + d == d
    ensures d == [] ==> a + b + c == a + (b + c)
  {
  }

  function AsList(r: Parsed<seq<Data>>): Parsed<Data> {
    if r.Ok? then Ok(DList(r.value), r.rest) else Err(r.error)
  }

  function AsDict(r: Parsed<Dict<Data, Data>>): Parsed<Data> {
    if r.Ok? then Ok(DDict(r.value), r.rest) else Err(r.error)
  }

  /** After the head of a container the parser goes on with its content. */
  lemma OpenList(n: nat, indefinite: bool, content: seq<Byte>)
    requires indefinite || n < LIMIT
    ensures ParseItem(Opening(LIST, n, indefinite) + content)
         == AsList(if indefinite then ParseItemsToBreak(content) else ParseItems(n, content))
  {
    if indefinite {
      Dispatch(LIST, INDEFINITE, content);
    } else {
      OpenDefinite(LIST, n, content);
      assert ParseList(Info(n), ToBytes(n, Width(n)) + content) == ParseItems(n, content);
    }
  }

  lemma OpenMap(n: nat, indefinite: bool, content: seq<Byte>)
    requires indefinite || n < LIMIT
    ensures ParseItem(Opening(MAP, n, indefinite) + content)
         == AsDict(if indefinite then ParseEntriesToBreak(content, []) else ParseEntries(n, content, []))
  {
    if indefinite {
      Dispatch(MAP, INDEFINITE, content);
    } else {
      OpenDefinite(MAP, n, content);
      assert ParseMap(Info(n), ToBytes(n, Width(n)) + content) == ParseEntries(n, content, []);
    }
  }

  lemma OpenDefinite(major: nat, n: nat, content: seq<Byte>)
    requires major < 8 && n < LIMIT
    ensures
      var arg := ToBytes(n, Width(n)) + content;
      && ParseItem(Head(major, n) + content) == ParseBody(major, Info(n), arg)
      && Info(n) != INDEFINITE && ParseUnsigned(Info(n), arg) == Ok(n, content)
  {
    var arg := ToBytes(n, Width(n));
    ReadHead(major, n, content);
    Assoc([InitialByte(major, Info(n))], arg, content);
    Dispatch(major, Info(n), arg + content);
  }

  /** Either list loop reads the printed items to their end. */
  ghost predicate ItemsReadBack(items: seq<Value>, indefinite: bool, rest: seq<Byte>) {
    && ParseItems(|items|, EncodeItems(items, indefinite) + rest) == Ok(MeaningOfItems(items), rest)
    && ParseItemsToBreak(EncodeItems(items, indefinite) + ([BREAK] + rest)) == Ok(MeaningOfItems(items), rest)
  }

  lemma {:induction false} RoundTripItems(items: seq<Value>, indefinite: bool, rest: seq<Byte>)
    requires forall x | x in items :: Valid(x) && Encodable(x, indefinite)
    ensures ItemsReadBack(items, indefinite, rest)
    decreases items, 1
  {
    if items == [] {
      assert EncodeItems(items, indefinite) + rest == rest;
      assert EncodeItems(items, indefinite) + ([BREAK] + rest) == [BREAK] + rest;
      assert ([BREAK] + rest)[1..] == rest;
    } else {
      RoundTripItems(items[1..], indefinite, rest);
      TurnItem(items, indefinite, rest);
      TurnItem(items, indefinite, [BREAK] + rest);
    }
  }

  function Prepend(x: Data, r: Parsed<seq<Data>>): Parsed<seq<Data>> {
    if r.Ok? then Ok([x] + r.value, r.rest) else r
  }

  /** One printed item takes either list loop one turn further. */
  lemma TurnItem(items: seq<Value>, indefinite: bool, rest: seq<Byte>)
    requires items != [] && Valid(items[0]) && Encodable(items[0], indefinite)
    ensures
      var s, t := EncodeItems(items, indefinite) + rest, EncodeItems(items[1..], indefinite) + rest;
      && ParseItems(|items|, s) == Prepend(Meaning(items[0]), ParseItems(|items| - 1, t))
      && ParseItemsToBreak(s) == Prepend(Meaning(items[0]), ParseItemsToBreak(t))
    decreases items, 0
  {
    var first, t := Encode(items[0], indefinite), EncodeItems(items[1..], indefinite) + rest;
    assert EncodeItems(items, indefinite) + rest == first + t;
    RoundTrip(items[0], indefinite, t);
    NeverStartsWithBreak(items[0], indefinite);
    StepItem(|items| - 1, first + t);
  }

  lemma StepItem(n: nat, s: seq<Byte>)
    requires ParseItem(s).Ok? && s[0] != BREAK
    ensures ParseItems(n + 1, s) == Prepend(ParseItem(s).value, ParseItems(n, ParseItem(s).rest))
    ensures ParseItemsToBreak(s) == Prepend(ParseItem(s).value, ParseItemsToBreak(ParseItem(s).rest))
  {
  }

  /** The non-null entries can be printed and read back. */
  ghost predicate Sound(entries: seq<(Utf8, Option<Value>)>, indefinite: bool) {
    forall e | e in entries :: e.1.Some? ==> Valid(e.1.value) && EntryEncodable(e, indefinite)
  }

  lemma RoundTripMap(entries: seq<(Utf8, Option<Value>)>, indefinite: bool, rest: seq<Byte>)
    requires DistinctKeys(entries) && Sound(entries, indefinite)
    requires indefinite || CountPresent(entries) < LIMIT
    ensures ParseItem(Opening(MAP, CountPresent(entries), indefinite) + EncodeEntries(entries, indefinite)
                      + Closing(indefinite) + rest)
         == Ok(DDict(MeaningOfEntries(entries)), rest)
    decreases entries, 2
  {
    var n, e := CountPresent(entries), EncodeEntries(entries, indefinite);
    var opening := Opening(MAP, n, indefinite);
    RoundTripEntries(entries, indefinite, rest, []);
    AssignedIsAppended([], entries);
    assert [] + MeaningOfEntries(entries) == MeaningOfEntries(entries);
    OpenMap(n, indefinite, e + (Closing(indefinite) + rest));
    Regroup(opening, e, Closing(indefinite), rest);
  }

  lemma {:induction false} CountWithoutNulls(entries: seq<(Utf8, Option<Value>)>)
    requires forall e | e in entries :: e.1.Some?
    ensures CountPresent(entries) == |entries|
  {
    if entries != [] {
      CountWithoutNulls(entries[1..]);
    }
  }

  /** The keys of `d` and of the entries still to come are all different. */
  ghost predicate Apart(d: Dict<Data, Data>, entries: seq<(Utf8, Option<Value>)>) {
    && DistinctKeys(entries)
    && forall e | e in entries :: !HasKey(d, DText(e.0))
  }

  /** Either map loop, started on `d`, reads the printed entries to their end. */
  ghost predicate ReadsBack(entries: seq<(Utf8, Option<Value>)>, indefinite: bool, rest: seq<Byte>,
                            d: Dict<Data, Data>, result: Dict<Data, Data>) {
    && ParseEntries(CountPresent(entries), EncodeEntries(entries, indefinite) + rest, d) == Ok(result, rest)
    && ParseEntriesToBreak(EncodeEntries(entries, indefinite) + ([BREAK] + rest), d) == Ok(result, rest)
  }

  /** `d` after the entries have been assigned one by one. */
  function Assigned(d: Dict<Data, Data>, entries: seq<(Utf8, Option<Value>)>): Dict<Data, Data>
    decreases entries
  {
    if entries == [] then d else Assigned(d + MeaningOfEntry(entries[0]), entries[1..])
  }

  lemma {:induction false} AssignedIsAppended(d: Dict<Data, Data>, entries: seq<(Utf8, Option<Value>)>)
    ensures Assigned(d, entries) == d + MeaningOfEntries(entries)
    decreases entries
  {
    if entries == [] {
      assert d + MeaningOfEntries(entries) == d;
    } else {
      var first, others := MeaningOfEntry(entries[0]), MeaningOfEntries(entries[1..]);
      AssignedIsAppended(d + first, entries[1..]);
      Assoc(d, first, others);
    }
  }

  lemma {:induction false} RoundTripEntries(
    entries: seq<(Utf8, Option<Value>)>, indefinite: bool, rest: seq<Byte>, d: Dict<Data, Data>)
    requires Sound(entries, indefinite) && Apart(d, entries)
    ensures ReadsBack(entries, indefinite, rest, d, Assigned(d, entries))
    decreases entries, 1
  {
    if entries == [] {
      NoMore(indefinite, rest, d);
    } else {
      StillApart(d, entries);
      RoundTripEntries(entries[1..], indefinite, rest, d + MeaningOfEntry(entries[0]));
      OneMore(entries, indefinite, rest, d, Assigned(d, entries));
    }
  }

  lemma NoMore(indefinite: bool, rest: seq<Byte>, d: Dict<Data, Data>)
    ensures ReadsBack([], indefinite, rest, d, d)
  {
  }

  lemma OneMore(entries: seq<(Utf8, Option<Value>)>, indefinite: bool, rest: seq<Byte>,
                d: Dict<Data, Data>, result: Dict<Data, Data>)
    requires entries != [] && Sound(entries, indefinite) && Apart(d, entries)
    requires ReadsBack(entries[1..], indefinite, rest, d + MeaningOfEntry(entries[0]), result)
    ensures ReadsBack(entries, indefinite, rest, d, result)
    decreases entries, 0, 1
  {
    Turn(entries, indefinite, rest, d);
    Turn(entries, indefinite, [BREAK] + rest, d);
  }

  /** One printed entry takes either map loop one turn further; a null entry leaves it where it is. */
  lemma Turn(entries: seq<(Utf8, Option<Value>)>, indefinite: bool, rest: seq<Byte>, d: Dict<Data, Data>)
    requires entries != [] && Sound(entries, indefinite) && Apart(d, entries)
    ensures
      var s, t := EncodeEntries(entries, indefinite) + rest, EncodeEntries(entries[1..], indefinite) + rest;
      var d' := d + MeaningOfEntry(entries[0]);
      && ParseEntries(CountPresent(entries), s, d) == ParseEntries(CountPresent(entries[1..]), t, d')
      && ParseEntriesToBreak(s, d) == ParseEntriesToBreak(t, d')
    decreases entries, 0, 0
  {
    var e := entries[0];
    var first, t := EncodeEntry(e, indefinite), EncodeEntries(entries[1..], indefinite) + rest;
    Assoc(first, EncodeEntries(entries[1..], indefinite), rest);
    if e.1.Some? {
      assert entries[0] in entries;
      RoundTripEntry(e, indefinite, t, d);
      NeverStartsWithBreak(Text(e.0), indefinite);
      assert (first + t)[0] == EncodeText(e.0)[0];
      Step(CountPresent(entries[1..]), first + t, d);
    } else {
      assert first + t == t && d + MeaningOfEntry(e) == d;
    }
  }

  /** One turn of either map loop. */
  lemma Step(n: nat, s: seq<Byte>, d: Dict<Data, Data>)
    requires ParseEntry(s, d).Ok? && s[0] != BREAK
    ensures ParseEntries(n + 1, s, d) == ParseEntries(n, ParseEntry(s, d).rest, ParseEntry(s, d).value)
    ensures ParseEntriesToBreak(s, d) == ParseEntriesToBreak(ParseEntry(s, d).rest, ParseEntry(s, d).value)
  {
  }

  lemma StillApart(d: Dict<Data, Data>, entries: seq<(Utf8, Option<Value>)>)
    requires entries != [] && Apart(d, entries)
    ensures Apart(d + MeaningOfEntry(entries[0]), entries[1..])
  {
  }

  lemma RoundTripEntry(e: (Utf8, Option<Value>), indefinite: bool, rest: seq<Byte>, d: Dict<Data, Data>)
    requires e.1.Some? && Valid(e.1.value) && EntryEncodable(e, indefinite) && !HasKey(d, DText(e.0))
    ensures ParseEntry(EncodeEntry(e, indefinite) + rest, d) == Ok(d + MeaningOfEntry(e), rest)
    decreases e, 0
  {
    var key, value := EncodeText(e.0), Encode(e.1.value, indefinite);
    assert key + value + rest == key + (value + rest);
    RoundTripText(e.0, value + rest);
    RoundTrip(e.1.value, indefinite, rest);
    MeaningIsThere(e.1.value);
    ReadEntry(key + (value + rest), value + rest, rest, DText(e.0), Meaning(e.1.value), d);
  }

  lemma MeaningIsThere(v: Value)
    ensures Meaning(v) != DNone
  {
  }

  /** A key that is new, and a value. */
  lemma ReadEntry(s: seq<Byte>, t: seq<Byte>, rest: seq<Byte>, key: Data, value: Data, d: Dict<Data, Data>)
    requires ParseItem(s) == Ok(key, t) && ParseItem(t) == Ok(value, rest)
    requires value != DNone && Hashable(key) && !HasKey(d, key)
    ensures ParseEntry(s, d) == Ok(d + [(key, value)], rest)
  {
    SetFresh(d, key, value);
  }

  // ---------------------------------------------------------------- consequences

  /** Definite or indefinite containers: the decoded value is the same. */
  lemma FormIndependence(v: Value, rest: seq<Byte>)
    requires Valid(v) && Encodable(v, false)
    ensures Encodable(v, true)
    ensures ParseItem(Encode(v, false) + rest) == ParseItem(Encode(v, true) + rest)
  {
    EncodableEitherWay(v);
    RoundTrip(v, false, rest);
    RoundTrip(v, true, rest);
  }

  lemma {:induction false} EncodableEitherWay(v: Value)
    requires Encodable(v, false)
    ensures Encodable(v, true)
  {
    match v
    case List(items) =>
      forall x | x in items ensures Encodable(x, true) { EncodableEitherWay(x); }
    case Map(entries) =>
      forall e | e in entries ensures EntryEncodable(e, true) {
        assert EntryEncodable(e, false);
        if e.1.Some? { EncodableEitherWay(e.1.value); }
      }
    case Struct(entries) =>
      forall e | e in entries ensures EntryEncodable(e, true) {
        assert EntryEncodable(e, false);
        if e.1.Some? { EncodableEitherWay(e.1.value); }
      }
    case _ =>
  }

  /** Two printed items that agree on a common byte sequence have the same meaning and
      the same end: no encoding is a proper prefix of another one. */
  lemma PrefixFree(v: Value, w: Value, iv: bool, iw: bool, rv: seq<Byte>, rw: seq<Byte>)
    requires Valid(v) && Encodable(v, iv) && Valid(w) && Encodable(w, iw)
    requires Encode(v, iv) + rv == Encode(w, iw) + rw
    ensures Meaning(v) == Meaning(w) && rv == rw && Encode(v, iv) == Encode(w, iw)
  {
    RoundTrip(v, iv, rv);
    RoundTrip(w, iw, rw);
    var s := Encode(v, iv) + rv;
    assert Encode(v, iv) == s[..|s| - |rv|] && Encode(w, iw) == s[..|s| - |rv|];
  }

  // ---------------------------------------------------------------- every input

  /** A definite count never makes the parser go on beyond the bytes that are there. */
  lemma {:induction false} CountBoundedByInput(n: nat, s: seq<Byte>)
    ensures var r := ParseItems(n, s); r.Ok? ==> |r.value| == n && n <= |s| - |r.rest|
    ensures forall d :: var r := ParseEntries(n, s, d); r.Ok? ==> n <= |s| - |r.rest|
    decreases |s|, n
  {
    if n > 0 {
      var item := ParseItem(s);
      if item.Ok? { CountBoundedByInput(n - 1, item.rest); }
      forall d ensures var r := ParseEntries(n, s, d); r.Ok? ==> n <= |s| - |r.rest| {
        var entry := ParseEntry(s, d);
        if entry.Ok? { CountBoundedByInput(n - 1, entry.rest); }
      }
    }
  }
}
