/** The CBOR serializer and parser as the LocalStack classes work: methods that extend a byte
    buffer and methods that advance a stream cursor, each proved against its function. */
module CborCode {
  import opened BigEndian
  import opened PyDict
  import opened Unicode
  import opened Sequences
  import opened CborModel
  import opened CborTheorems

  // ---------------------------------------------------------------- serializer

  class ByteArray {
    var data: seq<Byte>

    constructor ()
      ensures data == []
    {
      data := [];
    }

    method Extend(more: seq<Byte>)
      modifies this
      ensures data == old(data) + more
    {
      data := data + more;
    }
  }

  /** Whether `bytes` was appended; a failed call may leave a part of it behind. */
  twostate predicate Appended(serialized: ByteArray, ok: bool, bytes: seq<Byte>)
    reads serialized
  {
    && (ok ==> serialized.data == old(serialized.data) + bytes)
    && old(serialized.data) <= serialized.data
  }

  /** Appends an initial byte and its argument; fails when the argument needs more than eight bytes. */
  method SerializeHead(serialized: ByteArray, major: nat, n: nat) returns (ok: bool)
    requires major < 8
    modifies serialized
    ensures ok <==> n < LIMIT
    ensures Appended(serialized, ok, Head(major, n))
  {
    if n >= LIMIT {
      return false;
    }
    serialized.Extend([InitialByte(major, Info(n))] + ToBytes(n, Width(n)));
    return true;
  }

  method SerializeInteger(serialized: ByteArray, value: int) returns (ok: bool)
    modifies serialized
    ensures ok <==> Encodable(Int(value), true)
    ensures Appended(serialized, ok, Encode(Int(value), true))
  {
    var major, n := UNSIGNED, value;
    if value < 0 {
      major, n := NEGATIVE, -1 - value;
    }
    ok := SerializeHead(serialized, major, n);
  }

  method SerializeBytes(serialized: ByteArray, major: nat, value: seq<Byte>) returns (ok: bool)
    requires major < 8
    modifies serialized
    ensures ok <==> |value| < LIMIT
    ensures Appended(serialized, ok, Head(major, |value|) + value)
  {
    ok := SerializeHead(serialized, major, |value|);
    if ok {
      serialized.Extend(value);
      assert old(serialized.data) + Head(major, |value|) + value
          == old(serialized.data) + (Head(major, |value|) + value);
    }
  }

  method SerializeOpening(serialized: ByteArray, major: nat, n: nat, indefinite: bool) returns (ok: bool)
    requires major < 8
    modifies serialized
    ensures ok <==> (indefinite || n < LIMIT)
    ensures Appended(serialized, ok, Opening(major, n, indefinite))
  {
    if indefinite {
      serialized.Extend([InitialByte(major, INDEFINITE)]);
      return true;
    }
    ok := SerializeHead(serialized, major, n);
  }

  /** `_serialize_data_item`: dispatches on the kind of value. */
  method SerializeItem(serialized: ByteArray, value: Value, indefinite: bool) returns (ok: bool)
    requires Valid(value)
    modifies serialized
    ensures ok <==> Encodable(value, indefinite)
    ensures Appended(serialized, ok, Encode(value, indefinite))
    decreases value, 2
  {
    match value
    case Int(i) => ok := SerializeInteger(serialized, i);
    case Blob(b) => ok := SerializeBytes(serialized, BLOB, b);
    case Text(t) => ok := SerializeBytes(serialized, STRING, t);
    case Bool(p) =>
      serialized.Extend([InitialByte(SIMPLE, if p then 21 else 20)]);
      ok := true;
    case Single(f) =>
      serialized.Extend(EncodeFloat(f));
      ok := true;
    case Double(d) =>
      serialized.Extend(EncodeFloat(d));
      ok := true;
    case Timestamp(seconds) =>
      serialized.Extend([InitialByte(TAG, 1)]);
      serialized.Extend([InitialByte(SIMPLE, 27)] + seconds);
      ok := true;
      assert serialized.data == old(serialized.data) + Encode(value, indefinite);
    case List(items) => ok := SerializeList(serialized, items, indefinite);
    case Map(entries) => ok := SerializeMap(serialized, entries, indefinite);
    case Struct(entries) => ok := SerializeStructure(serialized, entries, indefinite);
  }

  method SerializeList(serialized: ByteArray, items: seq<Value>, indefinite: bool) returns (ok: bool)
    requires forall x | x in items :: Valid(x)
    modifies serialized
    ensures ok <==> Encodable(List(items), indefinite)
    ensures Appended(serialized, ok, Encode(List(items), indefinite))
    decreases items, 1
  {
    ghost var before := serialized.data;
    ok := SerializeOpening(serialized, LIST, |items|, indefinite);
    if ok {
      ok := SerializeItems(serialized, items, indefinite);
    }
    if ok {
      Close(serialized, indefinite);
      Regroup(before, Opening(LIST, |items|, indefinite), EncodeItems(items, indefinite), Closing(indefinite));
      Regroup([], Opening(LIST, |items|, indefinite), EncodeItems(items, indefinite), Closing(indefinite));
    }
  }

  method Close(serialized: ByteArray, indefinite: bool)
    modifies serialized
    ensures serialized.data == old(serialized.data) + Closing(indefinite)
  {
    if indefinite {
      serialized.Extend([BREAK]);
    }
  }

  method SerializeItems(serialized: ByteArray, items: seq<Value>, indefinite: bool) returns (ok: bool)
    requires forall x | x in items :: Valid(x)
    modifies serialized
    ensures ok <==> forall x | x in items :: Encodable(x, indefinite)
    ensures Appended(serialized, ok, EncodeItems(items, indefinite))
    decreases items, 0
  {
    for i := 0 to |items|
      invariant serialized.data == old(serialized.data) + EncodeItems(items[..i], indefinite)
      invariant forall j | 0 <= j < i :: Encodable(items[j], indefinite)
    {
      ok := SerializeItem(serialized, items[i], indefinite);
      if !ok {
        return;
      }
      ItemsUpTo(items, i, indefinite, old(serialized.data));
    }
    assert items[..|items|] == items;
    ok := true;
  }

  lemma {:induction false} ItemsSnoc(items: seq<Value>, x: Value, indefinite: bool)
    ensures EncodeItems(items + [x], indefinite) == EncodeItems(items, indefinite) + Encode(x, indefinite)
  {
    if items == [] {
      assert EncodeItems([x], indefinite) == Encode(x, indefinite) + EncodeItems([x][1..], indefinite);
    } else {
      assert (items + [x])[1..] == items[1..] + [x];
      ItemsSnoc(items[1..], x, indefinite);
    }
  }

  lemma OneEntry(e: (Utf8, Option<Value>), indefinite: bool)
    ensures EncodeEntries([e], indefinite) == EncodeEntry(e, indefinite)
  {
    assert [e][1..] == [];
    assert EncodeEntries([e], indefinite) == EncodeEntry(e, indefinite) + [];
  }

  lemma {:induction false} EntriesSnoc(entries: seq<(Utf8, Option<Value>)>, e: (Utf8, Option<Value>), indefinite: bool)
    ensures EncodeEntries(entries + [e], indefinite) == EncodeEntries(entries, indefinite) + EncodeEntry(e, indefinite)
  {
    if entries == [] {
      assert [] + [e] == [e];
      OneEntry(e, indefinite);
    } else {
      assert (entries + [e])[1..] == entries[1..] + [e];
      EntriesSnoc(entries[1..], e, indefinite);
      Assoc(EncodeEntry(entries[0], indefinite), EncodeEntries(entries[1..], indefinite), EncodeEntry(e, indefinite));
    }
  }

  lemma {:induction false} PresentSnoc(entries: seq<(Utf8, Option<Value>)>, e: (Utf8, Option<Value>))
    ensures CountPresent(entries + [e]) == CountPresent(entries) + if e.1.Some? then 1 else 0
  {
    if entries == [] {
      assert CountPresent([e]) == (if e.1.Some? then 1 else 0) + CountPresent([e][1..]);
    } else {
      assert (entries + [e])[1..] == entries[1..] + [e];
      PresentSnoc(entries[1..], e);
    }
  }

  lemma ItemsUpTo(items: seq<Value>, i: nat, indefinite: bool, before: seq<Byte>)
    requires i < |items|
    ensures before + EncodeItems(items[..i + 1], indefinite)
         == before + EncodeItems(items[..i], indefinite) + Encode(items[i], indefinite)
  {
    assert items[..i + 1] == items[..i] + [items[i]];
    ItemsSnoc(items[..i], items[i], indefinite);
    Assoc(before, EncodeItems(items[..i], indefinite), Encode(items[i], indefinite));
  }

  lemma EntriesUpTo(entries: seq<(Utf8, Option<Value>)>, i: nat, indefinite: bool, before: seq<Byte>)
    requires i < |entries|
    ensures before + EncodeEntries(entries[..i + 1], indefinite)
         == before + EncodeEntries(entries[..i], indefinite) + EncodeEntry(entries[i], indefinite)
  {
    assert entries[..i + 1] == entries[..i] + [entries[i]];
    EntriesSnoc(entries[..i], entries[i], indefinite);
    Assoc(before, EncodeEntries(entries[..i], indefinite), EncodeEntry(entries[i], indefinite));
  }

  method SerializeEntry(serialized: ByteArray, e: (Utf8, Option<Value>), indefinite: bool) returns (ok: bool)
    requires e.1.Some? ==> Valid(e.1.value)
    modifies serialized
    ensures ok <==> EntryEncodable(e, indefinite)
    ensures Appended(serialized, ok, EncodeEntry(e, indefinite))
    decreases e, 0
  {
    if e.1.None? {
      return true;
    }
    ghost var before := serialized.data;
    ok := SerializeBytes(serialized, STRING, e.0);
    if ok {
      ok := SerializeItem(serialized, e.1.value, indefinite);
      assert before + EncodeText(e.0) + Encode(e.1.value, indefinite) == before + EncodeEntry(e, indefinite);
    }
  }

  /** The loop over the items of a dict: the key and then the value, unless it is null. */
  method SerializeEntries(serialized: ByteArray, entries: seq<(Utf8, Option<Value>)>, indefinite: bool) returns (ok: bool)
    requires forall e | e in entries :: e.1.Some? ==> Valid(e.1.value)
    modifies serialized
    ensures ok <==> forall e | e in entries :: EntryEncodable(e, indefinite)
    ensures Appended(serialized, ok, EncodeEntries(entries, indefinite))
    decreases entries, 0
  {
    for i := 0 to |entries|
      invariant serialized.data == old(serialized.data) + EncodeEntries(entries[..i], indefinite)
      invariant forall j | 0 <= j < i :: EntryEncodable(entries[j], indefinite)
    {
      ok := SerializeEntry(serialized, entries[i], indefinite);
      if !ok {
        return;
      }
      EntriesUpTo(entries, i, indefinite, old(serialized.data));
    }
    assert entries[..|entries|] == entries;
    ok := true;
  }

  method SerializeMap(serialized: ByteArray, entries: seq<(Utf8, Option<Value>)>, indefinite: bool) returns (ok: bool)
    requires Valid(Map(entries))
    modifies serialized
    ensures ok <==> Encodable(Map(entries), indefinite)
    ensures Appended(serialized, ok, Encode(Map(entries), indefinite))
    decreases entries, 1
  {
    ghost var before := serialized.data;
    ok := SerializeOpening(serialized, MAP, |entries|, indefinite);
    if ok {
      ok := SerializeEntries(serialized, entries, indefinite);
    }
    if ok {
      Close(serialized, indefinite);
      Regroup(before, Opening(MAP, |entries|, indefinite), EncodeEntries(entries, indefinite), Closing(indefinite));
    }
  }

  /** `{k: v for k, v in value.items() if v is not None}`: how many members are left. */
  method CountMembers(entries: seq<(Utf8, Option<Value>)>) returns (present: nat)
    ensures present == CountPresent(entries)
  {
    present := 0;
    for i := 0 to |entries|
      invariant present == CountPresent(entries[..i])
    {
      PresentSnoc(entries[..i], entries[i]);
      assert entries[..i + 1] == entries[..i] + [entries[i]];
      if entries[i].1.Some? {
        present := present + 1;
      }
    }
    assert entries[..|entries|] == entries;
  }

  /** Null members are removed before the head is written. */
  method SerializeStructure(serialized: ByteArray, entries: seq<(Utf8, Option<Value>)>, indefinite: bool) returns (ok: bool)
    requires Valid(Struct(entries))
    modifies serialized
    ensures ok <==> Encodable(Struct(entries), indefinite)
    ensures Appended(serialized, ok, Encode(Struct(entries), indefinite))
    decreases entries, 1
  {
    ghost var before := serialized.data;
    var present := CountMembers(entries);
    ok := SerializeOpening(serialized, MAP, present, indefinite);
    if ok {
      ok := SerializeEntries(serialized, entries, indefinite);
    }
    if ok {
      Close(serialized, indefinite);
      Regroup(before, Opening(MAP, present, indefinite), EncodeEntries(entries, indefinite), Closing(indefinite));
    }
  }

  // ---------------------------------------------------------------- parser

  class Stream {
    const data: seq<Byte>
    var pos: nat

    ghost predicate Valid()
      reads this
    {
      pos <= |data|
    }

    ghost function Rest(): seq<Byte>
      reads this
      requires Valid()
    {
      data[pos..]
    }

    constructor (bytes: seq<Byte>)
      ensures Valid() && Rest() == bytes
    {
      data := bytes;
      pos := 0;
    }

    /** `_read_from_stream`: all of `n` bytes, or an error. */
    method Read(n: nat) returns (r: Result<seq<Byte>>)
      requires Valid()
      modifies this
      ensures Valid() && Matches(r, Take(old(Rest()), n), Rest())
    {
      if |data| - pos < n {
        pos := |data|;
        return Failure(EndOfStream);
      }
      r := Success(data[pos..pos + n]);
      assert Rest()[..n] == data[pos..pos + n] && Rest()[n..] == data[pos + n..];
      pos := pos + n;
    }

    /** `_handle_break_code`: peeks, and steps over a break byte. */
    method HandleBreak() returns (found: bool)
      requires Valid()
      modifies this
      ensures Valid()
      ensures found <==> old(Rest()) != [] && old(Rest())[0] == BREAK
      ensures Rest() == if found then old(Rest())[1..] else old(Rest())
    {
      if pos < |data| && data[pos] == BREAK {
        assert data[pos..][1..] == data[pos + 1..];
        pos := pos + 1;
        return true;
      }
      return false;
    }
  }

  datatype Result<T> = Success(value: T) | Failure(error: Error) {
    predicate IsFailure() { Failure? }
    function PropagateFailure<U>(): Result<U>
      requires Failure?
    {
      Failure(error)
    }
    function Extract(): T
      requires Success?
    {
      value
    }
  }

  /** A method's outcome and the bytes it left are those of the function. */
  ghost predicate Matches<T>(r: Result<T>, spec: Parsed<T>, rest: seq<Byte>) {
    match spec
    case Ok(v, s) => r == Success(v) && rest == s
    case Err(e) => r == Failure(e)
  }

  method ReadByte(stream: Stream) returns (r: Result<Byte>)
    requires stream.Valid()
    modifies stream
    ensures stream.Valid()
    ensures
      var s := old(stream.Rest());
      if s == [] then r == Failure(EndOfStream) else r == Success(s[0]) && stream.Rest() == s[1..]
  {
    var bytes :- stream.Read(1);
    return Success(bytes[0]);
  }

  method ReadUnsigned(stream: Stream, info: nat) returns (r: Result<nat>)
    requires stream.Valid()
    modifies stream
    ensures stream.Valid() && Matches(r, ParseUnsigned(info, old(stream.Rest())), stream.Rest())
  {
    if info < 24 {
      return Success(info);
    } else if info <= 27 {
      var bytes :- stream.Read(if info == 24 then 1 else if info == 25 then 2 else if info == 26 then 4 else 8);
      return Success(FromBytes(bytes));
    }
    return Failure(InvalidInfo);
  }

  function Join(chunks: seq<seq<Byte>>): seq<Byte> {
    if chunks == [] then [] else Join(chunks[..|chunks| - 1]) + chunks[|chunks| - 1]
  }

  function After<T>(before: seq<T>, r: Parsed<seq<T>>): (s: Parsed<seq<T>>)
    ensures before == [] ==> s == r
  {
    if r.Ok? then assert before == [] ==> before + r.value == r.value; Ok(before + r.value, r.rest) else r
  }

  method ReadChunk(stream: Stream) returns (r: Result<seq<Byte>>)
    requires stream.Valid()
    modifies stream
    ensures stream.Valid() && Matches(r, ParseChunk(old(stream.Rest())), stream.Rest())
  {
    var b :- ReadByte(stream);
    var length :- ReadUnsigned(stream, b % 32);
    r := stream.Read(length);
  }

  method ReadBytes(stream: Stream, info: nat) returns (r: Result<seq<Byte>>)
    requires stream.Valid()
    modifies stream
    ensures stream.Valid() && Matches(r, ParseBytes(info, old(stream.Rest())), stream.Rest())
  {
    if info != INDEFINITE {
      var length :- ReadUnsigned(stream, info);
      r := stream.Read(length);
      return;
    }
    var chunks: seq<seq<Byte>> := [];
    while true
      invariant stream.Valid()
      invariant ParseChunks(old(stream.Rest())) == After(Join(chunks), ParseChunks(stream.Rest()))
      decreases |stream.Rest()|
    {
      ghost var joined := Join(chunks);
      var found := stream.HandleBreak();
      if found {
        assert joined + [] == joined;
        return Success(Join(chunks));
      }
      var chunk :- ReadChunk(stream);
      chunks := chunks + [chunk];
      JoinSnoc(chunks, joined, chunk, ParseChunks(stream.Rest()));
    }
  }

  lemma JoinSnoc(chunks: seq<seq<Byte>>, joined: seq<Byte>, chunk: seq<Byte>, r: Parsed<seq<Byte>>)
    requires chunks != [] && Join(chunks[..|chunks| - 1]) == joined && chunks[|chunks| - 1] == chunk
    ensures After(joined, After(chunk, r)) == After(Join(chunks), r)
  {
    if r.Ok? {
      Assoc(joined, chunk, r.value);
    }
  }

  /** `parse_data_item` and the methods it dispatches to. */
  method ReadItem(stream: Stream) returns (r: Result<Data>)
    requires stream.Valid()
    modifies stream
    ensures stream.Valid() && Matches(r, ParseItem(old(stream.Rest())), stream.Rest())
    decreases |stream.Rest()|, 0
  {
    var b :- ReadByte(stream);
    r := ReadBody(stream, b / 32, b % 32);
  }

  method ReadBody(stream: Stream, major: nat, info: nat) returns (r: Result<Data>)
    requires stream.Valid() && major < 8
    modifies stream
    ensures stream.Valid() && Matches(r, ParseBody(major, info, old(stream.Rest())), stream.Rest())
    decreases |stream.Rest()|, 4
  {
    if major == UNSIGNED {
      var n :- ReadUnsigned(stream, info);
      return Success(DInt(n));
    } else if major == NEGATIVE {
      var n: int :- ReadUnsigned(stream, info);
      return Success(DInt(-1 - n));
    } else if major == BLOB {
      var b :- ReadBytes(stream, info);
      return Success(DBytes(b));
    } else if major == STRING {
      var t :- ReadBytes(stream, info);
      return if ValidUtf8(t) then Success(DText(t)) else Failure(NotUtf8);
    } else if major == LIST {
      var items :- ReadList(stream, info);
      return Success(DList(items));
    } else if major == MAP {
      var entries :- ReadMap(stream, info);
      return Success(DDict(entries));
    } else if major == TAG {
      r := ReadTag(stream, info);
    } else {
      r := ReadSimple(stream, info);
    }
  }

  method ReadTag(stream: Stream, info: nat) returns (r: Result<Data>)
    requires stream.Valid()
    modifies stream
    ensures stream.Valid() && Matches(r, ParseBody(TAG, info, old(stream.Rest())), stream.Rest())
    decreases |stream.Rest()|, 3
  {
    var tag :- ReadUnsigned(stream, info);
    var v :- ReadItem(stream);
    if tag != 1 {
      return Failure(UnsupportedTag);
    }
    return if IsNumber(v) then Success(DTime(v)) else Failure(NotANumber);
  }

  method ReadSimple(stream: Stream, info: nat) returns (r: Result<Data>)
    requires stream.Valid()
    modifies stream
    ensures stream.Valid() && Matches(r, Simple(info, old(stream.Rest())), stream.Rest())
  {
    if info == 20 || info == 21 {
      return Success(DBool(info == 21));
    } else if info == 22 || info == 23 {
      return Success(DNone);
    } else if 25 <= info <= 27 {
      var bits :- stream.Read(if info == 25 then 2 else if info == 26 then 4 else 8);
      return Success(DFloat(Classify(bits)));
    }
    return Failure(UnsupportedSimple);
  }

  method ReadList(stream: Stream, info: nat) returns (r: Result<seq<Data>>)
    requires stream.Valid()
    modifies stream
    ensures stream.Valid() && Matches(r, ParseList(info, old(stream.Rest())), stream.Rest())
    decreases |stream.Rest()|, 3
  {
    var items: seq<Data> := [];
    if info != INDEFINITE {
      var length :- ReadUnsigned(stream, info);
      ghost var start := stream.Rest();
      var i := 0;
      while i < length
        invariant stream.Valid() && |stream.Rest()| <= |old(stream.Rest())|
        invariant i <= length
        invariant ParseItems(length, start) == After(items, ParseItems(length - i, stream.Rest()))
      {
        var x :- ReadItem(stream);
        assert forall more :: items + ([x] + more) == items + [x] + more;
        items, i := items + [x], i + 1;
      }
      assert items + [] == items;
      return Success(items);
    }
    while true
      invariant stream.Valid() && |stream.Rest()| <= |old(stream.Rest())|
      invariant ParseItemsToBreak(old(stream.Rest())) == After(items, ParseItemsToBreak(stream.Rest()))
      decreases |stream.Rest()|
    {
      var found := stream.HandleBreak();
      if found {
        assert items + [] == items;
        return Success(items);
      }
      var x :- ReadItem(stream);
      assert forall more :: items + ([x] + more) == items + [x] + more;
      items := items + [x];
    }
  }

  /** `_parse_type_key_value_pair`: assigns into the dict in place. */
  method ReadEntry(stream: Stream, items: Dict<Data, Data>) returns (r: Result<Dict<Data, Data>>)
    requires stream.Valid()
    modifies stream
    ensures stream.Valid() && Matches(r, ParseEntry(old(stream.Rest()), items), stream.Rest())
    decreases |stream.Rest()|, 1
  {
    var key :- ReadItem(stream);
    var value :- ReadItem(stream);
    if value == DNone {
      return Success(items);
    }
    return if Hashable(key) then Success(Set(items, key, value)) else Failure(Unhashable);
  }

  method ReadMap(stream: Stream, info: nat) returns (r: Result<Dict<Data, Data>>)
    requires stream.Valid()
    modifies stream
    ensures stream.Valid() && Matches(r, ParseMap(info, old(stream.Rest())), stream.Rest())
    decreases |stream.Rest()|, 3
  {
    var items: Dict<Data, Data> := [];
    if info != INDEFINITE {
      var length :- ReadUnsigned(stream, info);
      ghost var start := stream.Rest();
      var i := 0;
      while i < length
        invariant stream.Valid() && |stream.Rest()| <= |old(stream.Rest())|
        invariant i <= length
        invariant ParseEntries(length, start, []) == ParseEntries(length - i, stream.Rest(), items)
      {
        items :- ReadEntry(stream, items);
        i := i + 1;
      }
      return Success(items);
    }
    while true
      invariant stream.Valid() && |stream.Rest()| <= |old(stream.Rest())|
      invariant ParseEntriesToBreak(old(stream.Rest()), []) == ParseEntriesToBreak(stream.Rest(), items)
      decreases |stream.Rest()|
    {
      var found := stream.HandleBreak();
      if found {
        return Success(items);
      }
      items :- ReadEntry(stream, items);
    }
  }

  /** Serializing into a fresh buffer and reading a stream of those bytes gives the value back. */
  method Transmit(value: Value, indefinite: bool, trailing: seq<Byte>) returns (ok: bool, r: Result<Data>)
    requires Valid(value)
    ensures ok <==> Encodable(value, indefinite)
    ensures ok ==> r == Success(Meaning(value))
  {
    var serialized := new ByteArray();
    ok := SerializeItem(serialized, value, indefinite);
    r := Failure(EndOfStream);
    if ok {
      assert serialized.data == Encode(value, indefinite);
      var stream := new Stream(serialized.data + trailing);
      RoundTrip(value, indefinite, trailing);
      r := ReadItem(stream);
    }
  }
}
