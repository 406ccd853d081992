/** The CBOR printer of `BaseCBORResponseSerializer` and the CBOR parser of
    `BaseCBORRequestParser`, as functions on byte sequences. The loops and the mutable
    buffer and stream of LocalStack are in `CborCode`, proved equal to these. */
module CborModel {
  import opened BigEndian
  import opened PyDict
  import opened Unicode

  // ---------------------------------------------------------------- values

  type Bits32 = s: seq<Byte> | |s| == 4 witness [0, 0, 0, 0]
  type Bits64 = s: seq<Byte> | |s| == 8 witness [0, 0, 0, 0, 0, 0, 0, 0]
  type Utf8 = s: seq<Byte> | ValidUtf8(s) witness []

  /** A floating-point number: the infinities and NaN are told apart, every other
      number is kept as its IEEE 754 bit pattern in the width it was sent in. */
  datatype Float = PosInf | NegInf | NaN | Finite(bits: seq<Byte>)

  /** What a service hands to the serializer, with the kind its shape gives it.
      A structure member may be null; a map has no null values (see `Valid`). */
  datatype Value =
    | Int(i: int)
    | Blob(b: seq<Byte>)
    | Text(t: Utf8)
    | Bool(p: bool)
    | Single(f: Bits32)
    | Double(d: Bits64)
    | Timestamp(seconds: Bits64)
    | List(items: seq<Value>)
    | Map(entries: seq<(Utf8, Option<Value>)>)
    | Struct(entries: seq<(Utf8, Option<Value>)>)

  /** What the parser returns. `DDict` is a Python dict in insertion order and `DTime`
      the datetime computed from the number it holds. */
  datatype Data =
    | DInt(i: int)
    | DBytes(b: seq<Byte>)
    | DText(t: Utf8)
    | DBool(p: bool)
    | DNone
    | DFloat(f: Float)
    | DTime(seconds: Data)
    | DList(items: seq<Data>)
    | DDict(entries: seq<(Data, Data)>)

  /** Python dicts have distinct keys; map values are never null; timestamps are numbers. */
  predicate Valid(v: Value) {
    match v
    case List(items) => forall x | x in items :: Valid(x)
    case Map(entries) =>
      && DistinctKeys(entries)
      && forall e | e in entries :: e.1.Some? && Valid(e.1.value)
    case Struct(entries) =>
      && DistinctKeys(entries)
      && forall e | e in entries :: e.1.Some? ==> Valid(e.1.value)
    case Timestamp(seconds) => Classify(seconds).Finite?
    case _ => true
  }

  predicate DistinctKeys(entries: seq<(Utf8, Option<Value>)>) {
    forall i, j :: 0 <= i < j < |entries| ==> entries[i].0 != entries[j].0
  }

  // ---------------------------------------------------------------- floats

  /** Splits IEEE 754 bit patterns of 2, 4 or 8 bytes into numbers, infinities and NaN. */
  function Classify(bits: seq<Byte>): Float
    requires |bits| == 2 || |bits| == 4 || |bits| == 8
  {
    var top := bits[0] % 128;
    var allOnes := if |bits| == 2 then top / 4 == 31
                   else if |bits| == 4 then top == 127 && bits[1] >= 128
                   else top == 127 && bits[1] >= 240;
    var fraction := if |bits| == 2 then [top % 4] + bits[1..]
                    else if |bits| == 4 then [bits[1] % 128] + bits[2..]
                    else [bits[1] % 16] + bits[2..];
    if !allOnes then Finite(bits)
    else if exists x | x in fraction :: x != 0 then NaN
    else if bits[0] < 128 then PosInf
    else NegInf
  }

  // ---------------------------------------------------------------- printing

  const UNSIGNED := 0
  const NEGATIVE := 1
  const BLOB := 2
  const STRING := 3
  const LIST := 4
  const MAP := 5
  const TAG := 6
  const SIMPLE := 7
  const INDEFINITE := 31
  const BREAK: Byte := 0xFF
  const LIMIT := 0x1_0000_0000_0000_0000  // arguments must fit in eight bytes

  /** `major_type << 5 | additional_info`. */
  function InitialByte(major: nat, info: nat): Byte
    requires major < 8 && info < 32
  {
    major * 32 + info
  }

  function Info(n: nat): (r: nat)
    ensures r < 28
  {
    if n < 24 then n else if n < 0x100 then 24 else if n < 0x1_0000 then 25
    else if n < 0x1_0000_0000 then 26 else 27
  }

  function Width(n: nat): nat {
    if n < 24 then 0 else if n < 0x100 then 1 else if n < 0x1_0000 then 2
    else if n < 0x1_0000_0000 then 4 else 8
  }

  /** The head of a data item: initial byte and argument, section 3 of RFC 8949. */
  function Head(major: nat, n: nat): seq<Byte>
    requires major < 8
  {
    [InitialByte(major, Info(n))] + ToBytes(n, Width(n))
  }

  function Opening(major: nat, n: nat, indefinite: bool): seq<Byte>
    requires major < 8
  {
    if indefinite then [InitialByte(major, INDEFINITE)] else Head(major, n)
  }

  function Closing(indefinite: bool): seq<Byte> {
    if indefinite then [BREAK] else []
  }

  function EncodeFloat(bits: seq<Byte>): seq<Byte>
    requires |bits| == 4 || |bits| == 8
  {
    match Classify(bits)
    case PosInf => [InitialByte(SIMPLE, 25), 0x7C, 0x00]
    case NegInf => [InitialByte(SIMPLE, 25), 0xFC, 0x00]
    case NaN => [InitialByte(SIMPLE, 25), 0x7E, 0x00]
    case Finite(_) => [InitialByte(SIMPLE, if |bits| == 4 then 26 else 27)] + bits
  }

  function EncodeText(t: Utf8): seq<Byte> {
    Head(STRING, |t|) + t
  }

  function Encode(v: Value, indefinite: bool): seq<Byte> {
    match v
    case Int(i) => if i >= 0 then Head(UNSIGNED, i) else Head(NEGATIVE, -1 - i)
    case Blob(b) => Head(BLOB, |b|) + b
    case Text(t) => EncodeText(t)
    case Bool(p) => [InitialByte(SIMPLE, if p then 21 else 20)]
    case Single(f) => EncodeFloat(f)
    case Double(d) => EncodeFloat(d)
    case Timestamp(seconds) => [InitialByte(TAG, 1), InitialByte(SIMPLE, 27)] + seconds
    case List(items) =>
      Opening(LIST, |items|, indefinite) + EncodeItems(items, indefinite) + Closing(indefinite)
    case Map(entries) =>
      Opening(MAP, |entries|, indefinite) + EncodeEntries(entries, indefinite) + Closing(indefinite)
    case Struct(entries) =>
      Opening(MAP, CountPresent(entries), indefinite) + EncodeEntries(entries, indefinite) + Closing(indefinite)
  }

  function EncodeItems(items: seq<Value>, indefinite: bool): seq<Byte> {
    if items == [] then [] else Encode(items[0], indefinite) + EncodeItems(items[1..], indefinite)
  }

  /** Null members leave no trace. */
  function EncodeEntries(entries: seq<(Utf8, Option<Value>)>, indefinite: bool): seq<Byte> {
    if entries == [] then []
    else EncodeEntry(entries[0], indefinite) + EncodeEntries(entries[1..], indefinite)
  }

  function EncodeEntry(e: (Utf8, Option<Value>), indefinite: bool): seq<Byte> {
    if e.1.None? then [] else EncodeText(e.0) + Encode(e.1.value, indefinite)
  }

  function CountPresent(entries: seq<(Utf8, Option<Value>)>): nat {
    if entries == [] then 0 else (if entries[0].1.Some? then 1 else 0) + CountPresent(entries[1..])
  }

  /** When `int.to_bytes(8, "big")` never overflows while printing `v`. */
  predicate Encodable(v: Value, indefinite: bool) {
    match v
    case Int(i) => -LIMIT <= i < LIMIT
    case Blob(b) => |b| < LIMIT
    case Text(t) => |t| < LIMIT
    case List(items) =>
      && (indefinite || |items| < LIMIT)
      && forall x | x in items :: Encodable(x, indefinite)
    case Map(entries) =>
      && (indefinite || |entries| < LIMIT)
      && forall e | e in entries :: EntryEncodable(e, indefinite)
    case Struct(entries) =>
      && (indefinite || CountPresent(entries) < LIMIT)
      && forall e | e in entries :: EntryEncodable(e, indefinite)
    case _ => true
  }

  predicate EntryEncodable(e: (Utf8, Option<Value>), indefinite: bool) {
    e.1.Some? ==> |e.0| < LIMIT && Encodable(e.1.value, indefinite)
  }

  /** What a value means to whoever decodes it, whatever bytes are chosen for it. */
  function Meaning(v: Value): Data {
    match v
    case Int(i) => DInt(i)
    case Blob(b) => DBytes(b)
    case Text(t) => DText(t)
    case Bool(p) => DBool(p)
    case Single(f) => DFloat(Classify(f))
    case Double(d) => DFloat(Classify(d))
    case Timestamp(seconds) => DTime(DFloat(Finite(seconds)))
    case List(items) => DList(MeaningOfItems(items))
    case Map(entries) => DDict(MeaningOfEntries(entries))
    case Struct(entries) => DDict(MeaningOfEntries(entries))
  }

  function MeaningOfItems(items: seq<Value>): seq<Data> {
    if items == [] then [] else [Meaning(items[0])] + MeaningOfItems(items[1..])
  }

  function MeaningOfEntries(entries: seq<(Utf8, Option<Value>)>): Dict<Data, Data> {
    if entries == [] then []
    else MeaningOfEntry(entries[0]) + MeaningOfEntries(entries[1..])
  }

  function MeaningOfEntry(e: (Utf8, Option<Value>)): Dict<Data, Data> {
    if e.1.None? then [] else [(DText(e.0), Meaning(e.1.value))]
  }

  // ---------------------------------------------------------------- parsing

  datatype Error =
    EndOfStream | InvalidInfo | UnsupportedTag | UnsupportedSimple | NotUtf8 | NotANumber | Unhashable

  /** The outcome of reading from the front of a byte sequence, with the bytes left over. */
  datatype Parsed<T> = Ok(value: T, rest: seq<Byte>) | Err(error: Error) {
    predicate IsFailure() { Err? }
    function PropagateFailure<U>(): Parsed<U>
      requires Err?
    {
      Err(error)
    }
    function Extract(): (T, seq<Byte>)
      requires Ok?
    {
      (value, rest)
    }
  }

  function Take(s: seq<Byte>, n: nat): (r: Parsed<seq<Byte>>)
    ensures r.Ok? ==> |r.rest| <= |s|
    ensures r.Ok? ==> |r.value| == n && r.value + r.rest == s
  {
    if n <= |s| then Ok(s[..n], s[n..]) else Err(EndOfStream)
  }

  function ParseUnsigned(info: nat, s: seq<Byte>): (r: Parsed<nat>)
    ensures r.Ok? ==> |r.rest| <= |s|
  {
    if info < 24 then Ok(info, s)
    else if info <= 27 then
      var (bytes, rest) :- Take(s, if info == 24 then 1 else if info == 25 then 2 else if info == 26 then 4 else 8);
      Ok(FromBytes(bytes), rest)
    else Err(InvalidInfo)
  }

  function ParseBytes(info: nat, s: seq<Byte>): (r: Parsed<seq<Byte>>)
    ensures r.Ok? ==> |r.rest| <= |s|
  {
    if info != INDEFINITE then
      var (length, rest) :- ParseUnsigned(info, s);
      Take(rest, length)
    else ParseChunks(s)
  }

  /** A chunk of an indefinite string; its major type is not looked at. */
  function ParseChunk(s: seq<Byte>): (r: Parsed<seq<Byte>>)
    ensures r.Ok? ==> |r.rest| < |s|
  {
    if s == [] then Err(EndOfStream)
    else
      var (length, t) :- ParseUnsigned(s[0] % 32, s[1..]);
      Take(t, length)
  }

  function ParseChunks(s: seq<Byte>): (r: Parsed<seq<Byte>>)
    ensures r.Ok? ==> |r.rest| <= |s|
    decreases |s|
  {
    if s != [] && s[0] == BREAK then Ok([], s[1..])
    else
      var (chunk, t) :- ParseChunk(s);
      var (chunks, rest) :- ParseChunks(t);
      Ok(chunk + chunks, rest)
  }

  predicate Hashable(d: Data) {
    !d.DList? && !d.DDict?
  }

  function Simple(info: nat, s: seq<Byte>): (r: Parsed<Data>)
    ensures r.Ok? ==> |r.rest| <= |s|
  {
    if info == 20 then Ok(DBool(false), s)
    else if info == 21 then Ok(DBool(true), s)
    else if info == 22 || info == 23 then Ok(DNone, s)
    else if 25 <= info <= 27 then
      var (bits, rest) :- Take(s, if info == 25 then 2 else if info == 26 then 4 else 8);
      Ok(DFloat(Classify(bits)), rest)
    else Err(UnsupportedSimple)
  }

  /** `datetime.fromtimestamp` takes integers (Python booleans among them) and finite floats. */
  predicate IsNumber(d: Data) {
    d.DInt? || d.DBool? || (d.DFloat? && d.f.Finite?)
  }

  /** One data item: initial byte, argument, content. */
  function ParseItem(s: seq<Byte>): (r: Parsed<Data>)
    ensures r.Ok? ==> |r.rest| < |s|
    decreases |s|, 0
  {
    if s == [] then Err(EndOfStream) else ParseBody(s[0] / 32, s[0] % 32, s[1..])
  }

  function ParseBody(major: nat, info: nat, s: seq<Byte>): (r: Parsed<Data>)
    requires major < 8
    ensures r.Ok? ==> |r.rest| <= |s|
    decreases |s|, 4
  {
    if major == UNSIGNED then
      var (n, rest) :- ParseUnsigned(info, s);
      Ok(DInt(n), rest)
    else if major == NEGATIVE then
      var (n, rest) :- ParseUnsigned(info, s);
      Ok(DInt(-1 - n), rest)
    else if major == BLOB then
      var (b, rest) :- ParseBytes(info, s);
      Ok(DBytes(b), rest)
    else if major == STRING then
      var (t, rest) :- ParseBytes(info, s);
      if ValidUtf8(t) then Ok(DText(t), rest) else Err(NotUtf8)
    else if major == LIST then
      var (items, rest) :- ParseList(info, s);
      Ok(DList(items), rest)
    else if major == MAP then
      var (entries, rest) :- ParseMap(info, s);
      Ok(DDict(entries), rest)
    else if major == TAG then
      var (tag, t) :- ParseUnsigned(info, s);
      var (v, rest) :- ParseItem(t);
      if tag != 1 then Err(UnsupportedTag) else if IsNumber(v) then Ok(DTime(v), rest) else Err(NotANumber)
    else Simple(info, s)
  }

  function ParseList(info: nat, s: seq<Byte>): (r: Parsed<seq<Data>>)
    ensures r.Ok? ==> |r.rest| <= |s|
    decreases |s|, 3
  {
    if info != INDEFINITE then
      var (n, t) :- ParseUnsigned(info, s);
      ParseItems(n, t)
    else ParseItemsToBreak(s)
  }

  function ParseMap(info: nat, s: seq<Byte>): (r: Parsed<Dict<Data, Data>>)
    ensures r.Ok? ==> |r.rest| <= |s|
    decreases |s|, 3
  {
    if info != INDEFINITE then
      var (n, t) :- ParseUnsigned(info, s);
      ParseEntries(n, t, [])
    else ParseEntriesToBreak(s, [])
  }

  function ParseItems(n: nat, s: seq<Byte>): (r: Parsed<seq<Data>>)
    ensures r.Ok? ==> |r.rest| <= |s|
    decreases |s|, 1
  {
    if n == 0 then Ok([], s)
    else
      var (x, t) :- ParseItem(s);
      var (xs, rest) :- ParseItems(n - 1, t);
      Ok([x] + xs, rest)
  }

  function ParseItemsToBreak(s: seq<Byte>): (r: Parsed<seq<Data>>)
    ensures r.Ok? ==> |r.rest| <= |s|
    decreases |s|, 1
  {
    if s != [] && s[0] == BREAK then Ok([], s[1..])
    else
      var (x, t) :- ParseItem(s);
      var (xs, rest) :- ParseItemsToBreak(t);
      Ok([x] + xs, rest)
  }

  /** Reads a key and a value and assigns the value unless it is null. */
  function ParseEntry(s: seq<Byte>, d: Dict<Data, Data>): (r: Parsed<Dict<Data, Data>>)
    ensures r.Ok? ==> |r.rest| < |s|
    decreases |s|, 1
  {
    var (key, t) :- ParseItem(s);
    var (value, rest) :- ParseItem(t);
    if value == DNone then Ok(d, rest)
    else if Hashable(key) then Ok(Set(d, key, value), rest)
    else Err(Unhashable)
  }

  function ParseEntries(n: nat, s: seq<Byte>, d: Dict<Data, Data>): (r: Parsed<Dict<Data, Data>>)
    ensures r.Ok? ==> |r.rest| <= |s|
    decreases |s|, 2
  {
    if n == 0 then Ok(d, s)
    else
      var (d', t) :- ParseEntry(s, d);
      ParseEntries(n - 1, t, d')
  }

  function ParseEntriesToBreak(s: seq<Byte>, d: Dict<Data, Data>): (r: Parsed<Dict<Data, Data>>)
    ensures r.Ok? ==> |r.rest| <= |s|
    decreases |s|, 2
  {
    if s != [] && s[0] == BREAK then Ok(d, s[1..])
    else
      var (d', t) :- ParseEntry(s, d);
      ParseEntriesToBreak(t, d')
  }
}
