/** CBOR as sections 3 and 3.3 of RFC 8949 write it down, byte by byte, in the dialect that
    LocalStack accepts: which bytes denote which data, and which bytes a value is spelled
    with. Nothing here is taken from the printer or the parser; both are compared with it. */
module CborGrammar {
  import opened BigEndian
  import opened PyDict
  import opened Unicode
  import opened CborModel
  import opened CborLocality
  import opened CborTheorems

  // ---------------------------------------------------------------- heads

  /** How many bytes the head takes that starts with this byte; 0 when there is no argument. */
  function HeadSize(b: Byte): (n: nat)
    ensures n in {0, 1, 2, 3, 5, 9}
  {
    var low := b % 0x20;
    if low <= 0x17 then 1 else if low == 0x18 then 2 else if low == 0x19 then 3
    else if low == 0x1A then 5 else if low == 0x1B then 9 else 0
  }

  predicate HasHead(s: seq<Byte>) {
    s != [] && 0 < HeadSize(s[0]) <= |s|
  }

  function Argument(s: seq<Byte>): nat
    requires HasHead(s)
  {
    match HeadSize(s[0])
    case 1 => s[0] % 0x20
    case 2 => s[1]
    case 3 => Two(s[1], s[2])
    case 5 => Four(s[1], s[2], s[3], s[4])
    case _ => Four(s[1], s[2], s[3], s[4]) * 0x1_0000_0000 + Four(s[5], s[6], s[7], s[8])
  }

  function Two(a: nat, b: nat): nat { a * 0x100 + b }

  function Four(a: nat, b: nat, c: nat, d: nat): nat { Two(a, b) * 0x1_0000 + Two(c, d) }

  function AfterHead(s: seq<Byte>): (t: seq<Byte>)
    requires HasHead(s)
    ensures |t| < |s|
  {
    s[HeadSize(s[0])..]
  }

  // ---------------------------------------------------------------- floats

  /** Half, single and double precision: exponents of ones only are infinities and NaN. */
  function FloatOf(s: seq<Byte>): Float
    requires |s| == 2 || |s| == 4 || |s| == 8
  {
    if |s| == 2 then
      if s == [0x7C, 0x00] then PosInf else if s == [0xFC, 0x00] then NegInf
      else if 0x7C <= s[0] <= 0x7F || 0xFC <= s[0] then NaN else Finite(s)
    else if |s| == 4 then
      if s == [0x7F, 0x80, 0x00, 0x00] then PosInf else if s == [0xFF, 0x80, 0x00, 0x00] then NegInf
      else if (s[0] == 0x7F || s[0] == 0xFF) && s[1] >= 0x80 then NaN else Finite(s)
    else
      if s == [0x7F, 0xF0, 0x00, 0x00, 0x00, 0x00, 0x00, 0x00] then PosInf
      else if s == [0xFF, 0xF0, 0x00, 0x00, 0x00, 0x00, 0x00, 0x00] then NegInf
      else if (s[0] == 0x7F || s[0] == 0xFF) && s[1] >= 0xF0 then NaN else Finite(s)
  }

  // ---------------------------------------------------------------- the grammar

  /** These bytes, and nothing but these, are one data item. */
  ghost predicate Denotes(s: seq<Byte>, d: Data)
    decreases |s|, 1
  {
    if s == [] then false
    else if s[0] <= 0x3F then IsInteger(s, d)
    else if s[0] <= 0x7F then IsString(s, d)
    else if s[0] <= 0x9F then IsList(s, d)
    else if s[0] <= 0xBF then IsMap(s, d)
    else if s[0] <= 0xDF then IsTagged(s, d)
    else IsSimple(s, d)
  }

  predicate IsInteger(s: seq<Byte>, d: Data)
    requires s != []
  {
    if s[0] <= 0x1B then HasHead(s) && AfterHead(s) == [] && d == DInt(Argument(s))
    else if 0x20 <= s[0] <= 0x3B then HasHead(s) && AfterHead(s) == [] && d == DInt(-1 - Argument(s))
    else false
  }

  ghost predicate IsString(s: seq<Byte>, d: Data)
    requires s != []
  {
    if 0x40 <= s[0] <= 0x5B then HasHead(s) && |AfterHead(s)| == Argument(s) && d == DBytes(AfterHead(s))
    else if s[0] == 0x5F then d.DBytes? && Chunks(s[1..], d.b)
    else if 0x60 <= s[0] <= 0x7B then
      HasHead(s) && |AfterHead(s)| == Argument(s) && ValidUtf8(AfterHead(s)) && d == DText(AfterHead(s))
    else if s[0] == 0x7F then d.DText? && Chunks(s[1..], d.t)
    else false
  }

  ghost predicate IsList(s: seq<Byte>, d: Data)
    requires s != []
    decreases |s|, 0
  {
    d.DList? &&
    if 0x80 <= s[0] <= 0x9B then HasHead(s) && |d.items| == Argument(s) && Items(AfterHead(s), d.items)
    else if s[0] == 0x9F then Closed(s) && Items(Inside(s), d.items)
    else false
  }

  ghost predicate IsMap(s: seq<Byte>, d: Data)
    requires s != []
    decreases |s|, 0
  {
    d.DDict? &&
    if 0xA0 <= s[0] <= 0xBB then
      HasHead(s) && exists ps :: |ps| == Argument(s) && Pairs(AfterHead(s), ps) && IsDict(ps, d.entries)
    else if s[0] == 0xBF then Closed(s) && exists ps :: Pairs(Inside(s), ps) && IsDict(ps, d.entries)
    else false
  }

  /** The only tag is 1, for times. */
  ghost predicate IsTagged(s: seq<Byte>, d: Data)
    requires s != []
    decreases |s|, 0
  {
    && 0xC0 <= s[0] <= 0xDB && d.DTime? && HasHead(s) && Argument(s) == 1
    && Denotes(AfterHead(s), d.seconds) && Number(d.seconds)
  }

  predicate IsSimple(s: seq<Byte>, d: Data) {
    || (s == [0xF4] && d == DBool(false))
    || (s == [0xF5] && d == DBool(true))
    || (s == [0xF6] && d == DNone)
    || (s == [0xF7] && d == DNone)
    || (|s| == 3 && s[0] == 0xF9 && d == DFloat(FloatOf(s[1..])))
    || (|s| == 5 && s[0] == 0xFA && d == DFloat(FloatOf(s[1..])))
    || (|s| == 9 && s[0] == 0xFB && d == DFloat(FloatOf(s[1..])))
  }

  /** Between the first byte and a break byte at the end. */
  predicate Closed(s: seq<Byte>) {
    |s| >= 2 && s[|s| - 1] == 0xFF
  }

  function Inside(s: seq<Byte>): seq<Byte>
    requires Closed(s)
  {
    s[1..|s| - 1]
  }

  /** Chunks of an indefinite string up to the break byte. The code takes any head for the
      head of a chunk. */
  ghost predicate Chunks(s: seq<Byte>, b: seq<Byte>)
    decreases |s|
  {
    if s == [] then false
    else if s[0] == 0xFF then s == [0xFF] && b == []
    else
      && HasHead(s) && Argument(s) <= |AfterHead(s)| && Argument(s) <= |b|
      && b[..Argument(s)] == AfterHead(s)[..Argument(s)]
      && Chunks(AfterHead(s)[Argument(s)..], b[Argument(s)..])
  }

  ghost predicate Items(s: seq<Byte>, xs: seq<Data>)
    decreases |s|, 3
  {
    if xs == [] then s == [] else exists k :: 0 < k <= |s| && FirstItem(s, k, xs)
  }

  ghost predicate FirstItem(s: seq<Byte>, k: nat, xs: seq<Data>)
    requires 0 < k <= |s| && xs != []
    decreases |s|, 2
  {
    Denotes(s[..k], xs[0]) && Items(s[k..], xs[1..])
  }

  /** Keys and values in turn. */
  ghost predicate Pairs(s: seq<Byte>, ps: seq<(Data, Data)>)
    decreases |s|, 3
  {
    if ps == [] then s == [] else exists j, k :: 0 < j < k <= |s| && FirstPair(s, j, k, ps)
  }

  ghost predicate FirstPair(s: seq<Byte>, j: nat, k: nat, ps: seq<(Data, Data)>)
    requires 0 < j < k <= |s| && ps != []
    decreases |s|, 2
  {
    Denotes(s[..j], ps[0].0) && Denotes(s[j..k], ps[0].1) && Pairs(s[k..], ps[1..])
  }

  /** The dict that the pairs make: null values are dropped, a key that comes again replaces
      the value, and lists and dicts cannot be keys. */
  ghost predicate IsDict(ps: seq<(Data, Data)>, d: Dict<Data, Data>) {
    CanBeKeys(ps) && d == Collected([], ps)
  }

  predicate CanBeKeys(ps: seq<(Data, Data)>) {
    forall p | p in ps :: p.1 == DNone || !(p.0.DList? || p.0.DDict?)
  }

  function Collected(d: Dict<Data, Data>, ps: seq<(Data, Data)>): Dict<Data, Data>
    decreases |ps|
  {
    if ps == [] then d
    else Collected(if ps[0].1 == DNone then d else Set(d, ps[0].0, ps[0].1), ps[1..])
  }

  predicate Number(d: Data) {
    d.DInt? || d.DBool? || (d.DFloat? && d.f.Finite?)
  }

  // ---------------------------------------------------------------- heads as they are parsed

  lemma FromSnoc(s: seq<Byte>, n: nat)
    requires 0 < n <= |s|
    ensures FromBytes(s[..n]) == FromBytes(s[..n - 1]) * 256 + s[n - 1]
  {
    assert s[..n][..n - 1] == s[..n - 1];
  }

  lemma TwoBytes(s: seq<Byte>)
    requires |s| >= 2
    ensures FromBytes(s[..1]) == s[0] && FromBytes(s[..2]) == Two(s[0], s[1])
  {
    FromSnoc(s, 1);
    FromSnoc(s, 2);
  }

  lemma FourBytes(s: seq<Byte>)
    requires |s| >= 4
    ensures FromBytes(s[..4]) == Four(s[0], s[1], s[2], s[3])
  {
    TwoBytes(s);
    FromSnoc(s, 3);
    FromSnoc(s, 4);
  }

  lemma EightBytes(s: seq<Byte>)
    requires |s| >= 8
    ensures FromBytes(s[..8]) == Four(s[0], s[1], s[2], s[3]) * 0x1_0000_0000 + Four(s[4], s[5], s[6], s[7])
  {
    FourBytes(s);
    FromSnoc(s, 5);
    FromSnoc(s, 6);
    FromSnoc(s, 7);
    FromSnoc(s, 8);
  }

  /** The parser reads exactly the heads. */
  lemma HeadIsRead(s: seq<Byte>)
    requires s != []
    ensures var r := ParseUnsigned(s[0] % 32, s[1..]);
      if HasHead(s) then r == Ok(Argument(s), AfterHead(s)) else r.Err?
  {
    if HasHead(s) {
      var n := HeadSize(s[0]) - 1;
      assert s[1..][n..] == s[n + 1..];
      if n > 0 { ArgumentIsRead(s, n); }
    }
  }

  lemma ArgumentIsRead(s: seq<Byte>, n: nat)
    requires HasHead(s) && n == HeadSize(s[0]) - 1 > 0
    ensures FromBytes(s[1..][..n]) == Argument(s)
  {
    var t := s[1..];
    if n == 1 {
      FromSnoc(t, 1);
    } else if n == 2 {
      TwoBytes(t);
    } else if n == 4 {
      FourBytes(t);
    } else {
      EightBytes(t);
    }
  }

  // ---------------------------------------------------------------- the parser accepts the grammar

  /** These bytes are parsed to the data, and nothing is left. */
  predicate Accepts(s: seq<Byte>, d: Data) {
    ParseItem(s) == Ok(d, [])
  }

  /** An item in front of other bytes, by `CborLocality.ItemIsLocal`. */
  lemma InFront(s: seq<Byte>, k: nat, d: Data)
    requires 0 < k <= |s|
    ensures ParseItem(s) == Ok(d, s[k..]) <==> Accepts(s[..k], d)
  {
    if ParseItem(s) == Ok(d, s[k..]) { CutBehind(s, k, d); }
    if Accepts(s[..k], d) { MoreBehind(s[..k], s[k..], d, s); }
  }

  lemma CutBehind(s: seq<Byte>, k: nat, d: Data)
    requires 0 < k <= |s| && ParseItem(s) == Ok(d, s[k..])
    ensures Accepts(s[..k], d)
  {
    ItemIsLocal(s, []);
    assert Used(s, s[k..]) + [] == s[..k];
  }

  lemma MoreBehind(s: seq<Byte>, more: seq<Byte>, d: Data, all: seq<Byte>)
    requires Accepts(s, d) && all == s + more
    ensures ParseItem(all) == Ok(d, more)
  {
    ItemIsLocal(s, more);
    assert Used(s, []) == s;
  }

  /** Where an item that is parsed ends. */
  lemma EndOf(s: seq<Byte>) returns (k: nat)
    requires ParseItem(s).Ok?
    ensures 0 < k <= |s| && s[k..] == ParseItem(s).rest && Accepts(s[..k], ParseItem(s).value)
  {
    var r := ParseItem(s);
    k := |s| - |r.rest|;
    ItemIsLocal(s, []);
    assert (Used(s, r.rest) + r.rest)[k..] == r.rest;
    InFront(s, k, r.value);
  }

  lemma ChunkOf(s: seq<Byte>)
    requires s != [] && s[0] != 0xFF
    ensures var r := ParseChunk(s);
      if HasHead(s) && Argument(s) <= |AfterHead(s)|
      then r == Ok(AfterHead(s)[..Argument(s)], AfterHead(s)[Argument(s)..]) else r.Err?
  {
    HeadIsRead(s);
  }

  lemma {:induction false} ChunksAreParsed(s: seq<Byte>, b: seq<Byte>)
    requires Chunks(s, b)
    ensures ParseChunks(s) == Ok(b, [])
    decreases |s|
  {
    if s[0] != 0xFF {
      ChunkOf(s);
      ChunksAreParsed(AfterHead(s)[Argument(s)..], b[Argument(s)..]);
      assert b[..Argument(s)] + b[Argument(s)..] == b;
    }
  }

  lemma {:induction false} ParsedChunks(s: seq<Byte>, b: seq<Byte>)
    requires ParseChunks(s) == Ok(b, [])
    ensures Chunks(s, b)
    decreases |s|
  {
    if s != [] && s[0] != 0xFF {
      ChunkOf(s);
      var t := AfterHead(s)[Argument(s)..];
      var first, more := AfterHead(s)[..Argument(s)], ParseChunks(t).value;
      ParsedChunks(t, more);
      FirstChunk(first, more);
    }
  }

  lemma FirstChunk(first: seq<Byte>, more: seq<Byte>)
    ensures (first + more)[..|first|] == first && (first + more)[|first|..] == more
  {
  }

  lemma ChunksExactly(s: seq<Byte>, b: seq<Byte>)
    ensures ParseChunks(s) == Ok(b, []) <==> Chunks(s, b)
  {
    if Chunks(s, b) { ChunksAreParsed(s, b); }
    if ParseChunks(s) == Ok(b, []) { ParsedChunks(s, b); }
  }

  lemma StringExactly(s: seq<Byte>, b: seq<Byte>)
    requires s != []
    ensures ParseBytes(s[0] % 32, s[1..]) == Ok(b, []) <==>
      if s[0] % 32 == 31 then Chunks(s[1..], b) else HasHead(s) && |AfterHead(s)| == Argument(s) && b == AfterHead(s)
  {
    if s[0] % 32 == 31 {
      ChunksExactly(s[1..], b);
    } else {
      HeadIsRead(s);
      if HasHead(s) && |AfterHead(s)| == Argument(s) { assert AfterHead(s)[..Argument(s)] == AfterHead(s); }
    }
  }

  lemma SimpleExactly(s: seq<Byte>, d: Data)
    requires s != [] && s[0] >= 0xE0
    ensures Accepts(s, d) <==> IsSimple(s, d)
  {
    var info := s[0] % 32;
    assert s[0] / 32 == 7 && s[0] == 0xE0 + info;
    assert ParseItem(s) == ParseBody(7, info, s[1..]) == Simple(info, s[1..]);
    assert |s| == 1 ==> s == [s[0]];
    if (info == 25 && |s| == 3) || (info == 26 && |s| == 5) || (info == 27 && |s| == 9) {
      assert s[1..][..|s| - 1] == s[1..];
      FloatsAgree(s[1..]);
    }
  }

  lemma FloatsAgree(s: seq<Byte>)
    requires |s| == 2 || |s| == 4 || |s| == 8
    ensures Classify(s) == FloatOf(s)
  {
    if |s| == 2 {
      HalfAgrees(s);
    } else if |s| == 4 {
      SingleAgrees(s);
    } else {
      DoubleAgrees(s);
    }
  }

  lemma HalfAgrees(s: seq<Byte>)
    requires |s| == 2
    ensures Classify(s) == FloatOf(s)
  {
    var fraction := [s[0] % 128 % 4] + s[1..];
    assert fraction == [s[0] % 128 % 4, s[1]];
    AllZero(fraction);
  }

  lemma AllZero(f: seq<Byte>)
    ensures (exists x | x in f :: x != 0) <==> exists i :: 0 <= i < |f| && f[i] != 0
  {
    if i :| 0 <= i < |f| && f[i] != 0 { assert f[i] in f; }
  }

  lemma SingleAgrees(s: seq<Byte>)
    requires |s| == 4
    ensures Classify(s) == FloatOf(s)
  {
    var fraction := [s[1] % 128] + s[2..];
    assert fraction == [s[1] % 128, s[2], s[3]];
    AllZero(fraction);
    assert s == [s[0], s[1], s[2], s[3]];
  }

  lemma DoubleAgrees(s: seq<Byte>)
    requires |s| == 8
    ensures Classify(s) == FloatOf(s)
  {
    TailIsZero(s[1] % 16, s[2..]);
    ZeroTail(s, 0x7F, 0xF0);
    ZeroTail(s, 0xFF, 0xF0);
    assert s[0] % 128 == 127 <==> s[0] == 0x7F || s[0] == 0xFF;
    assert s[1] >= 0xF0 ==> (s[1] % 16 == 0 <==> s[1] == 0xF0);
  }

  lemma TailIsZero(x: Byte, tail: seq<Byte>)
    requires |tail| == 6
    ensures (exists y | y in [x] + tail :: y != 0) <==> !(x == 0 && tail == [0, 0, 0, 0, 0, 0])
  {
    var f := [x] + tail;
    AllZero(f);
    if forall i :: 0 <= i < |f| ==> f[i] == 0 {
      assert forall i :: 0 <= i < 6 ==> tail[i] == f[i + 1];
      assert f[0] == 0 && tail == [0, 0, 0, 0, 0, 0];
    }
  }

  lemma ZeroTail(s: seq<Byte>, a: Byte, b: Byte)
    requires |s| == 8
    ensures s == [a, b, 0, 0, 0, 0, 0, 0] <==> s[0] == a && s[1] == b && s[2..] == [0, 0, 0, 0, 0, 0]
  {
    if s[0] == a && s[1] == b && s[2..] == [0, 0, 0, 0, 0, 0] {
      assert s == [s[0], s[1]] + s[2..];
    }
  }

  // ---------------------------------------------------------------- containers

  lemma FirstOf(s: seq<Byte>, xs: seq<Data>) returns (k: nat)
    requires Items(s, xs) && xs != []
    ensures 0 < k <= |s| && Denotes(s[..k], xs[0]) && Items(s[k..], xs[1..])
  {
    assert Items(s, xs);
    var i :| 0 < i <= |s| && FirstItem(s, i, xs);
    k := i;
  }

  lemma {:induction false} ItemsAreParsed(n: nat, s: seq<Byte>, xs: seq<Data>)
    requires |xs| == n && Items(s, xs)
    ensures ParseItems(n, s) == Ok(xs, [])
    decreases |s|, 2
  {
    if n > 0 {
      var k := FirstOf(s, xs);
      DenotesExactly(s[..k], xs[0]);
      ItemsAreParsed(n - 1, s[k..], xs[1..]);
      InFront(s, k, xs[0]);
      assert [xs[0]] + xs[1..] == xs;
    }
  }

  lemma {:induction false} ParsedItems(n: nat, s: seq<Byte>, xs: seq<Data>)
    requires ParseItems(n, s) == Ok(xs, [])
    ensures |xs| == n && Items(s, xs)
    decreases |s|, 2
  {
    if n > 0 {
      var k := EndOf(s);
      assert xs == [xs[0]] + xs[1..];
      DenotesExactly(s[..k], xs[0]);
      ParsedItems(n - 1, s[k..], xs[1..]);
      assert FirstItem(s, k, xs);
    }
  }

  /** The first item of a sequence in front of other bytes. */
  lemma FirstIsParsed(s: seq<Byte>, more: seq<Byte>, xs: seq<Data>) returns (k: nat)
    requires Items(s, xs) && xs != []
    ensures 0 < k <= |s| && Items(s[k..], xs[1..])
    ensures ParseItem(s + more) == Ok(xs[0], s[k..] + more) && (s + more)[0] != 0xFF
    decreases |s|, 2
  {
    k := FirstOf(s, xs);
    DenotesExactly(s[..k], xs[0]);
    InFrontOfMore(s, more, k, k);
    InFront(s + more, k, xs[0]);
    NoBreak(s[..k], xs[0]);
  }

  lemma ItemsCons(s: seq<Byte>, x: Data, t: seq<Byte>, xs: seq<Data>)
    requires s != [] && s[0] != 0xFF && ParseItem(s) == Ok(x, t) && ParseItemsToBreak(t) == Ok(xs, [])
    ensures ParseItemsToBreak(s) == Ok([x] + xs, [])
  {
  }

  lemma {:induction false} ItemsToBreakAreParsed(s: seq<Byte>, xs: seq<Data>)
    requires Items(s, xs)
    ensures ParseItemsToBreak(s + [0xFF]) == Ok(xs, [])
    decreases |s|, 3
  {
    if xs != [] {
      var k := FirstIsParsed(s, [0xFF], xs);
      ItemsToBreakAreParsed(s[k..], xs[1..]);
      ItemsCons(s + [0xFF], xs[0], s[k..] + [0xFF], xs[1..]);
      assert [xs[0]] + xs[1..] == xs;
    }
  }

  lemma {:induction false} ParsedItemsToBreak(s: seq<Byte>, xs: seq<Data>)
    requires ParseItemsToBreak(s) == Ok(xs, [])
    ensures EndsInBreak(s) && Items(Init(s), xs)
    decreases |s|, 2
  {
    if s == [] || s[0] != 0xFF {
      var k := EndOf(s);
      assert xs == [xs[0]] + xs[1..];
      DenotesExactly(s[..k], xs[0]);
      ParsedItemsToBreak(s[k..], xs[1..]);
      InitOf(s, k, k);
      assert FirstItem(Init(s), k, xs);
    }
  }

  lemma InitOf(s: seq<Byte>, j: nat, k: nat)
    requires j <= k < |s|
    ensures Init(s)[..j] == s[..j] && Init(s)[j..k] == s[j..k] && Init(s)[k..] == Init(s[k..])
  {
  }

  /** A key and a value, for the dict that was made so far. */
  lemma PairExactly(s: seq<Byte>, d: Dict<Data, Data>, d': Dict<Data, Data>, rest: seq<Byte>) returns (j: nat, k: nat, p: (Data, Data))
    requires ParseEntry(s, d) == Ok(d', rest)
    ensures 0 < j < k <= |s| && s[k..] == rest && Denotes(s[..j], p.0) && Denotes(s[j..k], p.1)
    ensures CanBeKeys([p]) && d' == Collected(d, [p])
    decreases |s|, 1
  {
    j := EndOf(s);
    var i := EndOf(s[j..]);
    k := j + i;
    p := (ParseItem(s).value, ParseItem(s[j..]).value);
    assert s[j..][..i] == s[j..k] && s[j..][i..] == s[k..];
    DenotesExactly(s[..j], p.0);
    DenotesExactly(s[j..k], p.1);
    assert [p][1..] == [];
  }

  lemma PairIsRead(s: seq<Byte>, j: nat, k: nat, p: (Data, Data), d: Dict<Data, Data>)
    requires 0 < j < k <= |s| && Accepts(s[..j], p.0) && Accepts(s[j..k], p.1) && CanBeKeys([p])
    ensures ParseEntry(s, d) == Ok(if p.1 == DNone then d else Set(d, p.0, p.1), s[k..])
  {
    assert p in [p];
    InFront(s, j, p.0);
    assert s[j..][..k - j] == s[j..k] && s[j..][k - j..] == s[k..];
    InFront(s[j..], k - j, p.1);
  }

  lemma FirstPairOf(s: seq<Byte>, ps: seq<(Data, Data)>) returns (j: nat, k: nat)
    requires Pairs(s, ps) && ps != []
    ensures 0 < j < k <= |s| && FirstPair(s, j, k, ps)
  {
    assert Pairs(s, ps);
    var x, y :| 0 < x < y <= |s| && FirstPair(s, x, y, ps);
    j, k := x, y;
  }

  lemma CollectedFirst(d: Dict<Data, Data>, ps: seq<(Data, Data)>)
    requires ps != [] && CanBeKeys(ps)
    ensures CanBeKeys([ps[0]]) && CanBeKeys(ps[1..])
    ensures Collected(d, ps) == Collected(Collected(d, [ps[0]]), ps[1..])
  {
    assert [ps[0]][1..] == [];
    assert ps[0] in ps && forall p | p in ps[1..] :: p in ps;
  }

  lemma CollectedCons(d: Dict<Data, Data>, p: (Data, Data), ps: seq<(Data, Data)>)
    requires CanBeKeys([p]) && CanBeKeys(ps)
    ensures CanBeKeys([p] + ps) && Collected(d, [p] + ps) == Collected(Collected(d, [p]), ps)
  {
    assert p in [p];
    assert ([p] + ps)[1..] == ps && [p][1..] == [];
  }

  /** The first pair of a sequence, also in front of a break byte. */
  lemma FirstPairIsParsed(s: seq<Byte>, more: seq<Byte>, ps: seq<(Data, Data)>, d: Dict<Data, Data>)
    returns (k: nat, d': Dict<Data, Data>)
    requires Pairs(s, ps) && ps != [] && CanBeKeys(ps)
    ensures 0 < k <= |s| && Pairs(s[k..], ps[1..]) && CanBeKeys(ps[1..])
    ensures ParseEntry(s + more, d) == Ok(d', s[k..] + more) && Collected(d, ps) == Collected(d', ps[1..])
    ensures (s + more)[0] != 0xFF
    decreases |s|, 1
  {
    var j;
    j, k := FirstPairOf(s, ps);
    d' := if ps[0].1 == DNone then d else Set(d, ps[0].0, ps[0].1);
    DenotesExactly(s[..j], ps[0].0);
    DenotesExactly(s[j..k], ps[0].1);
    CollectedFirst(d, ps);
    InFrontOfMore(s, more, j, k);
    PairIsRead(s + more, j, k, ps[0], d);
    NoBreak(s[..j], ps[0].0);
  }

  lemma InFrontOfMore(s: seq<Byte>, more: seq<Byte>, j: nat, k: nat)
    requires 0 < j <= k <= |s|
    ensures var all := s + more;
      all[..j] == s[..j] && all[j..k] == s[j..k] && all[k..] == s[k..] + more && all[0] == s[..j][0]
  {
  }

  lemma NoBreak(s: seq<Byte>, d: Data)
    requires Denotes(s, d)
    ensures s[0] != 0xFF
  {
  }

  lemma EntriesCons(n: nat, s: seq<Byte>, d: Dict<Data, Data>, t: seq<Byte>, d': Dict<Data, Data>)
    requires n > 0 && ParseEntry(s, d) == Ok(d', t)
    ensures ParseEntries(n, s, d) == ParseEntries(n - 1, t, d')
  {
  }

  lemma {:induction false} PairsAreParsed(s: seq<Byte>, ps: seq<(Data, Data)>, d: Dict<Data, Data>)
    requires Pairs(s, ps) && CanBeKeys(ps)
    ensures ParseEntries(|ps|, s, d) == Ok(Collected(d, ps), [])
    decreases |s|, 2
  {
    if ps != [] {
      var k, d' := FirstPairIsParsed(s, [], ps, d);
      assert s + [] == s && s[k..] + [] == s[k..];
      PairsAreParsed(s[k..], ps[1..], d');
      EntriesCons(|ps|, s, d, s[k..], d');
    }
  }

  lemma {:induction false} PairsToBreakAreParsed(s: seq<Byte>, ps: seq<(Data, Data)>, d: Dict<Data, Data>)
    requires Pairs(s, ps) && CanBeKeys(ps)
    ensures ParseEntriesToBreak(s + [0xFF], d) == Ok(Collected(d, ps), [])
    decreases |s|, 2
  {
    if ps != [] {
      var k, d' := FirstPairIsParsed(s, [0xFF], ps, d);
      PairsToBreakAreParsed(s[k..], ps[1..], d');
    }
  }

  lemma PairsCons(s: seq<Byte>, j: nat, k: nat, p: (Data, Data), ps: seq<(Data, Data)>)
    requires 0 < j < k <= |s| && Denotes(s[..j], p.0) && Denotes(s[j..k], p.1) && Pairs(s[k..], ps)
    ensures Pairs(s, [p] + ps)
  {
    assert ([p] + ps)[1..] == ps;
    assert FirstPair(s, j, k, [p] + ps);
  }

  lemma {:induction false} ParsedPairs(n: nat, s: seq<Byte>, d: Dict<Data, Data>, d': Dict<Data, Data>)
    returns (ps: seq<(Data, Data)>)
    requires ParseEntries(n, s, d) == Ok(d', [])
    ensures |ps| == n && Pairs(s, ps) && CanBeKeys(ps) && d' == Collected(d, ps)
    decreases |s|, 2
  {
    ps := [];
    if n > 0 {
      var e := ParseEntry(s, d);
      var j, k, p := PairExactly(s, d, e.value, e.rest);
      var more := ParsedPairs(n - 1, s[k..], e.value, d');
      ps := [p] + more;
      CollectedCons(d, p, more);
      PairsCons(s, j, k, p, more);
    }
  }

  lemma {:induction false} ParsedPairsToBreak(s: seq<Byte>, d: Dict<Data, Data>, d': Dict<Data, Data>)
    returns (ps: seq<(Data, Data)>)
    requires ParseEntriesToBreak(s, d) == Ok(d', [])
    ensures EndsInBreak(s) && Pairs(Init(s), ps) && CanBeKeys(ps) && d' == Collected(d, ps)
    decreases |s|, 2
  {
    ps := [];
    if s == [] || s[0] != 0xFF {
      var e := ParseEntry(s, d);
      var j, k, p := PairExactly(s, d, e.value, e.rest);
      var more := ParsedPairsToBreak(s[k..], e.value, d');
      ps := [p] + more;
      CollectedCons(d, p, more);
      InitOf(s, j, k);
      PairsCons(Init(s), j, k, p, more);
    }
  }

  // ---------------------------------------------------------------- the whole language

  lemma ListBody(s: seq<Byte>)
    requires s != [] && 0x80 <= s[0] <= 0x9F
    ensures ParseItem(s) == AsList(
      if s[0] == 0x9F then ParseItemsToBreak(s[1..])
      else if HasHead(s) then ParseItems(Argument(s), AfterHead(s))
      else Err(ParseUnsigned(s[0] % 32, s[1..]).error))
  {
    assert s[0] / 32 == 4 && (s[0] % 32 == 31 <==> s[0] == 0x9F);
    assert ParseItem(s) == ParseBody(4, s[0] % 32, s[1..]) == AsList(ParseList(s[0] % 32, s[1..]));
    HeadIsRead(s);
  }

  lemma ListExactly(s: seq<Byte>, d: Data)
    requires s != [] && 0x80 <= s[0] <= 0x9F
    ensures Accepts(s, d) <==> IsList(s, d)
    decreases |s|, 0
  {
    ListBody(s);
    if d.DList? && s[0] == 0x9F {
      var t := s[1..];
      OpenListExactly(t, d.items);
      assert Closed(s) ==> Inside(s) == Init(t);
    } else if d.DList? && HasHead(s) {
      CountedListExactly(Argument(s), AfterHead(s), d.items);
    }
  }

  lemma CountedListExactly(n: nat, s: seq<Byte>, xs: seq<Data>)
    ensures ParseItems(n, s) == Ok(xs, []) <==> |xs| == n && Items(s, xs)
    decreases |s|, 3
  {
    if ParseItems(n, s) == Ok(xs, []) { ParsedItems(n, s, xs); }
    if |xs| == n && Items(s, xs) { ItemsAreParsed(n, s, xs); }
  }

  predicate EndsInBreak(s: seq<Byte>) {
    s != [] && s[|s| - 1] == 0xFF
  }

  /** All bytes but the last. */
  function Init(s: seq<Byte>): seq<Byte>
    requires s != []
  {
    s[..|s| - 1]
  }

  lemma OpenListExactly(s: seq<Byte>, xs: seq<Data>)
    ensures ParseItemsToBreak(s) == Ok(xs, []) <==> EndsInBreak(s) && Items(Init(s), xs)
    decreases |s|, 3
  {
    if ParseItemsToBreak(s) == Ok(xs, []) { ParsedItemsToBreak(s, xs); }
    if EndsInBreak(s) && Items(Init(s), xs) {
      assert s == Init(s) + [0xFF];
      ItemsToBreakAreParsed(Init(s), xs);
    }
  }

  lemma MapBody(s: seq<Byte>)
    requires s != [] && 0xA0 <= s[0] <= 0xBF
    ensures ParseItem(s) == AsDict(
      if s[0] == 0xBF then ParseEntriesToBreak(s[1..], [])
      else if HasHead(s) then ParseEntries(Argument(s), AfterHead(s), [])
      else Err(ParseUnsigned(s[0] % 32, s[1..]).error))
  {
    assert s[0] / 32 == 5 && (s[0] % 32 == 31 <==> s[0] == 0xBF);
    assert ParseItem(s) == ParseBody(5, s[0] % 32, s[1..]) == AsDict(ParseMap(s[0] % 32, s[1..]));
    HeadIsRead(s);
  }

  lemma MapExactly(s: seq<Byte>, d: Data)
    requires s != [] && 0xA0 <= s[0] <= 0xBF
    ensures Accepts(s, d) <==> IsMap(s, d)
    decreases |s|, 0
  {
    MapBody(s);
    if d.DDict? && s[0] == 0xBF {
      var t := s[1..];
      OpenMapExactly(t, d.entries);
      assert Closed(s) ==> Inside(s) == Init(t);
    } else if d.DDict? && HasHead(s) {
      CountedMapExactly(Argument(s), AfterHead(s), d.entries);
    }
  }

  lemma CountedMapExactly(n: nat, s: seq<Byte>, d: Dict<Data, Data>)
    ensures ParseEntries(n, s, []) == Ok(d, []) <==> exists ps :: |ps| == n && Pairs(s, ps) && IsDict(ps, d)
    decreases |s|, 3
  {
    if ParseEntries(n, s, []) == Ok(d, []) {
      var ps := ParsedPairs(n, s, [], d);
      assert |ps| == n && Pairs(s, ps) && IsDict(ps, d);
    }
    if ps :| |ps| == n && Pairs(s, ps) && IsDict(ps, d) {
      PairsAreParsed(s, ps, []);
    }
  }

  lemma OpenMapExactly(s: seq<Byte>, d: Dict<Data, Data>)
    ensures ParseEntriesToBreak(s, []) == Ok(d, [])
      <==> EndsInBreak(s) && exists ps :: Pairs(Init(s), ps) && IsDict(ps, d)
    decreases |s|, 3
  {
    if ParseEntriesToBreak(s, []) == Ok(d, []) {
      var ps := ParsedPairsToBreak(s, [], d);
      assert Pairs(Init(s), ps) && IsDict(ps, d);
    }
    if EndsInBreak(s) && exists ps :: Pairs(Init(s), ps) && IsDict(ps, d) {
      var ps :| Pairs(Init(s), ps) && IsDict(ps, d);
      assert s == Init(s) + [0xFF];
      PairsToBreakAreParsed(Init(s), ps, []);
    }
  }

  lemma TagExactly(s: seq<Byte>, d: Data)
    requires s != [] && 0xC0 <= s[0] <= 0xDF
    ensures Accepts(s, d) <==> IsTagged(s, d)
    decreases |s|, 0
  {
    assert s[0] / 32 == 6 && ParseItem(s) == ParseBody(6, s[0] % 32, s[1..]);
    HeadIsRead(s);
    if HasHead(s) && d.DTime? { DenotesExactly(AfterHead(s), d.seconds); }
  }

  lemma StringsExactly(s: seq<Byte>, d: Data)
    requires s != [] && 0x40 <= s[0] <= 0x7F
    ensures Accepts(s, d) <==> IsString(s, d)
  {
    var info, t := s[0] % 32, s[1..];
    assert s[0] / 32 == (if s[0] < 0x60 then 2 else 3) && ParseItem(s) == ParseBody(s[0] / 32, info, t);
    if d.DBytes? {
      StringExactly(s, d.b);
    } else if d.DText? {
      StringExactly(s, d.t);
    }
  }

  lemma IntegersExactly(s: seq<Byte>, d: Data)
    requires s != [] && s[0] <= 0x3F
    ensures Accepts(s, d) <==> IsInteger(s, d)
  {
    assert s[0] / 32 == (if s[0] < 0x20 then 0 else 1) && ParseItem(s) == ParseBody(s[0] / 32, s[0] % 32, s[1..]);
    HeadIsRead(s);
  }

  /** On every byte sequence: the parser takes it for one data item exactly if the grammar
      does, and for the same one. */
  lemma {:induction false} DenotesExactly(s: seq<Byte>, d: Data)
    ensures Accepts(s, d) <==> Denotes(s, d)
    decreases |s|, 1
  {
    if s != [] {
      if s[0] <= 0x3F {
        IntegersExactly(s, d);
      } else if s[0] <= 0x7F {
        StringsExactly(s, d);
      } else if s[0] <= 0x9F {
        ListExactly(s, d);
      } else if s[0] <= 0xBF {
        MapExactly(s, d);
      } else if s[0] <= 0xDF {
        TagExactly(s, d);
      } else {
        SimpleExactly(s, d);
      }
    }
  }

  /** Whatever follows: the parser stops behind a prefix of the input exactly if the prefix
      denotes what it returns. */
  lemma ParsedExactly(s: seq<Byte>, k: nat, d: Data)
    requires k <= |s|
    ensures ParseItem(s) == Ok(d, s[k..]) <==> Denotes(s[..k], d)
  {
    if k > 0 {
      InFront(s, k, d);
      DenotesExactly(s[..k], d);
    } else {
      assert s[0..] == s && s[..0] == [];
    }
  }

  // ---------------------------------------------------------------- what is refused, and why

  /** Heads: 0x1C to 0x1E have no meaning, nor has 0x1F for integers and tags, and the bytes
      of the argument must be there. */
  lemma HeadErrors(s: seq<Byte>)
    ensures s == [] ==> ParseItem(s) == Err(EndOfStream)
    ensures s != [] && s[0] <= 0xDF && 0x1C <= s[0] % 0x20 <= 0x1E ==> ParseItem(s) == Err(InvalidInfo)
    ensures s != [] && s[0] in {0x1F, 0x3F, 0xDF} ==> ParseItem(s) == Err(InvalidInfo)
    ensures s != [] && s[0] <= 0xDF && s[0] % 0x20 <= 0x1B && !HasHead(s) ==> ParseItem(s) == Err(EndOfStream)
  {
    if s != [] && s[0] <= 0xDF && (s[0] % 0x20 <= 0x1E || s[0] in {0x1F, 0x3F, 0xDF}) {
      var info := s[0] % 32;
      HeadIsRead(s);
      assert ParseItem(s) == ParseBody(s[0] / 32, info, s[1..]);
      if !HasHead(s) { HeadDecides(s[0] / 32, info, s[1..]); }
    }
  }

  lemma HeadDecides(major: nat, info: nat, t: seq<Byte>)
    requires major < 7 && (info < 31 || (info == 31 && major in {0, 1, 6})) && ParseUnsigned(info, t).Err?
    ensures ParseBody(major, info, t) == Err(ParseUnsigned(info, t).error)
  {
  }

  /** Strings: all their bytes must be there, and text must be UTF-8. */
  lemma StringErrors(s: seq<Byte>)
    requires s != [] && 0x40 <= s[0] <= 0x7F
    ensures s[0] % 0x20 <= 0x1B && HasHead(s) && |AfterHead(s)| < Argument(s) ==> ParseItem(s) == Err(EndOfStream)
    ensures s[0] in {0x5F, 0x7F} && ParseChunks(s[1..]).Err? ==> ParseItem(s) == Err(ParseChunks(s[1..]).error)
    ensures 0x60 <= s[0] <= 0x7B && HasHead(s) && |AfterHead(s)| >= Argument(s) && !ValidUtf8(AfterHead(s)[..Argument(s)])
      ==> ParseItem(s) == Err(NotUtf8)
    ensures s[0] == 0x7F && ParseChunks(s[1..]).Ok? && !ValidUtf8(ParseChunks(s[1..]).value) ==> ParseItem(s) == Err(NotUtf8)
  {
    var info, t := s[0] % 32, s[1..];
    assert s[0] / 32 == (if s[0] < 0x60 then 2 else 3) && ParseItem(s) == ParseBody(s[0] / 32, info, t);
    HeadIsRead(s);
  }

  /** Chunks: there must be a chunk or a break byte, and the chunk must be there. */
  lemma ChunkErrors(s: seq<Byte>)
    ensures s == [] ==> ParseChunks(s) == Err(EndOfStream)
    ensures s != [] && s[0] != 0xFF && 0x1C <= s[0] % 0x20 ==> ParseChunks(s) == Err(InvalidInfo)
    ensures s != [] && s[0] % 0x20 <= 0x1B && !(HasHead(s) && |AfterHead(s)| >= Argument(s)) ==> ParseChunks(s) == Err(EndOfStream)
  {
    if s != [] { HeadIsRead(s); }
  }

  /** Tags and simple values: the item behind a tag is read first, then only tag 1 is
      accepted, then only a number. */
  lemma TagErrors(s: seq<Byte>)
    requires s != [] && 0xC0 <= s[0] <= 0xDB && HasHead(s)
    ensures var r := ParseItem(AfterHead(s));
      && (r.Err? ==> ParseItem(s) == Err(r.error))
      && (r.Ok? && Argument(s) != 1 ==> ParseItem(s) == Err(UnsupportedTag))
      && (r.Ok? && Argument(s) == 1 && !Number(r.value) ==> ParseItem(s) == Err(NotANumber))
  {
    assert s[0] / 32 == 6 && ParseItem(s) == ParseBody(6, s[0] % 32, s[1..]);
    HeadIsRead(s);
  }

  lemma SimpleErrors(s: seq<Byte>)
    requires s != [] && s[0] >= 0xE0
    ensures s[0] !in {0xF4, 0xF5, 0xF6, 0xF7, 0xF9, 0xFA, 0xFB} ==> ParseItem(s) == Err(UnsupportedSimple)
    ensures (s[0] == 0xF9 && |s| < 3) || (s[0] == 0xFA && |s| < 5) || (s[0] == 0xFB && |s| < 9)
      ==> ParseItem(s) == Err(EndOfStream)
  {
    var info := s[0] % 32;
    assert s[0] / 32 == 7 && s[0] == 0xE0 + info;
    assert ParseItem(s) == ParseBody(7, info, s[1..]) == Simple(info, s[1..]);
  }

  /** Pairs: the value is read before the key is refused, and with a null value any key is
      accepted. */
  lemma KeyErrors(s: seq<Byte>, d: Dict<Data, Data>)
    ensures var key := ParseItem(s);
      key.Err? ==> ParseEntry(s, d) == Err(key.error)
    ensures var key := ParseItem(s);
      key.Ok? && ParseItem(key.rest).Err? ==> ParseEntry(s, d) == Err(ParseItem(key.rest).error)
    ensures var key := ParseItem(s);
      key.Ok? && ParseItem(key.rest).Ok? ==>
        var refused := ParseItem(key.rest).value != DNone && (key.value.DList? || key.value.DDict?);
        if refused then ParseEntry(s, d) == Err(Unhashable) else ParseEntry(s, d).Ok?
  {
  }

  // ---------------------------------------------------------------- spelling

  /** The shortest head of an argument below 2^64, for the major type in `first`. */
  function ShortHead(first: Byte, n: nat): seq<Byte>
    requires first <= 0xE0 && n < 0x1_0000_0000_0000_0000
  {
    if n <= 0x17 then [first + n]
    else if n <= 0xFF then [first + 0x18, n]
    else if n <= 0xFFFF then [first + 0x19, n / 0x100, n % 0x100]
    else if n <= 0xFFFF_FFFF then [first + 0x1A] + Bytes4(n)
    else [first + 0x1B] + Bytes4(n / 0x1_0000_0000) + Bytes4(n % 0x1_0000_0000)
  }

  function Bytes4(n: nat): seq<Byte>
    requires n <= 0xFFFF_FFFF
  {
    [n / 0x100_0000, n / 0x1_0000 % 0x100, n / 0x100 % 0x100, n % 0x100]
  }

  function SpelledFloat(bits: seq<Byte>): seq<Byte>
    requires |bits| == 4 || |bits| == 8
  {
    match FloatOf(bits)
    case PosInf => [0xF9, 0x7C, 0x00]
    case NegInf => [0xF9, 0xFC, 0x00]
    case NaN => [0xF9, 0x7E, 0x00]
    case Finite(_) => [if |bits| == 4 then 0xFA else 0xFB] + bits
  }

  /** The lengths and integers in a value that are printed fit in eight bytes. */
  predicate Spellable(v: Value, indefinite: bool) {
    match v
    case Int(i) => -0x1_0000_0000_0000_0000 <= i < 0x1_0000_0000_0000_0000
    case Blob(b) => |b| < 0x1_0000_0000_0000_0000
    case Text(t) => |t| < 0x1_0000_0000_0000_0000
    case List(items) =>
      (indefinite || |items| < 0x1_0000_0000_0000_0000) && forall x | x in items :: Spellable(x, indefinite)
    case Map(entries) =>
      (indefinite || Present(entries) < 0x1_0000_0000_0000_0000) && forall e | e in entries :: SpellableEntry(e, indefinite)
    case Struct(entries) =>
      (indefinite || Present(entries) < 0x1_0000_0000_0000_0000) && forall e | e in entries :: SpellableEntry(e, indefinite)
    case _ => true
  }

  predicate SpellableEntry(e: (Utf8, Option<Value>), indefinite: bool) {
    e.1.Some? ==> |e.0| < 0x1_0000_0000_0000_0000 && Spellable(e.1.value, indefinite)
  }

  function Present(entries: seq<(Utf8, Option<Value>)>): nat {
    if entries == [] then 0 else Present(entries[1..]) + if entries[0].1 == None then 0 else 1
  }

  /** The bytes for a value; every list and every dict in it, at any depth, has the form that
      is asked for. */
  function Spelling(v: Value, indefinite: bool): seq<Byte>
    requires Spellable(v, indefinite)
  {
    match v
    case Int(i) => if i >= 0 then ShortHead(0x00, i) else ShortHead(0x20, -1 - i)
    case Blob(b) => ShortHead(0x40, |b|) + b
    case Text(t) => ShortHead(0x60, |t|) + t
    case Bool(p) => if p then [0xF5] else [0xF4]
    case Single(f) => SpelledFloat(f)
    case Double(d) => SpelledFloat(d)
    case Timestamp(seconds) => [0xC1, 0xFB] + seconds
    case List(items) =>
      if indefinite then [0x9F] + SpelledItems(items, true) + [0xFF]
      else ShortHead(0x80, |items|) + SpelledItems(items, false)
    case Map(entries) =>
      if indefinite then [0xBF] + SpelledEntries(entries, true) + [0xFF]
      else ShortHead(0xA0, Present(entries)) + SpelledEntries(entries, false)
    case Struct(entries) =>
      if indefinite then [0xBF] + SpelledEntries(entries, true) + [0xFF]
      else ShortHead(0xA0, Present(entries)) + SpelledEntries(entries, false)
  }

  function SpelledItems(items: seq<Value>, indefinite: bool): seq<Byte>
    requires forall x | x in items :: Spellable(x, indefinite)
  {
    if items == [] then [] else Spelling(items[0], indefinite) + SpelledItems(items[1..], indefinite)
  }

  /** A null member has neither key nor value. */
  function SpelledEntries(entries: seq<(Utf8, Option<Value>)>, indefinite: bool): seq<Byte>
    requires forall e | e in entries :: SpellableEntry(e, indefinite)
  {
    if entries == [] then []
    else
      assert entries[0] in entries;
      SpelledEntry(entries[0], indefinite) + SpelledEntries(entries[1..], indefinite)
  }

  function SpelledEntry(e: (Utf8, Option<Value>), indefinite: bool): seq<Byte>
    requires SpellableEntry(e, indefinite)
  {
    match e.1
    case None => []
    case Some(v) => ShortHead(0x60, |e.0|) + e.0 + Spelling(v, indefinite)
  }

  lemma Quotients(n: nat)
    ensures n / 0x1_0000 == n / 0x100 / 0x100 && n / 0x100_0000 == n / 0x1_0000 / 0x100
  {
  }

  lemma FourBack(n: nat)
    requires n <= 0xFFFF_FFFF
    ensures var b := Bytes4(n); Four(b[0], b[1], b[2], b[3]) == n
  {
    Quotients(n);
    var q, r := n / 0x100, n / 0x1_0000;
    assert n == q * 0x100 + n % 0x100 && q == r * 0x100 + q % 0x100 && r == n / 0x100_0000 * 0x100 + r % 0x100;
  }

  lemma OneByte(n: nat)
    requires n <= 0xFF
    ensures ToBytes(n, 1) == [n]
  {
    FromSnoc([n], 1);
    assert [n][..1] == [n];
    ToFromBytes([n]);
  }

  lemma PairOfBytes(n: nat)
    requires n <= 0xFFFF
    ensures ToBytes(n, 2) == [n / 0x100, n % 0x100]
  {
    var s := [n / 0x100, n % 0x100];
    TwoBytes(s);
    assert s[..2] == s;
    ToFromBytes(s);
  }

  lemma QuadOfBytes(n: nat)
    requires n <= 0xFFFF_FFFF
    ensures ToBytes(n, 4) == Bytes4(n)
  {
    FourBytes(Bytes4(n));
    FourBack(n);
    assert Bytes4(n)[..4] == Bytes4(n);
    ToFromBytes(Bytes4(n));
  }

  lemma OctetOfBytes(n: nat)
    requires n < 0x1_0000_0000_0000_0000
    ensures ToBytes(n, 8) == Bytes4(n / 0x1_0000_0000) + Bytes4(n % 0x1_0000_0000)
  {
    var high, low := n / 0x1_0000_0000, n % 0x1_0000_0000;
    var s := Bytes4(high) + Bytes4(low);
    EightBytes(s);
    FourBack(high);
    FourBack(low);
    assert s[..8] == s;
    ToFromBytes(s);
  }

  lemma HeadIsShort(major: nat, n: nat)
    requires major < 8 && n < 0x1_0000_0000_0000_0000
    ensures Head(major, n) == ShortHead(major * 0x20, n)
  {
    if n <= 0x17 {
      assert ToBytes(n, 0) == [];
    } else if n <= 0xFF {
      OneByte(n);
    } else if n <= 0xFFFF {
      PairOfBytes(n);
    } else if n <= 0xFFFF_FFFF {
      QuadOfBytes(n);
    } else {
      OctetOfBytes(n);
    }
  }

  lemma SpelledFloatExactly(bits: seq<Byte>)
    requires |bits| == 4 || |bits| == 8
    ensures EncodeFloat(bits) == SpelledFloat(bits)
  {
    FloatsAgree(bits);
  }

  lemma {:induction false} PresentIsCounted(entries: seq<(Utf8, Option<Value>)>)
    ensures CountPresent(entries) == Present(entries) <= |entries|
    ensures (forall e | e in entries :: e.1.Some?) ==> Present(entries) == |entries|
  {
    if entries != [] {
      assert entries[0] in entries;
      PresentIsCounted(entries[1..]);
    }
  }

  /** Every value that the code can print is printed as it is spelled, and it can print what
      can be spelled. */
  lemma {:induction false} SpelledExactly(v: Value, indefinite: bool)
    requires Valid(v)
    ensures Encodable(v, indefinite) <==> Spellable(v, indefinite)
    ensures Spellable(v, indefinite) ==> Encode(v, indefinite) == Spelling(v, indefinite)
    decreases v, 1
  {
    match v
    case Int(i) =>
      if 0 <= i < 0x1_0000_0000_0000_0000 { HeadIsShort(0, i); }
      if -0x1_0000_0000_0000_0000 <= i < 0 { HeadIsShort(1, -1 - i); }
    case Blob(b) => if |b| < 0x1_0000_0000_0000_0000 { HeadIsShort(2, |b|); }
    case Text(t) => if |t| < 0x1_0000_0000_0000_0000 { HeadIsShort(3, |t|); }
    case Bool(p) =>
    case Single(f) => SpelledFloatExactly(f);
    case Double(d) => SpelledFloatExactly(d);
    case Timestamp(seconds) =>
    case List(items) =>
      ItemsSpelled(items, indefinite);
      if |items| < 0x1_0000_0000_0000_0000 { HeadIsShort(4, |items|); }
    case Map(entries) =>
      EntriesSpelled(entries, indefinite);
      PresentIsCounted(entries);
      if |entries| < 0x1_0000_0000_0000_0000 { HeadIsShort(5, |entries|); }
    case Struct(entries) =>
      EntriesSpelled(entries, indefinite);
      PresentIsCounted(entries);
      if Present(entries) < 0x1_0000_0000_0000_0000 { HeadIsShort(5, Present(entries)); }
  }

  lemma {:induction false} ItemsSpelled(items: seq<Value>, indefinite: bool)
    requires forall x | x in items :: Valid(x)
    ensures (forall x | x in items :: Encodable(x, indefinite)) <==> forall x | x in items :: Spellable(x, indefinite)
    ensures (forall x | x in items :: Spellable(x, indefinite)) ==>
      EncodeItems(items, indefinite) == SpelledItems(items, indefinite)
    decreases items, 0
  {
    if items != [] {
      assert items == [items[0]] + items[1..] && items[0] in items;
      SpelledExactly(items[0], indefinite);
      ItemsSpelled(items[1..], indefinite);
    }
  }

  lemma {:induction false} EntriesSpelled(entries: seq<(Utf8, Option<Value>)>, indefinite: bool)
    requires forall e | e in entries :: e.1.Some? ==> Valid(e.1.value)
    ensures (forall e | e in entries :: EntryEncodable(e, indefinite))
      <==> forall e | e in entries :: SpellableEntry(e, indefinite)
    ensures (forall e | e in entries :: SpellableEntry(e, indefinite)) ==>
      EncodeEntries(entries, indefinite) == SpelledEntries(entries, indefinite)
    decreases entries, 0
  {
    if entries != [] {
      assert entries == [entries[0]] + entries[1..] && entries[0] in entries;
      EntrySpelled(entries[0], indefinite);
      EntriesSpelled(entries[1..], indefinite);
    }
  }

  lemma EntrySpelled(e: (Utf8, Option<Value>), indefinite: bool)
    requires e.1.Some? ==> Valid(e.1.value)
    ensures EntryEncodable(e, indefinite) <==> SpellableEntry(e, indefinite)
    ensures SpellableEntry(e, indefinite) ==> EncodeEntry(e, indefinite) == SpelledEntry(e, indefinite)
    decreases e, 0
  {
    if e.1.Some? {
      SpelledExactly(e.1.value, indefinite);
      if |e.0| < 0x1_0000_0000_0000_0000 { HeadIsShort(3, |e.0|); }
    }
  }

  /** The spelling of a value denotes what the value means. */
  lemma SpellingDenotes(v: Value, indefinite: bool)
    requires Valid(v) && Spellable(v, indefinite)
    ensures Denotes(Spelling(v, indefinite), Meaning(v))
  {
    SpelledExactly(v, indefinite);
    RoundTrip(v, indefinite, []);
    assert Encode(v, indefinite) + [] == Encode(v, indefinite);
    DenotesExactly(Encode(v, indefinite), Meaning(v));
  }
}
