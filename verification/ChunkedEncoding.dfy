/** Chunked transfer encoding as the HTTP utilities print and parse it: a loose variant of
    section 7.1 of RFC 9112, in which whitespace around chunks is stripped. */
module ChunkedEncoding {
  import opened PyDict
  import opened Sequences
  import opened Unicode

  const CRLF := "\r\n"

  // ---------------------------------------------------------------- hexadecimal numbers

  predicate IsHexDigit(c: char) { '0' <= c <= '9' || 'a' <= c <= 'f' }

  function HexDigit(d: nat): (c: char)
    requires d < 16
    ensures IsHexDigit(c)
  {
    if d < 10 then ('0' as int + d) as char else ('a' as int + d - 10) as char
  }

  function HexValue(c: char): nat
    requires IsHexDigit(c)
  {
    if c <= '9' then c as int - '0' as int else c as int - 'a' as int + 10
  }

  /** `hex(n)[2:]`. */
  function Hex(n: nat): (s: string)
    ensures s != [] && forall c | c in s :: IsHexDigit(c)
  {
    if n < 16 then [HexDigit(n)] else Hex(n / 16) + [HexDigit(n % 16)]
  }

  /** The value of hexadecimal digits, in lower case: other letters raise. */
  function FromHex(s: string): Option<nat> {
    if s == [] then Some(0)
    else
      var c := s[|s| - 1];
      var high := FromHex(s[..|s| - 1]);
      if high.None? || !IsHexDigit(c) then None else Some(16 * high.value + HexValue(c))
  }

  /** The number that hexadecimal digits 0 to 9 and a to f stand for, and -1 for other words. */
  function HexNumber(s: string): int {
    if s == "" then 0
    else
      var high, c := HexNumber(s[..|s| - 1]), s[|s| - 1] as int;
      if high < 0 then -1
      else if 48 <= c <= 57 then high * 16 + c - 48
      else if 97 <= c <= 102 then high * 16 + 10 + c - 97
      else -1
  }

  /** Printed lengths are hexadecimal and have no leading zero, and what can be read is read
      as the number that it stands for. */
  lemma {:induction false} HexNumeral(n: nat)
    ensures HexNumber(Hex(n)) == n && (n > 0 ==> Hex(n)[0] != '0')
  {
    var s := Hex(n);
    if n >= 16 {
      HexNumeral(n / 16);
      assert s[..|s| - 1] == Hex(n / 16) && s[0] == Hex(n / 16)[0];
    } else {
      assert s[..0] == "" && HexNumber("") == 0;
    }
  }

  lemma {:induction false} ReadAsNumber(s: string)
    ensures FromHex(s) == if HexNumber(s) >= 0 then Some(HexNumber(s)) else None
  {
    if s != "" { ReadAsNumber(s[..|s| - 1]); }
  }

  lemma {:induction false} HexRoundTrip(n: nat)
    ensures FromHex(Hex(n)) == Some(n)
  {
    var s := Hex(n);
    if n >= 16 {
      HexRoundTrip(n / 16);
      assert s[..|s| - 1] == Hex(n / 16);
    } else {
      assert s[..|s| - 1] == [];
    }
  }

  /** `int(s, 16)` of a lower-case word, which may start with `0x`. */
  function ReadLength(s: string): Option<nat>
    requires s != ""
  {
    if "0x" <= s then (if |s| > 2 then FromHex(s[2..]) else None) else FromHex(s)
  }

  lemma LengthRoundTrip(n: nat)
    ensures ReadLength(Hex(n)) == Some(n)
  {
    HexRoundTrip(n);
    if |Hex(n)| > 1 {
      assert Hex(n)[1] in Hex(n);
    }
  }

  // ---------------------------------------------------------------- stripping

  /** `str.isspace` for one character. */
  predicate IsSpace(c: char) {
    var n := c as int;
    || 0x09 <= n <= 0x0D || 0x1C <= n <= 0x20 || n == 0x85 || n == 0xA0 || n == 0x1680
    || 0x2000 <= n <= 0x200A || n == 0x2028 || n == 0x2029 || n == 0x202F || n == 0x205F || n == 0x3000
  }

  function LeftStrip(s: string): (r: string)
    ensures |r| <= |s|
  {
    if s != [] && IsSpace(s[0]) then LeftStrip(s[1..]) else s
  }

  function RightStrip(s: string): (r: string)
    ensures |r| <= |s|
  {
    if s != [] && IsSpace(s[|s| - 1]) then RightStrip(s[..|s| - 1]) else s
  }

  /** `s.strip()`. */
  function Strip(s: string): (r: string)
    ensures |r| <= |s|
  {
    RightStrip(LeftStrip(s))
  }

  /** Words that stripping leaves alone. */
  predicate Tight(s: string) {
    s != [] && !IsSpace(s[0]) && !IsSpace(s[|s| - 1])
  }

  lemma {:induction false} LeftStripSpaces(w: string, s: string)
    requires forall c | c in w :: IsSpace(c)
    requires s != [] && !IsSpace(s[0])
    ensures LeftStrip(w + s) == s
  {
    if w == [] {
      assert w + s == s;
    } else {
      assert w[0] in w && (w + s)[1..] == w[1..] + s;
      LeftStripSpaces(w[1..], s);
    }
  }

  lemma {:induction false} RightStripSpaces(s: string, w: string)
    requires forall c | c in w :: IsSpace(c)
    requires s != [] && !IsSpace(s[|s| - 1])
    ensures RightStrip(s + w) == s
  {
    if w == [] {
      assert s + w == s;
    } else {
      var l := |w| - 1;
      assert w[l] in w && (s + w)[..|s + w| - 1] == s + w[..l];
      RightStripSpaces(s, w[..l]);
    }
  }

  lemma StripSpaces(before: string, s: string, after: string)
    requires (forall c | c in before :: IsSpace(c)) && (forall c | c in after :: IsSpace(c)) && Tight(s)
    ensures Strip(before + s + after) == s
  {
    assert before + s + after == before + (s + after);
    LeftStripSpaces(before, s + after);
    RightStripSpaces(s, after);
  }

  // ---------------------------------------------------------------- parsing

  predicate IsWordChar(c: char) {
    '0' <= c <= '9' || 'a' <= c <= 'z' || 'A' <= c <= 'Z'
  }

  /** The longest prefix of word characters: what `[0-9a-zA-Z]+` matches before a CRLF. */
  function Word(s: string): (w: string)
    ensures w <= s
  {
    if s != [] && IsWordChar(s[0]) then [s[0]] + Word(s[1..]) else []
  }

  /** `^([0-9a-zA-Z]+)\r\n.*` at the start of the data. */
  predicate HasLength(s: string) {
    Word(s) != [] && Word(s) + CRLF <= s
  }

  /** The loop has collected `flat`; the rest of it yields `r`. */
  function Before(flat: string, r: Option<string>): (s: Option<string>)
    ensures flat == "" ==> s == r
    ensures r == Some("") ==> s == Some(flat)
  {
    if r.None? then None
    else
      assert flat == "" ==> flat + r.value == r.value;
      assert r.value == "" ==> flat + r.value == flat;
      Some(flat + r.value)
  }

  /** The loop of `parse_chunked_data`; None where `int` raises ValueError. */
  function ParseChunks(data: string): Option<string>
    decreases |data|
  {
    if !HasLength(data) then Some("")
    else
      var length := ReadLength(Lower(Word(data)));
      if length.None? then None
      else
        var rest := data[|Word(data)| + 2..];
        var n := if length.value <= |rest| then length.value else |rest|;
        Before(rest[..n], ParseChunks(Strip(rest[n..])))
  }

  function Parse(data: string): Option<string> {
    ParseChunks(Strip(data))
  }

  // ---------------------------------------------------------------- printing

  function Chunk(data: string, ending: string): string {
    Hex(|data|) + CRLF + data + ending
  }

  /** Full chunks end in two line ends, a shorter last one in one. */
  function Chunks(data: string, size: nat): string
    requires size > 0
    decreases |data|
  {
    if |data| >= size then Chunk(data[..size], CRLF + CRLF) + Chunks(data[size..], size)
    else if data != "" then Chunk(data, CRLF) + "0\r\n\r\n"
    else "0\r\n\r\n"
  }

  // Sizes that are not positive.

  /** Python's `%`: the result has the sign of the divisor. */
  function Mod(n: nat, size: int): (r: int)
    requires size != 0
    ensures size > 0 ==> 0 <= r < size && r <= n
    ensures size < 0 ==> size < r <= 0
    ensures n == 0 ==> r == 0
  {
    var m: int := n;
    if size > 0 then m % size else -((-m) % -size)
  }

  /** `hex(n)[2:]`, which cuts the sign and a digit from negative numbers. */
  function HexText(n: int): string {
    if n >= 0 then Hex(n) else "x" + Hex(-n)
  }

  /** `data[-left:]`. */
  function Ending(data: string, left: int): string
    requires left <= |data|
  {
    if left > 0 then data[|data| - left..]
    else if left == 0 then ""
    else data[if -left < |data| then -left else |data|..]
  }

  /** What is printed after the full chunks. */
  function LastPart(data: string, left: int): string
    requires left <= |data|
  {
    (if left == 0 then "" else HexText(left) + CRLF + (Ending(data, left) + CRLF)) + "0\r\n\r\n"
  }

  function Printed(data: string, size: int): Option<string> {
    if size == 0 then None
    else if size > 0 then Some(Chunks(data, size))
    else
      Some(LastPart(data, Mod(|data|, size)))
  }

  // ---------------------------------------------------------------- what is printed

  /** The text of the chunks: each full one with its length in front and an empty line behind,
      the shorter last one with a line end behind, and then the chunk of length 0. */
  function Text(data: string, size: nat): string
    requires size > 0
    decreases |data|
  {
    if |data| >= size then Hex(size) + "\r\n" + data[..size] + "\r\n\r\n" + Text(data[size..], size)
    else if data == "" then "0\r\n\r\n"
    else Hex(|data|) + "\r\n" + data + "\r\n" + "0\r\n\r\n"
  }

  lemma {:induction false} ChunksAreText(data: string, size: nat)
    requires size > 0
    ensures Chunks(data, size) == Text(data, size)
    decreases |data|
  {
    if |data| >= size { ChunksAreText(data[size..], size); }
    assert CRLF + CRLF == "\r\n\r\n";
  }

  /** For every chunk size, also for those that make no sense: zero raises; below zero no full
      chunk is printed, and of the rest, which counts from the wrong side, a wrong length. */
  lemma PrintedText(data: string, size: int, left: nat, q: int)
    requires size < 0 ==> left < -size && |data| + left == q * -size
    ensures size > 0 ==> Printed(data, size) == Some(Text(data, size))
    ensures size == 0 ==> Printed(data, size) == None
    ensures size < 0 && left == 0 ==> Printed(data, size) == Some("0\r\n\r\n")
    ensures size < 0 && left > 0 ==>
      Printed(data, size) == Some("x" + Hex(left) + "\r\n" + (data[if left < |data| then left else |data|..] + "\r\n") + "0\r\n\r\n")
  {
    if size > 0 {
      ChunksAreText(data, size);
    } else if size < 0 {
      Remainder(-|data|, -size, -q, left);
      assert "" + "0\r\n\r\n" == "0\r\n\r\n";
    }
  }

  lemma Remainder(n: int, size: nat, q: int, r: nat)
    requires size > 0 && n == q * size + r && r < size
    ensures n % size == r
  {
    var d := n / size;
    assert n == d * size + n % size;
    NoMultiple(q - d, size, n % size - r);
  }

  lemma NoMultiple(k: int, size: int, x: int)
    requires 0 < size && x == k * size && -size < x < size
    ensures x == 0
  {
    assert k * size == (k - 1) * size + size == -((-1 - k) * size) - size;
    if k > 0 {
      Positive(k - 1, size);
    } else if k < 0 {
      Positive(-1 - k, size);
    }
  }

  lemma Positive(a: int, b: int)
    requires a >= 0 && b >= 0
    ensures a * b >= 0
  {
  }

  // ---------------------------------------------------------------- round trip

  /** The printed chunks up to the zero that ends them. */
  function Core(data: string, size: nat): string
    requires size > 0
    decreases |data|
  {
    if |data| >= size then Chunk(data[..size], CRLF + CRLF) + Core(data[size..], size)
    else if data != "" then Chunk(data, CRLF) + "0"
    else "0"
  }

  lemma {:induction false} ChunksEndInSpaces(data: string, size: nat)
    requires size > 0
    ensures Chunks(data, size) == Core(data, size) + (CRLF + CRLF)
    decreases |data|
  {
    if |data| >= size {
      ChunksEndInSpaces(data[size..], size);
      var first, core := Chunk(data[..size], CRLF + CRLF), Core(data[size..], size);
      assert first + (core + (CRLF + CRLF)) == first + core + (CRLF + CRLF);
    } else if data != "" {
      assert Chunk(data, CRLF) + "0\r\n\r\n" == Chunk(data, CRLF) + "0" + (CRLF + CRLF);
    }
  }

  lemma {:induction false} CoreIsTight(data: string, size: nat)
    requires size > 0
    ensures Tight(Core(data, size))
    decreases |data|
  {
    if |data| >= size {
      CoreIsTight(data[size..], size);
      assert Core(data, size)[0] == Hex(size)[0];
      assert Hex(size)[0] in Hex(size);
    } else if data != "" {
      assert Core(data, size)[0] == Hex(|data|)[0];
      assert Hex(|data|)[0] in Hex(|data|);
    }
  }

  lemma {:induction false} WordOfHex(h: string, rest: string)
    requires forall c | c in h :: IsHexDigit(c)
    requires rest != [] && !IsWordChar(rest[0])
    ensures Word(h + rest) == h && Lower(h) == h
  {
    if h == [] {
      assert h + rest == rest;
    } else {
      assert h[0] in h && (h + rest)[1..] == h[1..] + rest;
      WordOfHex(h[1..], rest);
      assert [h[0]] + h[1..] == h;
    }
    forall i | 0 <= i < |h| ensures Lower(h)[i] == h[i] {
      assert h[i] in h;
    }
  }

  lemma Starts(a: string, b: string)
    ensures a <= a + b && (a + b)[|a|..] == b
  {
  }

  /** The length in front of a chunk. */
  lemma ReadsLength(n: nat, rest: string)
    ensures var s := Hex(n) + CRLF + rest;
      && HasLength(s) && Word(s) == Hex(n) && s[|Hex(n)| + 2..] == rest
      && ReadLength(Lower(Word(s))) == Some(n)
  {
    var h := Hex(n);
    Assoc(h, CRLF, rest);
    WordOfHex(h, CRLF + rest);
    LengthRoundTrip(n);
    Starts(h + CRLF, rest);
  }

  lemma OneTurn(s: string, rest: string, n: nat)
    requires HasLength(s) && s[|Word(s)| + 2..] == rest && ReadLength(Lower(Word(s))) == Some(n) && n <= |rest|
    ensures ParseChunks(s) == Before(rest[..n], ParseChunks(Strip(rest[n..])))
  {
  }

  lemma StripBefore(spaces: string, core: string)
    requires (forall c | c in spaces :: IsSpace(c)) && Tight(core)
    ensures Strip(spaces + core) == core
  {
    StripSpaces(spaces, core, "");
    assert spaces + core + "" == spaces + core;
  }

  lemma Slices(data: string, spaces: string, core: string)
    ensures (data + (spaces + core))[..|data|] == data && (data + (spaces + core))[|data|..] == spaces + core
    ensures Chunk(data, spaces) + core == Hex(|data|) + CRLF + (data + (spaces + core))
  {
    var start := Hex(|data|) + CRLF;
    Assoc(start + data, spaces, core);
    Assoc(start, data, spaces + core);
  }

  /** One turn of the loop takes a chunk, whatever characters it holds, and nothing else. */
  lemma ParseOneChunk(data: string, spaces: string, core: string, more: string)
    requires (forall c | c in spaces :: IsSpace(c)) && Tight(core)
    requires ParseChunks(core) == Some(more)
    ensures ParseChunks(Chunk(data, spaces) + core) == Some(data + more)
  {
    Slices(data, spaces, core);
    var rest := data + (spaces + core);
    ReadsLength(|data|, rest);
    OneTurn(Hex(|data|) + CRLF + rest, rest, |data|);
    StripBefore(spaces, core);
  }

  lemma ParseZero()
    ensures ParseChunks("0") == Some("") && Tight("0")
  {
    var zero := "0";
    assert zero[1..] == [];
    assert Word(zero) == zero;
    assert !HasLength(zero);
  }

  lemma LineEnds()
    ensures (forall c | c in CRLF :: IsSpace(c)) && (forall c | c in CRLF + CRLF :: IsSpace(c))
  {
  }

  lemma ParseFull(piece: string, core: string, rest: string)
    requires Tight(core) && ParseChunks(core) == Some(rest)
    ensures ParseChunks(Chunk(piece, CRLF + CRLF) + core) == Some(piece + rest)
  {
    LineEnds();
    ParseOneChunk(piece, CRLF + CRLF, core, rest);
  }

  lemma ParseLast(data: string)
    ensures ParseChunks(Chunk(data, CRLF) + "0") == Some(data)
  {
    LineEnds();
    ParseZero();
    ParseOneChunk(data, CRLF, "0", "");
    assert data + "" == data;
  }

  lemma Halves(data: string, size: nat)
    requires size <= |data|
    ensures data[..size] + data[size..] == data
  {
  }

  lemma {:induction false} ParseCore(data: string, size: nat)
    requires size > 0
    ensures ParseChunks(Core(data, size)) == Some(data)
    decreases |data|
  {
    if |data| >= size {
      CoreIsTight(data[size..], size);
      ParseCore(data[size..], size);
      ParseFull(data[..size], Core(data[size..], size), data[size..]);
      Halves(data, size);
    } else if data != "" {
      ParseLast(data);
    } else {
      ParseZero();
    }
  }

  /** Parsing the printed chunks gives back every string, for every chunk size. */
  lemma RoundTrip(data: string, size: nat)
    requires size > 0
    ensures Parse(Chunks(data, size)) == Some(data)
  {
    ChunksEndInSpaces(data, size);
    CoreIsTight(data, size);
    StripSpaces("", Core(data, size), CRLF + CRLF);
    assert "" + Core(data, size) + (CRLF + CRLF) == Chunks(data, size);
    ParseCore(data, size);
  }

  /** A size below zero prints no data, or a length that cannot be read. */
  lemma NegativeSize(data: string, size: int)
    requires size < 0
    ensures Printed(data, size).Some?
    ensures Parse(Printed(data, size).value) == if Mod(|data|, size) == 0 then Some("") else None
  {
    var left := Mod(|data|, size);
    if left == 0 {
      NothingPrinted();
      assert Printed(data, size) == Some("" + "0\r\n\r\n");
    } else {
      UnreadableLength(-left, Ending(data, left));
      assert Printed(data, size) == Some("x" + Hex(-left) + CRLF + (Ending(data, left) + CRLF) + "0\r\n\r\n");
    }
  }

  lemma NothingPrinted()
    ensures Parse("" + "0\r\n\r\n") == Some("")
  {
    ParseZero();
    StripSpaces("", "0", CRLF + CRLF);
    assert "" + "0\r\n\r\n" == "" + "0" + (CRLF + CRLF);
  }

  lemma UnreadableLength(n: nat, ending: string)
    ensures Parse("x" + Hex(n) + CRLF + (ending + CRLF) + "0\r\n\r\n") == None
  {
    var word, rest := "x" + Hex(n), ending + CRLF + "0";
    var core := word + (CRLF + rest);
    assert word + CRLF + (ending + CRLF) + "0\r\n\r\n" == "" + core + (CRLF + CRLF);
    StripSpaces("", core, CRLF + CRLF);
    NegativeWord(n, CRLF + rest);
    assert word + CRLF <= core;
  }

  lemma NegativeWord(n: nat, rest: string)
    requires rest != [] && !IsWordChar(rest[0])
    ensures var w := "x" + Hex(n); Word(w + rest) == w && Lower(w) == w && ReadLength(w) == None
  {
    WordOfHex(Hex(n), rest);
    WordAfter('x', Hex(n), rest);
    LowerAfter(Hex(n));
    NotHex("x" + Hex(n));
  }

  lemma WordAfter(c: char, h: string, rest: string)
    requires IsWordChar(c) && Word(h + rest) == h
    ensures Word([c] + h + rest) == [c] + h
  {
    Assoc([c], h, rest);
    assert ([c] + (h + rest))[1..] == h + rest;
  }

  lemma LowerAfter(h: string)
    requires Lower(h) == h
    ensures Lower("x" + h) == "x" + h
  {
    var w := "x" + h;
    forall i | 0 <= i < |w| ensures Lower(w)[i] == w[i] {
      if i > 0 { assert w[i] == h[i - 1] == Lower(h)[i - 1]; }
    }
  }

  lemma {:induction false} NotHex(s: string)
    requires s != "" && s[0] == 'x'
    ensures FromHex(s) == None
  {
    if |s| > 1 {
      NotHex(s[..|s| - 1]);
    }
  }

  /** For every integer size: printing succeeds and its text is parsed back to the data, if
      and only if the size is positive, or negative with no data at all. */
  lemma RoundTripExactly(data: string, size: int)
    ensures Printed(data, size).Some? && Parse(Printed(data, size).value) == Some(data)
      <==> size > 0 || (size < 0 && data == "")
  {
    if size > 0 {
      RoundTrip(data, size);
    } else if size < 0 {
      NegativeSize(data, size);
    }
  }

  // ---------------------------------------------------------------- the functions with loops

  function Flat(chunks: seq<string>): string {
    if chunks == [] then "" else Flat(chunks[..|chunks| - 1]) + chunks[|chunks| - 1]
  }

  lemma BeforeAgain(flat: string, piece: string, more: Option<string>)
    ensures Before(flat, Before(piece, more)) == Before(flat + piece, more)
  {
    if more.Some? {
      assert flat + (piece + more.value) == flat + piece + more.value;
    }
  }

  lemma FlatSnoc(chunks: seq<string>, piece: string)
    ensures Flat(chunks + [piece]) == Flat(chunks) + piece
  {
    assert (chunks + [piece])[..|chunks|] == chunks;
  }

  method ParseChunkedData(input: string) returns (r: Option<string>)
    ensures r == Parse(input)
  {
    var data := Strip(input);
    var chunks: seq<string> := [];
    while data != ""
      invariant Parse(input) == Before(Flat(chunks), ParseChunks(data))
      decreases |data|
    {
      if !HasLength(data) {
        break;
      }
      var length := ReadLength(Lower(Word(data)));
      if length.None? {
        return None;
      }
      var rest := data[|Word(data)| + 2..];
      var n := if length.value <= |rest| then length.value else |rest|;
      FlatSnoc(chunks, rest[..n]);
      BeforeAgain(Flat(chunks), rest[..n], ParseChunks(Strip(rest[n..])));
      chunks := chunks + [rest[..n]];
      data := Strip(rest[n..]);
    }
    assert ParseChunks(data) == Some("");
    return Some(Flat(chunks));
  }

  /** The chunk at position `i`, when it is a full one. */
  lemma ChunkAt(data: string, size: nat, i: nat)
    requires size > 0 && (i + 1) * size <= |data|
    ensures 0 <= i * size <= (i + 1) * size == i * size + size
    ensures Chunks(data[i * size..], size)
         == (Hex(size) + CRLF) + (data[i * size..(i + 1) * size] + CRLF + CRLF) + Chunks(data[(i + 1) * size..], size)
  {
    assert (i + 1) * size == i * size + size;
    var from, piece := data[i * size..], data[i * size..(i + 1) * size];
    assert from[..size] == piece && from[size..] == data[(i + 1) * size..];
    assert Chunk(piece, CRLF + CRLF) == (Hex(size) + CRLF) + (piece + CRLF + CRLF);
  }

  lemma FullChunks(length: nat, size: nat, i: nat)
    requires size > 0 && i < length / size
    ensures 0 <= i * size && (i + 1) * size <= length
  {
    assert (i + 1) * size <= (length / size) * size;
  }

  /** The first `i` full chunks have been printed. */
  ghost predicate Done(data: string, size: int, i: nat, text: string) {
    if size > 0 then 0 <= i * size <= |data| && Chunks(data, size) == text + Chunks(data[i * size..], size)
    else text == ""
  }

  lemma DoneTurn(data: string, size: nat, i: nat, text: string)
    requires size > 0 && i < |data| / size && Done(data, size, i, text)
    ensures 0 <= i * size <= (i + 1) * size <= |data|
    ensures Done(data, size, i + 1, text + (Hex(size) + CRLF) + (data[i * size..(i + 1) * size] + CRLF + CRLF))
  {
    FullChunks(|data|, size, i);
    ChunkAt(data, size, i);
    var length, piece := Hex(size) + CRLF, data[i * size..(i + 1) * size] + CRLF + CRLF;
    var others := Chunks(data[(i + 1) * size..], size);
    assert text + (length + piece + others) == text + length + piece + others;
  }

  lemma DoneEnd(data: string, size: int, text: string)
    requires size != 0 && Done(data, size, if size > 0 then |data| / size else 0, text)
    ensures Printed(data, size) == Some(text + LastPart(data, Mod(|data|, size)))
  {
    if size > 0 {
      LastChunk(data, size, |data| / size);
    } else {
      assert text + LastPart(data, Mod(|data|, size)) == LastPart(data, Mod(|data|, size));
    }
  }

  lemma LastChunk(data: string, size: nat, full: nat)
    requires size > 0 && full == |data| / size
    ensures 0 <= full * size <= |data|
    ensures Chunks(data[full * size..], size) == LastPart(data, Mod(|data|, size))
  {
    var left := |data| % size;
    assert full * size + left == |data|;
    var last := data[full * size..];
    assert |last| == left && (left > 0 ==> data[|data| - left..] == last);
    assert Chunk(last, CRLF) == Hex(left) + CRLF + (last + CRLF);
  }

  lemma LastText(text: string, data: string, left: int)
    requires left <= |data|
    ensures left == 0 ==> text + "0\r\n\r\n" == text + LastPart(data, left)
    ensures left != 0 ==>
      text + (HexText(left) + CRLF) + (Ending(data, left) + CRLF) + "0\r\n\r\n" == text + LastPart(data, left)
  {
    if left != 0 { FourParts(text, HexText(left) + CRLF, Ending(data, left) + CRLF, "0\r\n\r\n"); }
  }

  lemma FourParts(a: string, b: string, c: string, d: string)
    ensures a + b + c + d == a + (b + c + d)
  {
    Assoc(a, b, c);
    Assoc(a, b + c, d);
  }

  /** `create_chunked_data`: a size of zero raises. */
  method CreateChunkedData(data: string, size: int) returns (r: Option<string>)
    ensures r == Printed(data, size)
  {
    if size == 0 {
      return None;
    }
    var full, left := if size > 0 then |data| / size else 0, Mod(|data|, size);
    var text := "";
    assert size > 0 ==> data[0 * size..] == data;
    for i := 0 to full
      invariant Done(data, size, i, text)
    {
      DoneTurn(data, size, i, text);
      text := text + (Hex(size) + CRLF);
      text := text + (data[i * size..(i + 1) * size] + CRLF + CRLF);
    }
    DoneEnd(data, size, text);
    LastText(text, data, left);
    if left != 0 {
      text := text + (HexText(left) + CRLF);
      text := text + (Ending(data, left) + CRLF);
    }
    return Some(text + "0\r\n\r\n");
  }
}
