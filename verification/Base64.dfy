/** Base64, section 4 of RFC 4648: how `base64.b64encode` prints bytes and how
    `base64.b64decode` reads them. The reader is lenient: it skips characters outside the
    alphabet, and it ends at a complete padding. */
module Base64 {
  import opened BigEndian
  import opened Outcomes

  type Bytes = seq<Byte>
  type Sextet = n: nat | n < 64

  // ---------------------------------------------------------------- the alphabet

  function Symbol(n: Sextet): char {
    if n < 26 then ('A' as int + n) as char
    else if n < 52 then ('a' as int + n - 26) as char
    else if n < 62 then ('0' as int + n - 52) as char
    else if n == 62 then '+' else '/'
  }

  predicate InAlphabet(c: char) {
    'A' <= c <= 'Z' || 'a' <= c <= 'z' || '0' <= c <= '9' || c == '+' || c == '/'
  }

  function SextetOf(c: char): Sextet
    requires InAlphabet(c)
  {
    if 'A' <= c <= 'Z' then c as int - 'A' as int
    else if 'a' <= c <= 'z' then c as int - 'a' as int + 26
    else if '0' <= c <= '9' then c as int - '0' as int + 52
    else if c == '+' then 62 else 63
  }

  const PAD := '='

  predicate Ascii(s: string) {
    forall i | 0 <= i < |s| :: s[i] as int < 128
  }

  // ---------------------------------------------------------------- printing

  /** Three bytes become four symbols; what is left at the end is padded. */
  function Encode(b: Bytes): string {
    if b == [] then ""
    else if |b| == 1 then [Symbol(b[0] / 4), Symbol(b[0] % 4 * 16), PAD, PAD]
    else if |b| == 2 then [Symbol(b[0] / 4), Symbol(b[0] % 4 * 16 + b[1] / 16), Symbol(b[1] % 16 * 4), PAD]
    else Quad(b[0], b[1], b[2]) + Encode(b[3..])
  }

  function Quad(x: Byte, y: Byte, z: Byte): string {
    [Symbol(x / 4), Symbol(x % 4 * 16 + y / 16), Symbol(y % 16 * 4 + z / 64), Symbol(z % 64)]
  }

  // ---------------------------------------------------------------- reading

  /** Where the reader is: how many symbols of the current group it has seen, the bits that
      are not used yet, and how many padding characters came since. */
  datatype Reader = Reader(position: nat, left: nat, pads: nat)

  const START := Reader(0, 0, 0)

  predicate Sound(r: Reader) {
    && r.position < 4
    && (r.position == 1 ==> r.left < 64) && (r.position == 2 ==> r.left < 16) && (r.position == 3 ==> r.left < 4)
  }

  /** The bytes a symbol completes, and the reader after it. */
  function Feed(r: Reader, n: Sextet): (res: (Bytes, Reader))
    requires Sound(r)
    ensures Sound(res.1)
  {
    match r.position
    case 0 => ([], Reader(1, n, 0))
    case 1 => ([r.left * 4 + n / 16], Reader(2, n % 16, 0))
    case 2 => ([r.left * 16 + n / 4], Reader(3, n % 4, 0))
    case _ => ([r.left * 64 + n], START)
  }

  /** The bytes found before the rest was read. */
  function Before(bytes: Bytes, more: Outcome<Bytes>): Outcome<Bytes> {
    if more.Ok? then Ok(bytes + more.value) else Err
  }

  function Read(s: string, r: Reader): Outcome<Bytes>
    requires Sound(r)
    decreases |s|
  {
    if s == [] then (if r.position == 0 then Ok([]) else Err)
    else if s[0] == PAD then
      if r.position >= 2 && r.position + r.pads + 1 >= 4 then Ok([])
      else Read(s[1..], if r.position >= 2 then r.(pads := r.pads + 1) else r)
    else if InAlphabet(s[0]) then
      var (bytes, r') := Feed(r, SextetOf(s[0]));
      Before(bytes, Read(s[1..], r'))
    else Read(s[1..], r)
  }

  /** `base64.b64decode` of a string: other than ASCII characters raise. */
  function Decode(s: string): Outcome<Bytes> {
    if Ascii(s) then Read(s, START) else Err
  }

  // ---------------------------------------------------------------- what is printed

  /** Table 1 of RFC 4648: the values of the characters A to Z, a to z, 0 to 9, + and /. */
  predicate Table(n: int, c: char) {
    || (0 <= n <= 25 && c as int == 65 + n)
    || (26 <= n <= 51 && c as int == 97 + n - 26)
    || (52 <= n <= 61 && c as int == 48 + n - 52)
    || (n == 62 && c == '+')
    || (n == 63 && c == '/')
  }

  /** The byte at a position, and zero behind the end. */
  function ByteAt(b: Bytes, i: nat): nat {
    if i < |b| then b[i] else 0
  }

  /** The 24 bits of a group of bytes. */
  function Bits24(b: Bytes, i: nat): nat {
    ByteAt(b, 3 * i) * 0x1_0000 + ByteAt(b, 3 * i + 1) * 0x100 + ByteAt(b, 3 * i + 2)
  }

  /** The four characters of a group, six bits for each; characters for which there are no
      bits are `=`. */
  predicate Spelled(n: nat, bytes: int, s: string) {
    && |s| == 4 && Table(n / 0x4_0000, s[0]) && Table(n / 0x1000 % 0x40, s[1])
    && (if bytes >= 2 then Table(n / 0x40 % 0x40, s[2]) else s[2] == '=')
    && (if bytes >= 3 then Table(n % 0x40, s[3]) else s[3] == '=')
  }

  lemma By64(n: nat, q: nat, r: nat)
    requires n == 0x40 * q + r && r < 0x40
    ensures n / 0x40 == q && n % 0x40 == r
  {
  }

  lemma SixBits(n: nat, x: nat, y: nat, z: nat)
    requires x < 0x100 && y < 0x100 && z < 0x100 && n == x * 0x1_0000 + y * 0x100 + z
    ensures n / 0x4_0000 == x / 4 && n / 0x1000 % 0x40 == x % 4 * 16 + y / 16
    ensures n / 0x40 % 0x40 == y % 16 * 4 + z / 64 && n % 0x40 == z % 64
  {
    var a := x * 0x400 + y * 4 + z / 64;
    var b := x * 0x10 + y / 16;
    By64(n, a, z % 64);
    By64(a, b, y % 16 * 4 + z / 64);
    By64(b, x / 4, x % 4 * 16 + y / 16);
    assert n / 0x1000 == n / 0x40 / 0x40 && n / 0x4_0000 == n / 0x1000 / 0x40;
  }

  lemma SymbolInTable(n: Sextet)
    ensures Table(n, Symbol(n))
  {
  }

  lemma FirstGroup(b: Bytes)
    requires b != []
    ensures |Encode(b)| >= 4 && Spelled(Bits24(b, 0), |b|, Encode(b)[..4])
  {
    var x, y, z := ByteAt(b, 0), ByteAt(b, 1), ByteAt(b, 2);
    SixBits(Bits24(b, 0), x, y, z);
    SymbolInTable(x / 4);
    SymbolInTable(x % 4 * 16 + y / 16);
    SymbolInTable(y % 16 * 4 + z / 64);
    SymbolInTable(z % 64);
    FirstFour(b);
  }

  lemma FirstFour(b: Bytes)
    requires b != []
    ensures var x, y, z := ByteAt(b, 0), ByteAt(b, 1), ByteAt(b, 2);
      && x / 4 < 64 && x % 4 * 16 + y / 16 < 64 && y % 16 * 4 + z / 64 < 64
      && |Encode(b)| >= 4
      && Encode(b)[..4] == [Symbol(x / 4), Symbol(x % 4 * 16 + y / 16),
                            if |b| >= 2 then Symbol(y % 16 * 4 + z / 64) else '=', if |b| >= 3 then Symbol(z % 64) else '=']
  {
    if |b| >= 3 {
      var quad := Quad(b[0], b[1], b[2]);
      assert (quad + Encode(b[3..]))[..4] == quad;
    }
  }

  lemma {:induction false} EncodedLength(b: Bytes)
    ensures |Encode(b)| == (|b| + 2) / 3 * 4
    decreases |b|
  {
    if |b| >= 3 { EncodedLength(b[3..]); }
  }

  /** Group `i` of the text spells group `i` of the bytes. */
  ghost predicate GroupAt(b: Bytes, s: string, i: nat) {
    4 * i + 4 <= |s| && Spelled(Bits24(b, i), |b| - 3 * i, s[4 * i..4 * i + 4])
  }

  /** Every group is spelled, and there are no other characters. */
  lemma {:induction false} Groups(b: Bytes, i: nat)
    requires 3 * i < |b|
    ensures |Encode(b)| == (|b| + 2) / 3 * 4 && GroupAt(b, Encode(b), i)
    decreases |b|
  {
    if i == 0 {
      FirstGroup(b);
    } else {
      Groups(b[3..], i - 1);
      NextGroup(b, Encode(b[3..]), i);
    }
    EncodedLength(b);
  }

  lemma NextGroup(b: Bytes, others: string, i: nat)
    requires |b| >= 3 && i > 0 && 3 * i < |b| && GroupAt(b[3..], others, i - 1)
    ensures GroupAt(b, Quad(b[0], b[1], b[2]) + others, i)
  {
    Shifted(b, 3 * i);
    Shifted(b, 3 * i + 1);
    Shifted(b, 3 * i + 2);
    assert Bits24(b[3..], i - 1) == Bits24(b, i);
    var all := Quad(b[0], b[1], b[2]) + others;
    assert all[4 * i..4 * i + 4] == others[4 * (i - 1)..4 * (i - 1) + 4];
  }

  lemma Shifted(b: Bytes, i: nat)
    requires |b| >= 3 && i >= 3
    ensures ByteAt(b[3..], i - 3) == ByteAt(b, i)
  {
  }

  // ---------------------------------------------------------------- round trip

  lemma SymbolBack(n: Sextet)
    ensures InAlphabet(Symbol(n)) && SextetOf(Symbol(n)) == n && Symbol(n) != PAD && Symbol(n) as int < 128
  {
  }

  /** One symbol takes the reader one turn further. */
  lemma ReadSymbol(n: Sextet, rest: string, r: Reader)
    requires Sound(r)
    ensures Read([Symbol(n)] + rest, r) == Before(Feed(r, n).0, Read(rest, Feed(r, n).1))
  {
    SymbolBack(n);
    assert ([Symbol(n)] + rest)[1..] == rest;
  }

  /** The bits of three bytes are those of the four symbols. */
  lemma Bits(x: Byte, y: Byte, z: Byte)
    ensures x / 4 < 64 && x % 4 * 16 + y / 16 < 64 && y % 16 * 4 + z / 64 < 64
    ensures (x % 4 * 16 + y / 16) / 16 == x % 4 && (x % 4 * 16 + y / 16) % 16 == y / 16
    ensures (y % 16 * 4 + z / 64) / 4 == y % 16 && (y % 16 * 4 + z / 64) % 4 == z / 64
    ensures x / 4 * 4 + x % 4 == x && y / 16 * 16 + y % 16 == y && z / 64 * 64 + z % 64 == z
  {
  }

  lemma Join(x: Byte, y: Byte, z: Byte, more: Outcome<Bytes>)
    ensures Before([], Before([x], Before([y], Before([z], more)))) == Before([x, y, z], more)
  {
    if more.Ok? {
      assert [] + ([x] + ([y] + ([z] + more.value))) == [x, y, z] + more.value;
    }
  }

  lemma JoinEnd(x: Byte, y: Byte)
    ensures Before([], Before([x], Ok([]))) == Ok([x])
    ensures Before([], Before([x], Before([y], Ok([])))) == Ok([x, y])
  {
    assert [] + ([x] + []) == [x] && [] + ([x] + ([y] + [])) == [x, y];
  }

  /** The first two symbols of a group, and what is left of the second one. */
  lemma ReadFirst(x: Byte, y: Byte, rest: string)
    ensures x / 4 < 64 && x % 4 * 16 + y / 16 < 64
    ensures Read([Symbol(x / 4)] + ([Symbol(x % 4 * 16 + y / 16)] + rest), START)
         == Before([], Before([x], Read(rest, Reader(2, y / 16, 0))))
  {
    Bits(x, y, 0);
    var a, b := x / 4, x % 4 * 16 + y / 16;
    assert Feed(Reader(1, a, 0), b) == ([x], Reader(2, y / 16, 0));
    ReadSymbol(a, [Symbol(b)] + rest, START);
    ReadSymbol(b, rest, Reader(1, a, 0));
  }

  /** The third symbol of a group, and what is left of it. */
  lemma ReadThird(y: Byte, z: Byte, rest: string)
    ensures y % 16 * 4 + z / 64 < 64
    ensures Read([Symbol(y % 16 * 4 + z / 64)] + rest, Reader(2, y / 16, 0))
         == Before([y], Read(rest, Reader(3, z / 64, 0)))
  {
    Bits(0, y, z);
    ReadSymbol(y % 16 * 4 + z / 64, rest, Reader(2, y / 16, 0));
  }

  /** The last symbol of a group. */
  lemma ReadFourth(z: Byte, rest: string)
    ensures Read([Symbol(z % 64)] + rest, Reader(3, z / 64, 0)) == Before([z], Read(rest, START))
  {
    Bits(0, 0, z);
    ReadSymbol(z % 64, rest, Reader(3, z / 64, 0));
  }

  lemma Four(a: char, b: char, c: char, d: char, rest: string)
    ensures [a, b, c, d] + rest == [a] + ([b] + ([c] + ([d] + rest)))
  {
  }

  lemma ReadQuad(x: Byte, y: Byte, z: Byte, rest: string)
    ensures Read(Quad(x, y, z) + rest, START) == Before([x, y, z], Read(rest, START))
  {
    var last := [Symbol(z % 64)] + rest;
    ReadFourth(z, rest);
    ReadThird(y, z, last);
    ReadFirst(x, y, [Symbol(y % 16 * 4 + z / 64)] + last);
    Join(x, y, z, Read(rest, START));
    Four(Symbol(x / 4), Symbol(x % 4 * 16 + y / 16), Symbol(y % 16 * 4 + z / 64), Symbol(z % 64), rest);
  }

  lemma ReadOne(x: Byte)
    ensures Read(Encode([x]), START) == Ok([x])
  {
    ReadFirst(x, 0, [PAD, PAD]);
    ReadEnd();
    JoinEnd(x, 0);
    assert Encode([x]) == [Symbol(x / 4)] + ([Symbol(x % 4 * 16)] + [PAD, PAD]);
  }

  lemma ReadTwo(x: Byte, y: Byte)
    ensures Read(Encode([x, y]), START) == Ok([x, y])
  {
    ThreeSymbols(x, y);
    ReadFirst(x, y, [Symbol(y % 16 * 4)] + [PAD]);
    LastSymbol(y);
    JoinEnd(x, y);
  }

  lemma ThreeSymbols(x: Byte, y: Byte)
    ensures x / 4 < 64 && x % 4 * 16 + y / 16 < 64 && y % 16 * 4 < 64
    ensures Encode([x, y]) == [Symbol(x / 4)] + ([Symbol(x % 4 * 16 + y / 16)] + ([Symbol(y % 16 * 4)] + [PAD]))
  {
  }

  lemma LastSymbol(y: Byte)
    ensures y % 16 * 4 < 64
    ensures Read([Symbol(y % 16 * 4)] + [PAD], Reader(2, y / 16, 0)) == Before([y], Ok([]))
  {
    ReadThird(y, 0, [PAD]);
    ReadEnd();
  }

  lemma ReadEnd()
    ensures Read([PAD, PAD], Reader(2, 0, 0)) == Ok([])
    ensures Read([PAD], Reader(3, 0, 0)) == Ok([])
  {
    assert [PAD, PAD][1..] == [PAD];
  }

  lemma {:induction false} EncodeIsAscii(b: Bytes)
    ensures Ascii(Encode(b))
    decreases |b|
  {
    if |b| >= 3 {
      EncodeIsAscii(b[3..]);
    }
  }

  lemma {:induction false} ReadBack(b: Bytes)
    ensures Read(Encode(b), START) == Ok(b)
    decreases |b|
  {
    if |b| >= 3 {
      ReadBack(b[3..]);
      ReadQuad(b[0], b[1], b[2], Encode(b[3..]));
      assert [b[0], b[1], b[2]] + b[3..] == b;
    } else if |b| == 2 {
      ReadTwo(b[0], b[1]);
      assert b == [b[0], b[1]];
    } else if |b| == 1 {
      ReadOne(b[0]);
      assert b == [b[0]];
    }
  }

  /** Every byte sequence comes back. */
  lemma RoundTrip(b: Bytes)
    ensures Decode(Encode(b)) == Ok(b)
  {
    EncodeIsAscii(b);
    ReadBack(b);
  }
}
