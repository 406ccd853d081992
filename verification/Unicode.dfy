/** UTF-8: what `str.encode` prints and what `bytes.decode` accepts, section 4 of RFC 3629. */
module Unicode {
  import opened BigEndian

  /** Well-formed UTF-8. */
  predicate ValidUtf8(s: seq<Byte>) {
    s == [] || (var n := CharWidth(s); n > 0 && ValidUtf8(s[n..]))
  }

  predicate Tail(b: Byte) { 0x80 <= b <= 0xBF }

  /** The number of bytes of the first character, or 0 when it is malformed. */
  function CharWidth(s: seq<Byte>): (n: nat)
    requires s != []
    ensures n <= |s|
  {
    var b := s[0];
    if b <= 0x7F then 1
    else if 0xC2 <= b <= 0xDF && |s| >= 2 && Tail(s[1]) then 2
    else if 0xE0 <= b <= 0xEF && |s| >= 3 && Tail(s[1]) && Tail(s[2])
            && (b == 0xE0 ==> s[1] >= 0xA0) && (b == 0xED ==> s[1] <= 0x9F) then 3
    else if 0xF0 <= b <= 0xF4 && |s| >= 4 && Tail(s[1]) && Tail(s[2]) && Tail(s[3])
            && (b == 0xF0 ==> s[1] >= 0x90) && (b == 0xF4 ==> s[1] <= 0x8F) then 4
    else 0
  }

  /** `s.lower()`, for the letters that matter here. */
  function Lower(s: string): (r: string)
    ensures |r| == |s|
  {
    seq(|s|, i requires 0 <= i < |s| =>
      if 'A' <= s[i] <= 'Z' then (s[i] as int + 32) as char else s[i])
  }

  function EncodeChar(c: char): (r: seq<Byte>)
    ensures 1 <= |r| <= 4
  {
    var n := c as int;
    if n < 0x80 then [n]
    else if n < 0x800 then [0xC0 + n / 0x40, 0x80 + n % 0x40]
    else if n < 0x1_0000 then [0xE0 + n / 0x1000, 0x80 + n / 0x40 % 0x40, 0x80 + n % 0x40]
    else [0xF0 + n / 0x4_0000, 0x80 + n / 0x1000 % 0x40, 0x80 + n / 0x40 % 0x40, 0x80 + n % 0x40]
  }

  /** `s.encode("utf-8")`. */
  function EncodeUtf8(s: string): seq<Byte> {
    if s == "" then [] else EncodeChar(s[0]) + EncodeUtf8(s[1..])
  }

  lemma CharIsValid(c: char, rest: seq<Byte>)
    ensures CharWidth(EncodeChar(c) + rest) == |EncodeChar(c)|
  {
    var n := c as int;
    if n < 0x800 {
    } else if n < 0x1_0000 {
      ThreeBytes(n, rest);
      assert n < 0xD800 || 0xE000 <= n;
    } else {
      FourBytes(n, rest);
    }
  }

  lemma ThreeBytes(n: nat, rest: seq<Byte>)
    requires 0x800 <= n < 0xD800 || 0xE000 <= n < 0x1_0000
    ensures CharWidth([0xE0 + n / 0x1000, 0x80 + n / 0x40 % 0x40, 0x80 + n % 0x40] + rest) == 3
  {
    var q := n / 0x40;
    assert n / 0x1000 == q / 0x40;
    assert q == q / 0x40 * 0x40 + q % 0x40;
  }

  lemma FourBytes(n: nat, rest: seq<Byte>)
    requires 0x1_0000 <= n < 0x11_0000
    ensures CharWidth([0xF0 + n / 0x4_0000, 0x80 + n / 0x1000 % 0x40, 0x80 + n / 0x40 % 0x40, 0x80 + n % 0x40] + rest) == 4
  {
    var q := n / 0x1000;
    assert n / 0x4_0000 == q / 0x40;
    assert q == q / 0x40 * 0x40 + q % 0x40;
  }

  /** Encoded text is well-formed. */
  lemma {:induction false} EncodedIsValid(s: string)
    ensures ValidUtf8(EncodeUtf8(s))
  {
    if s != "" {
      var first, others := EncodeChar(s[0]), EncodeUtf8(s[1..]);
      EncodedIsValid(s[1..]);
      CharIsValid(s[0], others);
      assert (first + others)[|first|..] == others;
    }
  }

  // ---------------------------------------------------------------- which bytes are text

  /** The character that a well-formed sequence of bytes stands for, by the table in section 3
      of RFC 3629: the bits behind the length marks. */
  function CodePoint(s: seq<Byte>): int
    requires 1 <= |s| <= 4
  {
    if |s| == 1 then s[0]
    else if |s| == 2 then Six(s[0], 0xC0) * 0x40 + Six(s[1], 0x80)
    else if |s| == 3 then Six(s[0], 0xE0) * 0x1000 + Six(s[1], 0x80) * 0x40 + Six(s[2], 0x80)
    else Six(s[0], 0xF0) * 0x4_0000 + Six(s[1], 0x80) * 0x1000 + Six(s[2], 0x80) * 0x40 + Six(s[3], 0x80)
  }

  /** The bits behind a length mark. */
  function Six(b: int, mark: int): int { b - mark }

  /** How many bytes a character takes. */
  predicate RightLength(n: int, length: nat) {
    if n < 0x80 then length == 1 else if n < 0x800 then length == 2 else if n < 0x1_0000 then length == 3 else length == 4
  }

  lemma CharIsSpelled(c: char)
    ensures var s := EncodeChar(c); CodePoint(s) == c as int && RightLength(c as int, |s|)
  {
    var n := c as int;
    var q := n / 0x40;
    var r := q / 0x40;
    assert n / 0x1000 == r && n / 0x4_0000 == r / 0x40;
    assert n == q * 0x40 + n % 0x40 && q == r * 0x40 + q % 0x40 && r == r / 0x40 * 0x40 + r % 0x40;
  }

  /** The first character of well-formed bytes. */
  lemma FirstChar(s: seq<Byte>) returns (c: char)
    requires s != [] && CharWidth(s) > 0
    ensures EncodeChar(c) == s[..CharWidth(s)]
  {
    var n := CharWidth(s);
    if n == 1 {
      c := s[0] as char;
    } else if n == 2 {
      c := CharOfTwo(s[0], s[1]);
    } else if n == 3 {
      c := CharOfThree(s[0], s[1], s[2]);
    } else {
      c := CharOfFour(s[0], s[1], s[2], s[3]);
    }
  }

  lemma CharOfTwo(x: Byte, y: Byte) returns (c: char)
    requires 0xC2 <= x <= 0xDF && 0x80 <= y <= 0xBF
    ensures EncodeChar(c) == [x, y]
  {
    var n := CodePoint([x, y]);
    Parts2(n, x - 0xC0, y - 0x80);
    c := n as char;
  }

  lemma CharOfThree(x: Byte, y: Byte, z: Byte) returns (c: char)
    requires 0xE0 <= x <= 0xEF && 0x80 <= y <= 0xBF && 0x80 <= z <= 0xBF
    requires (x == 0xE0 ==> y >= 0xA0) && (x == 0xED ==> y <= 0x9F)
    ensures EncodeChar(c) == [x, y, z]
  {
    var n := CodePoint([x, y, z]);
    Parts3(n, x - 0xE0, y - 0x80, z - 0x80);
    c := n as char;
  }

  lemma CharOfFour(x: Byte, y: Byte, z: Byte, w: Byte) returns (c: char)
    requires 0xF0 <= x <= 0xF4 && 0x80 <= y <= 0xBF && 0x80 <= z <= 0xBF && 0x80 <= w <= 0xBF
    requires (x == 0xF0 ==> y >= 0x90) && (x == 0xF4 ==> y <= 0x8F)
    ensures EncodeChar(c) == [x, y, z, w]
  {
    var n := CodePoint([x, y, z, w]);
    Parts4(n, x - 0xF0, y - 0x80, z - 0x80, w - 0x80);
    c := n as char;
  }

  lemma Parts2(n: int, a: int, b: int)
    requires n == a * 0x40 + b && 0 <= b < 0x40
    ensures n / 0x40 == a && n % 0x40 == b
  {
  }

  lemma Parts3(n: int, a: int, b: int, c: int)
    requires n == a * 0x1000 + b * 0x40 + c && 0 <= b < 0x40 && 0 <= c < 0x40
    ensures n / 0x1000 == a && n / 0x40 % 0x40 == b && n % 0x40 == c
  {
    Parts2(n, a * 0x40 + b, c);
    Parts2(a * 0x40 + b, a, b);
    assert n / 0x1000 == n / 0x40 / 0x40;
  }

  lemma Parts4(n: int, a: int, b: int, c: int, d: int)
    requires n == a * 0x4_0000 + b * 0x1000 + c * 0x40 + d && 0 <= b < 0x40 && 0 <= c < 0x40 && 0 <= d < 0x40
    ensures n / 0x4_0000 == a && n / 0x1000 % 0x40 == b && n / 0x40 % 0x40 == c && n % 0x40 == d
  {
    Parts2(n, a * 0x1000 + b * 0x40 + c, d);
    Parts3(a * 0x1000 + b * 0x40 + c, a, b, c);
    assert n / 0x1000 == n / 0x40 / 0x40 && n / 0x4_0000 == n / 0x1000 / 0x40;
  }

  lemma {:induction false} ValidIsEncoded(s: seq<Byte>) returns (t: string)
    requires ValidUtf8(s)
    ensures EncodeUtf8(t) == s
  {
    t := "";
    if s != [] {
      var n := CharWidth(s);
      var c := FirstChar(s);
      var others := ValidIsEncoded(s[n..]);
      t := [c] + others;
      assert t[1..] == others && s == s[..n] + s[n..];
    }
  }

  /** Bytes are taken for text exactly if they are the encoding of some text. */
  lemma ValidExactly(s: seq<Byte>)
    ensures ValidUtf8(s) <==> exists t: string :: EncodeUtf8(t) == s
  {
    if ValidUtf8(s) {
      var t := ValidIsEncoded(s);
    }
    if t: string :| EncodeUtf8(t) == s {
      EncodedIsValid(t);
    }
  }

  /** And texts are encoded character after character. */
  lemma {:induction false} EncodedConcat(a: string, b: string)
    ensures EncodeUtf8(a + b) == EncodeUtf8(a) + EncodeUtf8(b)
  {
    if a == "" {
      assert a + b == b;
    } else {
      assert (a + b)[1..] == a[1..] + b;
      EncodedConcat(a[1..], b);
      assert EncodeChar(a[0]) + (EncodeUtf8(a[1..]) + EncodeUtf8(b)) == EncodeChar(a[0]) + EncodeUtf8(a[1..]) + EncodeUtf8(b);
    }
  }
}
