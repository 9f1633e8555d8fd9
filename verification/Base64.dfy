/** Base64 (section 4 of RFC 4648), as the relay scripts encode and decode it. */
module Base64 {
  import opened Prelude
  import opened Text

  type Byte = b: int | 0 <= b < 256

  /** One character of the alphabet. */
  function Digit(n: int): (c: char)
    requires 0 <= n < 64
    ensures ValueOf(c) == Some(n) && InAlphabet(c)
  {
    if n < 26 then ('A' as int + n) as char
    else if n < 52 then ('a' as int + n - 26) as char
    else if n < 62 then ('0' as int + n - 52) as char
    else if n == 62 then '+'
    else '/'
  }

  function ValueOf(c: char): (v: Option<int>)
    ensures v.Some? ==> 0 <= v.value < 64
  {
    if 'A' <= c <= 'Z' then Some(c as int - 'A' as int)
    else if 'a' <= c <= 'z' then Some(c as int - 'a' as int + 26)
    else if '0' <= c <= '9' then Some(c as int - '0' as int + 52)
    else if c == '+' then Some(62)
    else if c == '/' then Some(63)
    else None
  }

  /** What `file.write` lets through: the alphabet and the padding sign. */
  predicate InAlphabet(c: char) { IsAsciiAlnum(c) || c in "+/=" }

  // ---------- groups ----------

  type Group = g: seq<Byte> | 1 <= |g| <= 3 witness [0]

  type Quad = q: string | |q| == 4 witness "AAAA"

  function EncodeGroup(g: Group): (q: Quad)
    ensures forall c :: c in q ==> InAlphabet(c)
  {
    if |g| == 1 then [Digit(g[0] / 4), Digit(g[0] % 4 * 16), '=', '=']
    else if |g| == 2 then
      [Digit(g[0] / 4), Digit(g[0] % 4 * 16 + g[1] / 16), Digit(g[1] % 16 * 4), '=']
    else
      [Digit(g[0] / 4), Digit(g[0] % 4 * 16 + g[1] / 16),
       Digit(g[1] % 16 * 4 + g[2] / 64), Digit(g[2] % 64)]
  }

  function First(a: int, b: int): Byte
    requires 0 <= a < 64 && 0 <= b < 64
  { a * 4 + b / 16 }

  function Second(b: int, c: int): Byte
    requires 0 <= b < 64 && 0 <= c < 64
  { b % 16 * 16 + c / 4 }

  function Third(c: int, d: int): Byte
    requires 0 <= c < 64 && 0 <= d < 64
  { c % 4 * 64 + d }

  /** Padding is allowed in the last group only; bits below the last byte are
      ignored. */
  function DecodeGroup(q: Quad, last: bool): (g: Option<Group>)
    ensures g.Some? && !last ==> |g.value| == 3
  {
    var a, b := ValueOf(q[0]), ValueOf(q[1]);
    if a.None? || b.None? then None
    else if last && q[2] == '=' && q[3] == '=' then Some([First(a.value, b.value)])
    else
      var c := ValueOf(q[2]);
      if c.None? then None
      else if last && q[3] == '=' then Some([First(a.value, b.value), Second(b.value, c.value)])
      else
        var d := ValueOf(q[3]);
        if d.None? then None
        else Some([First(a.value, b.value), Second(b.value, c.value), Third(c.value, d.value)])
  }

  lemma BitsFit(x: Byte, y: Byte, z: Byte)
    ensures First(x / 4, x % 4 * 16 + y / 16) == x
    ensures Second(x % 4 * 16 + y / 16, y % 16 * 4 + z / 64) == y
    ensures Third(y % 16 * 4 + z / 64, z % 64) == z
  {
  }

  lemma GroupRoundTrip(g: Group, last: bool)
    requires |g| < 3 ==> last
    ensures DecodeGroup(EncodeGroup(g), last) == Some(g)
  {
    if |g| == 1 {
      BitsFit(g[0], 0, 0);
      assert g == [g[0]];
    } else if |g| == 2 {
      BitsFit(g[0], g[1], 0);
      assert g == [g[0], g[1]];
    } else {
      BitsFit(g[0], g[1], g[2]);
      assert g == [g[0], g[1], g[2]];
    }
  }

  /** Table 1 of RFC 4648, by character codes: A to Z, a to z, 0 to 9, plus, slash. */
  lemma AlphabetTable(n: int)
    requires 0 <= n < 64
    ensures Digit(n) as int ==
      if n < 26 then 65 + n else if n < 52 then 97 + (n - 26) else if n < 62 then 48 + (n - 52)
      else if n == 62 then 43 else 47
  {
  }

  /** The bytes as one number, high bits first; missing bytes are zero bits. */
  function Number(g: Group): int {
    (g[0] as int * 256 + (if |g| > 1 then g[1] as int else 0)) * 256 + (if |g| > 2 then g[2] as int else 0)
  }

  lemma BaseSixtyFour(a: int, b: int, c: int, d: int)
    requires 0 <= a < 64 && 0 <= b < 64 && 0 <= c < 64 && 0 <= d < 64
    ensures var n := ((a * 64 + b) * 64 + c) * 64 + d;
            n / 262144 == a && n / 4096 % 64 == b && n / 64 % 64 == c && n % 64 == d
  {
    var n := ((a * 64 + b) * 64 + c) * 64 + d;
    assert n / 64 == (a * 64 + b) * 64 + c;
    assert n / 4096 == a * 64 + b;
  }

  lemma SixBits(x: Byte, y: Byte, z: Byte)
    ensures (x as int * 256 + y as int) * 256 + z as int
         == (((x / 4) * 64 + (x % 4 * 16 + y / 16)) * 64 + (y % 16 * 4 + z / 64)) * 64 + z % 64
  {
    assert x == 4 * (x / 4) + x % 4 && y == 16 * (y / 16) + y % 16 && z == 64 * (z / 64) + z % 64;
  }

  /** A quad is that number in base 64, with padding for digits of no byte. */
  lemma QuadSpells(g: Group)
    ensures var q, n := EncodeGroup(g), Number(g);
            && ValueOf(q[0]) == Some(n / 262144) && ValueOf(q[1]) == Some(n / 4096 % 64)
            && (if |g| > 1 then ValueOf(q[2]) == Some(n / 64 % 64) else q[2] == '=')
            && (if |g| > 2 then ValueOf(q[3]) == Some(n % 64) else q[3] == '=')
  {
    var x, y, z := g[0], if |g| > 1 then g[1] else 0, if |g| > 2 then g[2] else 0;
    SixBits(x, y, z);
    BaseSixtyFour(x / 4, x % 4 * 16 + y / 16, y % 16 * 4 + z / 64, z % 64);
  }

  // ---------- texts ----------

  function FirstGroup(bytes: seq<Byte>): Group
    requires bytes != []
  {
    if |bytes| < 3 then bytes else bytes[..3]
  }

  /** `ToBase64String`. */
  function Encode(bytes: seq<Byte>): (text: string)
    ensures |text| == (|bytes| + 2) / 3 * 4
    ensures forall c :: c in text ==> InAlphabet(c)
  {
    if bytes == [] then []
    else EncodeGroup(FirstGroup(bytes)) + Encode(bytes[|FirstGroup(bytes)|..])
  }

  /** `FromBase64String` on text without white space. */
  function Decode(text: string): Option<seq<Byte>> {
    if text == [] then Some([])
    else if |text| < 4 then None
    else
      match DecodeGroup(text[..4], |text| == 4)
      case None => None
      case Some(g) => Prepended(g, Decode(text[4..]))
  }

  function Prepended(g: Group, rest: Option<seq<Byte>>): Option<seq<Byte>> {
    match rest case None => None case Some(bytes) => Some(g + bytes)
  }

  lemma FirstQuad(text: string) returns (n: nat)
    requires text != [] && Decode(text).Some?
    ensures |text| >= 4 && Decode(text[4..]).Some?
    ensures 1 <= n <= 3 && (n < 3 ==> |text| == 4)
    ensures |Decode(text).value| == n + |Decode(text[4..]).value|
  {
    n := |DecodeGroup(text[..4], |text| == 4).value|;
  }

  /** Text that decodes stands for three bytes a quad, less its padding. */
  lemma {:induction false} DecodedLength(text: string) returns (quads: nat)
    requires Decode(text).Some?
    ensures |text| == 4 * quads
    ensures |Decode(text).value| <= 3 * quads <= |Decode(text).value| + 2
  {
    if text == [] {
      quads := 0;
    } else {
      var n := FirstQuad(text);
      var rest := DecodedLength(text[4..]);
      quads := rest + 1;
    }
  }

  lemma DecodeStep(g: Group, rest: string)
    requires |g| < 3 ==> rest == []
    ensures Decode(EncodeGroup(g) + rest) == Prepended(g, Decode(rest))
  {
    var text := EncodeGroup(g) + rest;
    assert text[..4] == EncodeGroup(g) && text[4..] == rest;
    GroupRoundTrip(g, |text| == 4);
  }

  /** Decoding gives back every byte sequence, of any length. */
  lemma {:induction false} DecodeEncode(bytes: seq<Byte>)
    ensures Decode(Encode(bytes)) == Some(bytes)
  {
    if bytes != [] {
      var g := FirstGroup(bytes);
      DecodeEncode(bytes[|g|..]);
      DecodeStep(g, Encode(bytes[|g|..]));
      assert bytes == g + bytes[|g|..];
    }
  }
}
