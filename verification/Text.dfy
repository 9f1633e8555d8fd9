/** Strings as the agent and its scripts handle them: a string is a sequence of
    Unicode scalar values, `str::len` counts UTF-8 bytes, and lists travel as
    text that is split and joined on a separator. */
module Text {
  import opened Prelude

  // ---------- characters ----------

  predicate IsDigit(c: char) { '0' <= c <= '9' }

  predicate IsAsciiAlpha(c: char) { 'a' <= c <= 'z' || 'A' <= c <= 'Z' }

  predicate IsAsciiAlnum(c: char) { IsAsciiAlpha(c) || IsDigit(c) }

  predicate IsAscii(c: char) { c as int < 128 }

  /** Unicode White_Space, the set `str::trim` and .NET `Trim` strip. */
  predicate IsSpace(c: char) {
    var n := c as int;
    || 0x09 <= n <= 0x0D || n == 0x20 || n == 0x85 || n == 0xA0 || n == 0x1680
    || 0x2000 <= n <= 0x200A || n == 0x2028 || n == 0x2029 || n == 0x202F
    || n == 0x205F || n == 0x3000
  }

  /** Among ASCII characters: space, tab, line feed, vertical tab, form feed, return. */
  lemma AsciiSpaces(c: char)
    requires IsAscii(c)
    ensures IsSpace(c) <==> c as int in {32, 9, 10, 11, 12, 13}
  {
  }

  function LowerChar(c: char): char {
    if 'A' <= c <= 'Z' then (c as int + 32) as char else c
  }

  /** `to_ascii_lowercase`. */
  function Lower(s: string): (r: string)
    ensures |r| == |s|
    ensures forall i :: 0 <= i < |s| ==> r[i] == LowerChar(s[i])
  {
    seq(|s|, i requires 0 <= i < |s| => LowerChar(s[i]))
  }

  lemma LowerConcat(a: string, b: string)
    ensures Lower(a + b) == Lower(a) + Lower(b)
  {
  }

  /** The same letter up to ASCII case, or the same character. */
  predicate SameUpToCase(a: char, b: char) {
    || a == b
    || (IsAsciiAlpha(a) && IsAsciiAlpha(b) && (a as int - b as int == 32 || b as int - a as int == 32))
  }

  lemma LowerCharExactly(a: char, b: char)
    ensures LowerChar(a) == LowerChar(b) <==> SameUpToCase(a, b)
  {
  }

  /** Two texts are lowered to the same text exactly when they agree character by
      character up to ASCII case. */
  lemma LowerExactly(a: string, b: string)
    ensures Lower(a) == Lower(b) <==> |a| == |b| && forall i :: 0 <= i < |a| ==> SameUpToCase(a[i], b[i])
  {
    if Lower(a) == Lower(b) {
      forall i | 0 <= i < |a| ensures SameUpToCase(a[i], b[i]) {
        assert Lower(a)[i] == Lower(b)[i];
        LowerCharExactly(a[i], b[i]);
      }
    }
    if |a| == |b| && forall i :: 0 <= i < |a| ==> SameUpToCase(a[i], b[i]) {
      forall i | 0 <= i < |a| ensures Lower(a)[i] == Lower(b)[i] { LowerCharExactly(a[i], b[i]); }
    }
  }

  // ---------- UTF-8 ----------

  /** The UTF-8 encoding of one scalar value (section 3 of RFC 3629). */
  function Utf8Char(c: char): (bytes: seq<int>)
    ensures 1 <= |bytes| <= 4
    ensures |bytes| == 1 <==> IsAscii(c)
    ensures |bytes| == 1 ==> bytes[0] == c as int
    ensures |bytes| > 1 ==> forall b :: b in bytes ==> 0x80 <= b < 0x100
  {
    var n := c as int;
    if n < 0x80 then [n]
    else if n < 0x800 then [0xC0 + n / 64, 0x80 + n % 64]
    else if n < 0x1_0000 then [0xE0 + n / 4096, 0x80 + n / 64 % 64, 0x80 + n % 64]
    else [0xF0 + n / 262144, 0x80 + n / 4096 % 64, 0x80 + n / 64 % 64, 0x80 + n % 64]
  }

  /** How many bytes a character takes. */
  lemma Utf8Length(c: char)
    ensures var n := c as int;
            |Utf8Char(c)| == if n < 0x80 then 1 else if n < 0x800 then 2 else if n < 0x1_0000 then 3 else 4
  {
  }

  lemma Sixties(n: nat)
    ensures n == n / 64 * 64 + n % 64
    ensures n / 4096 == n / 64 / 64 && n / 262144 == n / 64 / 64 / 64
    ensures n / 4096 % 64 == n / 64 / 64 % 64
  {
    var q := n / 64;
    var r := q / 64;
    assert 64 * q <= n < 64 * q + 64 && 64 * r <= q < 64 * r + 64;
    assert n / 4096 == r;
  }

  /** The number in lead byte and continuation bytes, high bits first. */
  function Utf8Value(bytes: seq<int>): int
    requires 2 <= |bytes| <= 4
  {
    if |bytes| == 2 then (bytes[0] - 0xC0) * 64 + (bytes[1] - 0x80)
    else if |bytes| == 3 then ((bytes[0] - 0xE0) * 64 + (bytes[1] - 0x80)) * 64 + (bytes[2] - 0x80)
    else (((bytes[0] - 0xF0) * 64 + (bytes[1] - 0x80)) * 64 + (bytes[2] - 0x80)) * 64 + (bytes[3] - 0x80)
  }

  /** The bytes spell the character. */
  lemma Utf8Spells(c: char)
    requires !IsAscii(c)
    ensures Utf8Value(Utf8Char(c)) == c as int
  {
    var n := c as int;
    Utf8Length(c);
    Sixties(n);
    Sixties(n / 64);
    Sixties(n / 64 / 64);
  }

  /** `str::as_bytes`. */
  function Utf8(s: string): (bytes: seq<int>)
    ensures |bytes| >= |s|
  {
    if s == [] then [] else Utf8Char(s[0]) + Utf8(s[1..])
  }

  /** `str::len`: bytes, not characters. */
  function ByteLen(s: string): nat { |Utf8(s)| }

  predicate AllAscii(s: string) { forall c :: c in s ==> IsAscii(c) }

  /** `str::is_char_boundary`: slicing at byte `n` does not panic. */
  ghost predicate CharBoundary(s: string, n: nat) {
    exists k :: 0 <= k <= |s| && ByteLen(s[..k]) == n
  }

  /** `&s[..n]`, defined only at a character boundary. */
  ghost function BytePrefix(s: string, n: nat): string
    requires CharBoundary(s, n)
  {
    var k :| 0 <= k <= |s| && ByteLen(s[..k]) == n;
    s[..k]
  }

  lemma {:induction false} AsciiBytes(s: string)
    requires AllAscii(s)
    ensures Utf8(s) == seq(|s|, i requires 0 <= i < |s| => s[i] as int)
    ensures ByteLen(s) == |s|
  {
    if s != [] {
      assert IsAscii(s[0]);
      assert AllAscii(s[1..]);
      AsciiBytes(s[1..]);
    }
  }

  /** On an ASCII string every byte offset is a boundary and byte slicing is
      character slicing. */
  lemma AsciiSlice(s: string, n: nat)
    requires AllAscii(s) && n <= |s|
    ensures CharBoundary(s, n) && BytePrefix(s, n) == s[..n]
  {
    forall k | 0 <= k <= |s| ensures ByteLen(s[..k]) == k {
      assert AllAscii(s[..k]);
      AsciiBytes(s[..k]);
    }
    assert ByteLen(s[..n]) == n;
  }

  // ---------- split and join ----------

  /** Separators in use: one character, or two different ones. Neither can
      overlap a copy of itself. */
  predicate Separator(sep: string) {
    |sep| == 1 || (|sep| == 2 && sep[0] != sep[1])
  }

  /** Split at every left-most occurrence of `sep`; always at least one piece. */
  function Split(s: string, sep: string): (pieces: seq<string>)
    requires sep != []
    ensures |pieces| >= 1
    decreases |s|
  {
    if |s| < |sep| then [s]
    else if sep <= s then [[]] + Split(s[|sep|..], sep)
    else
      var rest := Split(s[1..], sep);
      [[s[0]] + rest[0]] + rest[1..]
  }

  function Join(pieces: seq<string>, sep: string): string {
    if |pieces| == 0 then []
    else if |pieces| == 1 then pieces[0]
    else pieces[0] + sep + Join(pieces[1..], sep)
  }

  predicate Contains(s: string, pat: string) {
    exists i :: 0 <= i <= |s| - |pat| && pat <= s[i..]
  }

  /** One unfolding of `Split` away from a separator. */
  lemma SplitStep(c: char, tail: string, sep: string)
    requires sep != [] && !(sep <= [c] + tail)
    ensures var rest := Split(tail, sep);
            Split([c] + tail, sep) == [[c] + rest[0]] + rest[1..]
  {
    var s := [c] + tail;
    assert s[1..] == tail;
    if |s| < |sep| {
      assert Split(tail, sep) == [tail];
    }
  }

  lemma SplitAt(sep: string, tail: string)
    requires sep != []
    ensures Split(sep + tail, sep) == [[]] + Split(tail, sep)
  {
    assert (sep + tail)[|sep|..] == tail;
  }

  lemma HeadOver(c: char, front: seq<string>, back: seq<string>)
    requires front != []
    ensures [[c] + (front + back)[0]] + (front + back)[1..] == ([[c] + front[0]] + front[1..]) + back
  {
  }

  /** One character more in front of a cut that is already settled. */
  lemma SplitOver(c: char, tail: string, whole: string, sep: string, back: seq<string>)
    requires sep != [] && !(sep <= [c] + tail) && !(sep <= [c] + whole)
    requires Split(whole, sep) == Split(tail, sep) + back
    ensures Split([c] + whole, sep) == Split([c] + tail, sep) + back
  {
    SplitStep(c, tail, sep);
    SplitStep(c, whole, sep);
    HeadOver(c, Split(tail, sep), back);
  }

  /** A separator in the middle always cuts there. */
  lemma {:induction false} SplitAppend(a: string, sep: string, b: string)
    requires Separator(sep)
    ensures Split(a + sep + b, sep) == Split(a, sep) + Split(b, sep)
    decreases |a|
  {
    if a == [] {
      assert a + sep + b == sep + b;
      SplitAt(sep, b);
    } else if sep <= a {
      var rest := a[|sep|..];
      assert a == sep + rest;
      assert a + sep + b == sep + (rest + sep + b);
      SplitAt(sep, rest + sep + b);
      SplitAppend(rest, sep, b);
    } else {
      var rest := a[1..];
      assert a == [a[0]] + rest;
      assert a + sep + b == [a[0]] + (rest + sep + b);
      NoStraddle(a, sep, b);
      SplitAppend(rest, sep, b);
      SplitOver(a[0], rest, rest + sep + b, sep, Split(b, sep));
    }
  }

  lemma NoStraddle(a: string, sep: string, b: string)
    requires Separator(sep) && a != [] && !(sep <= a)
    ensures !(sep <= a + sep + b)
  {
    var whole := a + sep + b;
    assert whole[0] == a[0];
    if |a| == 1 {
      assert whole[1] == sep[0];
      assert [a[0]] == a;
    } else {
      assert whole[1] == a[1];
    }
  }

  /** A string without the separator is one piece, and only such a string is. */
  lemma {:induction false} SplitSingle(s: string, sep: string)
    requires sep != []
    ensures !Contains(s, sep) ==> Split(s, sep) == [s]
    ensures Contains(s, sep) ==> |Split(s, sep)| > 1
    decreases |s|
  {
    if |s| < |sep| {
    } else if sep <= s {
      assert s[0..] == s;
      assert Contains(s, sep);
    } else {
      SplitSingle(s[1..], sep);
      assert s[0..] == s;
      if Contains(s, sep) {
        var i :| 0 <= i <= |s| - |sep| && sep <= s[i..];
        assert i > 0;
        assert s[1..][i - 1..] == s[i..];
        assert Contains(s[1..], sep);
      } else {
        forall i | 0 <= i <= |s[1..]| - |sep| ensures !(sep <= s[1..][i..]) {
          assert s[1..][i..] == s[i + 1..];
        }
        assert [s[0]] + s[1..] == s;
      }
    }
  }

  predicate Free(pieces: seq<string>, sep: string) {
    forall p :: p in pieces ==> !Contains(p, sep)
  }

  /** Splitting undoes joining exactly when no piece contains the separator. */
  lemma {:induction false} SplitJoin(pieces: seq<string>, sep: string)
    requires Separator(sep) && pieces != []
    ensures |Split(Join(pieces, sep), sep)| >= |pieces|
    ensures Free(pieces, sep) <==> Split(Join(pieces, sep), sep) == pieces
    ensures !Free(pieces, sep) ==> |Split(Join(pieces, sep), sep)| > |pieces|
  {
    SplitSingle(pieces[0], sep);
    if |pieces| == 1 {
      assert pieces == [pieces[0]];
    } else {
      SplitJoin(pieces[1..], sep);
      SplitAppend(pieces[0], sep, Join(pieces[1..], sep));
      assert pieces == [pieces[0]] + pieces[1..];
    }
  }

  lemma {:induction false} JoinSplit(s: string, sep: string)
    requires sep != []
    ensures Join(Split(s, sep), sep) == s
    decreases |s|
  {
    if |s| < |sep| {
    } else if sep <= s {
      JoinSplit(s[|sep|..], sep);
      assert s == sep + s[|sep|..];
      assert Split(s, sep)[1..] == Split(s[|sep|..], sep);
    } else {
      JoinSplit(s[1..], sep);
      var rest := Split(s[1..], sep);
      var all := Split(s, sep);
      assert all[1..] == rest[1..];
      assert s == [s[0]] + s[1..];
      if |rest| > 1 {
        assert Join(all, sep) == [s[0]] + (rest[0] + sep + Join(rest[1..], sep));
      }
    }
  }

  lemma {:induction false} JoinAppend(a: seq<string>, b: seq<string>, sep: string)
    requires a != [] && b != []
    ensures Join(a + b, sep) == Join(a, sep) + sep + Join(b, sep)
  {
    if |a| == 1 {
      assert (a + b)[1..] == b;
    } else {
      assert (a + b)[1..] == a[1..] + b;
      JoinAppend(a[1..], b, sep);
      assert Join(a + b, sep) == a[0] + sep + (Join(a[1..], sep) + sep + Join(b, sep));
    }
  }

  /** No piece of a one-character split contains that character. */
  lemma {:induction false} SplitPieces(s: string, c: char)
    ensures forall p :: p in Split(s, [c]) ==> c !in p
    ensures forall p, d :: p in Split(s, [c]) && d in p ==> d in s
    decreases |s|
  {
    if s != [] {
      if [c] <= s {
        SplitPieces(s[1..], c);
      } else {
        SplitPieces(s[1..], c);
        assert s[0] != c;
      }
    }
  }

  lemma CharFree(s: string, c: char)
    ensures Contains(s, [c]) <==> c in s
  {
    if Contains(s, [c]) {
      var i :| 0 <= i <= |s| - 1 && [c] <= s[i..];
      assert s[i] == s[i..][0] == c;
    }
    if c in s {
      var i :| 0 <= i < |s| && s[i] == c;
      assert [c] <= s[i..];
    }
  }

  // ---------- trimming ----------

  function TrimStart(s: string): (r: string)
    ensures r == [] || !IsSpace(r[0])
    ensures |r| <= |s| && r == s[|s| - |r|..]
    ensures s == [] || !IsSpace(s[0]) ==> r == s
  {
    if s != [] && IsSpace(s[0]) then TrimStart(s[1..]) else s
  }

  function TrimEnd(s: string): (r: string)
    ensures r == [] || !IsSpace(r[|r| - 1])
    ensures r <= s
    ensures s == [] || !IsSpace(s[|s| - 1]) ==> r == s
  {
    if s != [] && IsSpace(s[|s| - 1]) then TrimEnd(s[..|s| - 1]) else s
  }

  /** `str::trim`. */
  function Trim(s: string): string { TrimStart(TrimEnd(s)) }

  /** Nothing but white space. */
  predicate Blank(s: string) { forall c :: c in s ==> IsSpace(c) }

  lemma {:induction false} TrimStartCuts(s: string)
    ensures Blank(s[..|s| - |TrimStart(s)|])
  {
    if s != [] && IsSpace(s[0]) {
      var rest := s[1..];
      TrimStartCuts(rest);
      assert s[..|s| - |TrimStart(s)|] == [s[0]] + rest[..|rest| - |TrimStart(rest)|];
    }
  }

  lemma {:induction false} TrimEndCuts(s: string)
    ensures Blank(s[|TrimEnd(s)|..])
  {
    if s != [] && IsSpace(s[|s| - 1]) {
      var rest := s[..|s| - 1];
      TrimEndCuts(rest);
      assert s[|TrimEnd(s)|..] == rest[|TrimEnd(rest)|..] + [s[|s| - 1]];
    }
  }

  /** Trimming cuts white space off both ends and nothing else. */
  lemma TrimCuts(s: string) returns (front: string, back: string)
    ensures s == front + Trim(s) + back && Blank(front) && Blank(back)
  {
    var e := TrimEnd(s);
    TrimEndCuts(s);
    TrimStartCuts(e);
    front, back := e[..|e| - |TrimStart(e)|], s[|e|..];
    assert e == front + Trim(s);
  }

  lemma TrimFixed(s: string)
    requires s == [] || (!IsSpace(s[0]) && !IsSpace(s[|s| - 1]))
    ensures Trim(s) == s
  {
  }

  lemma TrimFacts(s: string)
    ensures Trim(s) == [] || (!IsSpace(Trim(s)[0]) && !IsSpace(Trim(s)[|Trim(s)| - 1]))
    ensures forall c :: c in Trim(s) ==> c in s
  {
    var e := TrimEnd(s);
    var t := TrimStart(e);
    if t != [] {
      assert t[|t| - 1] == e[|e| - 1];
    }
    forall c | c in t ensures c in s {
      var i :| 0 <= i < |t| && t[i] == c;
      assert e[|e| - |t| + i] == c;
      assert s[|e| - |t| + i] == c;
    }
  }

  /** `trim_end_matches('.')` in Rust, `TrimEnd('.')` in the scripts. */
  function TrimDots(s: string): (r: string)
    ensures r <= s
    ensures r == [] || r[|r| - 1] != '.'
    ensures s == [] || s[|s| - 1] != '.' ==> r == s
  {
    if s != [] && s[|s| - 1] == '.' then TrimDots(s[..|s| - 1]) else s
  }

  /** Only dots are cut off. */
  lemma {:induction false} TrimDotsCuts(s: string)
    ensures forall i :: |TrimDots(s)| <= i < |s| ==> s[i] == '.'
  {
    if s != [] && s[|s| - 1] == '.' { TrimDotsCuts(s[..|s| - 1]); }
  }

  // ---------- numbers ----------

  predicate AllDigits(s: string) { forall c :: c in s ==> IsDigit(c) }

  /** Value of a digit string; leading zeros are harmless. */
  function DigitsValue(s: string): nat
    requires AllDigits(s)
  {
    if s == [] then 0
    else
      assert s[|s| - 1] in s;
      DigitsValue(s[..|s| - 1]) * 10 + (s[|s| - 1] as int - '0' as int)
  }

  /** `parse::<u8>` and `parse::<u32>` with an upper bound: an optional '+',
      then at least one digit, value at most `max`. */
  function ParseUnsigned(s: string, max: nat): (r: Option<nat>)
    ensures r.Some? ==> r.value <= max
  {
    var digits := if s != [] && s[0] == '+' then s[1..] else s;
    if digits != [] && AllDigits(digits) && DigitsValue(digits) <= max
    then Some(DigitsValue(digits)) else None
  }

  /** A number is read from an optional plus sign, any zeros, and its decimal text. */
  lemma ParseExactly(s: string, max: nat, n: nat)
    ensures ParseUnsigned(s, max) == Some(n) <==>
      n <= max && exists plus, zeros :: Numeral(s, n, plus, zeros)
  {
    if ParseUnsigned(s, max) == Some(n) {
      var plus := if s[0] == '+' then "+" else "";
      var digits := s[|plus|..];
      var zeros := ZerosOff(digits);
      assert Numeral(s, n, plus, zeros);
    }
    if n <= max {
      if plus, zeros :| Numeral(s, n, plus, zeros) {
        ZerosOn(zeros, Decimal(n));
        ReadsDigits(s, plus, zeros + Decimal(n), max);
      }
    }
  }

  lemma ReadsDigits(s: string, plus: string, digits: string, max: nat)
    requires plus in {"", "+"} && s == plus + digits && digits != [] && AllDigits(digits) && DigitsValue(digits) <= max
    ensures ParseUnsigned(s, max) == Some(DigitsValue(digits))
  {
    assert digits[0] in digits;
    if plus == "+" {
      assert s[0] == '+' && s[1..] == digits;
    } else {
      assert s == digits;
    }
  }

  ghost predicate Numeral(s: string, n: nat, plus: string, zeros: string) {
    plus in {"", "+"} && (forall c :: c in zeros ==> c == '0') && s == plus + (zeros + Decimal(n))
  }

  lemma {:induction false} ZerosOn(zeros: string, digits: string)
    requires AllDigits(digits) && forall c :: c in zeros ==> c == '0'
    ensures AllDigits(zeros + digits) && DigitsValue(zeros + digits) == DigitsValue(digits)
    decreases |zeros| + |digits|
  {
    var s := zeros + digits;
    forall c | c in s ensures IsDigit(c) { assert c in zeros || c in digits; }
    if digits != [] {
      var n := |digits| - 1;
      ZerosOn(zeros, digits[..n]);
      assert s[..|s| - 1] == zeros + digits[..n];
    } else if zeros != [] {
      var fewer := zeros[..|zeros| - 1];
      assert s[|s| - 1] in zeros && forall c :: c in fewer ==> c in zeros;
      assert s[..|s| - 1] == fewer + [];
      ZerosOn(fewer, []);
    }
  }

  lemma OneZeroMore(first: string, rest: string, zeros: string)
    requires AllDigits(rest) && (forall c :: c in first ==> c == '0')
    requires rest == zeros + Decimal(DigitsValue(rest))
    ensures AllDigits(first + rest) && first + rest == (first + zeros) + Decimal(DigitsValue(first + rest))
  {
    ZerosOn(first, rest);
    Regrouped(first, zeros, Decimal(DigitsValue(rest)));
  }

  lemma Regrouped(a: string, b: string, c: string)
    ensures a + (b + c) == (a + b) + c
  {
  }

  lemma {:induction false} ZerosOff(digits: string) returns (zeros: string)
    requires digits != [] && AllDigits(digits)
    ensures (forall c :: c in zeros ==> c == '0') && digits == zeros + Decimal(DigitsValue(digits))
  {
    if |digits| > 1 && digits[0] == '0' {
      var rest := digits[1..];
      var more := ZerosOff(rest);
      OneZeroMore("0", rest, more);
      assert digits == "0" + rest;
      zeros := "0" + more;
    } else {
      zeros := "";
      assert digits[0] == '0' ==> digits == "0";
      DecimalUnique(digits);
    }
  }

  /** Decimal text without leading zeros, as every formatter here prints it. */
  function Decimal(n: nat): (s: string)
    ensures s != [] && AllDigits(s) && DigitsValue(s) == n
    ensures s[0] == '0' ==> n == 0 && s == "0"
  {
    if n < 10 then [('0' as int + n) as char]
    else
      var head := Decimal(n / 10);
      var s := head + [('0' as int + n % 10) as char];
      assert s[..|s| - 1] == head;
      s
  }

  lemma {:induction false} DecimalUnique(s: string)
    requires s != [] && AllDigits(s) && (s[0] == '0' ==> s == "0")
    ensures Decimal(DigitsValue(s)) == s
    ensures |s| > 1 ==> DigitsValue(s) >= 10
  {
    var last := s[|s| - 1];
    assert last in s;
    if |s| == 1 {
      assert s == [last];
      assert DigitsValue(s[..0]) == 0;
    } else {
      var head := s[..|s| - 1];
      assert forall c :: c in head ==> c in s;
      assert head[0] == s[0];
      DecimalUnique(head);
      assert DigitsValue(head) >= 1 by {
        if |head| == 1 { assert head[0] in s; assert DigitsValue(head[..0]) == 0; }
      }
      var d := last as int - '0' as int;
      assert DigitsValue(s) == DigitsValue(head) * 10 + d;
      assert DigitsValue(s) / 10 == DigitsValue(head) && DigitsValue(s) % 10 == d;
      assert s == head + [last];
    }
  }
}
