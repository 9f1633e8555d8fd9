/** DNS names as text: the agent's validators, and the reverse-zone arithmetic
    the apply script does on strings. */
module DnsNames {
  import opened Prelude
  import opened Text

  function Reversed<T>(s: seq<T>): (r: seq<T>)
    ensures |r| == |s|
    ensures forall i :: 0 <= i < |s| ==> r[i] == s[|s| - 1 - i]
  {
    seq(|s|, i requires 0 <= i < |s| => s[|s| - 1 - i])
  }

  predicate EndsWith(s: string, suffix: string) {
    |suffix| <= |s| && s[|s| - |suffix|..] == suffix
  }

  function Without(s: string, suffix: string): string
    requires EndsWith(s, suffix)
  {
    s[..|s| - |suffix|]
  }

  // ---------- validators ----------

  predicate ValidLabel(part: string) {
    && part != [] && ByteLen(part) <= 63
    && (forall c :: c in part ==> IsAsciiAlnum(c) || c == '-')
    && part[0] != '-' && part[|part| - 1] != '-'
  }

  /** One label or a dotted name, with an optional trailing dot. */
  predicate ValidDnsName(name: string) {
    var bare := if EndsWith(name, ".") then Without(name, ".") else name;
    bare != [] && ByteLen(bare) <= 253 && forall part :: part in Split(bare, ".") ==> ValidLabel(part)
  }

  predicate ValidSingleLabel(name: string) { ValidDnsName(name) && '.' !in name }

  /** An octet as `Ipv4Addr` parses and prints it: no leading zero. */
  predicate IsOctet(text: string) {
    text != [] && AllDigits(text) && (text[0] == '0' ==> text == "0") && DigitsValue(text) <= 255
  }

  /** `parse::<Ipv4Addr>().is_ok()`. */
  predicate IsIpv4(text: string) {
    |Split(text, ".")| == 4 && forall o :: o in Split(text, ".") ==> IsOctet(o)
  }

  const ARPA := ".in-addr.arpa"

  /** One to three labels that parse as a byte, before in-addr.arpa; trailing
      dots and letter case do not matter, and neither do leading zeros. */
  predicate ValidReverseZone(zone: string) {
    var normalized := Lower(TrimDots(zone));
    && EndsWith(normalized, ARPA)
    && var labels := Split(Without(normalized, ARPA), ".");
       1 <= |labels| <= 3 && forall l :: l in labels ==> ParseUnsigned(l, 255).Some?
  }

  // ---------- what the script computes ----------

  /** `.Replace(pat, '')`. */
  function Erase(s: string, pat: string): string
    requires pat != []
  {
    Join(Split(s, pat), "")
  }

  function PrefixLabels(zone: string): seq<string> {
    Split(Erase(Lower(zone), ARPA), ".")
  }

  function PadOctets(octets: seq<string>): (r: seq<string>)
    ensures octets <= r && |r| == if |octets| < 4 then 4 else |octets|
    ensures forall o :: o in r ==> o in octets || o == "0"
    decreases 4 - |octets|
  {
    if |octets| < 4 then PadOctets(octets + ["0"]) else octets
  }

  /** The -NetworkId argument for a missing reverse zone. */
  function NetworkId(zone: string): string {
    var labels := PrefixLabels(zone);
    Join(PadOctets(Reversed(labels)), ".") + "/" + Decimal(|labels| * 8)
  }

  /** The owner name of an address inside its zone: the remaining octets,
      reversed. A range running backwards past the end yields the last octet. */
  function RelativeName(zone: string, addr: string): string {
    var octets := Split(addr, ".");
    var k := |PrefixLabels(zone)|;
    var remaining := if k <= 3 && |octets| == 4 then octets[k..] else [octets[|octets| - 1]];
    Join(Reversed(remaining), ".")
  }

  /** The zone Add-DnsServerPrimaryZone creates for a network id: one label per
      whole octet of the prefix, in reverse, printed canonically. */
  function ZoneOfNetworkId(id: string): Option<string> {
    var halves := Split(id, "/");
    if |halves| != 2 then None
    else
      match ParseUnsigned(halves[1], 32)
      case None => None
      case Some(bits) => ZoneOfNetwork(Split(halves[0], "."), bits)
  }

  function ZoneOfNetwork(octets: seq<string>, bits: nat): Option<string> {
    if |octets| != 4 || bits !in {8, 16, 24} || exists o :: o in octets && ParseUnsigned(o, 255).None?
    then None
    else Some(Join(Reversed(Printed(octets[..bits / 8])), ".") + ARPA)
  }

  function OctetValue(text: string): nat {
    match ParseUnsigned(text, 255) case Some(n) => n case None => 0
  }

  function Printed(octets: seq<string>): (r: seq<string>)
    ensures |r| == |octets|
    ensures forall i :: 0 <= i < |r| ==> r[i] == Decimal(OctetValue(octets[i]))
  {
    seq(|octets|, i requires 0 <= i < |octets| => Decimal(OctetValue(octets[i])))
  }

  /** The in-addr.arpa name of an address (section 3.5 of RFC 1035). */
  function ReverseName(addr: string): string {
    Join(Reversed(Split(addr, ".")), ".") + ARPA
  }

  // ---------- conditions a caller can check ----------

  predicate Undotted(zone: string) { zone == [] || zone[|zone| - 1] != '.' }

  /** Canonical text: no trailing dot, no leading zeros. */
  predicate CanonicalReverseZone(zone: string) {
    Undotted(zone) && forall l :: l in PrefixLabels(zone) ==> IsOctet(l)
  }

  /** The address lies in the network the zone is named after. */
  predicate InZone(addr: string, zone: string) {
    var octets := Split(addr, ".");
    var labels := PrefixLabels(zone);
    Undotted(zone) && |labels| <= |octets| && Reversed(octets[..|labels|]) == labels
  }

  // ---------- lemmas about text ----------

  lemma {:induction false} SplitCovers(s: string, c: char)
    ensures forall d :: d in s && d != c ==> exists p :: p in Split(s, [c]) && d in p
    decreases |s|
  {
    if s != [] {
      SplitCovers(s[1..], c);
      var rest := Split(s[1..], [c]);
      var all := Split(s, [c]);
      forall d | d in s && d != c ensures exists p :: p in all && d in p {
        if [c] <= s {
          assert all == [[]] + rest;
          assert d in s[1..];
        } else {
          assert all[0] == [s[0]] + rest[0] && all[1..] == rest[1..];
          if d == s[0] {
            assert d in all[0];
          } else {
            assert s == [s[0]] + s[1..];
            var p :| p in rest && d in p;
            if p == rest[0] { assert d in all[0]; } else { assert p in rest[1..]; assert p in all; }
          }
        }
      }
    }
  }

  /** Nothing to find before the end: the pattern is erased there and only there. */
  lemma {:induction false} EraseSuffix(prefix: string, pat: string)
    requires pat != [] && forall i :: 0 <= i < |prefix| ==> !(pat <= (prefix + pat)[i..])
    ensures Split(prefix + pat, pat) == [prefix, []] && Erase(prefix + pat, pat) == prefix
  {
    var whole := prefix + pat;
    if prefix == [] {
      assert whole == pat && pat[|pat|..] == [];
    } else {
      assert whole[0..] == whole == [prefix[0]] + (prefix[1..] + pat);
      forall i | 0 <= i < |prefix[1..]| ensures !(pat <= (prefix[1..] + pat)[i..]) {
        assert (prefix[1..] + pat)[i..] == whole[i + 1..];
      }
      EraseSuffix(prefix[1..], pat);
      SplitStep(prefix[0], prefix[1..] + pat, pat);
      assert [prefix[0]] + prefix[1..] == prefix;
    }
    assert Join([prefix, []], "") == prefix;
  }

  lemma OctetTextHasNo(p: string, d: char)
    requires ParseUnsigned(p, 255).Some? && d in p
    ensures d == '+' || IsDigit(d)
  {
    var digits := if p[0] == '+' then p[1..] else p;
    assert d == '+' || d in digits;
  }

  lemma LabelsHaveNoLetter(prefix: string)
    requires forall p :: p in Split(prefix, ".") ==> ParseUnsigned(p, 255).Some?
    ensures 'i' !in prefix
  {
    SplitCovers(prefix, '.');
    if 'i' in prefix {
      var p :| p in Split(prefix, ".") && 'i' in p;
      OctetTextHasNo(p, 'i');
    }
  }

  /** A pattern whose second character the prefix lacks occurs only at the end. */
  lemma OnlyAtEnd(prefix: string, pat: string, i: nat)
    requires |pat| >= 2 && pat[0] != pat[1] && pat[1] !in prefix && i < |prefix|
    ensures !(pat <= (prefix + pat)[i..])
  {
    var whole := prefix + pat;
    assert whole[i..][1] == whole[i + 1];
    assert whole[i + 1] == if i + 1 < |prefix| then prefix[i + 1] else pat[0];
  }

  /** On an undotted valid zone the script sees the labels the validator saw. */
  lemma ScriptSeesLabels(zone: string)
    requires ValidReverseZone(zone) && Undotted(zone)
    ensures EndsWith(Lower(zone), ARPA)
    ensures PrefixLabels(zone) == Split(Without(Lower(zone), ARPA), ".")
    ensures 1 <= |PrefixLabels(zone)| <= 3
    ensures Join(PrefixLabels(zone), ".") + ARPA == Lower(zone)
  {
    var prefix := Without(Lower(zone), ARPA);
    LabelsHaveNoLetter(prefix);
    assert prefix + ARPA == Lower(zone);
    forall i | 0 <= i < |prefix| ensures !(ARPA <= (prefix + ARPA)[i..]) {
      OnlyAtEnd(prefix, ARPA, i);
    }
    EraseSuffix(prefix, ARPA);
    JoinSplit(prefix, ".");
  }

  lemma DigitsFree(s: string, c: char)
    requires AllDigits(s) && !IsDigit(c)
    ensures !Contains(s, [c])
  {
    CharFree(s, c);
  }

  lemma OctetFacts(o: string)
    requires IsOctet(o)
    ensures Decimal(DigitsValue(o)) == o && ParseUnsigned(o, 255) == Some(DigitsValue(o))
    ensures !Contains(o, ".") && !Contains(o, "/")
  {
    DecimalUnique(o);
    assert o[0] in o;
    DigitsFree(o, '.');
    DigitsFree(o, '/');
  }

  lemma {:induction false} SlashFree(pieces: seq<string>)
    requires forall p :: p in pieces ==> '/' !in p
    ensures '/' !in Join(pieces, ".")
  {
    if |pieces| > 1 {
      SlashFree(pieces[1..]);
    }
  }

  /** The two halves of a network id come apart again. */
  lemma NetworkIdSplits(octets: seq<string>, bits: nat)
    requires octets != [] && forall o :: o in octets ==> AllDigits(o)
    ensures var id := Join(octets, ".") + "/" + Decimal(bits);
            Split(id, "/") == [Join(octets, "."), Decimal(bits)]
            && Split(Join(octets, "."), ".") == octets
  {
    forall o | o in octets ensures '/' !in o && !Contains(o, ".") {
      DigitsFree(o, '.');
      DigitsFree(o, '/');
      CharFree(o, '/');
    }
    SlashFree(octets);
    var address := Join(octets, ".");
    CharFree(address, '/');
    SplitSingle(address, "/");
    DigitsFree(Decimal(bits), '/');
    SplitSingle(Decimal(bits), "/");
    SplitAppend(address, "/", Decimal(bits));
    SplitJoin(octets, ".");
  }

  lemma SameSuffix(a: string, b: string, suffix: string)
    ensures a + suffix == b + suffix <==> a == b
  {
    if a + suffix == b + suffix {
      assert a == (a + suffix)[..|a|] && b == (b + suffix)[..|b|];
    }
  }

  lemma SameJoin(a: seq<string>, b: seq<string>)
    requires a != [] && b != [] && Free(a, ".") && Free(b, ".")
    ensures Join(a, ".") == Join(b, ".") <==> a == b
  {
    SplitJoin(a, ".");
    SplitJoin(b, ".");
  }

  lemma PiecesFree(s: string)
    ensures Free(Split(s, "."), ".")
  {
    SplitPieces(s, '.');
    forall p | p in Split(s, ".") ensures !Contains(p, ".") { CharFree(p, '.'); }
  }

  lemma ReversedCut<T>(s: seq<T>, k: nat)
    requires k <= |s|
    ensures Reversed(s) == Reversed(s[k..]) + Reversed(s[..k])
  {
  }

  lemma SameTail<T>(front: seq<T>, a: seq<T>, b: seq<T>)
    ensures front + a == front + b <==> a == b
  {
    assert (front + a)[|front|..] == a && (front + b)[|front|..] == b;
  }

  lemma OctetsFree(octets: seq<string>)
    requires forall o :: o in octets ==> IsOctet(o)
    ensures Free(octets, ".")
  {
    forall o | o in octets ensures !Contains(o, ".") { OctetFacts(o); }
  }

  lemma PrintedOctets(octets: seq<string>)
    requires forall o :: o in octets ==> IsOctet(o)
    ensures Printed(octets) == octets
    ensures forall o :: o in octets ==> ParseUnsigned(o, 255).Some?
  {
    forall i | 0 <= i < |octets| ensures Printed(octets)[i] == octets[i] {
      assert octets[i] in octets;
      OctetFacts(octets[i]);
    }
    forall o | o in octets ensures ParseUnsigned(o, 255).Some? { OctetFacts(o); }
  }

  // ---------- main results ----------

  lemma BitsParse(bits: nat)
    requires bits <= 32
    ensures ParseUnsigned(Decimal(bits), 32) == Some(bits)
  {
    assert Decimal(bits)[0] in Decimal(bits);
  }

  lemma NetworkIdParses(octets: seq<string>, bits: nat)
    requires octets != [] && (forall o :: o in octets ==> AllDigits(o)) && bits <= 32
    ensures ZoneOfNetworkId(Join(octets, ".") + "/" + Decimal(bits)) == ZoneOfNetwork(octets, bits)
  {
    NetworkIdSplits(octets, bits);
    BitsParse(bits);
  }

  lemma ZoneFromOctets(octets: seq<string>, k: nat)
    requires |octets| == 4 && (forall o :: o in octets ==> IsOctet(o)) && 1 <= k <= 3
    ensures ZoneOfNetwork(octets, k * 8) == Some(Join(Reversed(octets[..k]), ".") + ARPA)
  {
    PrintedOctets(octets);
    var cut := octets[..k];
    assert forall o :: o in cut ==> o in octets;
    PrintedOctets(cut);
    assert k * 8 / 8 == k && k * 8 in {8, 16, 24};
  }

  lemma OctetsOf(parts: seq<string>, whole: seq<string>)
    requires forall o :: o in whole ==> IsOctet(o)
    requires forall i :: 0 <= i < |parts| ==> parts[i] in whole || parts[i] == "0"
    ensures forall o :: o in parts ==> IsOctet(o)
  {
    assert "0"[..0] == "" && DigitsValue("0") == 0;
    assert IsOctet("0");
  }

  lemma ReversedTwice<T>(s: seq<T>, padded: seq<T>)
    requires Reversed(s) <= padded
    ensures Reversed(padded[..|s|]) == s
  {
    assert padded[..|s|] == Reversed(s);
  }

  lemma NetworkOfLabels(labels: seq<string>)
    requires 1 <= |labels| <= 3 && forall l :: l in labels ==> IsOctet(l)
    ensures ZoneOfNetworkId(Join(PadOctets(Reversed(labels)), ".") + "/" + Decimal(|labels| * 8))
         == Some(Join(labels, ".") + ARPA)
  {
    var octets := PadOctets(Reversed(labels));
    OctetsOf(Reversed(labels), labels);
    OctetsOf(octets, Reversed(labels));
    NetworkIdParses(octets, |labels| * 8);
    ZoneFromOctets(octets, |labels|);
    ReversedTwice(labels, octets);
  }

  lemma CanonicalZoneSurvives(zone: string)
    requires ValidReverseZone(zone) && CanonicalReverseZone(zone)
    ensures ZoneOfNetworkId(NetworkId(zone)) == Some(Lower(zone))
  {
    ScriptSeesLabels(zone);
    NetworkOfLabels(PrefixLabels(zone));
  }

  lemma CreatedZoneShape(id: string)
    requires ZoneOfNetworkId(id).Some?
    ensures exists pieces: seq<string> ::
      && pieces != [] && (forall p :: p in pieces ==> IsOctet(p))
      && ZoneOfNetworkId(id).value == Join(pieces, ".") + ARPA
  {
    var octets := Split(Split(id, "/")[0], ".");
    var bits := ParseUnsigned(Split(id, "/")[1], 32).value;
    assert ZoneOfNetworkId(id) == ZoneOfNetwork(octets, bits);
    var pieces := Reversed(Printed(octets[..bits / 8]));
    forall p | p in pieces ensures IsOctet(p) {
      var i :| 0 <= i < |pieces| && pieces[i] == p;
    }
    assert ZoneOfNetworkId(id).value == Join(pieces, ".") + ARPA;
  }

  lemma SurvivingZoneIsCanonical(zone: string)
    requires ValidReverseZone(zone)
    requires ZoneOfNetworkId(NetworkId(zone)) == Some(Lower(zone))
    ensures CanonicalReverseZone(zone)
  {
    CreatedZoneShape(NetworkId(zone));
    var pieces: seq<string> :|
      && pieces != [] && (forall p :: p in pieces ==> IsOctet(p))
      && ZoneOfNetworkId(NetworkId(zone)).value == Join(pieces, ".") + ARPA;
    assert Lower(zone)[|zone| - 1] == ARPA[|ARPA| - 1];
    ScriptSeesLabels(zone);
    var labels := PrefixLabels(zone);
    SameSuffix(Join(labels, "."), Join(pieces, "."), ARPA);
    PiecesFree(Erase(Lower(zone), ARPA));
    OctetsFree(pieces);
    SameJoin(labels, pieces);
  }

  /** The zone created for a missing reverse zone is the zone the plan names
      exactly when the plan names it canonically. */
  lemma NetworkIdRoundTrip(zone: string)
    requires ValidReverseZone(zone)
    ensures ZoneOfNetworkId(NetworkId(zone)) == Some(Lower(zone)) <==> CanonicalReverseZone(zone)
  {
    if CanonicalReverseZone(zone) { CanonicalZoneSurvives(zone); }
    if ZoneOfNetworkId(NetworkId(zone)) == Some(Lower(zone)) { SurvivingZoneIsCanonical(zone); }
  }

  lemma JoinThenSuffix(a: seq<string>, b: seq<string>, suffix: string)
    requires a != [] && b != []
    ensures Join(a, ".") + "." + (Join(b, ".") + suffix) == Join(a + b, ".") + suffix
  {
    JoinAppend(a, b, ".");
  }

  lemma OwnerOfOctets(octets: seq<string>, labels: seq<string>)
    requires |octets| == 4 && 1 <= |labels| <= 3 && forall o :: o in octets ==> IsOctet(o)
    ensures var owner := Reversed(octets[|labels|..]);
            && owner != [] && Free(owner, ".") && Free(Reversed(octets), ".")
            && Join(owner, ".") + "." + (Join(labels, ".") + ARPA) == Join(owner + labels, ".") + ARPA
  {
    ReversedOctetsFree(octets, octets);
    ReversedOctetsFree(octets[|labels|..], octets);
    JoinThenSuffix(Reversed(octets[|labels|..]), labels, ARPA);
  }

  lemma ReversedOctetsFree(part: seq<string>, whole: seq<string>)
    requires (forall o :: o in whole ==> IsOctet(o)) && forall o :: o in part ==> o in whole
    ensures Free(Reversed(part), ".")
  {
    OctetsOf(Reversed(part), whole);
    OctetsFree(Reversed(part));
  }

  lemma OwnerText(zone: string, addr: string)
    requires ValidReverseZone(zone) && Undotted(zone) && IsIpv4(addr)
    ensures && |PrefixLabels(zone)| <= 3
            && var owner := Reversed(Split(addr, ".")[|PrefixLabels(zone)|..]);
               && owner != [] && Free(owner, ".") && Free(Reversed(Split(addr, ".")), ".")
               && Split(RelativeName(zone, addr), ".") == owner
               && RelativeName(zone, addr) + "." + Lower(zone) == Join(owner + PrefixLabels(zone), ".") + ARPA
  {
    ScriptSeesLabels(zone);
    OwnerOfOctets(Split(addr, "."), PrefixLabels(zone));
    SplitJoin(Reversed(Split(addr, ".")[|PrefixLabels(zone)|..]), ".");
  }

  /** The owner name written into the zone spells the address's reverse name
      exactly when the address belongs to the zone. */
  lemma OwnerNameIsReverseName(zone: string, addr: string)
    requires ValidReverseZone(zone) && IsIpv4(addr)
    ensures RelativeName(zone, addr) + "." + Lower(zone) == ReverseName(addr) <==> InZone(addr, zone)
  {
    if Undotted(zone) {
      UndottedOwnerName(zone, addr);
    } else {
      DottedEnds(RelativeName(zone, addr) + ".", zone, Join(Reversed(Split(addr, ".")), "."));
    }
  }

  /** A name ending in a dot is never one ending in in-addr.arpa. */
  lemma DottedEnds(front: string, zone: string, prefix: string)
    requires !Undotted(zone)
    ensures front + Lower(zone) != prefix + ARPA
  {
    var a, b := front + Lower(zone), prefix + ARPA;
    assert a[|a| - 1] == Lower(zone)[|zone| - 1] == '.';
    assert b[|b| - 1] == ARPA[|ARPA| - 1] == 'a';
  }

  lemma UndottedOwnerName(zone: string, addr: string)
    requires ValidReverseZone(zone) && Undotted(zone) && IsIpv4(addr)
    ensures RelativeName(zone, addr) + "." + Lower(zone) == ReverseName(addr) <==> InZone(addr, zone)
  {
    ScriptSeesLabels(zone);
    OwnerText(zone, addr);
    var octets := Split(addr, ".");
    var labels := PrefixLabels(zone);
    var owner := Reversed(octets[|labels|..]);
    var whole := Reversed(octets);
    SameSuffix(Join(owner + labels, "."), Join(whole, "."), ARPA);
    PiecesFree(Erase(Lower(zone), ARPA));
    SameJoin(owner + labels, whole);
    ReversedCut(octets, |labels|);
    SameTail(owner, labels, Reversed(octets[..|labels|]));
  }

  // ---------- what the validators accept ----------

  /** Four numbers up to 255 in decimal, without leading zeros, with dots between. */
  ghost predicate DottedQuad(text: string, a: nat, b: nat, c: nat, d: nat) {
    && a <= 255 && b <= 255 && c <= 255 && d <= 255
    && text == Decimal(a) + "." + (Decimal(b) + "." + (Decimal(c) + "." + Decimal(d)))
  }

  lemma JoinFour(a: string, b: string, c: string, d: string)
    ensures Join([a, b, c, d], ".") == a + "." + (b + "." + (c + "." + d))
  {
    assert [a, b, c, d][1..] == [b, c, d] && [b, c, d][1..] == [c, d] && [c, d][1..] == [d];
    assert Join([c, d], ".") == c + "." + d;
    assert Join([b, c, d], ".") == b + "." + (c + "." + d);
  }

  lemma Ipv4Exactly(text: string)
    ensures IsIpv4(text) <==> exists a, b, c, d :: DottedQuad(text, a, b, c, d)
  {
    if IsIpv4(text) {
      var o := Split(text, ".");
      forall i | 0 <= i < 4
        ensures AllDigits(o[i]) && Decimal(DigitsValue(o[i])) == o[i] && DigitsValue(o[i]) <= 255
      {
        assert o[i] in o;
        OctetFacts(o[i]);
      }
      JoinSplit(text, ".");
      JoinFour(o[0], o[1], o[2], o[3]);
      assert o == [o[0], o[1], o[2], o[3]];
      assert DottedQuad(text, DigitsValue(o[0]), DigitsValue(o[1]), DigitsValue(o[2]), DigitsValue(o[3]));
    }
    if a, b, c, d :| DottedQuad(text, a, b, c, d) {
      var o := [Decimal(a), Decimal(b), Decimal(c), Decimal(d)];
      JoinFour(o[0], o[1], o[2], o[3]);
      OctetsFree(o);
      SplitJoin(o, ".");
    }
  }

  /** The reverse name has the four numbers the other way round. */
  lemma ReverseNameSpelled(a: string, b: string, c: string, d: string)
    requires IsOctet(a) && IsOctet(b) && IsOctet(c) && IsOctet(d)
    ensures ReverseName(a + "." + (b + "." + (c + "." + d))) == d + "." + (c + "." + (b + "." + a)) + ".in-addr.arpa"
  {
    var o := [a, b, c, d];
    JoinFour(a, b, c, d);
    JoinFour(d, c, b, a);
    OctetsFree(o);
    SplitJoin(o, ".");
    assert Reversed(o) == [d, c, b, a];
  }

  /** 1 to 63 letters, digits and hyphens, no hyphen at either end. */
  predicate PlainLabel(s: string) {
    && 1 <= |s| <= 63 && s[0] != '-' && s[|s| - 1] != '-'
    && forall i :: 0 <= i < |s| ==>
         'a' <= s[i] <= 'z' || 'A' <= s[i] <= 'Z' || '0' <= s[i] <= '9' || s[i] == '-'
  }

  lemma LabelExactly(s: string)
    ensures ValidLabel(s) <==> PlainLabel(s)
  {
    if ValidLabel(s) {
      forall i | 0 <= i < |s| ensures IsAsciiAlnum(s[i]) || s[i] == '-' { assert s[i] in s; }
      LabelBytes(s);
    }
    if PlainLabel(s) {
      forall c | c in s ensures IsAsciiAlnum(c) || c == '-' {
        var i :| 0 <= i < |s| && s[i] == c;
      }
      LabelBytes(s);
    }
  }

  lemma LabelBytes(s: string)
    requires forall c :: c in s ==> IsAsciiAlnum(c) || c == '-'
    ensures ByteLen(s) == |s| && AllAscii(s)
  {
    forall c | c in s ensures IsAscii(c) { assert IsAsciiAlnum(c) || c == '-'; }
    AsciiBytes(s);
  }

  lemma {:induction false} JoinedAscii(labels: seq<string>)
    requires forall l :: l in labels ==> AllAscii(l)
    ensures AllAscii(Join(labels, "."))
  {
    if |labels| > 1 {
      assert labels[0] in labels;
      JoinedAscii(labels[1..]);
    } else if |labels| == 1 {
      assert labels[0] in labels;
    }
  }

  lemma {:induction false} LastOfJoin(labels: seq<string>)
    requires labels != [] && labels[|labels| - 1] != []
    ensures var s := Join(labels, "."); var last := labels[|labels| - 1];
            s != [] && s[|s| - 1] == last[|last| - 1]
  {
    if |labels| > 1 { LastOfJoin(labels[1..]); }
  }

  /** A dotted name is valid exactly when its labels are plain and it has at most
      253 characters. */
  lemma NameExactly(labels: seq<string>)
    requires labels != [] && labels[|labels| - 1] != [] && forall l :: l in labels ==> '.' !in l
    ensures ValidDnsName(Join(labels, ".")) <==>
      (forall l :: l in labels ==> PlainLabel(l)) && |Join(labels, ".")| <= 253
  {
    var name := Join(labels, ".");
    forall l | l in labels ensures !Contains(l, ".") && (ValidLabel(l) <==> PlainLabel(l)) {
      CharFree(l, '.');
      LabelExactly(l);
    }
    SplitJoin(labels, ".");
    LastOfJoin(labels);
    LastCharNotDot(labels[|labels| - 1]);
    assert !EndsWith(name, ".") by { assert name[|name| - 1..][0] == name[|name| - 1]; }
    if forall l :: l in labels ==> PlainLabel(l) {
      forall l | l in labels ensures AllAscii(l) { LabelBytes(l); }
      JoinedAscii(labels);
      AsciiBytes(name);
    }
  }

  lemma LastCharNotDot(part: string)
    requires part != [] && '.' !in part
    ensures part[|part| - 1] != '.'
  {
    assert part[|part| - 1] in part;
  }

  /** One dot more at the end changes nothing. */
  lemma RootDotIsOptional(name: string)
    requires name != [] && name[|name| - 1] != '.'
    ensures ValidDnsName(name + ".") <==> ValidDnsName(name)
  {
    var dotted := name + ".";
    assert dotted[|dotted| - 1..] == "." && Without(dotted, ".") == name;
    assert !EndsWith(name, ".") by { assert name[|name| - 1..][0] == name[|name| - 1]; }
  }

  /** One to three numbers up to 255, zeros in front or not, and in-addr.arpa, in any
      case and with any dots at the end. */
  ghost predicate ReverseText(zone: string, labels: seq<string>) {
    && 1 <= |labels| <= 3 && (forall l :: l in labels ==> '.' !in l && ParseUnsigned(l, 255).Some?)
    && Lower(TrimDots(zone)) == Join(labels, ".") + ".in-addr.arpa"
  }

  lemma ReverseZoneExactly(zone: string)
    ensures ValidReverseZone(zone) <==> exists labels :: ReverseText(zone, labels)
  {
    var normal := Lower(TrimDots(zone));
    if ValidReverseZone(zone) {
      var prefix := Without(normal, ARPA);
      SplitPieces(prefix, '.');
      JoinSplit(prefix, ".");
      assert normal == prefix + ARPA;
      assert ReverseText(zone, Split(prefix, "."));
    }
    if labels :| ReverseText(zone, labels) {
      forall l | l in labels ensures !Contains(l, ".") { CharFree(l, '.'); }
      SplitJoin(labels, ".");
      assert EndsWith(normal, ARPA) && Without(normal, ARPA) == Join(labels, ".");
    }
  }
}
