/** Inputs at which the conditions on DNS plans fail: every one is accepted by the
    agent. Zones, addresses and values are spelled from numbers, so each result is
    about a whole family. */
module DnsFailures {
  import opened Prelude
  import opened Text
  import opened DnsNames
  import opened DnsServer
  import opened DnsPlans
  import opened DnsVerified

  type Octet = n: nat | n <= 255

  const EMPTY := Contents({}, map[])

  function Address(a: Octet, b: Octet, c: Octet, d: Octet): string {
    Join(Octets(a, b, c, d), ".")
  }

  function Octets(a: Octet, b: Octet, c: Octet, d: Octet): (octets: seq<string>)
    ensures |octets| == 4 && octets[0] == Decimal(a) && forall o :: o in octets ==> IsOctet(o)
  {
    [Decimal(a), Decimal(b), Decimal(c), Decimal(d)]
  }

  /** The zone of a class A network, with its number written as given. */
  function ArpaZone(digits: string): string { digits + ARPA }

  function PtrRecord(digits: string, address: string): Planned {
    Planned("r1", Ptr, ArpaZone(digits), address, "host")
  }

  function ARecord(digits: string, address: string): Planned {
    Planned("r2", A, ArpaZone(digits), "www", address)
  }

  /** Digits that read as a byte, leading zeros or not. */
  predicate ByteText(digits: string) {
    1 <= |digits| <= 63 && AllDigits(digits) && DigitsValue(digits) <= 255
  }

  // ---------- the agent accepts them ----------

  lemma AddressSplits(a: Octet, b: Octet, c: Octet, d: Octet)
    ensures Split(Address(a, b, c, d), ".") == Octets(a, b, c, d) && IsIpv4(Address(a, b, c, d))
  {
    OctetsFree(Octets(a, b, c, d));
    SplitJoin(Octets(a, b, c, d), ".");
  }

  lemma NamesAreAscii(s: string)
    requires forall c :: c in s ==> IsAsciiAlnum(c) || c == '-'
    ensures ByteLen(s) == |s|
  {
    forall c | c in s ensures IsAscii(c) { assert IsAsciiAlnum(c) || c == '-'; }
    AsciiBytes(s);
  }

  lemma LabelIsValid(s: string)
    requires 1 <= |s| <= 63 && (forall c :: c in s ==> IsAsciiAlnum(c) || c == '-')
    requires s[0] != '-' && s[|s| - 1] != '-'
    ensures ValidLabel(s)
  {
    NamesAreAscii(s);
  }

  /** A name without dots is one label. */
  lemma SingleLabelIsValid(s: string)
    requires ValidLabel(s)
    ensures ValidSingleLabel(s)
  {
    LabelHasNoDot(s);
    CharFree(s, '.');
    SplitSingle(s, ".");
    LabelFits(s);
  }

  lemma LabelHasNoDot(s: string)
    requires ValidLabel(s)
    ensures '.' !in s && !EndsWith(s, ".")
  {
    forall c | c in s ensures c != '.' { assert IsAsciiAlnum(c) || c == '-'; }
    assert s[|s| - 1..][0] == s[|s| - 1] && s[|s| - 1] in s;
  }

  lemma LabelFits(s: string)
    requires ValidLabel(s) && !EndsWith(s, ".") && Split(s, ".") == [s]
    ensures ValidDnsName(s)
  {
  }

  lemma HostIsValid()
    ensures ValidSingleLabel("host")
  {
    LabelIsValid("host");
    SingleLabelIsValid("host");
  }

  lemma WwwIsValid()
    ensures ValidSingleLabel("www")
  {
    LabelIsValid("www");
    SingleLabelIsValid("www");
  }

  lemma ArpaZoneSplits(digits: string)
    requires ByteText(digits)
    ensures Split(ArpaZone(digits), ".") == [digits, "in-addr", "arpa"]
    ensures Split(digits, ".") == [digits]
  {
    DigitsFree(digits, '.');
    SplitSingle(digits, ".");
    ArpaSpelled(digits, "in-addr", "arpa");
    CharFree(digits, '.');
    ThreeLabels(digits, "in-addr", "arpa");
  }

  lemma ArpaSpelled(digits: string, inAddr: string, arpa: string)
    requires inAddr == "in-addr" && arpa == "arpa"
    ensures ArpaZone(digits) == digits + "." + (inAddr + "." + arpa)
    ensures '.' !in inAddr && '.' !in arpa
  {
  }

  lemma TwoLabels(a: string, b: string)
    requires '.' !in a && '.' !in b
    ensures Split(a + "." + b, ".") == [a, b]
  {
    CharFree(a, '.');
    CharFree(b, '.');
    SplitSingle(a, ".");
    SplitSingle(b, ".");
    SplitAppend(a, ".", b);
  }

  lemma ThreeLabels(a: string, b: string, c: string)
    requires '.' !in a && '.' !in b && '.' !in c
    ensures Split(a + "." + (b + "." + c), ".") == [a, b, c]
  {
    CharFree(a, '.');
    SplitSingle(a, ".");
    TwoLabels(b, c);
    SplitAppend(a, ".", b + "." + c);
  }

  lemma DigitsAreAscii(digits: string)
    requires AllDigits(digits)
    ensures AllAscii(digits) && forall c :: c in digits ==> IsAsciiAlnum(c)
  {
    forall c | c in digits ensures IsAscii(c) && IsAsciiAlnum(c) { assert IsDigit(c); }
  }

  lemma DigitsAreLower(digits: string)
    requires AllDigits(digits)
    ensures Lower(digits) == digits
  {
    forall i | 0 <= i < |digits| ensures LowerChar(digits[i]) == digits[i] { assert digits[i] in digits; }
  }

  lemma ArpaIsAscii()
    ensures AllAscii(ARPA)
  {
  }

  /** The three labels are valid, and so is the name. */
  lemma ArpaZoneIsName(digits: string)
    requires ByteText(digits)
    ensures ValidDnsName(ArpaZone(digits))
  {
    var zone := ArpaZone(digits);
    ArpaZoneSplits(digits);
    DigitsAreAscii(digits);
    ArpaIsAscii();
    assert AllAscii(zone);
    AsciiBytes(zone);
    assert digits[0] in digits && digits[|digits| - 1] in digits;
    LabelIsValid(digits);
    LabelIsValid("in-addr");
    LabelIsValid("arpa");
    assert zone[|zone| - 1] == ARPA[|ARPA| - 1] == 'a';
    assert !EndsWith(zone, ".") by { assert zone[|zone| - 1..][0] == 'a'; }
  }

  lemma ArpaZoneIsReverse(digits: string)
    requires ByteText(digits)
    ensures Undotted(ArpaZone(digits)) && Lower(ArpaZone(digits)) == ArpaZone(digits)
    ensures ValidReverseZone(ArpaZone(digits))
    ensures PrefixLabels(ArpaZone(digits)) == [digits]
  {
    var zone := ArpaZone(digits);
    assert zone[|zone| - 1] == ARPA[|ARPA| - 1] == 'a';
    DigitsAreLower(digits);
    LowerConcat(digits, ARPA);
    ArpaIsLower();
    assert TrimDots(zone) == zone;
    assert EndsWith(zone, ARPA) && Without(zone, ARPA) == digits;
    ArpaZoneSplits(digits);
    assert digits[0] in digits;
    assert ParseUnsigned(digits, 255).Some?;
    ScriptSeesLabels(zone);
  }

  // ---------- a zone the plan never names ----------

  /** Asked for a reverse zone with a leading zero, which the agent accepts, the
      server creates the zone without it. */
  lemma LeadingZeroIsDropped(n: Octet)
    ensures var zone := ArpaZone("0" + Decimal(n));
            && ValidReverseZone(zone) && !CanonicalReverseZone(zone)
            && ZoneOfNetworkId(NetworkId(zone)) == Some(ArpaZone(Decimal(n)))
            && ArpaZone(Decimal(n)) != zone
  {
    var digits := "0" + Decimal(n);
    ZerosOn("0", Decimal(n));
    assert |digits| <= 63 by { DecimalIsShort(n); }
    ArpaZoneIsReverse(digits);
    assert !IsOctet(digits) && digits in PrefixLabels(ArpaZone(digits));
    CreatedFor(digits);
    SameSuffix(Decimal(n), digits, ARPA);
  }

  lemma DecimalIsShort(n: Octet)
    ensures |Decimal(n)| <= 3
  {
    assert |Decimal(n)| == if n < 10 then 1 else |Decimal(n / 10)| + 1;
    assert |Decimal(n / 10)| == if n / 10 < 10 then 1 else |Decimal(n / 10 / 10)| + 1;
  }

  lemma CreatedFor(digits: string)
    requires ByteText(digits)
    ensures ZoneOfNetworkId(NetworkId(ArpaZone(digits))) == Some(ArpaZone(Decimal(DigitsValue(digits))))
  {
    ArpaZoneIsReverse(digits);
    PadOne(digits);
    ZeroText();
    ClassAZone(digits, "0");
  }

  lemma ClassAZone(digits: string, zero: string)
    requires ByteText(digits) && AllDigits(zero) && ParseUnsigned(zero, 255).Some?
    ensures ZoneOfNetworkId(Join([digits, zero, zero, zero], ".") + "/" + Decimal(8))
         == Some(ArpaZone(Decimal(DigitsValue(digits))))
  {
    var octets := [digits, zero, zero, zero];
    NetworkIdParses(octets, 8);
    assert digits[0] in digits;
    assert octets[..1] == [digits];
    assert Printed(octets[..1]) == [Decimal(DigitsValue(digits))];
  }

  lemma PadOne(digits: string)
    ensures PadOctets(Reversed([digits])) == [digits, "0", "0", "0"]
  {
    assert Reversed([digits]) == [digits];
    assert PadOctets([digits, "0", "0", "0"]) == [digits, "0", "0", "0"];
    assert [digits] + ["0"] == [digits, "0"] && [digits, "0"] + ["0"] == [digits, "0", "0"];
    assert PadOctets([digits, "0", "0"]) == [digits, "0", "0", "0"];
    assert PadOctets([digits, "0"]) == [digits, "0", "0", "0"];
  }

  lemma ZeroText()
    ensures AllDigits("0") && ParseUnsigned("0", 255) == Some(0)
  {
    assert "0"[..0] == "" && DigitsValue("0") == 0;
  }

  // ---------- failures ----------

  lemma PtrIsAcceptable(digits: string, a: Octet, b: Octet, c: Octet, d: Octet)
    requires ByteText(digits)
    ensures Acceptable(PtrRecord(digits, Address(a, b, c, d)))
  {
    IdsAreValid();
    ArpaZoneIsName(digits);
    ArpaZoneIsReverse(digits);
    AddressSplits(a, b, c, d);
    HostIsValid();
  }

  lemma AIsAcceptable(digits: string, a: Octet, b: Octet, c: Octet, d: Octet)
    requires ByteText(digits)
    ensures Acceptable(ARecord(digits, Address(a, b, c, d)))
  {
    IdsAreValid();
    ArpaZoneIsName(digits);
    AddressSplits(a, b, c, d);
    WwwIsValid();
  }

  lemma IdsAreValid()
    ensures ByteLen("r1") == 2 && ByteLen("r2") == 2
    ensures forall c :: c in "r1" || c in "r2" ==> IsAsciiAlnum(c)
  {
    NamesAreAscii("r1");
    NamesAreAscii("r2");
  }

  lemma OctetIsByteText(n: Octet)
    ensures IsOctet(Decimal(n)) && ByteText(Decimal(n)) && CanonicalReverseZone(ArpaZone(Decimal(n)))
  {
    DecimalIsShort(n);
    ArpaZoneIsReverse(Decimal(n));
  }

  /** A failed run can leave a zone no record names: a PTR record planned in a zone
      with a leading zero throws, and the zone without it stays. */
  lemma FailedRunLeavesZone(n: Octet, a: Octet, b: Octet, c: Octet, d: Octet)
    ensures var r := PtrRecord("0" + Decimal(n), Address(a, b, c, d));
            var run := Apply(EMPTY, [r]);
            && Acceptable(r)
            && run == Run(Contents({ArpaZone(Decimal(n))}, map[]), [], true)
            && ZoneOf(r) !in run.contents.zones
  {
    var digits := "0" + Decimal(n);
    ZerosOn("0", Decimal(n));
    DecimalIsShort(n);
    PtrIsAcceptable(digits, a, b, c, d);
    LeadingZeroIsDropped(n);
    ArpaZoneIsReverse(digits);
    OtherZoneThrows(PtrRecord(digits, Address(a, b, c, d)), ArpaZone(Decimal(n)));
  }

  /** A zone created under another name than the record's is of no use to it. */
  lemma OtherZoneThrows(r: Planned, z: string)
    requires r.kind == Ptr && ZoneOfNetworkId(NetworkId(r.zone)) == Some(z) && z != ZoneOf(r)
    ensures Apply(EMPTY, [r]) == Run(Contents({z}, map[]), [], true)
  {
    OtherZoneIsUseless(EMPTY, r, z);
    ApplyStep(EMPTY, [], r);
    assert [] + [r] == [r];
  }

  lemma OtherZoneIsUseless(c: Contents, r: Planned, z: string)
    requires r.kind == Ptr && ZoneOfNetworkId(NetworkId(r.zone)) == Some(z) && z != ZoneOf(r)
    requires c.zones == {} && c.records == map[]
    ensures ApplyOne(c, r) == Threw(Contents({z}, map[]))
  {
    assert EnsureZone(c, r) == Some(c.(zones := {z})) by { assert {} + {z} == {z}; }
  }

  /** Order matters: an A record in the zone that a PTR record of the same plan
      creates applies after it and throws before it. */
  lemma SwappedPlanThrows(n: Octet, a: Octet, b: Octet, c: Octet, d: Octet)
    ensures var ptr := PtrRecord(Decimal(n), Address(a, b, c, d));
            var host := ARecord(Decimal(n), Address(a, b, c, d));
            && Acceptable(ptr) && Acceptable(host)
            && !Apply(EMPTY, [ptr, host]).threw
            && Apply(EMPTY, [host, ptr]).threw
  {
    OctetIsByteText(n);
    PtrIsAcceptable(Decimal(n), a, b, c, d);
    AIsAcceptable(Decimal(n), a, b, c, d);
    ArpaZoneIsReverse(Decimal(n));
    var ptr := PtrRecord(Decimal(n), Address(a, b, c, d));
    var host := ARecord(Decimal(n), Address(a, b, c, d));
    NetworkIdRoundTrip(ptr.zone);
    HostAfterPtr(ptr, host);
    ApplySucceedsExactlyWhen(EMPTY, [ptr, host]);
    UnhousedFirst(EMPTY, [host, ptr]);
  }

  lemma HostAfterPtr(ptr: Planned, host: Planned)
    requires ptr.kind == Ptr && host.kind == A && ZoneOf(ptr) == ZoneOf(host) && Creatable(ptr.zone)
    ensures Applicable(EMPTY, [ptr, host])
  {
    assert [ptr] + [host] == [ptr, host] && [] + [ptr] == [ptr];
    KeysGrow([], ptr);
    PairIsHarmonious(ptr, host);
    HousedStep(EMPTY, [], ptr);
    HousedStep(EMPTY, [ptr], host);
  }

  lemma PairIsHarmonious(q: Planned, r: Planned)
    requires q.kind == Ptr && r.kind == A
    ensures Harmonious([q, r])
  {
    forall a, b | a in [q, r] && b in [q, r] ensures Compatible(a, b) {
      assert (a == q || a == r) && (b == q || b == r);
    }
  }

  /** An applied record can fail to verify: a PTR record whose address lies outside
      the canonical zone it is planned in. */
  lemma StrayPtrDoesNotVerify(n: Octet, a: Octet, b: Octet, c: Octet, d: Octet, hops: nat)
    requires a != n
    ensures var r := PtrRecord(Decimal(n), Address(a, b, c, d));
            && Acceptable(r)
            && !Apply(EMPTY, [r]).threw
            && !Verified(Apply(EMPTY, [r]).contents, r, hops)
  {
    OctetIsByteText(n);
    PtrIsAcceptable(Decimal(n), a, b, c, d);
    ArpaZoneIsReverse(Decimal(n));
    var r := PtrRecord(Decimal(n), Address(a, b, c, d));
    NotInZone(n, a, b, c, d);
    NoAliasPlanned(r);
    LonePtrVerifies(EMPTY, r, hops);
  }

  lemma NotInZone(n: Octet, a: Octet, b: Octet, c: Octet, d: Octet)
    requires a != n
    ensures !InZone(Address(a, b, c, d), ArpaZone(Decimal(n)))
  {
    AddressSplits(a, b, c, d);
    OctetIsByteText(n);
    ArpaZoneIsReverse(Decimal(n));
    var octets := Octets(a, b, c, d);
    assert Reversed(octets[..1])[0] == Decimal(a);
  }

  lemma NoAliasPlanned(r: Planned)
    requires r.kind == Ptr
    ensures Unaliased(EMPTY, [r], r) && Lone(EMPTY, [r], r)
  {
    KeysGrow([], r);
    assert [] + [r] == [r];
    assert PlanKeys([]) == {};
  }
}
