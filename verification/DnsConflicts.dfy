/** What counts as the same record data, and what the scripts do about data that
    is not: said of addresses and names themselves. */
module DnsConflicts {
  import opened Prelude
  import opened Text
  import opened DnsNames
  import opened DnsServer
  import opened DnsPlans

  // ---------- sameness ----------

  lemma OctetsAreLower(text: string)
    requires IsIpv4(text)
    ensures Lower(text) == text
  {
    var octets := Split(text, ".");
    JoinSplit(text, ".");
    forall i | 0 <= i < |text| ensures LowerChar(text[i]) == text[i] {
      if 'A' <= text[i] <= 'Z' { OctetTextOnly(text, i); }
    }
  }

  /** An address is written in digits and dots. */
  lemma OctetTextOnly(text: string, i: nat)
    requires IsIpv4(text) && i < |text|
    ensures IsDigit(text[i]) || text[i] == '.'
  {
    SplitCovers(text, '.');
    assert text[i] in text;
    if text[i] != '.' {
      var p :| p in Split(text, ".") && text[i] in p;
      assert IsOctet(p);
    }
  }

  /** Two addresses are the same exactly when they are equal. */
  lemma SameAddressExactly(a: string, b: string)
    requires IsIpv4(a) && IsIpv4(b)
    ensures Same(A, a, b) <==> a == b
  {
    OctetsAreLower(a);
    OctetsAreLower(b);
  }

  /** The host name without trailing dots: only dots are missing, and none is left. */
  ghost predicate Undot(name: string, bare: string) {
    && bare <= name && (bare == [] || bare[|bare| - 1] != '.')
    && forall i :: |bare| <= i < |name| ==> name[i] == '.'
  }

  lemma BareName(name: string)
    ensures Undot(name, TrimDots(name))
  {
    TrimDotsCuts(name);
  }

  lemma BareIsUnique(name: string, a: string, b: string)
    requires Undot(name, a) && Undot(name, b)
    ensures a == b
  {
    assert a != [] ==> a[|a| - 1] == name[|a| - 1];
    assert b != [] ==> b[|b| - 1] == name[|b| - 1];
  }

  /** Two host names are the same exactly when, without trailing dots, they agree
      character by character up to ASCII case. */
  lemma SameHostExactly(kind: Kind, a: string, b: string, bareA: string, bareB: string)
    requires kind != A && Undot(a, bareA) && Undot(b, bareB)
    ensures Same(kind, a, b) <==>
      |bareA| == |bareB| && forall i :: 0 <= i < |bareA| ==> SameUpToCase(bareA[i], bareB[i])
  {
    BareName(a);
    BareName(b);
    BareIsUnique(a, bareA, TrimDots(a));
    BareIsUnique(b, bareB, TrimDots(b));
    LowerExactly(bareA, bareB);
  }

  /** An alias leads to its target, trailing dots aside: a query for another type
      is answered as the target is, one alias later. */
  lemma AliasLeads(c: Contents, name: string, kind: Kind, hops: nat, k: Key, target: string, bare: string)
    requires Place(c.zones, name, kind) == Some(k) && kind != Cname && hops > 0
    requires k.(kind := Cname) in c.records && c.records[k.(kind := Cname)] == [target] && Undot(target, bare)
    ensures Resolve(c, name, kind, hops) == Resolve(c, bare, kind, hops - 1)
  {
    BareName(target);
    BareIsUnique(target, bare, TrimDots(target));
  }

  // ---------- conflicts ----------

  /** One other address where the record belongs: the record throws, and the server
      is left as it was. */
  lemma OtherAddressThrows(c: Contents, r: Planned, v: string)
    requires WellFormed(c) && r.kind == A && IsIpv4(r.value) && IsIpv4(v) && v != r.value
    requires KeyOf(r) in c.records && c.records[KeyOf(r)] == [v]
    ensures ApplyOne(c, r) == Threw(c) && Apply(c, [r]) == Run(c, [], true)
  {
    SameAddressExactly(v, r.value);
    ApplyStep(c, [], r);
    assert [] + [r] == [r];
  }

  /** So does every plan with that record in it, wherever it stands, and the other
      address is still the only one there. */
  lemma OtherAddressStays(c: Contents, plan: seq<Planned>, r: Planned, v: string)
    requires WellFormed(c) && r in plan && r.kind == A && IsIpv4(r.value) && IsIpv4(v) && v != r.value
    requires KeyOf(r) in c.records && c.records[KeyOf(r)] == [v]
    ensures var run := Apply(c, plan);
            run.threw && KeyOf(r) in run.contents.records && run.contents.records[KeyOf(r)] == [v]
  {
    SameAddressExactly(v, r.value);
    ApplySucceedsExactlyWhen(c, plan);
    assert !Agrees(c, r);
    ApplyOnlyAdds(c, plan);
  }

  /** A lookup that ends at another address does not verify. */
  lemma OtherAddressDoesNotVerify(c: Contents, r: Planned, v: string, hops: nat)
    requires r.kind == A && IsIpv4(r.value) && IsIpv4(v) && v != r.value
    requires Resolve(c, QueryName(r), A, hops) == [v]
    ensures !Verified(c, r, hops)
  {
    SameAddressExactly(v, r.value);
  }

  /** A plan with two addresses for one place never applies, on any server. */
  lemma TwoAddressesNeverApply(c: Contents, plan: seq<Planned>, q: Planned, r: Planned)
    requires WellFormed(c) && q in plan && r in plan && q.kind == A && KeyOf(q) == KeyOf(r)
    requires IsIpv4(q.value) && IsIpv4(r.value) && q.value != r.value
    ensures Apply(c, plan).threw
  {
    SameAddressExactly(q.value, r.value);
    ApplySucceedsExactlyWhen(c, plan);
    assert !Compatible(q, r);
  }

  /** The same for aliases and reverse names: another host name throws. */
  lemma OtherHostThrows(c: Contents, plan: seq<Planned>, r: Planned, v: string, bareV: string, bareR: string)
    requires WellFormed(c) && r in plan && r.kind != A && Undot(v, bareV) && Undot(r.value, bareR)
    requires |bareV| != |bareR| || exists i :: 0 <= i < |bareV| && !SameUpToCase(bareV[i], bareR[i])
    requires KeyOf(r) in c.records && c.records[KeyOf(r)] == [v]
    ensures var run := Apply(c, plan);
            run.threw && KeyOf(r) in run.contents.records && run.contents.records[KeyOf(r)] == [v]
  {
    SameHostExactly(r.kind, v, r.value, bareV, bareR);
    ApplySucceedsExactlyWhen(c, plan);
    assert !Agrees(c, r);
    ApplyOnlyAdds(c, plan);
  }

  /** The same name in other letters, or with a dot more, is kept as it is. */
  lemma SameHostIsRetained(c: Contents, r: Planned, v: string, bareV: string, bareR: string)
    requires WellFormed(c) && r.kind != A && Undot(v, bareV) && Undot(r.value, bareR)
    requires |bareV| == |bareR| && forall i :: 0 <= i < |bareV| ==> SameUpToCase(bareV[i], bareR[i])
    requires KeyOf(r) in c.records && c.records[KeyOf(r)] == [v]
    ensures ApplyOne(c, r) == Applied(c, Line(r.id, r.kind, Retained))
  {
    SameHostExactly(r.kind, v, r.value, bareV, bareR);
    assert ZoneOf(r) in c.zones;
  }
}
