/** Applying a plan and then verifying it: exactly which records verify, told from
    the plan and the server as it was before. */
module DnsVerified {
  import opened Prelude
  import opened Text
  import opened DnsNames
  import opened DnsServer
  import opened DnsPlans

  // ---------- the exact condition ----------

  function ZonesAfter(c: Contents, plan: seq<Planned>): set<string> { c.zones + PtrZones(plan) }

  /** The place held the record's value beforehand or, if it held nothing, the
      plan brings that value there. */
  ghost predicate Supplied(c: Contents, plan: seq<Planned>, k: Key, r: Planned) {
    if k in c.records then exists v :: v in c.records[k] && Same(r.kind, v, r.value)
    else exists q :: q in plan && KeyOf(q) == k && Same(r.kind, q.value, r.value)
  }

  /** The alias an owner has once the plan is in: the old one, or the first planned. */
  function AliasAfter(c: Contents, plan: seq<Planned>, k: Key): Option<string> {
    var a := k.(kind := Cname);
    if a in c.records && c.records[a] != [] then Some(TrimDots(c.records[a][0]))
    else if a in PlanKeys(plan) then Some(TrimDots(FirstValue(plan, a)))
    else None
  }

  /** The place that will answer a query, told from the plan and the server as it
      was: the closest zone, old or new, and from there along the aliases. */
  function SourceAfter(c: Contents, plan: seq<Planned>, name: string, kind: Kind, hops: nat): (k: Option<Key>)
    ensures k.Some? ==> k.value.zone in ZonesAfter(c, plan) && k.value.kind == kind
    decreases hops
  {
    match Place(ZonesAfter(c, plan), name, kind)
    case None => None
    case Some(k) =>
      match AliasAfter(c, plan, k)
      case None => Some(k)
      case Some(target) =>
        if kind == Cname || hops == 0 then Some(k) else SourceAfter(c, plan, target, kind, hops - 1)
  }

  /** The place that answers for the record is supplied with its value. */
  ghost predicate Answered(c: Contents, plan: seq<Planned>, r: Planned, hops: nat) {
    var k := SourceAfter(c, plan, QueryName(r), r.kind, hops);
    k.Some? && Supplied(c, plan, k.value, r)
  }

  lemma AliasIsKnown(c: Contents, plan: seq<Planned>, k: Key)
    requires WellFormed(c) && k.zone in ZonesAfter(c, plan)
    ensures AliasAt(Merge(c, plan), k) == AliasAfter(c, plan, k)
  {
    MergedAt(c, plan, k.(kind := Cname));
  }

  lemma SourceIsKnown(c: Contents, plan: seq<Planned>, name: string, kind: Kind, hops: nat)
    requires WellFormed(c)
    ensures Source(Merge(c, plan), name, kind, hops) == SourceAfter(c, plan, name, kind, hops)
  {
    var m := Merge(c, plan);
    forall k: Key | k.zone in m.zones ensures AliasAt(m, k) == AliasAfter(c, plan, k) {
      AliasIsKnown(c, plan, k);
    }
    SameSource(m, c, plan, name, kind, hops);
  }

  /** Zones and aliases are all that the way to an answer depends on. */
  lemma {:induction false} SameSource(
      m: Contents, c: Contents, plan: seq<Planned>, name: string, kind: Kind, hops: nat)
    requires m.zones == ZonesAfter(c, plan)
    requires forall k: Key :: k.zone in m.zones ==> AliasAt(m, k) == AliasAfter(c, plan, k)
    ensures Source(m, name, kind, hops) == SourceAfter(c, plan, name, kind, hops)
    decreases hops
  {
    var k := Place(m.zones, name, kind);
    if k.Some? {
      var alias := AliasAt(m, k.value);
      if alias.Some? && kind != Cname && hops > 0 {
        SameSource(m, c, plan, alias.value, kind, hops - 1);
      }
    }
  }

  lemma SuppliedExactlyWhen(c: Contents, plan: seq<Planned>, k: Key, r: Planned)
    requires Harmonious(plan) && k.zone in ZonesAfter(c, plan) && k.kind == r.kind
    ensures Supplied(c, plan, k, r) <==>
      exists v :: v in Lookup(Merge(c, plan), k) && Same(r.kind, v, r.value)
  {
    MergedAt(c, plan, k);
    if k !in c.records && k in PlanKeys(plan) {
      FirstValueFrom(plan, k);
      var first :| first in plan && KeyOf(first) == k && first.value == FirstValue(plan, k);
      assert first.value in Lookup(Merge(c, plan), k);
      forall q | q in plan && KeyOf(q) == k ensures Same(r.kind, q.value, first.value) {
        assert Compatible(q, first);
      }
    }
  }

  /** After a plan is applied a record verifies if and only if it is answered, for
      any record and any well-formed server, whatever else it held. */
  lemma VerifiesExactlyWhen(c: Contents, plan: seq<Planned>, r: Planned, hops: nat)
    requires WellFormed(c) && !Apply(c, plan).threw
    ensures Verified(Apply(c, plan).contents, r, hops) <==> Answered(c, plan, r, hops)
  {
    ApplySucceedsExactlyWhen(c, plan);
    SourceIsKnown(c, plan, QueryName(r), r.kind, hops);
    var k := SourceAfter(c, plan, QueryName(r), r.kind, hops);
    if k.Some? { SuppliedExactlyWhen(c, plan, k.value, r); }
  }

  // ---------- which place answers ----------

  /** No live zone below `zone` encloses the name `owner`.`zone`. */
  ghost predicate Closest(zones: set<string>, owner: string, zone: string) {
    var labels := Split(owner, ".") + Split(zone, ".");
    forall i :: 0 <= i < |Split(owner, ".")| ==> Join(labels[i..], ".") !in zones
  }

  /** The address of a PTR record belongs to the zone it is planned in. */
  predicate Addressed(r: Planned) { r.kind == Ptr ==> InZone(r.name, r.zone) }

  lemma {:induction false} PlaceSkips(zones: set<string>, labels: seq<string>, i: nat, n: nat, kind: Kind)
    requires i <= n <= |labels|
    requires forall j :: i <= j < n ==> Join(labels[j..], ".") !in zones
    ensures PlaceFrom(zones, labels, i, kind) == PlaceFrom(zones, labels, n, kind)
    decreases n - i
  {
    if i < n {
      PlaceSkips(zones, labels, i + 1, n, kind);
    }
  }

  /** The first live zone found decides. */
  lemma {:induction false} FirstZoneDecides(zones: set<string>, labels: seq<string>, i: nat, n: nat, kind: Kind)
    returns (j: nat)
    requires i <= n <= |labels|
    requires exists k :: i <= k < n && Join(labels[k..], ".") in zones
    ensures i <= j < n
    ensures PlaceFrom(zones, labels, i, kind).Some?
    ensures PlaceFrom(zones, labels, i, kind).value.zone == Join(labels[j..], ".")
    decreases n - i
  {
    if Join(labels[i..], ".") in zones {
      j := i;
    } else {
      j := FirstZoneDecides(zones, labels, i + 1, n, kind);
    }
  }

  lemma DeeperIsLonger(own: seq<string>, zone: string, j: nat)
    requires j < |own|
    ensures |Join((own + Split(zone, "."))[j..], ".")| > |zone|
  {
    var rest := Split(zone, ".");
    assert (own + rest)[j..] == own[j..] + rest;
    JoinAppend(own[j..], rest, ".");
    JoinSplit(zone, ".");
  }

  /** A name in a live zone is answered from that zone exactly when the zone is
      the closest one. */
  lemma PlaceInZone(zones: set<string>, owner: string, zone: string, kind: Kind)
    requires zone in zones
    ensures PlaceFrom(zones, Split(owner + "." + zone, "."), 0, kind) == Some(Key(zone, owner, kind))
      <==> Closest(zones, owner, zone)
  {
    var own, rest := Split(owner, "."), Split(zone, ".");
    var labels := own + rest;
    SplitAppend(owner, ".", zone);
    if Closest(zones, owner, zone) {
      PlaceSkips(zones, labels, 0, |own|, kind);
      assert labels[|own|..] == rest && labels[..|own|] == own;
      JoinSplit(owner, ".");
      JoinSplit(zone, ".");
    } else {
      var j := FirstZoneDecides(zones, labels, 0, |own|, kind);
      DeeperIsLonger(own, zone, j);
    }
  }

  /** A name is answered from a place that spells it, or from a zone apex. */
  lemma {:induction false} PlaceSpellsName(zones: set<string>, labels: seq<string>, i: nat, kind: Kind)
    requires i <= |labels| && PlaceFrom(zones, labels, i, kind).Some?
    ensures var k := PlaceFrom(zones, labels, i, kind).value;
            k.owner == "@" || k.owner + "." + k.zone == Join(labels, ".")
    decreases |labels| - i
  {
    if Join(labels[i..], ".") in zones {
      if i > 0 {
        JoinAppend(labels[..i], labels[i..], ".");
        assert labels == labels[..i] + labels[i..];
      }
    } else {
      PlaceSpellsName(zones, labels, i + 1, kind);
    }
  }

  lemma LowerFixed(s: string)
    ensures Lower(Lower(s)) == Lower(s)
  {
  }

  /** The queried name spells owner and zone of the record's place. */
  lemma QuerySpellsPlace(r: Planned)
    requires Acceptable(r) && Addressed(r)
    ensures Lower(QueryName(r)) == OwnerOf(r) + "." + ZoneOf(r)
  {
    if r.kind == Ptr {
      OwnerNameIsReverseName(r.zone, r.name);
      var relative := RelativeName(r.zone, r.name);
      assert QueryName(r) == relative + "." + Lower(r.zone);
      LowerConcat(relative + ".", Lower(r.zone));
      LowerConcat(relative, ".");
      LowerFixed(r.zone);
      assert Lower(".") == ".";
    } else {
      LowerConcat(r.name + ".", r.zone);
      LowerConcat(r.name, ".");
      assert Lower(".") == ".";
    }
  }

  lemma LowerOctet(o: string)
    requires IsOctet(o)
    ensures Lower(o) == o && o[0] != '@'
  {
    assert o[0] in o;
    forall i | 0 <= i < |o| ensures LowerChar(o[i]) == o[i] { assert o[i] in o; }
  }

  lemma {:induction false} JoinedOctetsAreLower(octets: seq<string>)
    requires octets != [] && forall o :: o in octets ==> IsOctet(o)
    ensures Lower(Join(octets, ".")) == Join(octets, ".")
    ensures Join(octets, ".") != "@"
  {
    assert octets[0] in octets;
    LowerOctet(octets[0]);
    if |octets| > 1 {
      JoinedOctetsAreLower(octets[1..]);
      LowerConcat(octets[0] + ".", Join(octets[1..], "."));
      LowerConcat(octets[0], ".");
      assert Lower(".") == ".";
      assert Join(octets, ".")[0] == octets[0][0];
    }
  }

  lemma ArpaIsLower()
    ensures Lower(ARPA) == ARPA
  {
  }

  lemma ReversedOctetsAreLower(part: seq<string>, whole: seq<string>)
    requires (forall o :: o in whole ==> IsOctet(o)) && part != [] && forall o :: o in part ==> o in whole
    ensures Lower(Join(Reversed(part), ".")) == Join(Reversed(part), ".")
    ensures Join(Reversed(part), ".") != "@"
  {
    OctetsOf(Reversed(part), whole);
    JoinedOctetsAreLower(Reversed(part));
  }

  lemma OwnerIsLower(zone: string, addr: string)
    requires IsIpv4(addr)
    ensures Lower(RelativeName(zone, addr)) == RelativeName(zone, addr) != "@"
  {
    var octets := Split(addr, ".");
    var k := |PrefixLabels(zone)|;
    ReversedOctetsAreLower(if k <= 3 then octets[k..] else [octets[3]], octets);
  }

  lemma ReverseNameIsLower(addr: string)
    requires IsIpv4(addr)
    ensures Lower(ReverseName(addr)) == ReverseName(addr)
  {
    var octets := Split(addr, ".");
    ReversedOctetsAreLower(octets, octets);
    LowerConcat(Join(Reversed(octets), "."), ARPA);
    ArpaIsLower();
  }

  /** A PTR record planned outside its zone is looked up somewhere else. */
  lemma StrayAddressIsElsewhere(zones: set<string>, r: Planned)
    requires r.kind == Ptr && Acceptable(r) && !InZone(r.name, r.zone)
    ensures Place(zones, QueryName(r), Ptr) != Some(KeyOf(r))
  {
    var name := ReverseName(r.name);
    ReverseNameIsLower(r.name);
    OwnerIsLower(r.zone, r.name);
    OwnerNameIsReverseName(r.zone, r.name);
    if Place(zones, name, Ptr).Some? {
      JoinSplit(name, ".");
      PlaceSpellsName(zones, Split(name, "."), 0, Ptr);
    }
  }

  /** An acceptable record is looked up at the place it is written to exactly when
      its address, for a PTR record, lies in its zone and no deeper live zone
      takes the name over. */
  lemma OwnPlaceExactlyWhen(zones: set<string>, r: Planned)
    requires Acceptable(r) && ZoneOf(r) in zones
    ensures Place(zones, QueryName(r), r.kind) == Some(KeyOf(r)) <==>
      Addressed(r) && Closest(zones, OwnerOf(r), ZoneOf(r))
  {
    if Addressed(r) {
      QuerySpellsPlace(r);
      PlaceInZone(zones, OwnerOf(r), ZoneOf(r), r.kind);
    } else {
      StrayAddressIsElsewhere(zones, r);
    }
  }

  // ---------- consequences ----------

  lemma PlannedIsSupplied(c: Contents, plan: seq<Planned>, r: Planned)
    requires Applicable(c, plan) && r in plan
    ensures Supplied(c, plan, KeyOf(r), r)
  {
    assert Agrees(c, r);
    if KeyOf(r) in c.records {
      assert c.records[KeyOf(r)][0] in c.records[KeyOf(r)];
    }
  }

  lemma ZonesAreLive(c: Contents, plan: seq<Planned>, r: Planned)
    requires Applicable(c, plan) && r in plan
    ensures ZoneOf(r) in ZonesAfter(c, plan)
  {
    var i :| 0 <= i < |plan| && plan[i] == r;
    assert Ready(c, plan[i]) || ZoneOf(plan[i]) in PtrZones(plan[..i]);
    PartZones(plan, i);
  }

  /** The record's own place answers for it, as far as the plan and the zones
      beforehand can tell. */
  ghost predicate WrittenWhereRead(c: Contents, plan: seq<Planned>, r: Planned) {
    Addressed(r) && Closest(ZonesAfter(c, plan), OwnerOf(r), ZoneOf(r))
  }

  /** An applied record's owner has no alias, unless the record is one. */
  lemma PlannedHasNoAlias(c: Contents, plan: seq<Planned>, r: Planned)
    requires WellFormed(c) && Applicable(c, plan) && r in plan && r.kind != Cname
    ensures AliasAfter(c, plan, KeyOf(r)).None?
  {
    var a := KeyOf(r).(kind := Cname);
    assert Agrees(c, r) && Collides(a, KeyOf(r));
    forall q | q in plan ensures !Collides(KeyOf(q), KeyOf(r)) { assert Compatible(q, r); }
  }

  /** A record looked up where it was written is answered from there. */
  lemma OwnPlaceIsSource(c: Contents, plan: seq<Planned>, r: Planned, hops: nat)
    requires WellFormed(c) && Applicable(c, plan) && r in plan && Acceptable(r)
    requires WrittenWhereRead(c, plan, r)
    ensures SourceAfter(c, plan, QueryName(r), r.kind, hops) == Some(KeyOf(r))
  {
    ZonesAreLive(c, plan, r);
    OwnPlaceExactlyWhen(ZonesAfter(c, plan), r);
    if r.kind != Cname { PlannedHasNoAlias(c, plan, r); }
  }

  /** After a successful apply every record that is looked up where it was written
      verifies, whatever else the server held. */
  lemma AppliedPlanVerifies(c: Contents, plan: seq<Planned>, hops: nat)
    requires WellFormed(c) && !Apply(c, plan).threw
    requires forall r :: r in plan ==> Acceptable(r) && WrittenWhereRead(c, plan, r)
    ensures forall r :: r in plan ==> Verified(Apply(c, plan).contents, r, hops)
  {
    ApplySucceedsExactlyWhen(c, plan);
    forall r | r in plan ensures Verified(Apply(c, plan).contents, r, hops) {
      OwnPlaceIsSource(c, plan, r, hops);
      PlannedIsSupplied(c, plan, r);
      VerifiesExactlyWhen(c, plan, r, hops);
    }
  }

  /** No other place holds the record's value, on the server or in the plan. */
  ghost predicate Lone(c: Contents, plan: seq<Planned>, r: Planned) {
    && (forall k, v :: k in c.records && v in c.records[k] && k.kind == r.kind && Same(r.kind, v, r.value)
          ==> k == KeyOf(r))
    && (forall q :: q in plan && q.kind == r.kind && Same(r.kind, q.value, r.value) ==> KeyOf(q) == KeyOf(r))
  }

  /** No alias stands where the record is first looked up. */
  predicate Unaliased(c: Contents, plan: seq<Planned>, r: Planned) {
    var k := Place(ZonesAfter(c, plan), QueryName(r), r.kind);
    r.kind == Cname || k.None? || AliasAfter(c, plan, k.value).None?
  }

  /** For a record whose value no other place holds, on every server and in every
      plan: it verifies exactly when its lookup ends at its own place, which
      without an alias on the way means it is looked up where it was written. */
  lemma LoneRecordVerifies(c: Contents, plan: seq<Planned>, r: Planned, hops: nat)
    requires WellFormed(c) && !Apply(c, plan).threw
    requires r in plan && Acceptable(r) && Lone(c, plan, r)
    ensures Verified(Apply(c, plan).contents, r, hops) <==>
      SourceAfter(c, plan, QueryName(r), r.kind, hops) == Some(KeyOf(r))
    ensures Unaliased(c, plan, r) ==>
      (Verified(Apply(c, plan).contents, r, hops) <==> WrittenWhereRead(c, plan, r))
  {
    ApplySucceedsExactlyWhen(c, plan);
    PlannedIsSupplied(c, plan, r);
    VerifiesExactlyWhen(c, plan, r, hops);
    ZonesAreLive(c, plan, r);
    OwnPlaceExactlyWhen(ZonesAfter(c, plan), r);
    if WrittenWhereRead(c, plan, r) { OwnPlaceIsSource(c, plan, r, hops); }
  }

  lemma OneRecordPlan(c: Contents, r: Planned)
    requires WellFormed(c)
    ensures Applicable(c, [r]) <==> Agrees(c, r) && Ready(c, r)
  {
    ApplySucceedsExactlyWhen(c, [r]);
    OneRecord(c, r);
    ApplyStep(c, [], r);
    assert [] + [r] == [r];
  }

  /** One PTR record in a canonical zone: it applies exactly when it agrees with
      the server. If no other place holds its value and no alias stands where it is
      looked up, it then verifies exactly when its address lies in its zone and no
      deeper live zone takes it over; with no other zone around, exactly when its
      address lies in its zone. */
  lemma LonePtrVerifies(c: Contents, r: Planned, hops: nat)
    requires WellFormed(c) && Lone(c, [r], r)
    requires r.kind == Ptr && Acceptable(r) && CanonicalReverseZone(r.zone)
    ensures var run := Apply(c, [r]);
            && (!run.threw <==> Agrees(c, r))
            && (!run.threw && Unaliased(c, [r], r) ==>
                  && (Verified(run.contents, r, hops) <==>
                        InZone(r.name, r.zone) && Closest(c.zones + {ZoneOf(r)}, OwnerOf(r), ZoneOf(r)))
                  && (c.zones <= {ZoneOf(r)} ==> (Verified(run.contents, r, hops) <==> InZone(r.name, r.zone))))
  {
    LonePtrApplies(c, r);
    if Agrees(c, r) {
      LoneRecordVerifies(c, [r], r, hops);
      LonePtrZones(c, r);
    }
  }

  lemma LonePtrApplies(c: Contents, r: Planned)
    requires WellFormed(c) && r.kind == Ptr && ValidReverseZone(r.zone) && CanonicalReverseZone(r.zone)
    ensures !Apply(c, [r]).threw <==> Agrees(c, r)
  {
    NetworkIdRoundTrip(r.zone);
    ApplySucceedsExactlyWhen(c, [r]);
    OneRecordPlan(c, r);
  }

  lemma LonePtrZones(c: Contents, r: Planned)
    requires r.kind == Ptr
    ensures WrittenWhereRead(c, [r], r) <==>
      InZone(r.name, r.zone) && Closest(c.zones + {ZoneOf(r)}, OwnerOf(r), ZoneOf(r))
    ensures c.zones <= {ZoneOf(r)} ==> Closest(c.zones + {ZoneOf(r)}, OwnerOf(r), ZoneOf(r))
  {
    PtrZonesOfOne(r);
    OnlyZoneIsClosest(OwnerOf(r), ZoneOf(r));
    assert c.zones <= {ZoneOf(r)} ==> c.zones + {ZoneOf(r)} == {ZoneOf(r)};
  }

  lemma PtrZonesOfOne(r: Planned)
    ensures PtrZones([r]) == if r.kind == Ptr then {ZoneOf(r)} else {}
  {
    KeysGrow([], r);
    assert [] + [r] == [r];
    assert PtrZones([]) == {};
  }

  /** Nothing encloses a name more closely than the only zone there is. */
  lemma OnlyZoneIsClosest(owner: string, zone: string)
    ensures Closest({zone}, owner, zone)
  {
    forall i | 0 <= i < |Split(owner, ".")|
      ensures Join((Split(owner, ".") + Split(zone, "."))[i..], ".") !in {zone}
    {
      DeeperIsLonger(Split(owner, "."), zone, i);
    }
  }
}
