/** What applying a plan guarantees, and what verifying it afterwards shows. */
module DnsPlans {
  import opened Prelude
  import opened Text
  import opened DnsNames
  import opened DnsServer

  // ---------- when a plan applies ----------

  /** Two records for the same owner and type carry the same value, and neither
      is an alias for an owner that the other gives data of another type. */
  predicate Compatible(q: Planned, r: Planned) {
    && !Collides(KeyOf(q), KeyOf(r))
    && (KeyOf(q) == KeyOf(r) ==> Same(r.kind, q.value, r.value))
  }

  ghost predicate Harmonious(plan: seq<Planned>) {
    forall q, r :: q in plan && r in plan ==> Compatible(q, r)
  }

  /** The server holds nothing at the record's place, or exactly its value, and
      no alias there or in the record's way. */
  ghost predicate Agrees(c: Contents, r: Planned) {
    Holds(c, r) && Vacant(c.records, KeyOf(r))
  }

  ghost predicate Holds(c: Contents, r: Planned) {
    KeyOf(r) in c.records ==>
      |c.records[KeyOf(r)]| == 1 && Same(r.kind, c.records[KeyOf(r)][0], r.value)
  }

  /** The zone the script would create is the zone it then writes to. */
  predicate Creatable(zone: string) { ZoneOfNetworkId(NetworkId(zone)) == Some(Lower(zone)) }

  ghost predicate Ready(c: Contents, r: Planned) {
    ZoneOf(r) in c.zones || (r.kind == Ptr && Creatable(r.zone))
  }

  /** Every record finds its zone live, can create it, or follows a PTR record
      of the plan that does. */
  ghost predicate Housed(c: Contents, plan: seq<Planned>) {
    forall i :: 0 <= i < |plan| ==>
      Ready(c, plan[i]) || ZoneOf(plan[i]) in PtrZones(plan[..i])
  }

  /** The zone the script creates for a record, whether or not the record then
      goes in: the one its network id stands for. */
  function Made(c: Contents, r: Planned): set<string> {
    var z := ZoneOfNetworkId(NetworkId(r.zone));
    if r.kind == Ptr && ZoneOf(r) !in c.zones && z.Some? then {z.value} else {}
  }

  // ---------- what it leaves behind ----------

  function PtrZones(plan: seq<Planned>): set<string> {
    set r | r in plan && r.kind == Ptr :: ZoneOf(r)
  }

  function PlanKeys(plan: seq<Planned>): set<Key> {
    set r | r in plan :: KeyOf(r)
  }

  /** The value of the first record in the plan for this place. */
  function FirstValue(plan: seq<Planned>, k: Key): string
    requires k in PlanKeys(plan)
  {
    var front := plan[..|plan| - 1];
    if k in PlanKeys(front) then FirstValue(front, k) else plan[|plan| - 1].value
  }

  function NewRecords(c: Contents, plan: seq<Planned>): map<Key, seq<string>> {
    map k | k in PlanKeys(plan) && k !in c.records :: [FirstValue(plan, k)]
  }

  /** The old contents, the plan's reverse zones, and the plan's records wherever
      there was nothing before. */
  function Merge(c: Contents, plan: seq<Planned>): Contents {
    Contents(c.zones + PtrZones(plan), c.records + NewRecords(c, plan))
  }

  /** Created the first time a place is filled, retained otherwise. */
  function LinesOf(c: Contents, plan: seq<Planned>): (lines: seq<Line>)
    ensures |lines| == |plan|
  {
    seq(|plan|, i requires 0 <= i < |plan| =>
      Line(plan[i].id, plan[i].kind,
           if KeyOf(plan[i]) in c.records || KeyOf(plan[i]) in PlanKeys(plan[..i]) then Retained else Created))
  }

  // ---------- one record ----------

  /** Exactly when one record applies, and what it then does. */
  lemma OneRecord(c: Contents, r: Planned)
    requires WellFormed(c)
    ensures ApplyOne(c, r).Applied? <==> Agrees(c, r) && Ready(c, r)
    ensures ApplyOne(c, r).Applied? ==> ApplyOne(c, r) == Applied(
        Contents(c.zones + (if r.kind == Ptr then {ZoneOf(r)} else {}),
                 if KeyOf(r) in c.records then c.records else c.records[KeyOf(r) := [r.value]]),
        Line(r.id, r.kind, if KeyOf(r) in c.records then Retained else Created))
    ensures ApplyOne(c, r).contents.records.Keys >= c.records.Keys
    ensures c.zones <= ApplyOne(c, r).contents.zones
    ensures ApplyOne(c, r).Threw? ==> ApplyOne(c, r).contents.records == c.records
    ensures ApplyOne(c, r).contents.zones == c.zones + Made(c, r)
    ensures WellFormed(ApplyOne(c, r).contents)
  {
    if r.kind == Ptr && ZoneOf(r) in c.zones {
      assert c.zones + {ZoneOf(r)} == c.zones;
    }
    assert c.zones + {} == c.zones;
    var k := KeyOf(r);
    if k !in c.records && Vacant(c.records, k) { OneMoreVacant(c.records, k, [r.value]); }
  }

  lemma OneMoreVacant(records: map<Key, seq<string>>, k: Key, values: seq<string>)
    requires Apart(records) && Vacant(records, k)
    ensures Apart(records[k := values])
  {
    forall l, m | l in records[k := values] && m in records[k := values] ensures !Collides(m, l) {
      if l in records { assert Vacant(records, l); }
    }
  }

  // ---------- the plan as a whole ----------

  lemma KeysGrow(front: seq<Planned>, r: Planned)
    ensures PlanKeys(front + [r]) == PlanKeys(front) + {KeyOf(r)}
    ensures PtrZones(front + [r]) == PtrZones(front) + (if r.kind == Ptr then {ZoneOf(r)} else {})
  {
    var plan := front + [r];
    assert plan[|front|] == r;
    assert forall q :: q in front ==> q in plan;
    assert forall q :: q in plan ==> q in front || q == r;
  }

  lemma {:induction false} FirstValueFrom(plan: seq<Planned>, k: Key)
    requires k in PlanKeys(plan)
    ensures exists r :: r in plan && KeyOf(r) == k && r.value == FirstValue(plan, k)
  {
    var n := |plan| - 1;
    KeysGrow(plan[..n], plan[n]);
    assert plan == plan[..n] + [plan[n]];
    if k in PlanKeys(plan[..n]) {
      FirstValueFrom(plan[..n], k);
      var r :| r in plan[..n] && KeyOf(r) == k && r.value == FirstValue(plan[..n], k);
      assert r in plan;
    } else {
      assert plan[n] in plan;
    }
  }

  lemma FirstValueStep(front: seq<Planned>, r: Planned, k: Key)
    requires k in PlanKeys(front + [r])
    ensures FirstValue(front + [r], k) == if k in PlanKeys(front) then FirstValue(front, k) else r.value
  {
    assert (front + [r])[..|front|] == front;
  }

  /** What the merged contents hold at a place. */
  lemma MergedAt(c: Contents, plan: seq<Planned>, k: Key)
    ensures k in Merge(c, plan).records <==> k in c.records || k in PlanKeys(plan)
    ensures k in c.records ==> Merge(c, plan).records[k] == c.records[k]
    ensures k !in c.records && k in PlanKeys(plan) ==> Merge(c, plan).records[k] == [FirstValue(plan, k)]
  {
  }

  lemma MergeStep(c: Contents, front: seq<Planned>, r: Planned)
    ensures var m := Merge(c, front);
            Merge(c, front + [r]) == Contents(
              m.zones + (if r.kind == Ptr then {ZoneOf(r)} else {}),
              if KeyOf(r) in m.records then m.records else m.records[KeyOf(r) := [r.value]])
  {
    KeysGrow(front, r);
    var m := Merge(c, front);
    var merged := Merge(c, front + [r]).records;
    var grown := if KeyOf(r) in m.records then m.records else m.records[KeyOf(r) := [r.value]];
    forall k ensures k in merged <==> k in grown {
      MergedAt(c, front, k);
      MergedAt(c, front + [r], k);
    }
    forall k | k in grown ensures merged[k] == grown[k] {
      MergedAt(c, front, k);
      MergedAt(c, front + [r], k);
      if k in PlanKeys(front + [r]) { FirstValueStep(front, r, k); }
    }
    assert merged == grown;
  }

  lemma LinesStep(c: Contents, front: seq<Planned>, r: Planned)
    ensures LinesOf(c, front + [r]) == LinesOf(c, front)
      + [Line(r.id, r.kind, if KeyOf(r) in Merge(c, front).records then Retained else Created)]
  {
    var plan := front + [r];
    assert plan[..|front|] == front;
    forall i | 0 <= i < |front| ensures plan[..i] == front[..i] {
    }
  }

  ghost predicate HarmonyWith(front: seq<Planned>, r: Planned) {
    forall q :: q in front ==> Compatible(q, r)
  }

  lemma HarmoniousStep(front: seq<Planned>, r: Planned)
    ensures Harmonious(front + [r]) <==> Harmonious(front) && HarmonyWith(front, r)
  {
    var plan := front + [r];
    assert forall q :: q in plan <==> q in front || q == r;
  }

  /** Nothing collides with a place after the front of the plan exactly when
      nothing did before and the front brings nothing that does. */
  lemma VacantAfter(c: Contents, front: seq<Planned>, k: Key)
    ensures Vacant(Merge(c, front).records, k) <==>
      Vacant(c.records, k) && forall q :: q in front ==> !Collides(KeyOf(q), k)
  {
    var merged := Merge(c, front).records;
    forall l ensures l in merged <==> l in c.records || l in PlanKeys(front) { MergedAt(c, front, l); }
    if Vacant(merged, k) {
      forall q | q in front ensures !Collides(KeyOf(q), k) {
        assert KeyOf(q) in merged;
      }
    }
  }

  lemma HoldsAfter(c: Contents, front: seq<Planned>, r: Planned)
    requires Harmonious(front) && forall q :: q in front ==> Holds(c, q)
    ensures Holds(Merge(c, front), r) <==>
      Holds(c, r) && forall q :: q in front && KeyOf(q) == KeyOf(r) ==> Same(r.kind, q.value, r.value)
  {
    var k := KeyOf(r);
    MergedAt(c, front, k);
    if k in c.records {
      forall q | q in front && KeyOf(q) == k && Holds(c, r) ensures Same(r.kind, q.value, r.value) {
        assert Holds(c, q);
      }
    } else if k in PlanKeys(front) {
      FirstValueFrom(front, k);
      var first :| first in front && KeyOf(first) == k && first.value == FirstValue(front, k);
      forall q | q in front && KeyOf(q) == k ensures Same(r.kind, q.value, first.value) {
        assert Compatible(q, first);
      }
    }
  }

  /** After the front of the plan, the next record agrees with the server exactly
      when it agreed before and is in harmony with the front. */
  lemma AgreesAfter(c: Contents, front: seq<Planned>, r: Planned)
    requires Harmonious(front) && forall q :: q in front ==> Agrees(c, q)
    ensures Agrees(Merge(c, front), r) <==> Agrees(c, r) && HarmonyWith(front, r)
  {
    VacantAfter(c, front, KeyOf(r));
    HoldsAfter(c, front, r);
  }

  lemma HousedStep(c: Contents, front: seq<Planned>, r: Planned)
    ensures Housed(c, front + [r]) <==> Housed(c, front) && (Ready(c, r) || ZoneOf(r) in PtrZones(front))
  {
    var plan := front + [r];
    assert plan[|front|] == r && plan[..|front|] == front;
    forall i | 0 <= i < |front| ensures plan[..i] == front[..i] && plan[i] == front[i] {
    }
  }

  lemma {:induction false} ReadyAfter(c: Contents, front: seq<Planned>, r: Planned)
    requires Housed(c, front)
    ensures Ready(Merge(c, front), r) <==> Ready(c, r) || ZoneOf(r) in PtrZones(front)
  {
  }

  lemma MergeHoused(c: Contents, plan: seq<Planned>)
    requires WellFormed(c) && Housed(c, plan)
    ensures forall k :: k in Merge(c, plan).records ==>
      k.zone in Merge(c, plan).zones && Merge(c, plan).records[k] != []
  {
    forall k | k in PlanKeys(plan) ensures k.zone in Merge(c, plan).zones {
      var i :| 0 <= i < |plan| && KeyOf(plan[i]) == k;
      if ZoneOf(plan[i]) in PtrZones(plan[..i]) {
        var q :| q in plan[..i] && q.kind == Ptr && ZoneOf(q) == ZoneOf(plan[i]);
        assert q in plan;
      }
    }
  }

  ghost predicate Applicable(c: Contents, plan: seq<Planned>) {
    Harmonious(plan) && (forall r :: r in plan ==> Agrees(c, r)) && Housed(c, plan)
  }

  lemma CollisionsAreMutual(k: Key, l: Key)
    ensures Collides(k, l) <==> Collides(l, k)
  {
  }

  lemma MergeWellFormed(c: Contents, plan: seq<Planned>)
    requires WellFormed(c) && Applicable(c, plan)
    ensures WellFormed(Merge(c, plan))
  {
    MergeHoused(c, plan);
    forall k | k in Merge(c, plan).records ensures Vacant(Merge(c, plan).records, k) {
      MergedAt(c, plan, k);
      VacantAfter(c, plan, k);
      if k in c.records {
        forall q | q in plan ensures !Collides(KeyOf(q), k) {
          assert Agrees(c, q);
          CollisionsAreMutual(k, KeyOf(q));
        }
      } else {
        var r :| r in plan && KeyOf(r) == k;
        assert Agrees(c, r);
        forall q | q in plan ensures !Collides(KeyOf(q), k) { assert Compatible(q, r); }
      }
    }
  }

  lemma ApplicableStep(c: Contents, front: seq<Planned>, r: Planned)
    requires WellFormed(c)
    ensures Applicable(c, front + [r]) <==>
      Applicable(c, front) && Agrees(Merge(c, front), r) && Ready(Merge(c, front), r)
  {
    var plan := front + [r];
    assert forall q :: q in plan <==> q in front || q == r;
    HousedStep(c, front, r);
    HarmoniousStep(front, r);
    if Harmonious(front) && (forall q :: q in front ==> Agrees(c, q)) && Housed(c, front) {
      AgreesAfter(c, front, r);
      ReadyAfter(c, front, r);
    }
  }

  /** A plan applies if and only if it is consistent in itself, agrees with what
      the server held at the start, and every record finds a zone; and then the
      result and every line of the report are given outright. */
  lemma {:induction false} ApplySucceedsExactlyWhen(c: Contents, plan: seq<Planned>)
    requires WellFormed(c)
    ensures !Apply(c, plan).threw <==> Applicable(c, plan)
    ensures !Apply(c, plan).threw ==> Apply(c, plan) == Run(Merge(c, plan), LinesOf(c, plan), false)
  {
    if plan == [] {
      assert Merge(c, plan).records == c.records;
      assert Merge(c, plan) == c;
    } else {
      var front, r := plan[..|plan| - 1], plan[|plan| - 1];
      assert plan == front + [r];
      ApplySucceedsExactlyWhen(c, front);
      ApplicableStep(c, front, r);
      if Applicable(c, front) {
        MergeWellFormed(c, front);
        OneRecord(Merge(c, front), r);
        MergeStep(c, front, r);
        LinesStep(c, front, r);
      }
    }
  }

  // ---------- order ----------

  ghost predicate SameRecords(p: seq<Planned>, q: seq<Planned>) {
    forall r :: r in p <==> r in q
  }

  /** Zones for A and CNAME records are live beforehand. */
  ghost predicate ZonesLive(c: Contents, plan: seq<Planned>) {
    forall r :: r in plan && r.kind != Ptr ==> ZoneOf(r) in c.zones
  }

  /** Equal up to the case and trailing dots of record data. */
  ghost predicate Equivalent(a: Contents, b: Contents) {
    && a.zones == b.zones
    && a.records.Keys == b.records.Keys
    && (forall k :: k in a.records ==>
          && |a.records[k]| == |b.records[k]|
          && (forall i :: 0 <= i < |a.records[k]| ==> Same(k.kind, a.records[k][i], b.records[k][i])))
  }

  lemma HousedInAnyOrder(c: Contents, p: seq<Planned>, q: seq<Planned>)
    requires SameRecords(p, q) && ZonesLive(c, p) && Housed(c, p)
    ensures Housed(c, q)
  {
    forall i | 0 <= i < |q| ensures Ready(c, q[i]) {
      assert q[i] in p;
      if q[i].kind == Ptr {
        var j :| 0 <= j < |p| && p[j] == q[i];
        PtrIsReady(c, p, j);
      }
    }
  }

  /** A PTR record's zone is creatable or live on its own account: following
      another record of the same zone adds nothing. */
  lemma {:induction false} PtrIsReady(c: Contents, plan: seq<Planned>, i: nat)
    requires i < |plan| && plan[i].kind == Ptr && Housed(c, plan)
    ensures Ready(c, plan[i])
  {
    if ZoneOf(plan[i]) in PtrZones(plan[..i]) {
      var r :| r in plan[..i] && r.kind == Ptr && ZoneOf(r) == ZoneOf(plan[i]);
      var j :| 0 <= j < i && plan[j] == r;
      PtrIsReady(c, plan, j);
    }
  }

  lemma SameValueFirst(p: seq<Planned>, q: seq<Planned>, k: Key)
    requires SameRecords(p, q) && Harmonious(p) && k in PlanKeys(p) && k in PlanKeys(q)
    ensures Same(k.kind, FirstValue(p, k), FirstValue(q, k))
  {
    FirstValueFrom(p, k);
    FirstValueFrom(q, k);
    var a :| a in p && KeyOf(a) == k && a.value == FirstValue(p, k);
    var b :| b in q && KeyOf(b) == k && b.value == FirstValue(q, k);
    assert Compatible(a, b);
  }

  lemma MergeInAnyOrder(c: Contents, p: seq<Planned>, q: seq<Planned>)
    requires SameRecords(p, q) && Harmonious(p)
    ensures Equivalent(Merge(c, p), Merge(c, q))
  {
    assert PtrZones(p) == PtrZones(q) && PlanKeys(p) == PlanKeys(q);
    var a, b := Merge(c, p), Merge(c, q);
    forall k | k in a.records
      ensures k in b.records && |a.records[k]| == |b.records[k]|
              && (forall i :: 0 <= i < |a.records[k]| ==> Same(k.kind, a.records[k][i], b.records[k][i]))
    {
      MergedAt(c, p, k);
      MergedAt(c, q, k);
      if k !in c.records { SameValueFirst(p, q, k); }
    }
  }

  /** The verdict, and the final contents, do not depend on the order of the plan
      nor on repeats in it. */
  lemma OrderDoesNotMatter(c: Contents, p: seq<Planned>, q: seq<Planned>)
    requires WellFormed(c) && SameRecords(p, q) && ZonesLive(c, p)
    ensures Apply(c, p).threw <==> Apply(c, q).threw
    ensures !Apply(c, p).threw ==> Equivalent(Apply(c, p).contents, Apply(c, q).contents)
  {
    ApplySucceedsExactlyWhen(c, p);
    ApplySucceedsExactlyWhen(c, q);
    if Housed(c, p) { HousedInAnyOrder(c, p, q); }
    if Housed(c, q) { HousedInAnyOrder(c, q, p); }
    if Harmonious(p) { MergeInAnyOrder(c, p, q); }
  }

  lemma MovedToFront<T>(s: seq<T>, i: nat) returns (moved: seq<T>)
    requires i < |s|
    ensures multiset(moved) == multiset(s) && |moved| == |s| && moved[0] == s[i]
  {
    moved := [s[i]] + (s[..i] + s[i + 1..]);
    assert s == s[..i] + [s[i]] + s[i + 1..];
  }

  lemma UnhousedFirst(c: Contents, plan: seq<Planned>)
    requires WellFormed(c) && plan != [] && plan[0].kind != Ptr && ZoneOf(plan[0]) !in c.zones
    ensures Apply(c, plan).threw
  {
    assert PtrZones(plan[..0]) == {};
    assert !(Ready(c, plan[0]) || ZoneOf(plan[0]) in PtrZones(plan[..0]));
    ApplySucceedsExactlyWhen(c, plan);
  }

  lemma SameMultiset(p: seq<Planned>, q: seq<Planned>)
    requires multiset(p) == multiset(q)
    ensures SameRecords(p, q)
  {
    assert forall r :: r in p <==> r in multiset(p);
    assert forall r :: r in q <==> r in multiset(q);
  }

  /** Live zones are exactly what it takes: a plan that applies would apply in
      every order if and only if its A and CNAME zones were live beforehand. */
  lemma EveryOrderApplies(c: Contents, plan: seq<Planned>)
    requires WellFormed(c) && !Apply(c, plan).threw
    ensures (forall q :: multiset(q) == multiset(plan) ==> !Apply(c, q).threw) <==> ZonesLive(c, plan)
  {
    if ZonesLive(c, plan) {
      forall q | multiset(q) == multiset(plan) ensures !Apply(c, q).threw {
        SameMultiset(plan, q);
        OrderDoesNotMatter(c, plan, q);
      }
    } else {
      var r :| r in plan && r.kind != Ptr && ZoneOf(r) !in c.zones;
      var i :| 0 <= i < |plan| && plan[i] == r;
      var q := MovedToFront(plan, i);
      UnhousedFirst(c, q);
    }
  }

  // ---------- never replacing ----------

  lemma MergeKeepsOld(c: Contents, plan: seq<Planned>)
    ensures forall k :: k in c.records ==> k in Merge(c, plan).records && Merge(c, plan).records[k] == c.records[k]
  {
    forall k | k in c.records ensures k in Merge(c, plan).records && Merge(c, plan).records[k] == c.records[k] {
      MergedAt(c, plan, k);
    }
  }

  /** Where a run stopped: the reported records are a part of the plan that
      applies on its own, and all of it unless the run threw, in which case the
      next record throws. */
  lemma {:induction false} StoppedAt(c: Contents, plan: seq<Planned>)
    requires WellFormed(c)
    ensures var run := Apply(c, plan);
            var n := |run.lines|;
            && n <= |plan| && (run.threw <==> n < |plan|)
            && !Apply(c, plan[..n]).threw
            && (run.threw ==> ApplyOne(Apply(c, plan[..n]).contents, plan[n]) == Threw(run.contents))
    decreases |plan|
  {
    if plan != [] {
      var front, r := plan[..|plan| - 1], plan[|plan| - 1];
      assert plan == front + [r];
      StoppedAt(c, front);
      var n := |Apply(c, front).lines|;
      if Apply(c, front).threw {
        assert Apply(c, plan) == Apply(c, front);
        assert front[..n] == plan[..n] && front[n] == plan[n];
      } else {
        ApplyStep(c, front, r);
        assert front[..n] == front == plan[..n];
        assert plan[..|plan|] == plan;
      }
    }
  }

  /** On every run, also one that throws midway: nothing the server held is
      removed or changed, the records afterwards are the old ones and those of the
      reported part of the plan, and so are the zones, except that the record that
      threw may have left the zone made for it. */
  lemma ApplyOnlyAdds(c: Contents, plan: seq<Planned>)
    requires WellFormed(c)
    ensures var run := Apply(c, plan);
            && |run.lines| <= |plan|
            && (run.threw <==> |run.lines| < |plan|)
            && !Apply(c, plan[..|run.lines|]).threw
            && run.contents.records == Merge(c, plan[..|run.lines|]).records
            && run.contents.zones == Merge(c, plan[..|run.lines|]).zones + LeftBehind(c, plan)
            && (forall k :: k in c.records ==> k in run.contents.records && run.contents.records[k] == c.records[k])
  {
    StoppedAt(c, plan);
    var n := |Apply(c, plan).lines|;
    ApplySucceedsExactlyWhen(c, plan[..n]);
    MergeKeepsOld(c, plan[..n]);
    assert Merge(c, plan[..n]).zones + {} == Merge(c, plan[..n]).zones;
    if n < |plan| {
      MergeWellFormed(c, plan[..n]);
      OneRecord(Merge(c, plan[..n]), plan[n]);
    } else {
      assert plan[..n] == plan;
    }
  }

  /** The zone a run that threw made for the record at which it threw. */
  function LeftBehind(c: Contents, plan: seq<Planned>): set<string> {
    var n := |Apply(c, plan).lines|;
    if n < |plan| then Made(Merge(c, plan[..n]), plan[n]) else {}
  }

  /** A run leaves exactly the old contents and those of the reported part of the
      plan if and only if it went through, or the record at which it threw needed
      no zone, or its text stands for no network or for one that was live. */
  lemma NothingLeftExactlyWhen(c: Contents, plan: seq<Planned>)
    requires WellFormed(c)
    ensures var run := Apply(c, plan);
            var m := Merge(c, plan[..|run.lines|]);
            run.contents == m <==>
              !run.threw ||
              var r := plan[|run.lines|];
              r.kind != Ptr || ZoneOf(r) in m.zones ||
              match ZoneOfNetworkId(NetworkId(r.zone)) case None => true case Some(z) => z in m.zones
  {
    ApplyOnlyAdds(c, plan);
    StoppedAt(c, plan);
    var m, left := Merge(c, plan[..|Apply(c, plan).lines|]), LeftBehind(c, plan);
    assert m.zones + left == m.zones <==> left <= m.zones;
  }

  // ---------- convergence ----------

  /** Every record of the plan is already there. */
  ghost predicate Settled(c: Contents, plan: seq<Planned>) {
    forall r :: r in plan ==> KeyOf(r) in c.records && Agrees(c, r) && ZoneOf(r) in c.zones
  }

  function AllRetained(plan: seq<Planned>): (lines: seq<Line>)
    ensures |lines| == |plan|
  {
    seq(|plan|, i requires 0 <= i < |plan| => Line(plan[i].id, plan[i].kind, Retained))
  }

  lemma SettledRecord(c: Contents, r: Planned)
    requires WellFormed(c) && KeyOf(r) in c.records && Agrees(c, r) && ZoneOf(r) in c.zones
    ensures ApplyOne(c, r) == Applied(c, Line(r.id, r.kind, Retained))
  {
  }

  lemma RetainedStep(front: seq<Planned>, r: Planned)
    ensures AllRetained(front + [r]) == AllRetained(front) + [Line(r.id, r.kind, Retained)]
  {
  }

  lemma ApplyStep(c: Contents, front: seq<Planned>, r: Planned)
    requires !Apply(c, front).threw
    ensures Apply(c, front + [r]) ==
      match ApplyOne(Apply(c, front).contents, r)
      case Threw(c') => Run(c', Apply(c, front).lines, true)
      case Applied(c', line) => Run(c', Apply(c, front).lines + [line], false)
  {
    assert (front + [r])[..|front|] == front;
  }

  lemma {:induction false} SettledStays(c: Contents, plan: seq<Planned>)
    requires WellFormed(c) && Settled(c, plan)
    ensures Apply(c, plan) == Run(c, AllRetained(plan), false)
  {
    if plan != [] {
      var front, r := plan[..|plan| - 1], plan[|plan| - 1];
      assert plan == front + [r] && r in plan;
      SettledStays(c, front);
      SettledRecord(c, r);
      ApplyStep(c, front, r);
      RetainedStep(front, r);
    }
  }

  lemma AppliedIsSettled(c: Contents, plan: seq<Planned>)
    requires WellFormed(c) && Applicable(c, plan)
    ensures WellFormed(Merge(c, plan)) && Settled(Merge(c, plan), plan)
  {
    MergeWellFormed(c, plan);
    forall r | r in plan
      ensures KeyOf(r) in Merge(c, plan).records && Agrees(Merge(c, plan), r) && ZoneOf(r) in Merge(c, plan).zones
    {
      MergedAt(c, plan, KeyOf(r));
      AgreesAfter(c, plan, r);
    }
  }

  /** Running an applied plan again changes nothing and retains every record. */
  lemma ApplyIsIdempotent(c: Contents, plan: seq<Planned>)
    requires WellFormed(c) && !Apply(c, plan).threw
    ensures var again := Apply(Apply(c, plan).contents, plan);
            again == Run(Apply(c, plan).contents, AllRetained(plan), false)
  {
    ApplySucceedsExactlyWhen(c, plan);
    AppliedIsSettled(c, plan);
    SettledStays(Merge(c, plan), plan);
  }

  lemma PrefixApplicable(c: Contents, plan: seq<Planned>, k: nat)
    requires Applicable(c, plan) && k <= |plan|
    ensures Applicable(c, plan[..k])
  {
    assert forall r :: r in plan[..k] ==> r in plan;
    forall i | 0 <= i < k ensures Ready(c, plan[..k][i]) || ZoneOf(plan[..k][i]) in PtrZones(plan[..k][..i]) {
      assert plan[..k][..i] == plan[..i];
      assert Ready(c, plan[i]) || ZoneOf(plan[i]) in PtrZones(plan[..i]);
    }
  }

  lemma FirstValueStays(front: seq<Planned>, r: Planned, key: Key)
    requires key in PlanKeys(front)
    ensures key in PlanKeys(front + [r]) && FirstValue(front + [r], key) == FirstValue(front, key)
  {
    KeysGrow(front, r);
    FirstValueStep(front, r, key);
  }

  /** The first value for a place is settled by the part that mentions it. */
  lemma {:induction false} FirstValueAppend(a: seq<Planned>, b: seq<Planned>, key: Key)
    requires key in PlanKeys(a)
    ensures key in PlanKeys(a + b) && FirstValue(a + b, key) == FirstValue(a, key)
  {
    if b == [] {
      assert a + b == a;
    } else {
      var front, last := b[..|b| - 1], b[|b| - 1];
      FirstValueAppend(a, front, key);
      FirstValueStays(a + front, last, key);
      LastApart(a, b);
    }
  }

  lemma LastApart<T>(a: seq<T>, b: seq<T>)
    requires b != []
    ensures (a + b[..|b| - 1]) + [b[|b| - 1]] == a + b
  {
  }

  lemma MergedTwice(c: Contents, part: seq<Planned>, rest: seq<Planned>, key: Key)
    ensures var a, b := Merge(Merge(c, part), part + rest).records, Merge(c, part + rest).records;
            (key in a <==> key in b) && (key in a ==> a[key] == b[key])
  {
    MergedAt(c, part, key);
    MergedAt(Merge(c, part), part + rest, key);
    MergedAt(c, part + rest, key);
    if key in PlanKeys(part) { FirstValueAppend(part, rest, key); }
  }

  lemma MergedAgain(c: Contents, plan: seq<Planned>, k: nat, key: Key)
    requires k <= |plan|
    ensures var a, b := Merge(Merge(c, plan[..k]), plan).records, Merge(c, plan).records;
            (key in a <==> key in b) && (key in a ==> a[key] == b[key])
  {
    var part, rest := plan[..k], plan[k..];
    assert plan == part + rest;
    MergedTwice(c, part, rest, key);
  }

  lemma MergeResumes(c: Contents, plan: seq<Planned>, k: nat)
    requires k <= |plan|
    ensures Merge(Merge(c, plan[..k]), plan) == Merge(c, plan)
  {
    PartZones(plan, k);
    var a, b := Merge(Merge(c, plan[..k]), plan).records, Merge(c, plan).records;
    forall key ensures (key in a <==> key in b) && (key in a ==> a[key] == b[key]) {
      MergedAgain(c, plan, k, key);
    }
    SameMap(a, b);
  }

  lemma PartZones(plan: seq<Planned>, k: nat)
    requires k <= |plan|
    ensures PtrZones(plan[..k]) <= PtrZones(plan)
  {
    assert forall r :: r in plan[..k] ==> r in plan;
  }

  lemma SameMap<K, V>(a: map<K, V>, b: map<K, V>)
    requires forall k :: (k in a <==> k in b) && (k in a ==> a[k] == b[k])
    ensures a == b
  {
  }

  /** A run cut off after any number of records converges when it is repeated:
      the result is the one an uninterrupted run leaves. */
  lemma InterruptedRunConverges(c: Contents, plan: seq<Planned>, k: nat)
    requires WellFormed(c) && !Apply(c, plan).threw && k <= |plan|
    ensures var resumed := Apply(Apply(c, plan[..k]).contents, plan);
            !resumed.threw && resumed.contents == Apply(c, plan).contents
  {
    ApplySucceedsExactlyWhen(c, plan);
    PrefixApplicable(c, plan, k);
    var part := plan[..k];
    ApplySucceedsExactlyWhen(c, part);
    var middle := Merge(c, part);
    MergeWellFormed(c, part);
    forall r | r in plan ensures Agrees(middle, r) {
      AgreesAfter(c, part, r);
    }
    assert Housed(middle, plan) by {
      forall i | 0 <= i < |plan| ensures Ready(middle, plan[i]) || ZoneOf(plan[i]) in PtrZones(plan[..i]) {
        assert Ready(c, plan[i]) || ZoneOf(plan[i]) in PtrZones(plan[..i]);
      }
    }
    ApplySucceedsExactlyWhen(middle, plan);
    MergeResumes(c, plan, k);
  }

  /** A record that threw throws again on what it left behind. */
  lemma ThrowRepeats(c: Contents, r: Planned)
    requires WellFormed(c) && ApplyOne(c, r).Threw?
    ensures ApplyOne(ApplyOne(c, r).contents, r) == Threw(ApplyOne(c, r).contents)
  {
  }

  /** What the records before the throw left behind stays settled under whatever
      the throwing record still added. */
  lemma SettledBeforeThrow(c: Contents, part: seq<Planned>, r: Planned)
    requires WellFormed(c) && Settled(c, part) && ApplyOne(c, r).Threw?
    ensures var left := ApplyOne(c, r).contents;
            WellFormed(left) && Settled(left, part)
  {
    OneRecord(c, r);
  }

  /** A plan that threw throws again at the same record, and the second run
      leaves the server as the first did. */
  lemma FailedRunRepeats(c: Contents, plan: seq<Planned>)
    requires WellFormed(c) && Apply(c, plan).threw
    ensures var run := Apply(c, plan);
            var again := Apply(run.contents, plan);
            again.threw && again.contents == run.contents && |again.lines| == |run.lines|
  {
    StoppedAt(c, plan);
    var n := |Apply(c, plan).lines|;
    ThrowAfter(c, plan[..n], plan[n]);
    ThrowDecides(Apply(c, plan).contents, plan, n);
  }

  lemma ThrowDecides(c: Contents, plan: seq<Planned>, n: nat)
    requires n < |plan| && Apply(c, plan[..n] + [plan[n]]).threw
    ensures Apply(c, plan) == Apply(c, plan[..n] + [plan[n]])
  {
    assert plan[..n + 1] == plan[..n] + [plan[n]];
    ThrowEnds(c, plan, n + 1);
  }

  lemma ThrowAfter(c: Contents, part: seq<Planned>, r: Planned)
    requires WellFormed(c) && !Apply(c, part).threw
    requires ApplyOne(Apply(c, part).contents, r).Threw?
    ensures var left := ApplyOne(Apply(c, part).contents, r).contents;
            Apply(left, part + [r]) == Run(left, AllRetained(part), true)
  {
    ApplySucceedsExactlyWhen(c, part);
    AppliedIsSettled(c, part);
    var left := ApplyOne(Merge(c, part), r).contents;
    SettledBeforeThrow(Merge(c, part), part, r);
    ThrowRepeats(Merge(c, part), r);
    SettledStays(left, part);
    ApplyStep(left, part, r);
  }
}
