/** A DNS server's contents, the apply script and the verify script. */
module DnsServer {
  import opened Prelude
  import opened Text
  import opened DnsNames

  datatype Kind = A | Ptr | Cname

  datatype Planned = Planned(id: string, kind: Kind, zone: string, name: string, value: string)

  /** What the agent accepts as a planned record before any script runs. */
  predicate Acceptable(r: Planned) {
    && r.id != [] && ByteLen(r.id) <= 500
    && (forall c :: c in r.id ==> IsAsciiAlnum(c) || c in ":_-")
    && ValidDnsName(r.zone)
    && match r.kind
       case A => ValidSingleLabel(r.name) && IsIpv4(r.value)
       case Ptr => ValidReverseZone(r.zone) && IsIpv4(r.name) && ValidDnsName(r.value)
       case Cname => ValidSingleLabel(r.name) && ValidDnsName(r.value)
  }

  /** Names are compared without case, so keys hold them lower-cased. */
  datatype Key = Key(zone: string, owner: string, kind: Kind)

  /** Live zones, and the record data at each owner name, as the server returns it. */
  datatype Contents = Contents(zones: set<string>, records: map<Key, seq<string>>)

  /** An alias shares its owner with no other record (section 3.6.2 of RFC 1034). */
  predicate Collides(k: Key, l: Key) {
    k.zone == l.zone && k.owner == l.owner && k.kind != l.kind && Cname in {k.kind, l.kind}
  }

  predicate Vacant(records: map<Key, seq<string>>, k: Key) {
    forall l :: l in records ==> !Collides(l, k)
  }

  ghost predicate Apart(records: map<Key, seq<string>>) {
    forall k :: k in records ==> Vacant(records, k)
  }

  /** Records live in zones, an owner with no data is not listed, and aliases
      stand alone. */
  ghost predicate WellFormed(c: Contents) {
    && (forall k :: k in c.records ==> k.zone in c.zones && c.records[k] != [])
    && Apart(c.records)
  }

  function ZoneOf(r: Planned): string { Lower(r.zone) }

  function OwnerOf(r: Planned): string {
    Lower(if r.kind == Ptr then RelativeName(r.zone, r.name) else r.name)
  }

  function KeyOf(r: Planned): Key { Key(ZoneOf(r), OwnerOf(r), r.kind) }

  /** What the scripts compare: addresses as they are, host names without
      trailing dots, both without case. */
  function Norm(kind: Kind, value: string): string {
    Lower(if kind == A then value else TrimDots(value))
  }

  predicate Same(kind: Kind, a: string, b: string) { Norm(kind, a) == Norm(kind, b) }

  // ---------- cmdlets ----------

  function Lookup(c: Contents, k: Key): seq<string> {
    if k.zone in c.zones && k in c.records then c.records[k] else []
  }

  /** The place a name is answered from is in the live zone that encloses it most
      closely: labels are stripped from the left until the rest names a zone. */
  function PlaceFrom(zones: set<string>, labels: seq<string>, i: nat, kind: Kind): (k: Option<Key>)
    requires i <= |labels|
    ensures k.Some? ==> k.value.zone in zones && k.value.kind == kind
    decreases |labels| - i
  {
    if i == |labels| then None
    else
      var zone := Join(labels[i..], ".");
      if zone in zones then Some(Key(zone, if i == 0 then "@" else Join(labels[..i], "."), kind))
      else PlaceFrom(zones, labels, i + 1, kind)
  }

  function Place(zones: set<string>, name: string, kind: Kind): (k: Option<Key>)
    ensures k.Some? ==> k.value.zone in zones && k.value.kind == kind
  {
    PlaceFrom(zones, Split(Lower(name), "."), 0, kind)
  }

  /** The alias at an owner, as a name. */
  function AliasAt(c: Contents, k: Key): Option<string> {
    var found := Lookup(c, k.(kind := Cname));
    if found == [] then None else Some(TrimDots(found[0]))
  }

  /** The place whose data ends up in the answer: an alias is followed, for any
      type but its own, as often as the server is willing to. */
  function Source(c: Contents, name: string, kind: Kind, hops: nat): Option<Key>
    decreases hops
  {
    match Place(c.zones, name, kind)
    case None => None
    case Some(k) =>
      match AliasAt(c, k)
      case None => Some(k)
      case Some(target) => if kind == Cname || hops == 0 then Some(k) else Source(c, target, kind, hops - 1)
  }

  function Resolve(c: Contents, name: string, kind: Kind, hops: nat): seq<string> {
    match Source(c, name, kind, hops)
    case None => []
    case Some(k) => Lookup(c, k)
  }

  /** The server as the scripts see it: get, add and answer queries. */
  class Server {
    var zones: set<string>
    var records: map<Key, seq<string>>

    ghost function View(): Contents
      reads this
    {
      Contents(zones, records)
    }

    constructor (initial: Contents)
      ensures View() == initial
    {
      zones, records := initial.zones, initial.records;
    }

    method HasZone(zone: string) returns (found: bool)
      ensures found <==> zone in zones
    {
      found := zone in zones;
    }

    method AddPrimaryZone(networkId: string) returns (ok: bool)
      modifies this`zones
      ensures var z := ZoneOfNetworkId(networkId);
              && (ok <==> z.Some? && z.value !in old(zones))
              && zones == if ok then old(zones) + {z.value} else old(zones)
    {
      var zone := ZoneOfNetworkId(networkId);
      ok := zone.Some? && zone.value !in zones;
      if ok {
        zones := zones + {zone.value};
      }
    }

    method GetRecords(k: Key) returns (values: seq<string>)
      ensures values == Lookup(View(), k)
    {
      values := if k.zone in zones && k in records then records[k] else [];
    }

    method FindPlace(name: string, kind: Kind) returns (k: Option<Key>)
      ensures k == Place(zones, name, kind)
    {
      var labels := Split(Lower(name), ".");
      var i := 0;
      while i < |labels|
        invariant 0 <= i <= |labels|
        invariant PlaceFrom(zones, labels, i, kind) == Place(zones, name, kind)
      {
        var zone := Join(labels[i..], ".");
        if zone in zones {
          return Some(Key(zone, if i == 0 then "@" else Join(labels[..i], "."), kind));
        }
        i := i + 1;
      }
      return None;
    }

    method Answer(name: string, kind: Kind, hops: nat) returns (values: seq<string>)
      ensures values == Resolve(View(), name, kind, hops)
    {
      var current, left := name, hops;
      while true
        invariant Source(View(), current, kind, left) == Source(View(), name, kind, hops)
        decreases left
      {
        var k := FindPlace(current, kind);
        if k.None? {
          return [];
        }
        var alias := GetRecords(k.value.(kind := Cname));
        if kind == Cname || alias == [] || left == 0 {
          values := GetRecords(k.value);
          return values;
        }
        current, left := TrimDots(alias[0]), left - 1;
      }
    }

    method AddRecord(k: Key, value: string) returns (ok: bool)
      modifies this`records
      ensures ok <==> k.zone in zones && Vacant(old(records), k)
      ensures records == if ok then old(records)[k := Lookup(old(View()), k) + [value]] else old(records)
    {
      ok := k.zone in zones && Vacant(records, k);
      if ok {
        records := records[k := (if k in records then records[k] else []) + [value]];
      }
    }
  }

  // ---------- the apply script ----------

  datatype Status = Created | Retained

  /** One line of the script's result. */
  datatype Line = Line(id: string, kind: Kind, status: Status)

  datatype Outcome = Threw(contents: Contents) | Applied(contents: Contents, line: Line)

  function EnsureZone(c: Contents, r: Planned): Option<Contents> {
    if r.kind != Ptr || ZoneOf(r) in c.zones then Some(c)
    else
      match ZoneOfNetworkId(NetworkId(r.zone))
      case None => None
      case Some(z) => if z in c.zones then None else Some(c.(zones := c.zones + {z}))
  }

  function ApplyOne(c: Contents, r: Planned): Outcome {
    match EnsureZone(c, r)
    case None => Threw(c)
    case Some(c1) =>
      var existing := Lookup(c1, KeyOf(r));
      if existing == [] then
        if ZoneOf(r) !in c1.zones || !Vacant(c1.records, KeyOf(r)) then Threw(c1)
        else Applied(c1.(records := c1.records[KeyOf(r) := [r.value]]), Line(r.id, r.kind, Created))
      else if |existing| == 1 && Same(r.kind, existing[0], r.value) then
        Applied(c1, Line(r.id, r.kind, Retained))
      else Threw(c1)
  }

  datatype Run = Run(contents: Contents, lines: seq<Line>, threw: bool)

  /** The whole plan, record by record; the first throw ends the run. */
  function Apply(c: Contents, plan: seq<Planned>): (run: Run)
    ensures |run.lines| <= |plan| && (run.threw ==> |run.lines| < |plan|)
  {
    if plan == [] then Run(c, [], false)
    else
      var before := Apply(c, plan[..|plan| - 1]);
      if before.threw then before
      else
        match ApplyOne(before.contents, plan[|plan| - 1])
        case Threw(c') => Run(c', before.lines, true)
        case Applied(c', line) => Run(c', before.lines + [line], false)
  }

  /** One turn of the loop. */
  method ApplyRecord(server: Server, r: Planned) returns (line: Option<Line>)
    modifies server
    ensures match ApplyOne(old(server.View()), r)
            case Threw(c) => line == None && server.View() == c
            case Applied(c, l) => line == Some(l) && server.View() == c
  {
    if r.kind == Ptr {
      var found := server.HasZone(ZoneOf(r));
      if !found {
        var created := server.AddPrimaryZone(NetworkId(r.zone));
        if !created {
          return None;
        }
      }
    }
    var existing := server.GetRecords(KeyOf(r));
    if |existing| > 0 && !(|existing| == 1 && Same(r.kind, existing[0], r.value)) {
      return None;
    }
    if |existing| == 0 {
      assert existing + [r.value] == [r.value];
      var added := server.AddRecord(KeyOf(r), r.value);
      if !added {
        return None;
      }
      return Some(Line(r.id, r.kind, Created));
    }
    return Some(Line(r.id, r.kind, Retained));
  }

  lemma {:induction false} ThrowEnds(c: Contents, plan: seq<Planned>, i: nat)
    requires i <= |plan| && Apply(c, plan[..i]).threw
    ensures Apply(c, plan) == Apply(c, plan[..i])
    decreases |plan| - i
  {
    if i == |plan| {
      assert plan[..i] == plan;
    } else {
      assert plan[..i + 1][..i] == plan[..i];
      ThrowEnds(c, plan, i + 1);
    }
  }

  method ApplyResources(server: Server, plan: seq<Planned>) returns (lines: seq<Line>, threw: bool)
    modifies server
    ensures Run(server.View(), lines, threw) == Apply(old(server.View()), plan)
  {
    ghost var start := server.View();
    lines, threw := [], false;
    var i := 0;
    while i < |plan|
      invariant 0 <= i <= |plan|
      invariant Run(server.View(), lines, false) == Apply(start, plan[..i])
    {
      assert plan[..i + 1][..i] == plan[..i];
      var line := ApplyRecord(server, plan[i]);
      if line.None? {
        ThrowEnds(start, plan, i + 1);
        return lines, true;
      }
      lines := lines + [line.value];
      i := i + 1;
    }
    assert plan[..i] == plan;
  }

  // ---------- the verify script ----------

  /** The name a record is looked up under. */
  function QueryName(r: Planned): string {
    if r.kind == Ptr then ReverseName(r.name) else r.name + "." + r.zone
  }

  predicate Verified(c: Contents, r: Planned, hops: nat) {
    exists v :: v in Resolve(c, QueryName(r), r.kind, hops) && Same(r.kind, v, r.value)
  }

  function Answers(c: Contents, plan: seq<Planned>, hops: nat): (answers: seq<bool>)
    ensures |answers| == |plan|
  {
    if plan == [] then []
    else Answers(c, plan[..|plan| - 1], hops) + [Verified(c, plan[|plan| - 1], hops)]
  }

  lemma {:induction false} AnswerAt(c: Contents, plan: seq<Planned>, hops: nat, i: nat)
    requires i < |plan|
    ensures Answers(c, plan, hops)[i] == Verified(c, plan[i], hops)
  {
    if i < |plan| - 1 { AnswerAt(c, plan[..|plan| - 1], hops, i); }
  }

  /** One lookup; some answer must be the planned value. */
  method VerifyRecord(server: Server, r: Planned, hops: nat) returns (ok: bool)
    ensures ok <==> Verified(server.View(), r, hops)
  {
    var answer := server.Answer(QueryName(r), r.kind, hops);
    ok := false;
    var i := 0;
    while i < |answer|
      invariant 0 <= i <= |answer|
      invariant ok <==> exists j :: 0 <= j < i && Same(r.kind, answer[j], r.value)
    {
      ok := ok || Same(r.kind, answer[i], r.value);
      i := i + 1;
    }
  }

  method VerifyEach(server: Server, plan: seq<Planned>, hops: nat) returns (checks: seq<bool>, allVerified: bool)
    ensures checks == Answers(server.View(), plan, hops)
    ensures allVerified <==> false !in checks
  {
    checks, allVerified := [], true;
    var i := 0;
    while i < |plan|
      invariant 0 <= i <= |plan|
      invariant checks == Answers(server.View(), plan[..i], hops)
      invariant allVerified <==> false !in checks
    {
      assert plan[..i + 1][..i] == plan[..i];
      var ok := VerifyRecord(server, plan[i], hops);
      checks := checks + [ok];
      allVerified := allVerified && ok;
      i := i + 1;
    }
    assert plan[..i] == plan;
  }

  function SrvNames(domain: string): seq<string> {
    ["_ldap._tcp." + domain, "_kerberos._tcp." + domain, "_ldap._tcp.dc._msdcs." + domain]
  }

  /** What the run sees beside the record data: how many SRV answers a name gets,
      and the status the publication URL returns. */
  datatype Surroundings = Surroundings(srv: string -> nat, status: string -> int)

  method VerifySrv(names: seq<string>, world: Surroundings) returns (ok: bool)
    ensures ok <==> forall name :: name in names ==> world.srv(name) > 0
  {
    ok := true;
    var i := 0;
    while i < |names|
      invariant 0 <= i <= |names|
      invariant ok <==> forall j :: 0 <= j < i ==> world.srv(names[j]) > 0
    {
      ok := ok && world.srv(names[i]) > 0;
      i := i + 1;
    }
  }

  /** One check per record, the SRV names if asked for, the URL if there is one;
      the run passes when everything does. */
  method VerifyResources(server: Server, plan: seq<Planned>, hops: nat,
                         requireAdSrv: bool, domain: string, httpUrl: string, world: Surroundings)
    returns (checks: seq<bool>, passed: bool)
    ensures |checks| == |plan|
    ensures forall i :: 0 <= i < |plan| ==> (checks[i] <==> Verified(server.View(), plan[i], hops))
    ensures passed <==>
      && (forall i :: 0 <= i < |checks| ==> checks[i])
      && (requireAdSrv ==>
            && world.srv("_ldap._tcp." + domain) > 0
            && world.srv("_kerberos._tcp." + domain) > 0
            && world.srv("_ldap._tcp.dc._msdcs." + domain) > 0)
      && (httpUrl != "" ==> 200 <= world.status(httpUrl) < 400)
  {
    var allVerified;
    checks, allVerified := VerifyEach(server, plan, hops);
    forall i | 0 <= i < |plan| ensures checks[i] <==> Verified(server.View(), plan[i], hops) {
      AnswerAt(server.View(), plan, hops, i);
    }
    var adSrvOk := true;
    assert SrvNames(domain)[0] in SrvNames(domain) && SrvNames(domain)[1] in SrvNames(domain)
        && SrvNames(domain)[2] in SrvNames(domain);
    if requireAdSrv {
      adSrvOk := VerifySrv(SrvNames(domain), world);
    }
    var httpOk := httpUrl == "" || 200 <= world.status(httpUrl) < 400;
    passed := allVerified && adSrvOk && httpOk;
  }
}
