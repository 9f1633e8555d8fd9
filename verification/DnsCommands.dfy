/** The DNS commands: validating a batch of planned records, and the list of
    resolvers handed to the client script. */
module DnsCommands {
  import opened Prelude
  import opened Text
  import opened Lists
  import opened Report
  import opened Authz
  import opened PowerShell
  import opened Registry
  import opened DnsNames
  import opened DnsServer
  import opened DnsPlans
  import opened DnsVerified

  const MAX_DNS_RESOURCES := 32
  const MAX_PAYLOAD := 32 * 1024

  /** JSON decoding of the payload, the same for the agent and the script. */
  type Decoder = string -> Option<seq<Planned>>

  // ---------- validating a batch ----------

  /** What the agent objects to in one record, in the order it looks. */
  function RecordComplaint(r: Planned): (reason: Option<string>)
    ensures reason.None? <==> DnsServer.Acceptable(r)
  {
    if r.id == [] || ByteLen(r.id) > 500 || exists c :: c in r.id && !(IsAsciiAlnum(c) || c in ":_-") then
      Some("contains an invalid resource id")
    else if !ValidDnsName(r.zone) then Some("contains an invalid DNS zone")
    else
      match r.kind
      case A =>
        if !ValidSingleLabel(r.name) || !IsIpv4(r.value) then Some("contains an invalid A record") else None
      case Ptr =>
        if !ValidReverseZone(r.zone) || !IsIpv4(r.name) || !ValidDnsName(r.value)
        then Some("contains an invalid PTR record") else None
      case Cname =>
        if !ValidSingleLabel(r.name) || !ValidDnsName(r.value)
        then Some("contains an invalid CNAME record") else None
  }

  /** The objection to the first record that draws one. */
  function FirstComplaint(records: seq<Planned>): (reason: Option<string>)
    ensures reason.None? <==> forall r :: r in records ==> DnsServer.Acceptable(r)
  {
    if records == [] then None
    else
      var first := RecordComplaint(records[0]);
      assert records == [records[0]] + records[1..];
      if first.Some? then first else FirstComplaint(records[1..])
  }

  /** Record i is the first unacceptable one and draws this objection. */
  ghost predicate FirstOffender(records: seq<Planned>, i: nat, reason: string) {
    && i < |records| && RecordComplaint(records[i]) == Some(reason)
    && forall j :: 0 <= j < i ==> DnsServer.Acceptable(records[j])
  }

  /** The same as a loop that leaves at the first objection. */
  method CheckRecords(records: seq<Planned>) returns (reason: Option<string>)
    ensures reason == FirstComplaint(records)
    ensures reason.Some? ==> exists i :: FirstOffender(records, i, reason.value)
  {
    var i := 0;
    while i < |records|
      invariant 0 <= i <= |records|
      invariant FirstComplaint(records) == FirstComplaint(records[i..])
      invariant forall j :: 0 <= j < i ==> DnsServer.Acceptable(records[j])
    {
      reason := RecordComplaint(records[i]);
      assert records[i..][0] == records[i] && records[i..][1..] == records[i + 1..];
      if reason.Some? {
        assert FirstOffender(records, i, reason.value);
        return reason;
      }
      i := i + 1;
    }
    return None;
  }

  /** What a record must be, kind by kind. */
  lemma RecordAcceptedExactly(r: Planned)
    ensures DnsServer.Acceptable(r) <==>
      && 1 <= |r.id| <= 500 && (forall c :: c in r.id ==> IsAsciiAlnum(c) || c in ":_-")
      && ValidDnsName(r.zone)
      && (r.kind != Ptr ==> ValidDnsName(r.name) && '.' !in r.name)
      && (r.kind == Ptr ==> (exists labels :: ReverseText(r.zone, labels)) && QuadText(r.name))
      && (if r.kind == A then QuadText(r.value) else ValidDnsName(r.value))
  {
    Ipv4Exactly(r.value);
    Ipv4Exactly(r.name);
    ReverseZoneExactly(r.zone);
    IdBytes(r.id);
  }

  ghost predicate QuadText(text: string) { exists a, b, c, d :: DottedQuad(text, a, b, c, d) }

  lemma IdBytes(id: string)
    ensures (forall c :: c in id ==> IsAsciiAlnum(c) || c in ":_-") ==> ByteLen(id) == |id|
  {
    if forall c :: c in id ==> IsAsciiAlnum(c) || c in ":_-" {
      forall c | c in id ensures IsAscii(c) { assert IsAsciiAlnum(c) || c in ":_-"; }
      AsciiBytes(id);
    }
  }

  function PlannedRecords(params: Params, decode: Decoder): Result<(string, seq<Planned>), CommandError> {
    match Param(params, "records")
    case None => Err(MissingParam("records"))
    case Some(raw) =>
      if ByteLen(raw) > MAX_PAYLOAD then Err(InvalidParam("records", "JSON payload is too large"))
      else
        match decode(raw)
        case None => Err(InvalidParam("records", "must be a JSON array of DNS resources"))
        case Some(records) =>
          if records == [] || |records| > MAX_DNS_RESOURCES then
            Err(InvalidParam("records", "must contain between 1 and 32 resources"))
          else
            match FirstComplaint(records)
            case Some(reason) => Err(InvalidParam("records", reason))
            case None => Ok((raw, records))
  }

  /** Present, small enough, decodable, and of 1 to 32 records. */
  predicate Countable(params: Params, decode: Decoder) {
    && "records" in params
    && ByteLen(params["records"]) <= MAX_PAYLOAD
    && decode(params["records"]).Some?
    && 1 <= |decode(params["records"]).value| <= MAX_DNS_RESOURCES
  }

  /** As the agent runs it: an accepted batch comes back as it was decoded; a batch
      refused for its contents is refused for its first unacceptable record. */
  method ParsePlannedRecords(params: Params, decode: Decoder)
    returns (r: Result<(string, seq<Planned>), CommandError>)
    ensures r == PlannedRecords(params, decode)
    ensures r.Ok? ==> Countable(params, decode) && r.value == (params["records"], decode(params["records"]).value)
    ensures Countable(params, decode) && r.Err? ==>
      exists i, reason :: FirstOffender(decode(params["records"]).value, i, reason)
                          && r.error == InvalidParam("records", reason)
  {
    if "records" !in params {
      return Err(MissingParam("records"));
    }
    var raw := params["records"];
    if ByteLen(raw) > MAX_PAYLOAD {
      return Err(InvalidParam("records", "JSON payload is too large"));
    }
    var decoded := decode(raw);
    if decoded.None? {
      return Err(InvalidParam("records", "must be a JSON array of DNS resources"));
    }
    var records := decoded.value;
    if |records| == 0 || |records| > MAX_DNS_RESOURCES {
      return Err(InvalidParam("records", "must contain between 1 and 32 resources"));
    }
    var reason := CheckRecords(records);
    if reason.Some? {
      return Err(InvalidParam("records", reason.value));
    }
    return Ok((raw, records));
  }

  // ---------- handlers ----------

  function PrepareApply(params: Params, decode: Decoder): Result<Job, CommandError> {
    match PlannedRecords(params, decode)
    case Err(e) => Err(e)
    case Ok((raw, _)) => Ok(Job("applying DNS resources", 30.0, [raw]))
  }

  function FinishApply(params: Params, output: Output, decode: Decoder): Result<Value, CommandError> {
    match PlannedRecords(params, decode)
    case Err(e) => Err(e)
    case Ok((_, records)) => Ok(Obj(map["applied" := Num(|records|), "readback" := output.parsed]))
  }

  function DnsApplyResources(decode: Decoder): Handler {
    Staged("dns.apply_resources", VmProvision,
            params => PrepareApply(params, decode),
            (params, output) => FinishApply(params, output, decode))
  }

  /** `dns.apply_resources` as the agent runs it: parse, then one job. */
  method ExecuteApply(params: Params, decode: Decoder, progress: TaggedProgressSink, shell: MockPowerShell)
    returns (outcome: Result<Value, CommandError>)
    modifies progress.sender, shell
    ensures var ex := DnsApplyResources(decode).run(params, NextReply(old(shell.responses)));
            && outcome == ex.outcome
            && progress.sender.frames == old(progress.sender.frames) + Tagged(progress.jobId, ex.states)
            && shell.calls == old(shell.calls) + ex.calls
            && shell.responses == RepliesAfter(old(shell.responses), |ex.calls|)
  {
    ghost var reply := NextReply(shell.responses);
    assert RepliesAfter(shell.responses, 0) == shell.responses;
    var parsed := ParsePlannedRecords(params, decode);
    if parsed.Err? {
      return Err(parsed.error);
    }
    var (raw, records) := parsed.value;
    var finish := (params, output) => FinishApply(params, output, decode);
    var job := Job("applying DNS resources", 30.0, [raw]);
    SameFinish(params, decode, finish, job, reply);
    outcome := ExecuteJob("dns.apply_resources", job, finish, params, progress, shell);
  }

  lemma SameFinish(params: Params, decode: Decoder, finish: Finish, job: Job, reply: Reply)
    requires PrepareApply(params, decode) == Ok(job)
    requires forall p, output :: finish(p, output) == FinishApply(p, output, decode)
    ensures DnsApplyResources(decode).run(params, reply)
         == JobRun("dns.apply_resources", job, finish, params, reply)
  {
  }

  function PrepareVerify(params: Params, decode: Decoder): Result<Job, CommandError> {
    match PlannedRecords(params, decode)
    case Err(e) => Err(e)
    case Ok((raw, _)) =>
      match Param(params, "server")
      case None => Err(MissingParam("server"))
      case Some(server) =>
        var srv := ParamOr(params, "requireAdSrv", "false");
        var domain := ParamOr(params, "domain", "");
        var url := ParamOr(params, "httpUrl", "");
        if !IsIpv4(server) && !ValidDnsName(server) then
          Err(InvalidParam("server", "must be an IPv4 address or DNS name"))
        else if srv != "true" && srv != "false" then Err(InvalidParam("requireAdSrv", "must be true or false"))
        else if srv == "true" && !ValidDnsName(domain) then
          Err(InvalidParam("domain", "must be a DNS domain name"))
        else if url != "" && (!("http://" <= url || "https://" <= url) || ByteLen(url) > 300
                              || exists c :: c in url && c in "\"'`;$ \r\n") then
          Err(InvalidParam("httpUrl", "must be a safe HTTP(S) URL"))
        else Ok(Job("verifying DNS resources", 30.0, [raw, server, srv, domain, url]))
  }

  function DnsVerify(decode: Decoder): Handler {
    Staged("dns.verify", VmRead,
            params => PrepareVerify(params, decode),
            (params: Params, output: Output) => Ok(output.parsed))
  }

  function PrepareSetClient(params: Params): Result<Job, CommandError> {
    match Param(params, "servers")
    case None => Err(MissingParam("servers"))
    case Some(raw) =>
      var servers := ParseList(raw, ',');
      if servers == [] || exists s :: s in servers && !IsIpv4(s) then
        Err(InvalidParam("servers", "must be a comma-separated list of dotted-quad IPv4 addresses"))
      else Ok(Job("configuring DNS client", 30.0, [Join(servers, ","), ParamOr(params, "interface", "")]))
  }

  function FinishSetClient(params: Params, output: Output): Result<Value, CommandError> {
    var servers := ParseList(ParamOr(params, "servers", ""), ',');
    var alias := ParamOr(params, "interface", "");
    Ok(Obj(map["servers" := TextList(servers),
               "applied" := Str(Trim(output.stdout)),
               "interface" := if alias == "" then Null else Str(alias)]))
  }

  function DnsSetClient(): Handler { Staged("dns.set_client", VmProvision, PrepareSetClient, FinishSetClient) }

  // ---------- main results ----------

  /** A batch is accepted exactly when it is present, small enough, decodable,
      of 1 to 32 records, and every record is acceptable. */
  lemma BatchAcceptedExactlyWhen(params: Params, decode: Decoder)
    ensures PlannedRecords(params, decode).Ok? <==>
      && "records" in params && ByteLen(params["records"]) <= 32768 && decode(params["records"]).Some?
      && 1 <= |decode(params["records"]).value| <= 32
      && forall r :: r in decode(params["records"]).value ==> DnsServer.Acceptable(r)
  {
  }

  /** The resolvers the script sets are exactly the validated ones, for every
      accepted input. */
  lemma ResolversRoundTrip(params: Params)
    requires PrepareSetClient(params).Ok?
    ensures var servers := Split(PrepareSetClient(params).value.args[0], ",");
            servers == ParseList(params["servers"], ',') && forall s :: s in servers ==> IsIpv4(s)
  {
    ListRoundTrip(params["servers"], ',');
  }

  lemma ResolversAccepted(params: Params)
    ensures PrepareSetClient(params).Ok? <==>
      && "servers" in params && ParseList(params["servers"], ',') != []
      && forall s :: s in ParseList(params["servers"], ',') ==> IsIpv4(s)
  {
  }

  /** dns.set_client end to end: the script sets the validated resolvers, and they
      are what is reported. */
  lemma ResolversRun(params: Params, reply: Reply)
    requires PrepareSetClient(params).Ok?
    ensures var ex := DnsSetClient().run(params, reply);
            var servers := ParseList(params["servers"], ',');
            && ListOf(servers, params["servers"], ',')
            && |ex.calls| == 1 && |ex.calls[0].args| == 2
            && Split(ex.calls[0].args[0], ",") == servers
            && ex.calls[0].args[1] == (if "interface" in params then params["interface"] else "")
            && (ex.outcome.Ok? <==> reply.Ok? && reply.value.exitCode == 0)
            && (ex.outcome.Ok? ==>
                  && ReportsTexts(ex.outcome.value, "servers", servers)
                  && ex.outcome.value == SetClientReport(servers, Trim(reply.value.stdout), ParamOr(params, "interface", "")))
  {
    StagedCases("dns.set_client", VmProvision, PrepareSetClient, FinishSetClient, params, reply);
    ResolversRoundTrip(params);
    ParsedList(params["servers"], ',');
    if reply.Ok? && reply.value.exitCode == 0 {
      FinishedSetClient(params, reply.value);
      SetClientReports(ParseList(params["servers"], ','), Trim(reply.value.stdout), ParamOr(params, "interface", ""));
    }
  }

  function SetClientReport(servers: seq<string>, applied: string, alias: string): Value {
    Obj(map["servers" := TextList(servers), "applied" := Str(applied),
            "interface" := if alias == "" then Null else Str(alias)])
  }

  lemma SetClientReports(servers: seq<string>, applied: string, alias: string)
    ensures ReportsTexts(SetClientReport(servers, applied, alias), "servers", servers)
  {
    var texts, shown := TextList(servers), if alias == "" then Null else Str(alias);
    assert "servers"[0] != "applied"[0] && |"servers"| != |"interface"|;
    FirstOfThree("servers", texts, "applied", Str(applied), "interface", shown);
    ReportsField(map["servers" := texts, "applied" := Str(applied), "interface" := shown], "servers", servers);
  }

  /** The whole report: the resolvers, what the script echoed, and the interface, if
      one was named. */
  lemma FinishedSetClient(params: Params, output: Output)
    ensures FinishSetClient(params, output) == Ok(SetClientReport(
      ParseList(ParamOr(params, "servers", ""), ','), Trim(output.stdout), ParamOr(params, "interface", "")))
  {
  }

  /** dns.apply_resources end to end: the payload reaches the script unchanged, and
      the number of its records is reported. */
  lemma ApplyRun(params: Params, decode: Decoder, reply: Reply)
    requires PrepareApply(params, decode).Ok?
    ensures var ex := DnsApplyResources(decode).run(params, reply);
            && ex.calls == [Call("dns.apply_resources", [params["records"]])]
            && decode(params["records"]).Some?
            && (ex.outcome.Ok? <==> reply.Ok? && reply.value.exitCode == 0)
            && (ex.outcome.Ok? ==>
                  ex.outcome.value == Obj(map["applied" := Num(|decode(params["records"]).value|),
                                              "readback" := reply.value.parsed]))
  {
    BatchAcceptedExactlyWhen(params, decode);
  }

  /** dns.verify end to end: when it is accepted, what its script is given, and that
      the script's own report is the result. */
  lemma VerifyRun(params: Params, decode: Decoder, reply: Reply)
    ensures var server := ParamOr(params, "server", "");
            var srv := if "requireAdSrv" in params then params["requireAdSrv"] else "false";
            var domain := if "domain" in params then params["domain"] else "";
            var url := if "httpUrl" in params then params["httpUrl"] else "";
            var ex := DnsVerify(decode).run(params, reply);
            && (PrepareVerify(params, decode).Ok? <==>
                  && PrepareApply(params, decode).Ok? && "server" in params
                  && (IsIpv4(server) || ValidDnsName(server))
                  && (srv == "false" || (srv == "true" && ValidDnsName(domain)))
                  && (url == "" || PlainUrl(url)))
            && (PrepareVerify(params, decode).Ok? ==>
                  && ex.calls == [Call("dns.verify", [params["records"], server, srv, domain, url])]
                  && (ex.outcome.Ok? <==> reply.Ok? && reply.value.exitCode == 0)
                  && (ex.outcome.Ok? ==> ex.outcome.value == reply.value.parsed))
  {
    BatchAcceptedExactlyWhen(params, decode);
  }

  /** At most 300 bytes, http or https, and nothing a shell would take apart. */
  predicate PlainUrl(url: string) {
    && (("http://" <= url) || ("https://" <= url)) && ByteLen(url) <= 300
    && forall c :: c in url ==> c !in {'"', '\'', '`', ';', '$', ' ', '\r', '\n'}
  }

  /** One batch through both commands: what dns.apply_resources hands its script,
      once applied, makes dns.verify on the same batch find every record,
      provided PTR addresses lie in their zones and no deeper zone intervenes. */
  lemma AppliedBatchVerifies(params: Params, decode: Decoder, c: Contents, hops: nat)
    requires WellFormed(c) && PrepareApply(params, decode).Ok?
    ensures var payload := PrepareApply(params, decode).value.args[0];
            && (PrepareVerify(params, decode).Ok? ==> PrepareVerify(params, decode).value.args[0] == payload)
            && decode(payload).Some?
            && VerifyVerdict(c, decode(payload).value, hops)
  {
    BatchAcceptedExactlyWhen(params, decode);
    AcceptedPlanVerifies(c, decode(params["records"]).value, hops);
  }

  /** After the plan is applied exactly the answered records verify, and all of
      them do when each is looked up where it was written. */
  ghost predicate VerifyVerdict(c: Contents, plan: seq<Planned>, hops: nat) {
    !Apply(c, plan).threw ==>
      && (forall r :: r in plan ==> (Verified(Apply(c, plan).contents, r, hops) <==> Answered(c, plan, r, hops)))
      && ((forall r :: r in plan ==> WrittenWhereRead(c, plan, r)) ==> forall r :: r in plan ==> Answered(c, plan, r, hops))
  }

  lemma AcceptedPlanVerifies(c: Contents, plan: seq<Planned>, hops: nat)
    requires WellFormed(c) && forall r :: r in plan ==> DnsServer.Acceptable(r)
    ensures VerifyVerdict(c, plan, hops)
  {
    if !Apply(c, plan).threw {
      forall r | r in plan ensures Verified(Apply(c, plan).contents, r, hops) <==> Answered(c, plan, r, hops) {
        VerifiesExactlyWhen(c, plan, r, hops);
      }
      if forall r :: r in plan ==> WrittenWhereRead(c, plan, r) {
        AppliedPlanVerifies(c, plan, hops);
      }
    }
  }
}
