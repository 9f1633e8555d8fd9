/** Which parameter a refused request is refused for. */
module Refusals {
  import opened Prelude
  import opened Registry
  import opened Text
  import opened Lists
  import opened DnsNames
  import opened DnsCommands
  import opened FileRelay
  import opened CaCommands
  import CaSettings
  import DnsServer

  predicate Names(r: Result<Job, CommandError>, name: string) {
    r.Err? && r.error.InvalidParam? && r.error.name == name
  }

  lemma FileRefusals(params: Params)
    ensures "path" !in params ==>
      PrepareRead(params) == Err(MissingParam("path")) && PrepareWrite(params) == Err(MissingParam("path"))
    ensures "path" in params && !RelayPathOk(params["path"]) ==>
      Names(PrepareRead(params), "path") && Names(PrepareWrite(params), "path")
    ensures "path" in params && RelayPathOk(params["path"]) && "contentB64" !in params ==>
      PrepareWrite(params) == Err(MissingParam("contentB64"))
    ensures "path" in params && RelayPathOk(params["path"])
            && "contentB64" in params && !WriteAccepts(params["contentB64"]) ==>
      Names(PrepareWrite(params), "contentB64")
  {
  }

  lemma ListRefusals(params: Params)
    ensures "servers" !in params ==> PrepareSetClient(params) == Err(MissingParam("servers"))
    ensures "servers" in params && PrepareSetClient(params).Err? ==> Names(PrepareSetClient(params), "servers")
    ensures "templates" !in params ==> PrepareTemplates(params) == Err(MissingParam("templates"))
    ensures "templates" in params && PrepareTemplates(params).Err? ==> Names(PrepareTemplates(params), "templates")
  {
  }

  lemma PublicationRefusals(params: Params)
    ensures AiaEntries(params) == [] && CdpEntries(params) == [] ==>
      PrepareCdpAia(params) == Err(MissingParam("aiaUrls or cdpUrls"))
    ensures !AllValid(AiaEntries(params)) ==> Names(PrepareCdpAia(params), "aiaUrls")
    ensures AllValid(AiaEntries(params)) && !AllValid(CdpEntries(params)) ==> Names(PrepareCdpAia(params), "cdpUrls")
  {
    var aia, cdp := AiaEntries(params), CdpEntries(params);
    if !AllValid(aia) {
      assert FirstBad(aia).Some?;
    } else if !AllValid(cdp) {
      assert FirstBad(aia).None? && FirstBad(cdp).Some?;
    }
  }

  lemma BatchRefusals(params: Params, decode: Decoder)
    ensures "records" !in params ==>
      && PrepareApply(params, decode) == Err(MissingParam("records"))
      && PrepareVerify(params, decode) == Err(MissingParam("records"))
    ensures "records" in params && PrepareApply(params, decode).Err? ==>
      Names(PrepareApply(params, decode), "records") && PrepareVerify(params, decode) == PrepareApply(params, decode)
  {
  }

  lemma VerifyRefusals(params: Params, decode: Decoder)
    requires PrepareApply(params, decode).Ok?
    ensures "server" !in params ==> PrepareVerify(params, decode) == Err(MissingParam("server"))
    ensures "server" in params && !IsIpv4(params["server"]) && !ValidDnsName(params["server"]) ==>
      Names(PrepareVerify(params, decode), "server")
    ensures PrepareVerify(params, decode).Err? && "server" in params
            && (IsIpv4(params["server"]) || ValidDnsName(params["server"])) ==>
      var srv := ParamOr(params, "requireAdSrv", "false");
      if srv != "true" && srv != "false" then Names(PrepareVerify(params, decode), "requireAdSrv")
      else if srv == "true" && !ValidDnsName(ParamOr(params, "domain", "")) then Names(PrepareVerify(params, decode), "domain")
      else Names(PrepareVerify(params, decode), "httpUrl")
  {
  }

  /** Settings are refused for one that is given and not proper, or because none is given. */
  lemma SettingRefusals(params: Params)
    ensures CaSettings.Prepare(params).Err? ==>
      || CaSettings.Prepare(params) == Err(MissingParam("at least one CA setting"))
      || exists s :: CaSettings.Given(params, s) != "" && !CaSettings.Proper(s, CaSettings.Given(params, s))
                     && Names(CaSettings.Prepare(params), CaSettings.ParamName(s))
  {
    if CaSettings.FirstComplaint(params, CaSettings.CHECKS).Some? {
      var c := Complained(params, CaSettings.CHECKS);
      CaSettings.RuleIsProper(c, CaSettings.Given(params, c.setting));
    }
  }

  lemma {:induction false} Complained(params: Params, checks: seq<CaSettings.Check>) returns (c: CaSettings.Check)
    requires CaSettings.FirstComplaint(params, checks).Some?
    ensures c in checks && !CaSettings.Acceptable(params, c)
    ensures CaSettings.FirstComplaint(params, checks) == Some(CaSettings.Complaint(c))
  {
    var n := |checks| - 1;
    if CaSettings.FirstComplaint(params, checks[..n]).Some? {
      c := Complained(params, checks[..n]);
    } else {
      c := checks[n];
    }
  }
}
