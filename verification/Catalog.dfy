/** The modelled commands registered together, and what that means for frames:
    registry, handlers and delivery in one statement. */
module Catalog {
  import opened Prelude
  import opened Report
  import opened Registry
  import opened Delivery
  import opened Authz
  import opened DnsCommands
  import opened FileRelay
  import opened CaCommands
  import CaSettings

  /** Registering handlers one after another. */
  function RegisterAll(hs: seq<Handler>): Handlers {
    if hs == [] then map[]
    else
      var h := hs[|hs| - 1];
      RegisterAll(hs[..|hs| - 1])[h.name := h]
  }

  lemma {:induction false} RegisteredConform(hs: seq<Handler>)
    requires forall h :: h in hs ==> Conforms(h) && InStages(h)
    ensures KeyedByName(RegisterAll(hs))
    ensures forall name :: name in RegisterAll(hs) ==> Conforms(RegisterAll(hs)[name])
    ensures forall name :: name in RegisterAll(hs) ==> InStages(RegisterAll(hs)[name])
    ensures forall h :: h in hs ==> h.name in RegisterAll(hs)
  {
    if hs != [] {
      var front, last := hs[..|hs| - 1], hs[|hs| - 1];
      assert hs == front + [last];
      RegisteredConform(front);
    }
  }

  function ModelledHandlers(decode: Decoder): seq<Handler> {
    [CaSettings.CaConfigureSettings(), CaConfigureCdpAia(), CaPublishTemplate(),
     FileRead(), FileWrite(),
     DnsSetClient(), DnsApplyResources(decode), DnsVerify(decode)]
  }

  /** The commands and the capability each of them needs. */
  lemma OfferedCommands(decode: Decoder)
    ensures var hs := ModelledHandlers(decode);
            && |hs| == 8
            && (hs[0].name, hs[0].required) == ("ca.configure_settings", VmProvision)
            && (hs[1].name, hs[1].required) == ("ca.configure_cdp_aia", VmProvision)
            && (hs[2].name, hs[2].required) == ("ca.publish_template", VmProvision)
            && (hs[3].name, hs[3].required) == ("file.read", VmProvision)
            && (hs[4].name, hs[4].required) == ("file.write", VmProvision)
            && (hs[5].name, hs[5].required) == ("dns.set_client", VmProvision)
            && (hs[6].name, hs[6].required) == ("dns.apply_resources", VmProvision)
            && (hs[7].name, hs[7].required) == ("dns.verify", VmRead)
  {
  }

  /** What an accepted request announces while it runs. */
  lemma CaAnnouncements(params: Params)
    ensures Announces(CaSettings.Prepare(params), "applying CA settings", 30.0)
    ensures Announces(PrepareCdpAia(params), "configuring CDP/AIA", 40.0)
    ensures Announces(PrepareTemplates(params), "publishing templates", 30.0)
  {
  }

  lemma FileAnnouncements(params: Params)
    ensures Announces(PrepareRead(params), "reading file", 30.0)
    ensures Announces(PrepareWrite(params), "writing file", 30.0)
  {
  }

  lemma DnsAnnouncements(params: Params, decode: Decoder)
    ensures Announces(PrepareSetClient(params), "configuring DNS client", 30.0)
    ensures Announces(PrepareApply(params, decode), "applying DNS resources", 30.0)
    ensures Announces(PrepareVerify(params, decode), "verifying DNS resources", 30.0)
  {
  }

  predicate Announces(job: Result<Job, CommandError>, phase: string, percent: real) {
    job.Ok? ==> job.value.phase == phase && job.value.percent == percent
  }

  lemma ModelledHandlersConform(decode: Decoder)
    ensures forall h :: h in ModelledHandlers(decode) ==> Conforms(h) && InStages(h)
  {
    CaHandlersConform();
    FileHandlersConform();
    StagedConforms("dns.set_client", DnsSetClient().required, PrepareSetClient, FinishSetClient);
    ApplyConforms(decode);
    VerifyConforms(decode);
  }

  lemma CaHandlersConform()
    ensures Conforms(CaSettings.CaConfigureSettings()) && InStages(CaSettings.CaConfigureSettings())
    ensures Conforms(CaConfigureCdpAia()) && InStages(CaConfigureCdpAia())
    ensures Conforms(CaPublishTemplate()) && InStages(CaPublishTemplate())
  {
    StagedConforms("ca.configure_settings", CaSettings.CaConfigureSettings().required, CaSettings.Prepare, CaSettings.Finish);
    StagedConforms("ca.configure_cdp_aia", CaConfigureCdpAia().required, PrepareCdpAia, FinishCdpAia);
    StagedConforms("ca.publish_template", CaPublishTemplate().required, PrepareTemplates, FinishTemplates);
  }

  lemma FileHandlersConform()
    ensures Conforms(FileRead()) && InStages(FileRead())
    ensures Conforms(FileWrite()) && InStages(FileWrite())
  {
    StagedConforms("file.read", FileRead().required, PrepareRead, FinishRead);
    StagedConforms("file.write", FileWrite().required, PrepareWrite, FinishWrite);
  }

  lemma ApplyConforms(decode: Decoder)
    ensures Conforms(DnsApplyResources(decode)) && InStages(DnsApplyResources(decode))
  {
    var h := DnsApplyResources(decode);
    forall params, reply ensures WellBehaved(h.run(params, reply)) && ThreeWays(h.run(params, reply)) {
    }
  }

  lemma VerifyConforms(decode: Decoder)
    ensures Conforms(DnsVerify(decode)) && InStages(DnsVerify(decode))
  {
    var h := DnsVerify(decode);
    forall params, reply ensures WellBehaved(h.run(params, reply)) && ThreeWays(h.run(params, reply)) {
    }
  }

  /** An agent offering these commands: whatever is asked of it, by whom, with
      which parameters, whatever the shell answers, however workers, connections
      and failed writes interleave, every command reports one Error, or Running
      and Error, or Running and Done with the dispatched value, and once settled
      exactly these frames have been written for it, in order. */
  lemma AgentAnswersEveryCommand(
      decode: Decoder, serializes: OutboundProgress -> bool, labels: seq<Label>, k: nat)
    requires var w := World(RegisterAll(ModelledHandlers(decode)), serializes);
             k < |After(w, INIT, labels).workers|
    ensures var w := World(RegisterAll(ModelledHandlers(decode)), serializes);
            var s := After(w, INIT, labels);
            var worker := s.workers[k];
            var script := CommandStates(w.handlers, worker.cmd, worker.reply);
            && SoleTerminal(script)
            && ThreeShapes(script, DispatchSpec(w.handlers, worker.cmd.command, worker.cmd.role, worker.cmd.params, worker.reply))
            && Of(k, s.enqueued) <= Tagged(worker.cmd.jobId, script)
            && (Settled(w, s, k) ==> Of(k, s.written) == Tagged(worker.cmd.jobId, script))
  {
    var w := World(RegisterAll(ModelledHandlers(decode)), serializes);
    ModelledHandlersConform(decode);
    RegisteredConform(ModelledHandlers(decode));
    CommandIsDelivered(w, labels, k);
    var worker := After(w, INIT, labels).workers[k];
    StagedShapes(w.handlers, worker.cmd, worker.reply);
  }
}
