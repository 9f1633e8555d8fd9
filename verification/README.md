# Verified model of pki-orchestrator

pki-orchestrator is an agent on a Windows VM. It phones home to a backend over
one long-lived connection, runs the commands it is sent through PowerShell, and
streams their progress back. This project models the parts of it that hold
state, loop or compute, and proves what they guarantee.

* **Phone-home.** `Delivery` is the transition system of frames: workers feed
  one FIFO, the connection loop drains it, a failed write parks one frame, and
  any step may come next. `LostFrames` says which written frames the peer holds,
  `Draining` how fast the backlog goes. `Backoff` is the reconnect supervisor
  over time, `Takeovers` several agents on one timeline. `PhoneHome.Client` is the client as it runs, with mutable queue, slot,
  attempt counter and clock, proved to be a run of the transition system driven by
  the supervisor; `Endings` says which events end a connection and how long the
  agent then stays away.
* **Commands.** `Registry` has the capability gate, the contract handlers owe
  the dispatcher, and what one inbound command enqueues; `Catalog` registers the
  modelled handlers and joins registry, handlers and delivery; `Refusals` says
  which parameter a refused request is refused for.
* **DNS plans.** `DnsNames` is the reverse-zone arithmetic on strings,
  `DnsServer` the server's contents with the apply and verify scripts,
  `DnsConflicts` what counts as the same record data, `DnsPlans` and `DnsVerified`
  what the two scripts guarantee, `DnsFailures` accepted inputs at which they do
  not, `DnsCommands` the agent's validation in front of them.
* **Wire formats.** `Base64` and `FileRelay` carry files, `Lists` and
  `CaCommands` carry lists as text, `CaSettings` turns parameters into registry
  values. `Text` is the string library under all of them: strings are sequences
  of Unicode scalar values, and every `len()` of the source counts UTF-8 bytes.

Some promises turn out to need a condition, and the condition is proved exact:

* A frame is kept until its write succeeds, but a write succeeds into the socket,
  not at the peer. The backend holds every written frame exactly when no write was
  reported as done whose frame had reached it neither then nor in an earlier try
  (`AllReachedExactlyWhen`); a frame lost that way is never sent again
  (`LostForGood`, `OneFrameLost`).
* The order of a DNS plan matters exactly when an A or CNAME record relies on a
  zone that only a PTR record of the same plan creates (`EveryOrderApplies`,
  `SwappedPlanThrows`).
* A run that throws leaves the old contents and those of the reported part of the
  plan, unless it made a zone for the record at which it threw
  (`NothingLeftExactlyWhen`). That can be a zone no record names: an accepted zone
  with a leading zero is created without it (`FailedRunLeavesZone`,
  `NetworkIdRoundTrip`).
* An applied record can fail to verify (`StrayPtrDoesNotVerify`). It verifies
  exactly when the place its lookup ends at, through the closest zone, old or
  created by the plan, and along aliases, held its value or is given it by the plan
  (`VerifiesExactlyWhen`). For a record whose value no other place holds and that
  meets no alias this means: a PTR address inside its zone, and no deeper zone over
  the name (`LoneRecordVerifies`).
* A publication list is stored as reported exactly when no entry contains a
  backslash followed by n, which validation does not exclude, and, if the list is
  empty, the array was empty before: an omitted list is reported as empty but the
  old array stays (`CdpAiaRun`, `AcceptedEntryIsTorn`, `OmittedListKeepsOld`).
* The registry says what ca.configure_settings reports exactly when no given
  number with a plus sign meets a value that has other bits set: the agent accepts
  "+5", and certutil adds its bits (`RegistryMatchesReport`,
  `PlusAddsBits`).
* The relay's checks and codec carry a file exactly from 1 byte to 256 KiB: an
  empty file can be read but is refused on the way in, and the encoded cap admits
  up to two bytes over the decoded one (`RelayRoundTrip`, `WriteAcceptsExactly`).

Where text and code of the repository differ, the model follows the code. Its
README lists the CA commands as needing `VmExecArbitrary`; the handlers require
`VmProvision`, which guests hold. A comment calls the base64 limit the encoded
equivalent of 256 KiB; it is that of 256 KiB plus two bytes. "Healthy" is said of
a connection, but the clock starts before the connect.

Times are real-valued seconds. Connections, write outcomes, worker timing, shell
answers and elapsed times are inputs, so every statement holds for all of them.

## Model

| member | source | states |
|---|---|---|
| Delivery.InOrderAtLeastOnce | src/phonehome.rs:181-324 | In every state reachable by any interleaving of workers, connects, drops and failed writes, the sendable frames ever enqueued are the written ones, then the parked one, then the queue, in order; the slot is free while the select loop runs; attempts without adjacent repeats are the written frames and the parked one; what reached the peer, without adjacent repeats, is those of them that reached it, in order |
| LostFrames.AllReachedExactlyWhen | src/phonehome.rs:210-218 | The peer holds every written frame exactly when no write was reported as done whose frame had reached it neither then nor in an earlier try; it then holds the written frames in order and at most the parked one besides |
| LostFrames.LostForGood | src/phonehome.rs:210-218 | A written frame that has not reached the peer is nowhere waiting and never reaches it in any continuation |
| LostFrames.OneFrameLost | src/phonehome.rs:210-218 | A run in which a command settles, all its frames written, and the peer holds none |
| LostFrames.NobodyCanTell | src/phonehome.rs:210-218 | Runs that differ only in which writes reached the peer leave the agent in the same state |
| Delivery.SendKeepsInv | src/phonehome.rs:181-219 | Sending what is next in order, parked frame or queue head, keeps the accounts whether the write succeeds, is lost, or is lost after arriving |
| Delivery.StepKeepsInv | src/phonehome.rs:249-323 | Every step of every kind keeps accounting, free slot, stuttering and per-command bookkeeping |
| Delivery.CommandIsDelivered | src/phonehome.rs:79-98 | A command instance enqueues a prefix of its report sequence, which has one terminal state, last, with the dispatched outcome; once its worker is through and none of its frames is waiting, whatever else is, exactly that sequence has been written |
| Delivery.CommandsGetWorkers | src/phonehome.rs:279-303 | Each command read while connected gets its own worker, in reading order, and keeps it |
| Draining.QuietConnectionDrains | src/phonehome.rs:304-313 | While a connection stays up and nothing is reported, each receive takes exactly one off the backlog, and as many receives as queued frames write all that was ever enqueued |
| Draining.BusyConnectionDelivers | src/phonehome.rs:304-313 | With workers reporting all the while, as many receives as frames waiting now write everything enqueued up to now |
| Backoff.WaitExactly | src/phonehome.rs:331-401 | One turn: 300 s after a takeover, uncounted; else 1, 2, 5, 10 and then 30 s by the number of failures since the last attempt of a minute or more |
| Backoff.SleepIsBounded | src/phonehome.rs:367-401 | Over every run the sleep is between 1 and 30 s per failure, and 300 s per takeover |
| Backoff.FailuresFromFresh | src/phonehome.rs:331-401 | n >= 4 instant failures from a fresh start take 18 + 30 (n - 4) seconds |
| Backoff.AttemptCountsFailures | src/phonehome.rs:367-401 | The attempt counter is the number of ends other than takeovers since the last attempt of at least 60 s, that one included |
| Backoff.AmortisedBound | src/phonehome.rs:331-401 | From any counter value and over any mix of endings, n attempts take at least 19.5 n seconds less the remaining credit |
| Backoff.ReconnectRate | src/phonehome.rs:331-401 | From a fresh start 2 T >= 39 n - 120 |
| Backoff.ReconnectRateIsTight | src/phonehome.rs:331-401 | Equality is reached by arbitrarily long runs |
| Backoff.EvictionsAreSpaced | src/phonehome.rs:333-386 | In any window an agent's evictions are 300 s apart |
| Backoff.EvictionsAddUp | src/phonehome.rs:165-175 | Whoever evicts whom, k agents suffer at most k (T/300 + 1) evictions in T seconds |
| Backoff.TakeoverBoundIsReached | src/phonehome.rs:376-386 | An agent evicted at each connect meets that bound |
| Takeovers.Returns | src/phonehome.rs:376-386 | On a shared timeline an evicted agent arrives again 300 s after the eviction at the earliest |
| Takeovers.KEvictionsTakeTime | src/phonehome.rs:165-175 | With one live connection that each arrival takes from another agent, k evictions among k agents span at least 300 s |
| Takeovers.TakeoverStorm | src/phonehome.rs:165-175 | k agents sharing an identity suffer at most (k - 1) (T/300 + 1) evictions in T seconds |
| Takeovers.StormBoundIsReached | src/phonehome.rs:376-386 | Two agents taking turns meet the bound |
| PhoneHome.Client.Report | src/phonehome.rs:65-72 | A worker's next state goes to the end of the channel, tagged with its job |
| PhoneHome.Client.SendProgress | src/phonehome.rs:181-219 | Drops what does not serialize, writes, or parks on failure and says the connection is gone |
| PhoneHome.Client.ConnectOnce | src/phonehome.rs:221-260 | One attempt: nothing changes if it is refused, the parked frame goes first, then the loop; ends disconnected with the right ending |
| PhoneHome.Client.ServeLoop | src/phonehome.rs:262-323 | The select loop is the transition system's steps until one ends the connection |
| PhoneHome.Client.Iterate | src/phonehome.rs:369-400 | One supervisor turn: reset on a long attempt, 300 s after a takeover, otherwise the capped delay and one more attempt |
| PhoneHome.Client.RunForever | src/phonehome.rs:345-402 | Any number of turns is a lifetime of the delivery system under the supervisor and takes at least 19.5 n - 60 seconds |
| Endings.DropsExactlyWhen | src/phonehome.rs:262-323 | A connection in use ends on a failed frame write, a failed ping, close code 4409, the end of the stream or a read error, and on nothing else |
| Endings.AttemptEnds | src/phonehome.rs:229-324 | An attempt ends superseded exactly if its loop meets the 4409 close, and failed exactly if it is refused or meets a read error |
| Endings.OpensExactlyWhen | src/phonehome.rs:249-256 | The loop is entered exactly if nothing is parked or the parked frame gets out |
| Endings.RoundWaits | src/phonehome.rs:367-401 | After a 4409 close the clock moves on by the attempt and 300 s and nothing is counted; after any other end the failure is counted and the sleep is the one for that many |
| Endings.TakenExactlyWhen | src/phonehome.rs:269-275 | The takeovers in an agent's history are exactly its 4409 closes |
| PhoneHome.AttemptIsARun | src/phonehome.rs:221-324 | An attempt, however scripted, is a run of the transition system from down to down |
| PhoneHome.LifetimeIsARun | src/phonehome.rs:345-402 | So is a lifetime of any number of rounds |
| PhoneHome.LifetimeSupervises | src/phonehome.rs:367-401 | Its counter and clock are the supervisor's over the endings that occurred |
| PhoneHome.ClientDelivers | src/phonehome.rs:360-372 | After any rounds the client's frames are accounted for in order, and what reached the peer is those written or parked frames that reached it, in order |
| Report.TaggedProgressSink.Report | src/phonehome.rs:65-72 | The sink appends one frame carrying its job id |
| PowerShell.MockPowerShell.PushResponse | src/powershell.rs:139-144 | Queues a reply behind the others |
| PowerShell.MockPowerShell.Run | src/powershell.rs:163-178 | Logs the call and answers with the oldest reply, or an empty success |
| PowerShell.QueueLaw | src/powershell.rs:163-178 | First in, first out, then empty successes |
| Authz.OperatorHasEverything | src/authz.rs:77-95 | The operator holds every capability |
| Registry.CommandRegistry.Register | src/registry.rs:68-70 | Handlers stay keyed by their own name; the last registration wins |
| Registry.CommandRegistry.Commands | src/registry.rs:83-91 | Strictly sorted by name, listing exactly the dispatchable commands with their capabilities |
| Registry.BeforeExactly | src/registry.rs:83-91 | The order of names: the smaller character at the first difference, or the prefix |
| Registry.SortedUnique | src/registry.rs:83-91 | A strictly sorted listing is determined by its elements, so hash order cannot show |
| Registry.CommandRegistry.Dispatch | src/registry.rs:93-121 | Unknown and forbidden commands touch neither sink nor shell; otherwise exactly the handler's states and calls, and its outcome |
| Registry.ExecuteStaged | src/commands/file.rs:63-99 | Validate, Running, one script run, Done: states, calls and outcome for every way through |
| Registry.ScriptDecides | src/commands/util.rs:33-46 | A script that exits with anything but 0, or cannot be run, makes an accepted request fail with exactly that, after Running and without Done; exit code 0 leaves the word to the handler |
| Registry.FailedScriptIsReported | src/phonehome.rs:79-98 | The backend sees Running, then Error with the exit code and the stderr text |
| Registry.HandlerIsReported | src/phonehome.rs:79-98 | A handler that is reached: its states, and its own error text on failure |
| Registry.RefusalIsReported | src/registry.rs:93-121 | A command that is not: one Error naming it, and the missing capability |
| Registry.ErrorTexts | src/registry.rs:24-55 | The wording of every error |
| Registry.StagedConforms | src/commands/file.rs:63-99 | Every handler of that shape keeps the handler contract and stays silent until its parameters are validated |
| Registry.HandleCommand | src/phonehome.rs:79-98 | Enqueues the handler's states and, on any dispatch error, one Error frame, all under the command's job id |
| Registry.ReportedExactlyWhen | src/phonehome.rs:74-98 | One terminal state, last, with the outcome: always for refused commands, and for the others exactly when the execution kept the handler contract |
| Registry.EveryCommandReportsOnce | src/phonehome.rs:74-98 | With conforming handlers, always |
| Registry.OperatorSubsumesGuest | src/authz.rs:79-95 | A guest dispatch is the operator's dispatch or a refusal, and it is a refusal exactly for the four capabilities |
| Registry.SessionsAreGated | src/registry.rs:68-121 | Over every sequence of registrations and dispatches the last handler of a name answers, and every logged shell call was made under a role holding the capability |
| Registry.StagedShapes | src/phonehome.rs:79-98 | With handlers in stages a command reports one Error, Running and Error, or Running and Done with the dispatched value; the first exactly when the shell was not called |
| Catalog.OfferedCommands | src/commands/mod.rs:30-68 | Names and capabilities of the modelled commands |
| Catalog.DnsAnnouncements | src/commands/dns.rs:257-265 | What a DNS command announces while it runs |
| Catalog.CaAnnouncements | src/commands/ca.rs:456-459 | And a CA command |
| Catalog.FileAnnouncements | src/commands/file.rs:72-73 | And a file command |
| Catalog.ModelledHandlersConform | src/commands/mod.rs:30-68 | The eight modelled handlers keep the handler contract and go through these stages |
| Catalog.AgentAnswersEveryCommand | src/phonehome.rs:79-98 | An agent offering them reports, per command, one Error, Running and Error, or Running and Done with the dispatched value, and once settled has written exactly these frames |
| Text.LowerExactly | src/commands/dns.rs:293 | Two texts are the same in lower case exactly when they agree character by character up to ASCII case |
| Text.Utf8Spells | src/commands/util.rs:58-68 | The bytes a length counts spell the character |
| Text.AsciiSpaces | src/commands/ca.rs:856 | Trimming strips exactly six ASCII characters |
| Text.ParseExactly | src/commands/dns.rs:54 | A number is read exactly from an optional plus sign, any zeros and its decimal text |
| DnsNames.Ipv4Exactly | src/commands/dns.rs:84-85 | An address is exactly four numbers up to 255 in decimal without leading zeros |
| DnsNames.NameExactly | src/commands/util.rs:88-110 | A dotted name is valid exactly when its labels have 1 to 63 letters, digits and inner hyphens, and it has at most 253 characters |
| DnsNames.RootDotIsOptional | src/commands/util.rs:88-110 | One dot more at the end changes nothing |
| DnsNames.ReverseZoneExactly | src/commands/dns.rs:47-55 | One to three numbers up to 255, zeros in front or not, and in-addr.arpa, in any case and with any dots at the end |
| DnsNames.ReverseNameSpelled | src/commands/dns.rs:389-390 | The reverse name has the four numbers the other way round |
| DnsNames.ScriptSeesLabels | src/commands/dns.rs:47-55 | On an undotted zone the validator accepted, the script's Replace and Split yield the labels the validator saw |
| DnsNames.NetworkIdRoundTrip | src/commands/dns.rs:275-284 | Zone to network id to created zone is the identity exactly for canonical zone text |
| DnsNames.OwnerNameIsReverseName | src/commands/dns.rs:285-288 | For every accepted zone, owner name plus zone is the address's in-addr.arpa name exactly when the address lies in the zone |
| DnsServer.Server.AddPrimaryZone | src/commands/dns.rs:276-284 | Adds the zone of a network id, or fails on a bad id or a live zone |
| DnsServer.Server.GetRecords | src/commands/dns.rs:289 | The record data at an owner and type, nothing for an unknown zone |
| DnsServer.Server.AddRecord | src/commands/dns.rs:295-298 | Appends data in a live zone where no alias is in the way, else fails and changes nothing |
| DnsConflicts.SameAddressExactly | src/commands/dns.rs:300-304 | Two addresses are the same exactly when equal |
| DnsConflicts.SameHostExactly | src/commands/dns.rs:290-294 | Two host names are the same exactly when, without trailing dots, they agree up to ASCII case |
| DnsConflicts.OtherAddressStays | src/commands/dns.rs:300-304 | Another address at a planned record's place makes every such plan throw and stays the only one there |
| DnsConflicts.OtherAddressThrows | src/commands/dns.rs:300-304 | And that record alone leaves the server as it was |
| DnsConflicts.OtherAddressDoesNotVerify | src/commands/dns.rs:396-400 | A lookup that ends at another address does not verify |
| DnsConflicts.TwoAddressesNeverApply | src/commands/dns.rs:300-304 | A plan with two addresses for one place never applies |
| DnsConflicts.OtherHostThrows | src/commands/dns.rs:290-318 | The same for host names |
| DnsConflicts.SameHostIsRetained | src/commands/dns.rs:290-318 | A host name in other letters or with a dot more is kept as it is |
| DnsServer.ApplyRecord | src/commands/dns.rs:271-322 | One turn of the apply loop is the specified outcome, also when it throws |
| DnsServer.ApplyResources | src/commands/dns.rs:267-323 | The whole run: report lines, throw, and server contents |
| DnsServer.Server.Answer | src/commands/dns.rs:389-395 | The data of the closest live zone, following aliases up to the server's limit |
| DnsConflicts.AliasLeads | src/commands/dns.rs:389-395 | A query at an alias is answered as its target is, trailing dots aside |
| DnsServer.VerifyRecord | src/commands/dns.rs:387-401 | One lookup and the comparison of each answer with the planned value |
| DnsServer.VerifyResources | src/commands/dns.rs:385-420 | Check i holds exactly when the server's answer contains record i's value; the run passes when all do, the SRV names answer if asked for, and the URL, if any, returns a status from 200 to 399 |
| DnsPlans.OneRecord | src/commands/dns.rs:275-321 | A record applies exactly when it agrees with the server (same value or none, no alias collision) and its zone is live or creatable, and its full effect |
| DnsPlans.ApplySucceedsExactlyWhen | src/commands/dns.rs:270-322 | A plan applies exactly when it is consistent (no two values at a place, no alias beside other data), agrees with the initial contents and finds its zones; contents and every report line are then given in closed form |
| DnsPlans.OrderDoesNotMatter | src/commands/dns.rs:271-322 | With A and CNAME zones live, verdict and final contents (up to case and trailing dots) are the same for every order and repetition of the records |
| DnsPlans.EveryOrderApplies | src/commands/dns.rs:271-322 | A plan that applies does so in every order exactly when its A and CNAME zones were live beforehand |
| DnsPlans.ApplyOnlyAdds | src/commands/dns.rs:243-245 | On all runs, also ones that throw, nothing is removed or changed, the new records are those of the reported prefix of the plan, and so are the new zones but for the one made for the record that threw |
| DnsPlans.NothingLeftExactlyWhen | src/commands/dns.rs:275-298 | When a run leaves exactly the old contents and the reported prefix |
| DnsFailures.FailedRunLeavesZone | src/commands/dns.rs:275-298 | An accepted PTR record in a zone with a leading zero throws and leaves the zone without it |
| DnsFailures.SwappedPlanThrows | src/commands/dns.rs:275-308 | An accepted A record in the zone an accepted PTR record creates applies after it and throws before it |
| DnsFailures.StrayPtrDoesNotVerify | src/commands/dns.rs:285-298 | An accepted PTR record outside its canonical zone applies and does not verify |
| DnsFailures.LeadingZeroIsDropped | src/commands/dns.rs:47-55 | Accepted zone text that is not canonical, and the zone created for it |
| DnsPlans.ApplyIsIdempotent | src/commands/dns.rs:243-245 | A second run changes nothing and retains every record |
| DnsPlans.InterruptedRunConverges | src/commands/dns.rs:271-322 | Repeating a run cut off anywhere ends where an uninterrupted run ends |
| DnsPlans.FailedRunRepeats | src/commands/dns.rs:292-294 | A failed run fails again at the same record and leaves the server as it was |
| DnsVerified.QuerySpellsPlace | src/commands/dns.rs:389-395 | The verify query names the place the apply script wrote |
| DnsVerified.VerifiesExactlyWhen | src/commands/dns.rs:388-401 | After any applied plan on any server a record verifies exactly when the place its lookup ends at, through the zones and aliases there were and those the plan brings, held its value or was empty and is given it by the plan |
| DnsVerified.OwnPlaceExactlyWhen | src/commands/dns.rs:388-395 | An acceptable record is looked up where it was written exactly when a PTR address lies in its zone and no deeper live zone encloses the name |
| DnsVerified.AppliedPlanVerifies | src/commands/dns.rs:388-401 | So every record of an applied plan that is looked up where it was written verifies |
| DnsVerified.LoneRecordVerifies | src/commands/dns.rs:388-401 | A record whose value no other place holds, on any server and in any plan, verifies exactly when its lookup ends where it was written, and without an alias on the way exactly when it is looked up there |
| DnsVerified.LonePtrVerifies | src/commands/dns.rs:275-298 | On any server, a PTR record in a canonical zone applies exactly when it agrees with what is there; if no other place holds its value and it meets no alias it verifies exactly when its address lies in the zone and no deeper zone takes it over |
| DnsCommands.CheckRecords | src/commands/dns.rs:74-120 | The loop returns the objection to the first unacceptable record, and none exactly when there is none |
| DnsCommands.RecordAcceptedExactly | src/commands/dns.rs:74-120 | What a record must be, kind by kind, said of characters, numbers and labels |
| DnsCommands.ExecuteApply | src/commands/dns.rs:257-332 | The handler as it runs: parse, Running, script, Done, with every early exit |
| DnsCommands.ApplyRun | src/commands/dns.rs:257-332 | The payload reaches the script unchanged and the number of its records is reported |
| DnsCommands.BatchAcceptedExactlyWhen | src/commands/dns.rs:57-122 | What it takes for a batch to be accepted, both ways |
| DnsCommands.ResolversRoundTrip | src/commands/dns.rs:140-169 | The script's split of the argument is exactly the validated resolver list, all of it addresses |
| DnsCommands.ResolversAccepted | src/commands/dns.rs:140-154 | Accepted exactly when some resolver is given and all are addresses |
| DnsCommands.ResolversRun | src/commands/dns.rs:140-184 | The resolvers set and reported are, in order, the pieces between the commas that are not blank, without the white space around them; the interface is passed on |
| DnsCommands.VerifyRun | src/commands/dns.rs:349-424 | When dns.verify is accepted, what its script is given, and that its report is the result |
| DnsCommands.AppliedBatchVerifies | src/commands/dns.rs:261-401 | Of the batch one command hands its script, once applied, exactly the answered records verify through the other, and all of them when each is looked up where it was written |
| Base64.Encode | src/commands/file.rs:81 | Length 4 ceil(n/3), alphabet and padding only |
| Base64.AlphabetTable | src/commands/file.rs:81 | The alphabet, by character codes (table 1 of RFC 4648) |
| Base64.QuadSpells | src/commands/file.rs:81 | A quad is its bytes as one number in base 64, padded where bytes are missing |
| Base64.DecodedLength | src/commands/file.rs:139 | Text that decodes is whole quads, and stands for three bytes a quad less at most two |
| Base64.DecodeEncode | src/commands/file.rs:81 | Decoding undoes encoding for every byte sequence |
| FileRelay.PathSliceIsSafe | src/commands/file.rs:34-41 | On every accepted Unicode text the byte slice falls on a character boundary and is the character prefix |
| FileRelay.SliceNeedsAscii | src/commands/util.rs:58-68 | Without the character check such a slice can fall inside a character |
| FileRelay.RelayPathExactly | src/commands/file.rs:28-41 | A path is accepted exactly if it goes on from an allowed directory in any letter case, is plain, has at most 200 characters and no ".." |
| FileRelay.ReadRun | src/commands/file.rs:63-99 | When file.read is accepted, what its script is given, and every field it reports |
| FileRelay.WriteRun | src/commands/file.rs:111-154 | The same for file.write |
| Refusals.FileRefusals | src/commands/file.rs:63-135 | Which parameter a refused file command is refused for |
| Refusals.ListRefusals | src/commands/ca.rs:854-871 | The same for templates and resolvers |
| Refusals.PublicationRefusals | src/commands/ca.rs:551-571 | The same for publication lists: AIA before CDP |
| Refusals.BatchRefusals | src/commands/dns.rs:57-122 | The same for a batch of records, by either command |
| Refusals.VerifyRefusals | src/commands/dns.rs:350-370 | The same for the other parameters of dns.verify, in their order |
| Refusals.SettingRefusals | src/commands/ca.rs:385-454 | A settings map is refused for a setting that is given and not proper, or because none is given |
| FileRelay.AcceptedPathsStayInside | src/commands/file.rs:28-41 | Every accepted path normalises lexically into one of the three directories |
| FileRelay.WriteAcceptsExactly | src/commands/file.rs:122-132 | Encoded bytes pass the write checks exactly from 1 byte to the cap plus two |
| FileRelay.AcceptedContentIsBounded | src/commands/file.rs:122-139 | Whatever passes and decodes is at most the cap plus two bytes |
| FileRelay.RelayRoundTrip | src/commands/file.rs:63-154 | Through both commands' checks and the codec the same bytes arrive exactly for 1 byte to the cap |
| Lists.ParsedExactlyWhen | src/commands/ca.rs:854-859 | The parsed list is exactly: one entry for each separator-delimited piece that is not blank, in order, without the white space around it |
| Lists.SpacedList | src/commands/ca.rs:854-859 | Two entries with a space after the separator are both kept |
| Lists.ListRoundTrip | src/commands/ca.rs:854-886 | For every raw text that yields a list, splitting the joined argument gives that list, and so does parsing it again |
| CaCommands.ByteTestIsCharTest | src/commands/ca.rs:512-520 | The drive-letter test on bytes agrees with the test on characters for every Unicode text |
| CaCommands.EntryExactly | src/commands/ca.rs:502-522 | An entry is digits for a number up to 1023, a colon and a valid location |
| CaCommands.LocationExactly | src/commands/ca.rs:502-522 | A location has up to 300 bytes, a known scheme, a share or a drive, and none of seven characters |
| CaCommands.FirstBad | src/commands/ca.rs:558-571 | Finds an invalid entry exactly if there is one |
| CaCommands.PublicationRoundTrip | src/commands/ca.rs:544-582 | The array after the script is the requested list exactly when no entry contains backslash n and an empty list met an empty array; a torn list makes it longer |
| CaCommands.CdpAiaRun | src/commands/ca.rs:540-605 | A refused request does nothing; an accepted one runs the script once and reports both lists, each the non-blank lines of its parameter, and each array is then the reported list exactly when it is stored as asked |
| CaCommands.OmittedListKeepsOld | src/commands/ca.rs:544-590 | A request for one list reports the other as empty and leaves its old array |
| CaCommands.AcceptedEntryIsTorn | src/commands/ca.rs:502-522 | A whole family of accepted entries that do not survive |
| CaCommands.TemplatesRoundTrip | src/commands/ca.rs:854-886 | The script publishes exactly the validated template names |
| CaCommands.TemplatesAccepted | src/commands/ca.rs:854-871 | Accepted exactly when some name is given and all are plain |
| CaCommands.TemplatesRun | src/commands/ca.rs:854-893 | The names published and reported are, in order, the pieces between the commas that are not blank, without the white space around them |
| CaSettings.SettingsReader.Next | src/commands/ca.rs:405-447 | One closure call: an error for a given and wrong value, else its text, with the applied map kept in step |
| CaSettings.ReadSettings | src/commands/ca.rs:385-489 | The handler's validation gives the specified verdict, applied map and positional arguments |
| CaSettings.AcceptedExactlyWhen | src/commands/ca.rs:385-454 | Accepted exactly when something is given and everything given is valid |
| CaSettings.AcceptedWhenProper | src/commands/ca.rs:385-454 | The same setting by setting: limits 9999 and 127, the five periods, the distinguished name |
| CaSettings.RegistryNames | src/commands/ca.rs:461-478 | Each registry value bears its parameter's name up to letter case, the overlap units excepted |
| CaSettings.ScriptEffect | src/commands/ca.rs:461-489 | The script sets each given setting's registry value once, from what was there, and touches nothing else |
| CaSettings.RegistryMatchesReport | src/commands/ca.rs:461-489 | The result is the image of the applied map exactly when no number with a plus sign meets other bits; a rerun changes nothing |
| CaSettings.PlusAddsBits | src/commands/ca.rs:405-426 | "+5" is accepted and reported, and turns a stored 2 into 7 |
| CaSettings.SettingsRun | src/commands/ca.rs:456-495 | A refused map reaches neither sink nor shell; an accepted one runs the script once, to that effect, and on success reports exactly the given settings, each with its text |

## Left out

- Registry.Play: a handler is a function from parameters and shell reply to its states, calls and outcome, so the order between its reports and its shell calls is not part of the dispatcher's contract, and a handler whose second script run depends on a second reply cannot be expressed; ExecuteStaged keeps that order for the modelled shape.
- MockPowerShell: replies carry the parsed JSON beside the text; parsing is not modelled, and neither are real processes, temporary files or script texts.
- Server: zone and owner names are matched literally up to case; what the DNS cmdlets make of a trailing dot in a zone name is not modelled, and neither are record types other than A, PTR and CNAME.
- Source: aliases are followed within the server's own zones, as often as a limit that every result leaves open; names outside those zones have no answer.
- SetReg: certutil is given decimal numbers and plus signs only, which is what validation lets through; a plus sign on a value that is not a number starts from no bits.
- FileWrite: the content travels as one process argument, and the operating system's limit on its length is not modelled.
- VerifyResources: SRV answers and the URL's status are inputs.
- PowerShell strings: case-insensitive comparison is modelled for ASCII letters.
- Decode: white space inside base64 is not modelled, since the write check refuses it.
- dns.create_record replaces a CNAME on purpose; it and the other handlers (CA install, CRL publish, signing, certificates, domain, IIS, IP, hostname, OCSP, reboot) have the same staged shape and would only add easy members.
- Sockets, TLS, URL and header building, JSON and configuration parsing, logging, the command line and the Windows service are not part of this model; a keepalive ping is a step that may end a connection.
- Serialization of a frame is an arbitrary predicate; a channel that closes, which the client never lets happen, is not modelled.
