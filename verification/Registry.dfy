/** Command dispatch: the gate in front of every handler, what a handler does
    with its sink and shell, and what one inbound command enqueues. */
module Registry {
  import opened Prelude
  import opened Report
  import opened Authz
  import opened PowerShell

  type Params = map<string, string>

  datatype CommandError =
    | MissingParam(name: string)
    | InvalidParam(name: string, reason: string)
    | Shell(error: PowerShellError)

  datatype DispatchError =
    | UnknownCommand(name: string)
    | Forbidden(command: string, role: Role, required: Capability)
    | Command(error: CommandError)

  function CommandErrorText(e: CommandError): string {
    match e
    case MissingParam(name) => "missing required parameter '" + name + "'"
    case InvalidParam(name, reason) => "invalid parameter '" + name + "': " + reason
    case Shell(error) => "powershell execution failed: " + ShellErrorText(error)
  }

  function DispatchErrorText(e: DispatchError): string {
    match e
    case UnknownCommand(name) => "unknown command '" + name + "'"
    case Forbidden(command, role, required) =>
      "role " + RoleName(role) + " lacks capability " + CapabilityName(required)
      + " required by '" + command + "'"
    case Command(error) => CommandErrorText(error)
  }

  function Param(params: Params, key: string): Option<string> {
    if key in params then Some(params[key]) else None
  }

  function ParamOr(params: Params, key: string, default: string): string {
    if key in params then params[key] else default
  }

  // ---------- handlers ----------

  /** Everything one execution does: reported states, shell calls, outcome. */
  datatype Execution<E> = Execution(
    states: seq<OpRunState>, calls: seq<Call>, outcome: Result<Value, E>)

  /** A command handler: what it does with its parameters, given what the shell
      will answer. `run` may be any such function; it sees one reply, so a handler
      whose second script run depends on a second answer is outside the model. */
  datatype Handler = Handler(
    name: string, required: Capability, run: (Params, Reply) -> Execution<CommandError>)

  /** The contract handlers owe the dispatcher: progress while running, Done with
      the returned value as the last state on success, no terminal state of their
      own on failure. */
  ghost predicate WellBehaved(ex: Execution<CommandError>) {
    match ex.outcome
    case Err(_) => forall i :: 0 <= i < |ex.states| ==> !Terminal(ex.states[i])
    case Ok(v) =>
      && ex.states != [] && ex.states[|ex.states| - 1] == DoneState(v)
      && forall i :: 0 <= i < |ex.states| - 1 ==> !Terminal(ex.states[i])
  }

  ghost predicate Conforms(h: Handler) {
    forall params, reply :: WellBehaved(h.run(params, reply))
  }

  /** The three ways through a handler in stages: refused before anything happens,
      failed after one phase, or done after one phase. */
  ghost predicate InStages(h: Handler) {
    forall params, reply :: ThreeWays(h.run(params, reply))
  }

  ghost predicate ThreeWays(ex: Execution<CommandError>) {
    match ex.outcome
    case Err(_) =>
      || (ex.states == [] && ex.calls == [])
      || (|ex.states| == 1 && ex.states[0].status == Running && |ex.calls| == 1)
    case Ok(v) =>
      |ex.states| == 2 && ex.states[0].status == Running && ex.states[1] == DoneState(v) && |ex.calls| == 1
  }

  // ---------- handlers in stages ----------

  /** What a validated request asks for: one progress phase, one script run. */
  datatype Job = Job(phase: string, percent: real, args: seq<string>)

  type Prepare = Params -> Result<Job, CommandError>

  type Finish = (Params, Output) -> Result<Value, CommandError>

  function RequireSuccess(reply: Reply): Result<Output, CommandError> {
    match reply
    case Err(e) => Err(Shell(e))
    case Ok(output) =>
      if output.Succeeded() then Ok(output)
      else Err(Shell(NonZeroExit(output.exitCode, output.stderr)))
  }

  /** One phase, one script run, and what is made of its output. */
  function JobRun(name: string, job: Job, finish: Finish, params: Params, reply: Reply): Execution<CommandError> {
    var started := [RunningState(job.phase, job.percent)];
    var calls := [Call(name, job.args)];
    match RequireSuccess(reply)
    case Err(e) => Execution(started, calls, Err(e))
    case Ok(output) =>
      match finish(params, output)
      case Err(e) => Execution(started, calls, Err(e))
      case Ok(value) => Execution(started + [DoneState(value)], calls, Ok(value))
  }

  function StagedRun(name: string, prepare: Prepare, finish: Finish, params: Params, reply: Reply)
    : Execution<CommandError>
  {
    match prepare(params)
    case Err(e) => Execution([], [], Err(e))
    case Ok(job) => JobRun(name, job, finish, params, reply)
  }

  /** The shape of every handler modelled here: `prepare` validates, `finish` turns
      the output of a successful run into the result and may still refuse. */
  function Staged(name: string, required: Capability, prepare: Prepare, finish: Finish): Handler {
    Handler(name, required, (params, reply) => StagedRun(name, prepare, finish, params, reply))
  }

  /** Validate, report Running, run the script, report Done: an error leaves at
      the point where it arises and reports nothing itself. */
  method ExecuteStaged(name: string, prepare: Prepare, finish: Finish, params: Params,
                       progress: TaggedProgressSink, shell: MockPowerShell)
    returns (outcome: Result<Value, CommandError>)
    modifies progress.sender, shell
    ensures var ex := StagedRun(name, prepare, finish, params, NextReply(old(shell.responses)));
            && outcome == ex.outcome
            && progress.sender.frames == old(progress.sender.frames) + Tagged(progress.jobId, ex.states)
            && shell.calls == old(shell.calls) + ex.calls
            && shell.responses == RepliesAfter(old(shell.responses), |ex.calls|)
  {
    assert RepliesAfter(shell.responses, 0) == shell.responses;
    var prepared := prepare(params);
    if prepared.Err? {
      return Err(prepared.error);
    }
    outcome := ExecuteJob(name, prepared.value, finish, params, progress, shell);
  }

  /** The part after validation. */
  method ExecuteJob(name: string, job: Job, finish: Finish, params: Params,
                    progress: TaggedProgressSink, shell: MockPowerShell)
    returns (outcome: Result<Value, CommandError>)
    modifies progress.sender, shell
    ensures var ex := JobRun(name, job, finish, params, NextReply(old(shell.responses)));
            && outcome == ex.outcome
            && progress.sender.frames == old(progress.sender.frames) + Tagged(progress.jobId, ex.states)
            && shell.calls == old(shell.calls) + ex.calls
            && shell.responses == RepliesAfter(old(shell.responses), |ex.calls|)
  {
    assert RepliesAfter(shell.responses, 0) == shell.responses;
    assert RepliesAfter(shell.responses, 1) == RestReplies(shell.responses);
    var running := RunningState(job.phase, job.percent);
    progress.Report(running);
    var reply := shell.Run(name, job.args);
    var checked := RequireSuccess(reply);
    if checked.Err? {
      return Err(checked.error);
    }
    var finished := finish(params, checked.value);
    if finished.Err? {
      return Err(finished.error);
    }
    var done := DoneState(finished.value);
    progress.Report(done);
    assert Tagged(progress.jobId, [running]) + Tagged(progress.jobId, [done])
        == Tagged(progress.jobId, [running] + [done]);
    return Ok(finished.value);
  }

  /** A handler in stages keeps the contract whatever its stages do, and touches
      sink and shell only once its parameters are validated. */
  lemma StagedConforms(name: string, required: Capability, prepare: Prepare, finish: Finish)
    ensures Conforms(Staged(name, required, prepare, finish))
    ensures InStages(Staged(name, required, prepare, finish))
    ensures forall params, reply ::
      var ex := Staged(name, required, prepare, finish).run(params, reply);
      && |ex.states| <= 2 && |ex.calls| <= 1
      && (prepare(params).Err? <==> ex.states == [])
      && (prepare(params).Err? <==> ex.calls == [])
  {
    forall params, reply
      ensures WellBehaved(Staged(name, required, prepare, finish).run(params, reply))
      ensures ThreeWays(Staged(name, required, prepare, finish).run(params, reply))
    {
      assert Staged(name, required, prepare, finish).run(params, reply)
          == StagedRun(name, prepare, finish, params, reply);
    }
  }

  /** What a handler in stages does, case by case. */
  lemma StagedCases(name: string, required: Capability, prepare: Prepare, finish: Finish, params: Params, reply: Reply)
    ensures var ex := Staged(name, required, prepare, finish).run(params, reply);
            && (prepare(params).Err? ==> ex == Execution([], [], Err(prepare(params).error)))
            && (prepare(params).Ok? ==>
                  && ex.calls == [Call(name, prepare(params).value.args)]
                  && (!(reply.Ok? && reply.value.exitCode == 0) ==> ex.outcome.Err?)
                  && (reply.Ok? && reply.value.exitCode == 0 ==> ex.outcome == finish(params, reply.value)))
  {
    assert Staged(name, required, prepare, finish).run(params, reply)
        == StagedRun(name, prepare, finish, params, reply);
  }

  /** The exit code decides: a script that exits with anything but 0, or that could
      not be run, makes an accepted request fail with exactly that, after Running
      and without Done; one that exits with 0 leaves the word to `finish`. */
  lemma ScriptDecides(name: string, required: Capability, prepare: Prepare, finish: Finish, params: Params, reply: Reply)
    requires prepare(params).Ok?
    ensures var ex := Staged(name, required, prepare, finish).run(params, reply);
            var started := [OpRunState(Running, Some(prepare(params).value.percent),
                                       Some(prepare(params).value.phase), None, None)];
            && (reply.Err? ==> ex.outcome == Err(Shell(reply.error)))
            && (reply.Ok? && reply.value.exitCode != 0 ==>
                  ex.outcome == Err(Shell(NonZeroExit(reply.value.exitCode, reply.value.stderr))))
            && (reply.Ok? && reply.value.exitCode == 0 ==> ex.outcome == finish(params, reply.value))
            && (ex.outcome.Err? ==> ex.states == started)
            && (ex.outcome.Ok? ==>
                  ex.states == started + [OpRunState(Done, Some(100.0), None, None, Some(ex.outcome.value))])
  {
    assert Staged(name, required, prepare, finish).run(params, reply)
        == StagedRun(name, prepare, finish, params, reply);
  }

  /** What the backend sees of a failed script: Running, then Error with the exit
      code and what the script wrote to stderr. */
  lemma FailedScriptIsReported(
      handlers: Handlers, cmd: InboundCommand, required: Capability, prepare: Prepare, finish: Finish, output: Output)
    requires cmd.command in handlers && Has(cmd.role, required)
    requires handlers[cmd.command] == Staged(cmd.command, required, prepare, finish)
    requires prepare(cmd.params).Ok? && output.exitCode != 0
    ensures var states := CommandStates(handlers, cmd, Ok(output));
            && |states| == 2 && states[0].status == Running
            && states[1] == OpRunState(Error, None, None,
                 Some("powershell execution failed: "
                      + ("script exited with code " + IntText(output.exitCode) + ": " + output.stderr)), None)
  {
    ScriptDecides(cmd.command, required, prepare, finish, cmd.params, Ok(output));
    HandlerIsReported(handlers, cmd, Ok(output));
  }

  /** A handler that is reached speaks for itself: its states, and on failure its
      own error, unchanged, as one Error state more. */
  lemma HandlerIsReported(handlers: Handlers, cmd: InboundCommand, reply: Reply)
    requires cmd.command in handlers && Has(cmd.role, handlers[cmd.command].required)
    ensures var ex := handlers[cmd.command].run(cmd.params, reply);
            CommandStates(handlers, cmd, reply) ==
              if ex.outcome.Ok? then ex.states
              else ex.states + [OpRunState(Error, None, None, Some(CommandErrorText(ex.outcome.error)), None)]
  {
  }

  /** The wording of every error. */
  lemma ErrorTexts(name: string, reason: string, code: nat)
    ensures CommandErrorText(MissingParam(name)) == "missing required parameter '" + name + "'"
    ensures CommandErrorText(InvalidParam(name, reason)) == "invalid parameter '" + name + "': " + reason
    ensures CommandErrorText(Shell(Spawn(name, reason))) ==
      "powershell execution failed: " + ("failed to spawn '" + name + "': " + reason)
    ensures CommandErrorText(Shell(TempScript(reason))) ==
      "powershell execution failed: " + ("failed to write temp script file: " + reason)
    ensures DispatchErrorText(Forbidden(name, Guest, VmExecArbitrary)) ==
      "role " + "Guest" + " lacks capability " + "VmExecArbitrary" + " required by '" + name + "'"
  {
  }

  /** A command that is not reached: one Error that names it. */
  lemma RefusalIsReported(handlers: Handlers, cmd: InboundCommand, reply: Reply)
    requires !(cmd.command in handlers && Has(cmd.role, handlers[cmd.command].required))
    ensures CommandStates(handlers, cmd, reply) ==
      [OpRunState(Error, None, None,
         Some(if cmd.command !in handlers then "unknown command '" + cmd.command + "'"
              else "role " + RoleName(cmd.role) + " lacks capability " + CapabilityName(handlers[cmd.command].required)
                   + " required by '" + cmd.command + "'"), None)]
  {
  }

  // ---------- the registry ----------

  type Handlers = map<string, Handler>

  ghost predicate KeyedByName(handlers: Handlers) {
    forall name :: name in handlers ==> handlers[name].name == name
  }

  function DispatchSpec(handlers: Handlers, name: string, role: Role, params: Params, reply: Reply)
    : Execution<DispatchError>
  {
    if name !in handlers then Execution([], [], Err(UnknownCommand(name)))
    else
      var h := handlers[name];
      if !Has(role, h.required) then Execution([], [], Err(Forbidden(name, role, h.required)))
      else
        var ex := h.run(params, reply);
        Execution(ex.states, ex.calls,
                  match ex.outcome case Ok(v) => Ok(v) case Err(e) => Err(Command(e)))
  }

  /** Lexicographic order of names, as `sort_by_key` compares them. */
  predicate Before(a: string, b: string) {
    b != [] && (a == [] || a[0] < b[0] || (a[0] == b[0] && Before(a[1..], b[1..])))
  }

  /** Where two names first differ the smaller character comes first, and a prefix
      comes before what it begins. */
  lemma {:induction false} BeforeExactly(a: string, b: string)
    ensures Before(a, b) <==> exists n: nat :: FirstDifference(a, b, n)
  {
    if Before(a, b) {
      if a == [] || a[0] < b[0] {
        assert FirstDifference(a, b, 0);
      } else {
        BeforeExactly(a[1..], b[1..]);
        var n: nat :| FirstDifference(a[1..], b[1..], n);
        assert a[..n + 1] == [a[0]] + a[1..][..n] && b[..n + 1] == [b[0]] + b[1..][..n];
        assert FirstDifference(a, b, n + 1);
      }
    }
    if n: nat :| FirstDifference(a, b, n) {
      if n > 0 {
        assert a[..n][0] == b[..n][0];
        assert a[..n][1..] == a[1..][..n - 1] && b[..n][1..] == b[1..][..n - 1];
        assert FirstDifference(a[1..], b[1..], n - 1);
        BeforeExactly(a[1..], b[1..]);
      }
    }
  }

  predicate FirstDifference(a: string, b: string, n: nat) {
    n <= |a| && n < |b| && a[..n] == b[..n] && (n == |a| || a[n] < b[n])
  }

  lemma {:induction false} BeforeTransitive(a: string, b: string, c: string)
    requires Before(a, b) && Before(b, c)
    ensures Before(a, c)
  {
    if a != [] && a[0] == b[0] && b[0] == c[0] {
      BeforeTransitive(a[1..], b[1..], c[1..]);
    }
  }

  lemma {:induction false} BeforeTotal(a: string, b: string)
    ensures Before(a, b) || a == b || Before(b, a)
    ensures !(Before(a, b) && Before(b, a)) && !Before(a, a)
  {
    if a != [] && b != [] && a[0] == b[0] {
      BeforeTotal(a[1..], b[1..]);
      assert a == [a[0]] + a[1..] && b == [b[0]] + b[1..];
    }
    if a != [] {
      BeforeTotal(a[1..], a[1..]);
    }
  }

  type Entry = (string, Capability)

  predicate Sorted(entries: seq<Entry>) {
    forall i, j :: 0 <= i < j < |entries| ==> Before(entries[i].0, entries[j].0)
  }

  function EntryOf(h: Handler): Entry { (h.name, h.required) }

  /** Insert in name order. */
  function Insert(e: Entry, entries: seq<Entry>): (r: seq<Entry>)
    requires Sorted(entries) && forall x :: x in entries ==> x.0 != e.0
    ensures Sorted(r)
    ensures forall x :: x in r <==> x == e || x in entries
  {
    if entries == [] then [e]
    else if Before(e.0, entries[0].0) then
      assert forall j {:trigger entries[j]} :: 0 <= j < |entries| ==> Before(e.0, entries[j].0) by {
        forall j | 0 < j < |entries| ensures Before(e.0, entries[j].0) {
          BeforeTransitive(e.0, entries[0].0, entries[j].0);
        }
      }
      [e] + entries
    else
      assert Before(entries[0].0, e.0) by { BeforeTotal(e.0, entries[0].0); }
      var rest := Insert(e, entries[1..]);
      assert forall x :: x in rest ==> x == e || x in entries[1..];
      assert forall x :: x in rest ==> Before(entries[0].0, x.0);
      [entries[0]] + rest
  }

  lemma SomeEntry(entries: seq<Entry>)
    ensures entries == [] || exists x :: x in entries
  {
    assert entries == [] || entries[0] in entries;
  }

  /** A strictly sorted listing is determined by what it lists, so the order in
      which a hash map yields its handlers cannot show. */
  lemma {:induction false} SortedUnique(a: seq<Entry>, b: seq<Entry>)
    requires Sorted(a) && Sorted(b)
    requires forall x :: x in a <==> x in b
    ensures a == b
  {
    if a == [] {
      SomeEntry(b);
    } else {
      assert a[0] in b && b != [] && b[0] in a;
      var i :| 0 <= i < |b| && b[i] == a[0];
      var j :| 0 <= j < |a| && a[j] == b[0];
      BeforeTotal(a[0].0, b[0].0);
      assert i == 0 && a[0] == b[0];
      BeforeTotal(a[0].0, a[0].0);
      forall x ensures x in a[1..] <==> x in b[1..] {
        if x in a[1..] {
          var k :| 1 <= k < |a| && a[k] == x;
          assert x != b[0] && x in b;
        }
        if x in b[1..] {
          var k :| 1 <= k < |b| && b[k] == x;
          assert x != a[0] && x in a;
        }
      }
      SortedUnique(a[1..], b[1..]);
      assert a == [a[0]] + a[1..] && b == [b[0]] + b[1..];
    }
  }

  class CommandRegistry {
    var handlers: Handlers

    constructor ()
      ensures handlers == map[]
    {
      handlers := map[];
    }

    /** A later handler of the same name replaces the earlier one. */
    method Register(h: Handler)
      requires KeyedByName(handlers)
      modifies this
      ensures handlers == old(handlers)[h.name := h]
      ensures KeyedByName(handlers)
    {
      handlers := handlers[h.name := h];
    }

    /** Every dispatchable command with its capability, strictly name-sorted. */
    method Commands() returns (entries: seq<Entry>)
      requires KeyedByName(handlers)
      ensures Sorted(entries)
      ensures forall e :: e in entries <==> e.0 in handlers && e.1 == handlers[e.0].required
    {
      entries := [];
      var todo := handlers.Keys;
      while todo != {}
        invariant todo <= handlers.Keys
        invariant Sorted(entries)
        invariant forall e :: e in entries <==>
          e.0 in handlers.Keys - todo && e.1 == handlers[e.0].required
        decreases |todo|
      {
        var name :| name in todo;
        entries := Insert(EntryOf(handlers[name]), entries);
        todo := todo - {name};
      }
    }

    /** The role is checked before the handler is called; a refused command
        touches neither the sink nor the shell. */
    method Dispatch(name: string, role: Role, params: Params, progress: TaggedProgressSink, shell: MockPowerShell)
      returns (outcome: Result<Value, DispatchError>)
      modifies progress.sender, shell
      ensures var ex := DispatchSpec(handlers, name, role, params, NextReply(old(shell.responses)));
              && outcome == ex.outcome
              && progress.sender.frames == old(progress.sender.frames) + Tagged(progress.jobId, ex.states)
              && shell.calls == old(shell.calls) + ex.calls
              && shell.responses == RepliesAfter(old(shell.responses), |ex.calls|)
      ensures shell.calls != old(shell.calls) ==> name in handlers && Has(role, handlers[name].required)
    {
      assert RepliesAfter(shell.responses, 0) == shell.responses;
      if name !in handlers {
        return Err(UnknownCommand(name));
      }
      var h := handlers[name];
      if !Has(role, h.required) {
        return Err(Forbidden(name, role, h.required));
      }
      var reply := if |shell.responses| == 0 then EMPTY_SUCCESS else shell.responses[0];
      var ex := h.run(params, reply);
      Play(ex.states, ex.calls, progress, shell);
      outcome := match ex.outcome case Ok(v) => Ok(v) case Err(e) => Err(Command(e));
    }
  }

  /** The effects of one execution, on the sink and on the shell. */
  method Play(states: seq<OpRunState>, calls: seq<Call>, progress: TaggedProgressSink, shell: MockPowerShell)
    modifies progress.sender, shell
    ensures progress.sender.frames == old(progress.sender.frames) + Tagged(progress.jobId, states)
    ensures shell.calls == old(shell.calls) + calls
    ensures shell.responses == RepliesAfter(old(shell.responses), |calls|)
  {
    var i := 0;
    while i < |states|
      invariant 0 <= i <= |states|
      invariant progress.sender.frames == old(progress.sender.frames) + Tagged(progress.jobId, states[..i])
      invariant shell.calls == old(shell.calls) && shell.responses == old(shell.responses)
    {
      progress.Report(states[i]);
      assert Tagged(progress.jobId, states[..i + 1])
          == Tagged(progress.jobId, states[..i]) + Tagged(progress.jobId, [states[i]]);
      i := i + 1;
    }
    assert states[..i] == states;
    i := 0;
    while i < |calls|
      invariant 0 <= i <= |calls|
      invariant progress.sender.frames == old(progress.sender.frames) + Tagged(progress.jobId, states)
      invariant shell.calls == old(shell.calls) + calls[..i]
      invariant shell.responses == RepliesAfter(old(shell.responses), i)
    {
      var _ := shell.Run(calls[i].script, calls[i].args);
      assert calls[..i + 1] == calls[..i] + [calls[i]];
      i := i + 1;
    }
    assert calls[..i] == calls;
  }

  // ---------- one inbound command ----------

  datatype InboundCommand = InboundCommand(jobId: string, command: string, params: Params, role: Role)

  /** The states one command enqueues, in order. */
  function CommandStates(handlers: Handlers, cmd: InboundCommand, reply: Reply): seq<OpRunState> {
    var ex := DispatchSpec(handlers, cmd.command, cmd.role, cmd.params, reply);
    match ex.outcome
    case Ok(_) => ex.states
    case Err(e) => ex.states + [ErrorState(DispatchErrorText(e))]
  }

  method HandleCommand(registry: CommandRegistry, shell: MockPowerShell, cmd: InboundCommand, sender: Channel)
    modifies shell, sender
    ensures sender.frames == old(sender.frames)
      + Tagged(cmd.jobId, CommandStates(registry.handlers, cmd, NextReply(old(shell.responses))))
    ensures shell.calls == old(shell.calls)
      + DispatchSpec(registry.handlers, cmd.command, cmd.role, cmd.params, NextReply(old(shell.responses))).calls
  {
    ghost var ex := DispatchSpec(registry.handlers, cmd.command, cmd.role, cmd.params, NextReply(shell.responses));
    var sink := new TaggedProgressSink(cmd.jobId, sender);
    var outcome := registry.Dispatch(cmd.command, cmd.role, cmd.params, sink, shell);
    if outcome.Err? {
      var state := ErrorState(DispatchErrorText(outcome.error));
      sender.Send(OutboundProgress(cmd.jobId, state));
      assert Tagged(cmd.jobId, ex.states + [state])
          == Tagged(cmd.jobId, ex.states) + [OutboundProgress(cmd.jobId, state)];
    }
  }

  /** Exactly one terminal state, at the end. */
  ghost predicate SoleTerminal(states: seq<OpRunState>) {
    && states != []
    && forall i :: 0 <= i < |states| ==> (Terminal(states[i]) <==> i == |states| - 1)
  }

  /** What the backend is owed for one command: one terminal state, last, Done
      with the dispatched value or else an error. */
  ghost predicate WellReported(states: seq<OpRunState>, outcome: Result<Value, DispatchError>) {
    && SoleTerminal(states)
    && var last := states[|states| - 1];
       match outcome
       case Ok(v) => last == DoneState(v)
       case Err(e) => last == ErrorState(DispatchErrorText(e))
  }

  ghost predicate Reaches(handlers: Handlers, cmd: InboundCommand) {
    cmd.command in handlers && Has(cmd.role, handlers[cmd.command].required)
  }

  /** An unknown or forbidden command is always reported properly. One that
      reaches its handler is reported properly exactly when that execution kept
      the contract: nothing here makes up for a handler that does not. */
  lemma ReportedExactlyWhen(handlers: Handlers, cmd: InboundCommand, reply: Reply)
    ensures var ex := DispatchSpec(handlers, cmd.command, cmd.role, cmd.params, reply);
            WellReported(CommandStates(handlers, cmd, reply), ex.outcome) <==>
              (Reaches(handlers, cmd) ==> WellBehaved(handlers[cmd.command].run(cmd.params, reply)))
    ensures !Reaches(handlers, cmd) ==>
      && |CommandStates(handlers, cmd, reply)| == 1
      && DispatchSpec(handlers, cmd.command, cmd.role, cmd.params, reply).calls == []
  {
    var states := CommandStates(handlers, cmd, reply);
    if Reaches(handlers, cmd) {
      var ex := handlers[cmd.command].run(cmd.params, reply);
      var n := |ex.states|;
      if ex.outcome.Err? {
        assert states[..n] == ex.states && Terminal(states[n]);
        assert forall i :: 0 <= i < n ==> states[i] == ex.states[i];
      } else {
        assert states == ex.states;
      }
    }
  }

  /** With conforming handlers every command of every role is reported properly,
      whatever its parameters and whatever the shell answers. */
  lemma EveryCommandReportsOnce(handlers: Handlers, cmd: InboundCommand, reply: Reply)
    requires forall name :: name in handlers ==> Conforms(handlers[name])
    ensures WellReported(CommandStates(handlers, cmd, reply),
                         DispatchSpec(handlers, cmd.command, cmd.role, cmd.params, reply).outcome)
  {
    ReportedExactlyWhen(handlers, cmd, reply);
  }

  /** One Error, or Running and then Error, or Running and then Done with the
      dispatched value; alone exactly when the shell was not called. */
  ghost predicate ThreeShapes(states: seq<OpRunState>, ex: Execution<DispatchError>) {
    && 1 <= |states| <= 2
    && (|states| == 2 ==> states[0].status == Running && |ex.calls| == 1)
    && (|states| == 1 ==> ex.outcome.Err? && ex.calls == [])
    && states[|states| - 1] ==
         match ex.outcome
         case Ok(v) => DoneState(v)
         case Err(e) => ErrorState(DispatchErrorText(e))
  }

  lemma StagedShapes(handlers: Handlers, cmd: InboundCommand, reply: Reply)
    requires forall name :: name in handlers ==> InStages(handlers[name])
    ensures ThreeShapes(CommandStates(handlers, cmd, reply),
                        DispatchSpec(handlers, cmd.command, cmd.role, cmd.params, reply))
  {
    if Reaches(handlers, cmd) {
      var ex := handlers[cmd.command].run(cmd.params, reply);
      assert ThreeWays(ex);
    }
  }

  /** Whatever a guest is allowed to do, an operator does identically; and a
      guest is refused exactly the capabilities outside the guest set. */
  lemma OperatorSubsumesGuest(handlers: Handlers, name: string, params: Params, reply: Reply)
    ensures var guest := DispatchSpec(handlers, name, Guest, params, reply);
            var operator := DispatchSpec(handlers, name, Operator, params, reply);
            && !(operator.outcome.Err? && operator.outcome.error.Forbidden?)
            && (guest == operator || guest == Execution([], [], Err(Forbidden(name, Guest, handlers[name].required))))
            && (guest != operator ==>
                  && name in handlers
                  && handlers[name].required in {VmUpdate, VmPower, ConfigGenerate, VmExecArbitrary})
            && (name in handlers && handlers[name].required in {VmUpdate, VmPower, ConfigGenerate, VmExecArbitrary} ==>
                  guest == Execution([], [], Err(Forbidden(name, Guest, handlers[name].required))))
  {
    if name in handlers {
      var cap := handlers[name].required;
      OperatorHasEverything(cap);
      if cap !in {VmUpdate, VmPower, ConfigGenerate, VmExecArbitrary} {
        var g := Capabilities(Guest);
        assert cap == g[0] || cap == g[1] || cap == g[2] || cap == g[3] || cap == g[4] || cap == g[5];
      }
    }
  }

  // ---------- whole sessions ----------

  datatype Request =
    | Registration(h: Handler)
    | Dispatching(name: string, role: Role, params: Params, reply: Reply)

  /** One shell call together with who was allowed to cause it. */
  datatype Granted = Granted(role: Role, required: Capability, call: Call)

  datatype Session = Session(handlers: Handlers, log: seq<Granted>)

  function Grants(role: Role, required: Capability, calls: seq<Call>): seq<Granted> {
    seq(|calls|, i requires 0 <= i < |calls| => Granted(role, required, calls[i]))
  }

  function SessionAfter(requests: seq<Request>): Session {
    if requests == [] then Session(map[], [])
    else
      var s := SessionAfter(requests[..|requests| - 1]);
      match requests[|requests| - 1]
      case Registration(h) => Session(s.handlers[h.name := h], s.log)
      case Dispatching(name, role, params, reply) =>
        var ex := DispatchSpec(s.handlers, name, role, params, reply);
        if name in s.handlers
        then Session(s.handlers, s.log + Grants(role, s.handlers[name].required, ex.calls))
        else s
  }

  /** The last registration under a name, read off the request sequence. */
  function LastRegistered(requests: seq<Request>, name: string): Option<Handler> {
    if requests == [] then None
    else
      var last := requests[|requests| - 1];
      if last.Registration? && last.h.name == name then Some(last.h)
      else LastRegistered(requests[..|requests| - 1], name)
  }

  /** Over every sequence of registrations and dispatches: a command resolves to
      the last handler registered under that name, and every call that reached
      the shell was made under a role holding the capability it required. */
  lemma {:induction false} SessionsAreGated(requests: seq<Request>)
    ensures var s := SessionAfter(requests);
            && KeyedByName(s.handlers)
            && (forall name :: LastRegistered(requests, name) ==
                  if name in s.handlers then Some(s.handlers[name]) else None)
            && (forall g :: g in s.log ==> Has(g.role, g.required))
            && (forall g :: g in s.log && g.role == Guest ==>
                  g.required !in {VmUpdate, VmPower, ConfigGenerate, VmExecArbitrary})
  {
    if requests != [] {
      SessionsAreGated(requests[..|requests| - 1]);
    }
  }
}
