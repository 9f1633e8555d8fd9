/** The phone-home client as it runs: mutable queue, parking slot, attempt
    counter and clock, driven by what the network and the workers do. */
module PhoneHome {
  import opened Prelude
  import opened Backoff
  import opened Delivery
  import Registry
  import opened Report
  import PowerShell

  /** One connection attempt as the environment decides it: workers reporting
      meanwhile, whether it opens, how the flush goes, and what then happens. */
  datatype Connection = Connection(early: seq<nat>, accepted: bool, flush: Write, events: seq<Label>)

  /** One supervisor iteration: the attempt, how long it took, and the workers
      that report while the agent sleeps. */
  datatype Round = Round(connection: Connection, elapsed: Seconds, asleep: seq<nat>)

  // ---------- the same, as functions ----------

  function Reports(workers: seq<nat>): (labels: seq<Label>)
    ensures |labels| == |workers|
  {
    seq(|workers|, i requires 0 <= i < |workers| => WorkerReport(workers[i]))
  }

  function EndOf(l: Label): End {
    if l == Select(ReadSuperseded) then Superseded
    else if l == Select(ReadError) then Failed
    else Normal
  }

  /** The select loop until the connection ends; a stream that yields nothing
      more has ended. */
  function Serve(w: World, s: State, events: seq<Label>): (State, End)
    decreases |events|
  {
    if events == [] then (s.(link := Down), Normal)
    else
      var s' := Step(w, s, events[0]);
      if s'.link == Down then (s', EndOf(events[0])) else Serve(w, s', events[1..])
  }

  function Attempt(w: World, s: State, c: Connection): (State, End) {
    var s0 := After(w, s, Reports(c.early));
    if !c.accepted then (s0, Failed)
    else
      var s1 := After(w, s0, [Connected, FlushPending(c.flush)]);
      if s1.link == Down then (s1, Normal) else Serve(w, s1, c.events)
  }

  function OneRound(w: World, s: State, sup: Supervisor, round: Round): (State, Supervisor) {
    var (s', end) := Attempt(w, s, round.connection);
    (After(w, s', Reports(round.asleep)), Supervise(sup, Iteration(round.elapsed, end)))
  }

  function Lifetime(w: World, s: State, sup: Supervisor, rounds: seq<Round>): (State, Supervisor) {
    if rounds == [] then (s, sup)
    else
      var (s1, sup1) := Lifetime(w, s, sup, rounds[..|rounds| - 1]);
      OneRound(w, s1, sup1, rounds[|rounds| - 1])
  }

  // ---------- refinement ----------

  lemma AfterOne(w: World, s: State, l: Label)
    ensures After(w, s, [l]) == Step(w, s, l)
  {
    assert After(w, s, [l]) == After(w, Step(w, s, l), [l][1..]);
  }

  lemma {:induction false} ServeIsARun(w: World, s: State, events: seq<Label>) returns (trace: seq<Label>)
    requires s.link == Up
    ensures After(w, s, trace) == Serve(w, s, events).0
    ensures Serve(w, s, events).0.link == Down
    decreases |events|
  {
    if events == [] {
      trace := [Select(ReadEnd)];
      AfterOne(w, s, Select(ReadEnd));
    } else {
      var s' := Step(w, s, events[0]);
      AfterOne(w, s, events[0]);
      if s'.link == Down {
        trace := [events[0]];
      } else {
        var rest := ServeIsARun(w, s', events[1..]);
        trace := [events[0]] + rest;
        AfterAppend(w, s, [events[0]], rest);
      }
    }
  }

  lemma {:induction false} ReportsKeepLink(w: World, s: State, workers: seq<nat>)
    ensures After(w, s, Reports(workers)).link == s.link
    ensures After(w, s, Reports(workers)).pending == s.pending
    decreases |workers|
  {
    if workers != [] {
      assert Reports(workers)[1..] == Reports(workers[1..]);
      ReportsKeepLink(w, Step(w, s, WorkerReport(workers[0])), workers[1..]);
    }
  }

  /** One attempt, from down to down, is a run of the delivery system. */
  lemma AttemptIsARun(w: World, s: State, c: Connection) returns (trace: seq<Label>)
    requires s.link == Down
    ensures After(w, s, trace) == Attempt(w, s, c).0
    ensures Attempt(w, s, c).0.link == Down
  {
    var early := Reports(c.early);
    var s0 := After(w, s, early);
    ReportsKeepLink(w, s, c.early);
    if !c.accepted {
      trace := early;
    } else {
      var open := [Connected, FlushPending(c.flush)];
      var s1 := After(w, s0, open);
      AfterAppend(w, s, early, open);
      OpenLeavesDecided(w, s0, c.flush);
      if s1.link == Down {
        trace := early + open;
      } else {
        var rest := ServeIsARun(w, s1, c.events);
        AfterAppend(w, s, early + open, rest);
        trace := early + open + rest;
      }
    }
  }

  lemma OpenLeavesDecided(w: World, s: State, flush: Write)
    requires s.link == Down
    ensures After(w, s, [Connected, FlushPending(flush)]).link != Flushing
  {
    var s1 := Step(w, s, Connected);
    assert [Connected, FlushPending(flush)][1..] == [FlushPending(flush)];
    AfterOne(w, s1, FlushPending(flush));
  }

  lemma {:induction false} LifetimeIsARun(w: World, s: State, sup: Supervisor, rounds: seq<Round>)
    returns (trace: seq<Label>)
    requires s.link == Down
    ensures After(w, s, trace) == Lifetime(w, s, sup, rounds).0
    ensures Lifetime(w, s, sup, rounds).0.link == Down
  {
    if rounds == [] {
      trace := [];
    } else {
      var n := |rounds| - 1;
      var before := LifetimeIsARun(w, s, sup, rounds[..n]);
      var s1 := Lifetime(w, s, sup, rounds[..n]).0;
      var attempt := AttemptIsARun(w, s1, rounds[n].connection);
      var s2 := Attempt(w, s1, rounds[n].connection).0;
      var asleep := Reports(rounds[n].asleep);
      ReportsKeepLink(w, s2, rounds[n].asleep);
      AfterAppend(w, s, before, attempt);
      AfterAppend(w, s, before + attempt, asleep);
      trace := before + attempt + asleep;
    }
  }

  /** The iterations a lifetime goes through, for the supervisor's arithmetic. */
  function Iterations(w: World, s: State, sup: Supervisor, rounds: seq<Round>): (its: seq<Iteration>)
    ensures |its| == |rounds|
  {
    if rounds == [] then []
    else
      var n := |rounds| - 1;
      var s1 := Lifetime(w, s, sup, rounds[..n]).0;
      Iterations(w, s, sup, rounds[..n])
      + [Iteration(rounds[n].elapsed, Attempt(w, s1, rounds[n].connection).1)]
  }

  lemma {:induction false} LifetimeSupervises(w: World, s: State, sup: Supervisor, rounds: seq<Round>)
    ensures Lifetime(w, s, sup, rounds).1 == SuperviseAll(sup, Iterations(w, s, sup, rounds))
  {
    if rounds != [] {
      var n := |rounds| - 1;
      LifetimeSupervises(w, s, sup, rounds[..n]);
      var its := Iterations(w, s, sup, rounds);
      assert its[..n] == Iterations(w, s, sup, rounds[..n]);
    }
  }

  lemma LifetimeTakesTime(w: World, s: State, sup: Supervisor, rounds: seq<Round>)
    ensures Lifetime(w, s, sup, rounds).1.clock - sup.clock >= 19.5 * (|rounds| as real) - 60.0
  {
    LifetimeSupervises(w, s, sup, rounds);
    AmortisedBound(sup, Iterations(w, s, sup, rounds));
  }

  // ---------- the client ----------

  class Client {
    const world: World
    var queue: seq<Item>
    var pending: Option<Item>
    var workers: seq<Worker>
    var attempt: nat
    var clock: real
    ghost var link: Link
    ghost var enqueued: seq<Item>
    ghost var attempted: seq<Item>
    ghost var received: seq<Item>
    ghost var written: seq<Item>
    var serial: nat

    ghost predicate Valid()
      reads this
    {
      serial == |enqueued|
    }

    ghost function View(): State
      reads this
    {
      State(link, pending, queue, workers, enqueued, attempted, received, written)
    }

    constructor (world: World)
      ensures Valid() && View() == INIT && attempt == 0 && clock == 0.0 && this.world == world
    {
      this.world := world;
      queue, pending, workers, serial := [], None, [], 0;
      attempt, clock := 0, 0.0;
      link, enqueued, attempted, received, written := Down, [], [], [], [];
    }

    /** A worker puts its next state into the channel. */
    method Report(k: nat)
      requires Valid()
      modifies this`queue, this`workers, this`enqueued, this`serial
      ensures Valid() && View() == Step(world, old(View()), WorkerReport(k))
    {
      if k < |workers| {
        var worker := workers[k];
        var states := Registry.CommandStates(world.handlers, worker.cmd, worker.reply);
        if worker.sent < |states| {
          var item := Item(serial, k, OutboundProgress(worker.cmd.jobId, states[worker.sent]));
          queue := queue + [item];
          enqueued := enqueued + [item];
          workers := workers[k := worker.(sent := worker.sent + 1)];
          serial := serial + 1;
        }
      }
    }

    method ReportAll(ks: seq<nat>)
      requires Valid()
      modifies this`queue, this`workers, this`enqueued, this`serial
      ensures Valid() && View() == After(world, old(View()), Reports(ks))
    {
      var i := 0;
      while i < |ks|
        invariant 0 <= i <= |ks| && Valid()
        invariant After(world, View(), Reports(ks[i..])) == After(world, old(View()), Reports(ks))
      {
        assert Reports(ks[i..])[1..] == Reports(ks[i + 1..]);
        Report(ks[i]);
        i := i + 1;
      }
    }

    /** Send one frame; on a failed write park it for the next connection. */
    method SendProgress(item: Item, write: Write) returns (usable: bool)
      requires Valid()
      modifies this`pending, this`attempted, this`received, this`written
      ensures Valid() && (View(), usable) == Delivery.SendProgress(world, old(View()), item, write)
    {
      if !world.serializes(item.frame) {
        return true;
      }
      attempted := attempted + [item];
      received := if write.reached then received + [item] else received;
      if write.Lost? {
        pending := Some(item);
        return false;
      }
      written := written + [item];
      return true;
    }

    /** Connect, deliver the parked frame first, then serve the select loop. */
    method ConnectOnce(c: Connection) returns (end: End)
      requires Valid() && link == Down
      modifies this`queue, this`pending, this`workers, this`serial,
               this`link, this`enqueued, this`attempted, this`received, this`written
      ensures Valid() && (View(), end) == Attempt(world, old(View()), c)
      ensures link == Down
    {
      ghost var trace := AttemptIsARun(world, View(), c);
      ReportAll(c.early);
      if !c.accepted {
        return Failed;
      }
      ghost var s0 := View();
      assert After(world, s0, [Connected, FlushPending(c.flush)])
          == Step(world, Step(world, s0, Connected), FlushPending(c.flush)) by {
        assert [Connected, FlushPending(c.flush)][1..] == [FlushPending(c.flush)];
        AfterOne(world, Step(world, s0, Connected), FlushPending(c.flush));
      }
      if pending.Some? {
        var item := pending.value;
        pending := None;
        var usable := SendProgress(item, c.flush);
        if !usable {
          return Normal;
        }
      }
      link := Up;
      end := ServeLoop(c.events);
    }

    method ServeLoop(events: seq<Label>) returns (end: End)
      requires Valid() && link == Up
      modifies this`queue, this`pending, this`workers, this`serial,
               this`link, this`enqueued, this`attempted, this`received, this`written
      ensures Valid() && (View(), end) == Serve(world, old(View()), events)
    {
      var i := 0;
      while i < |events|
        invariant 0 <= i <= |events| && Valid() && link == Up
        invariant Serve(world, View(), events[i..]) == Serve(world, old(View()), events)
      {
        assert events[i..][0] == events[i] && events[i..][1..] == events[i + 1..];
        match events[i] {
          case WorkerReport(k) => Report(k);
          case Select(Recv(write)) =>
            if queue != [] {
              var item := queue[0];
              queue := queue[1..];
              var usable := SendProgress(item, write);
              if !usable {
                link := Down;
                return Normal;
              }
            }
          case Select(ReadCommand(cmd, reply)) =>
            workers := workers + [Worker(cmd, reply, 0)];
          case Select(ReadSuperseded) =>
            link := Down;
            return Superseded;
          case Select(ReadEnd) =>
            link := Down;
            return Normal;
          case Select(ReadError) =>
            link := Down;
            return Failed;
          case Select(Ping(write)) =>
            if write.Lost? {
              link := Down;
              return Normal;
            }
          case _ =>
        }
        i := i + 1;
      }
      link := Down;
      return Normal;
    }

    /** One attempt, then the sleep that follows it. */
    method Iterate(round: Round)
      requires Valid() && link == Down
      modifies this
      ensures Valid() && link == Down
      ensures (View(), Supervisor(attempt, clock))
           == OneRound(world, old(View()), old(Supervisor(attempt, clock)), round)
    {
      var started := clock;
      var end := ConnectOnce(round.connection);
      clock := clock + round.elapsed;
      ReportsKeepLink(world, View(), round.asleep);
      if clock - started >= HEALTHY_CONNECTION {
        attempt := 0;
      }
      var delay := SUPERSEDED_DELAY;
      if end != Superseded {
        delay := Delay(attempt);
        attempt := attempt + 1;
      }
      ReportAll(round.asleep);
      clock := clock + delay;
    }

    /** Connect, serve, back off, again. Stated for any number of rounds: the
        client is the delivery system driven by the supervisor, and its rounds
        cannot come faster than the amortised rate. */
    method RunForever(rounds: seq<Round>)
      requires Valid() && link == Down
      modifies this
      ensures Valid() && link == Down
      ensures (View(), Supervisor(attempt, clock))
           == Lifetime(world, old(View()), old(Supervisor(attempt, clock)), rounds)
      ensures clock - old(clock) >= 19.5 * (|rounds| as real) - 60.0
    {
      ghost var sup0 := Supervisor(attempt, clock);
      ghost var s0 := View();
      var i := 0;
      while i < |rounds|
        invariant 0 <= i <= |rounds| && Valid() && link == Down
        invariant (View(), Supervisor(attempt, clock)) == Lifetime(world, s0, sup0, rounds[..i])
      {
        assert rounds[..i + 1][..i] == rounds[..i];
        Iterate(rounds[i]);
        i := i + 1;
      }
      assert rounds[..i] == rounds;
      LifetimeTakesTime(world, s0, sup0, rounds);
    }
  }

  /** What a fresh client guarantees about its channel after any number of
      rounds, whatever network and workers did: the delivery results apply to it. */
  lemma ClientDelivers(w: World, rounds: seq<Round>)
    ensures var s := Lifetime(w, INIT, FRESH, rounds).0;
            && Sendable(w, s.enqueued) == s.written + Slot(s.pending) + Sendable(w, s.queue)
            && Collapse(s.attempted) == s.written + Slot(s.pending)
            && Collapse(s.received) == Only(s.written + Slot(s.pending), s.received)
  {
    var trace := LifetimeIsARun(w, INIT, FRESH, rounds);
    InOrderAtLeastOnce(w, trace);
  }
}
