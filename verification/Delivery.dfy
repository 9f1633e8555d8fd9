/** Delivery of progress frames as a transition system: workers feed one FIFO,
    one connection at a time drains it, and a frame whose write failed waits in
    a one-slot park for the next connection. */
module Delivery {
  import opened Prelude
  import opened Report
  import opened Registry
  import PowerShell

  // ---------- state ----------

  /** A frame in flight. Serial (place in enqueue order) and instance (which
      command run produced it) are bookkeeping; only the frame is on the wire. */
  datatype Item = Item(serial: nat, instance: nat, frame: OutboundProgress)

  /** A blocking worker: its command, what the shell answers it, and how many of
      its states it has reported so far. */
  datatype Worker = Worker(cmd: InboundCommand, reply: PowerShell.Reply, sent: nat)

  /** Down: between connections. Flushing: connected, parked frame first.
      Up: in the select loop. */
  datatype Link = Down | Flushing | Up

  datatype State = State(
    link: Link,
    pending: Option<Item>,
    queue: seq<Item>,
    workers: seq<Worker>,
    enqueued: seq<Item>,   // every item ever put in the channel
    attempted: seq<Item>,  // every write tried
    received: seq<Item>,   // every frame that reached the peer, each time it did
    written: seq<Item>)    // every write that reported success

  const INIT := State(Down, None, [], [], [], [], [], [])

  /** The handlers in force, and which frames serialize. */
  datatype World = World(handlers: Handlers, serializes: OutboundProgress -> bool)

  /** Everything the command of this worker reports, start to end. */
  function Script(w: World, worker: Worker): seq<OpRunState> {
    CommandStates(w.handlers, worker.cmd, worker.reply)
  }

  predicate MayReport(w: World, s: State, k: nat) {
    k < |s.workers| && s.workers[k].sent < |Script(w, s.workers[k])|
  }

  // ---------- steps ----------

  /** A write is reported as done or as failed; either way the frame may have
      reached the peer or have been lost with the socket. */
  datatype Write = Sent(reached: bool) | Lost(reached: bool)

  /** What the select loop can wake up to. */
  datatype Arm =
    | Recv(write: Write)
    | ReadCommand(cmd: InboundCommand, reply: PowerShell.Reply)
    | ReadOther
    | ReadSuperseded
    | ReadEnd
    | ReadError
    | Ping(write: Write)

  datatype Label =
    | WorkerReport(worker: nat)
    | Refused
    | Connected
    | FlushPending(write: Write)
    | Select(arm: Arm)

  /** Serialize and send one frame. An unserializable frame is dropped; a failed
      write parks the frame. The flag says whether the connection is usable. */
  function SendProgress(w: World, s: State, item: Item, write: Write): (State, bool) {
    if !w.serializes(item.frame) then (s, true)
    else
      var tried := s.(attempted := s.attempted + [item],
                      received := if write.reached then s.received + [item] else s.received);
      match write
      case Sent(_) => (tried.(written := s.written + [item]), true)
      case Lost(_) => (tried.(pending := Some(item)), false)
  }

  function NextItem(w: World, s: State, k: nat): Item
    requires MayReport(w, s, k)
  {
    var worker := s.workers[k];
    Item(|s.enqueued|, k, OutboundProgress(worker.cmd.jobId, Script(w, worker)[worker.sent]))
  }

  function Enqueue(w: World, s: State, k: nat): State
    requires MayReport(w, s, k)
  {
    var item := NextItem(w, s, k);
    s.(queue := s.queue + [item], enqueued := s.enqueued + [item],
       workers := s.workers[k := s.workers[k].(sent := s.workers[k].sent + 1)])
  }

  function Spawn(s: State, cmd: InboundCommand, reply: PowerShell.Reply): State {
    s.(workers := s.workers + [Worker(cmd, reply, 0)])
  }

  /** One arm of the select loop. */
  function SelectStep(w: World, s: State, arm: Arm): State {
    match arm
    case Recv(write) =>
      if s.queue == [] then s
      else
        var (s', usable) := SendProgress(w, s.(queue := s.queue[1..]), s.queue[0], write);
        if usable then s' else s'.(link := Down)
    case ReadCommand(cmd, reply) => Spawn(s, cmd, reply)
    case ReadOther => s
    case ReadSuperseded | ReadEnd | ReadError => s.(link := Down)
    case Ping(write) => if write.Sent? then s else s.(link := Down)
  }

  /** A label that is not enabled leaves the state as it is, so every label
      sequence whatever is a run, and every run is a label sequence. */
  function Step(w: World, s: State, l: Label): State {
    match l
    case WorkerReport(k) =>
      if MayReport(w, s, k) then Enqueue(w, s, k) else s
    case Refused => s
    case Connected =>
      if s.link != Down then s else s.(link := if s.pending.Some? then Flushing else Up)
    case FlushPending(write) =>
      if s.link != Flushing || s.pending.None? then s
      else
        var (s', usable) := SendProgress(w, s.(pending := None), s.pending.value, write);
        s'.(link := if usable then Up else Down)
    case Select(arm) => if s.link != Up then s else SelectStep(w, s, arm)
  }

  function After(w: World, s: State, labels: seq<Label>): State
    decreases |labels|
  {
    if labels == [] then s else After(w, Step(w, s, labels[0]), labels[1..])
  }

  lemma {:induction false} AfterAppend(w: World, s: State, a: seq<Label>, b: seq<Label>)
    ensures After(w, s, a + b) == After(w, After(w, s, a), b)
    decreases |a|
  {
    if a == [] {
      assert a + b == b;
    } else {
      assert (a + b)[1..] == a[1..] + b;
      AfterAppend(w, Step(w, s, a[0]), a[1..], b);
    }
  }

  // ---------- reading the logs ----------

  /** The items whose frame serializes. */
  function Sendable(w: World, items: seq<Item>): seq<Item> {
    if items == [] then []
    else
      var last := items[|items| - 1];
      Sendable(w, items[..|items| - 1]) + if w.serializes(last.frame) then [last] else []
  }

  function Slot(pending: Option<Item>): seq<Item> {
    match pending case None => [] case Some(item) => [item]
  }

  /** Adjacent repeats of one item collapsed to one. */
  function Collapse(items: seq<Item>): seq<Item> {
    if items == [] then []
    else
      var n := |items| - 1;
      if n > 0 && items[n - 1] == items[n] then Collapse(items[..n])
      else Collapse(items[..n]) + [items[n]]
  }

  /** The items that are also in the pool. */
  function Only(items: seq<Item>, pool: seq<Item>): seq<Item> {
    if items == [] then []
    else
      var last := items[|items| - 1];
      Only(items[..|items| - 1], pool) + if last in pool then [last] else []
  }

  /** The frames one command instance contributed. */
  function Of(instance: nat, items: seq<Item>): seq<OutboundProgress> {
    if items == [] then []
    else
      var last := items[|items| - 1];
      Of(instance, items[..|items| - 1]) + if last.instance == instance then [last.frame] else []
  }

  lemma {:induction false} SendableAppend(w: World, a: seq<Item>, b: seq<Item>)
    ensures Sendable(w, a + b) == Sendable(w, a) + Sendable(w, b)
  {
    if b == [] {
      assert a + b == a;
    } else {
      var n := |b| - 1;
      assert (a + b)[..|a + b| - 1] == a + b[..n];
      SendableAppend(w, a, b[..n]);
    }
  }

  lemma SendableOne(w: World, item: Item)
    ensures Sendable(w, [item]) == if w.serializes(item.frame) then [item] else []
  {
    assert [item][..0] == [];
  }

  lemma CollapseOne(items: seq<Item>, item: Item)
    ensures Collapse(items + [item]) ==
      if items != [] && items[|items| - 1] == item then Collapse(items) else Collapse(items) + [item]
  {
    assert (items + [item])[..|items|] == items;
  }

  lemma {:induction false} CollapseLast(items: seq<Item>)
    ensures (items == []) == (Collapse(items) == [])
    ensures items != [] ==> Collapse(items)[|Collapse(items)| - 1] == items[|items| - 1]
  {
    if items != [] {
      CollapseLast(items[..|items| - 1]);
    }
  }

  lemma OfOne(instance: nat, items: seq<Item>, item: Item)
    ensures Of(instance, items + [item]) ==
      Of(instance, items) + if item.instance == instance then [item.frame] else []
  {
    assert (items + [item])[..|items|] == items;
  }

  lemma OnlyOne(items: seq<Item>, item: Item, pool: seq<Item>)
    ensures Only(items + [item], pool) == Only(items, pool) + if item in pool then [item] else []
  {
    assert (items + [item])[..|items|] == items;
  }

  lemma {:induction false} OnlyIgnores(items: seq<Item>, pool: seq<Item>, item: Item)
    requires item !in items
    ensures Only(items, pool + [item]) == Only(items, pool)
  {
    if items != [] {
      OnlyIgnores(items[..|items| - 1], pool, item);
    }
  }

  lemma {:induction false} OnlyAll(items: seq<Item>, pool: seq<Item>)
    requires forall x :: x in items ==> x in pool
    ensures Only(items, pool) == items
  {
    if items != [] {
      var front := items[..|items| - 1];
      OnlyAll(front, pool);
      assert items == front + [items[|items| - 1]];
    }
  }

  lemma {:induction false} OnlyAscending(items: seq<Item>, pool: seq<Item>)
    requires Ascending(items)
    ensures Ascending(Only(items, pool))
    ensures forall x :: x in Only(items, pool) ==> x in items
  {
    if items != [] {
      var front := items[..|items| - 1];
      OnlyAscending(front, pool);
      forall x | x in Only(front, pool) ensures x.serial < items[|items| - 1].serial {
        assert x in front;
      }
    }
  }

  ghost predicate Ascending(items: seq<Item>) {
    forall i, j :: 0 <= i < j < |items| ==> items[i].serial < items[j].serial
  }

  lemma {:induction false} SendableAscending(w: World, items: seq<Item>)
    requires Ascending(items)
    ensures Ascending(Sendable(w, items))
    ensures forall x :: x in Sendable(w, items) ==> x in items && w.serializes(x.frame)
  {
    if items != [] {
      var front := items[..|items| - 1];
      SendableAscending(w, front);
      forall x | x in Sendable(w, front) ensures x.serial < items[|items| - 1].serial {
        assert x in front;
      }
    }
  }

  // ---------- the invariant ----------

  /** Exact accounting: what was enqueued (and can be sent) is what was written,
      then what is parked, then what is queued, in enqueue order. */
  ghost predicate Accounted(w: World, s: State) {
    && Sendable(w, s.enqueued) == s.written + Slot(s.pending) + Sendable(w, s.queue)
    && (forall i :: 0 <= i < |s.enqueued| ==> s.enqueued[i].serial == i)
  }

  /** A parked frame serializes, and there is none while the select loop runs. */
  ghost predicate SlotFree(w: World, s: State) {
    && (s.pending.Some? ==> w.serializes(s.pending.value.frame))
    && (s.link == Up ==> s.pending.None?)
    && (s.link == Flushing ==> s.pending.Some?)
  }

  /** What has been tried: the written frames and then the parked one. */
  function Tried(s: State): seq<Item> { s.written + Slot(s.pending) }

  /** Up to adjacent repeats, the attempts are exactly the tried frames, and the
      peer has been reached by some of them, in order. */
  ghost predicate Stuttering(s: State) {
    Collapse(s.attempted) == Tried(s) && Heard(Tried(s), s.received)
  }

  ghost predicate Heard(tried: seq<Item>, received: seq<Item>) {
    (forall x :: x in received ==> x in tried) && Collapse(received) == Only(tried, received)
  }

  /** Each instance has enqueued exactly the first `sent` states of its command. */
  ghost predicate PerInstance(w: World, s: State) {
    && (forall k :: 0 <= k < |s.workers| ==>
          && s.workers[k].sent <= |Script(w, s.workers[k])|
          && Of(k, s.enqueued) == Reported(w, s.workers[k]))
    && (forall i :: 0 <= i < |s.enqueued| ==> s.enqueued[i].instance < |s.workers|)
  }

  /** The frames a worker has reported so far. */
  function Reported(w: World, worker: Worker): seq<OutboundProgress>
    requires worker.sent <= |Script(w, worker)|
  {
    Tagged(worker.cmd.jobId, Script(w, worker)[..worker.sent])
  }

  ghost predicate Inv(w: World, s: State) {
    Accounted(w, s) && SlotFree(w, s) && Stuttering(s) && PerInstance(w, s)
  }

  lemma OfNone(instance: nat, items: seq<Item>)
    requires forall i :: 0 <= i < |items| ==> items[i].instance != instance
    ensures Of(instance, items) == []
  {
  }

  /** What leaves next: the parked frame if there is one, else the queue's head. */
  predicate HasNext(s: State) { s.pending.Some? || s.queue != [] }

  function NextOut(s: State): Item
    requires HasNext(s)
  {
    if s.pending.Some? then s.pending.value else s.queue[0]
  }

  function Taken(s: State): State
    requires HasNext(s)
  {
    if s.pending.Some? then s.(pending := None) else s.(queue := s.queue[1..])
  }

  /** The queue behind what leaves next. */
  function Behind(s: State): seq<Item>
    requires HasNext(s)
  {
    if s.pending.Some? then s.queue else s.queue[1..]
  }

  lemma SendableHead(w: World, queue: seq<Item>)
    requires queue != []
    ensures Sendable(w, queue) ==
      (if w.serializes(queue[0].frame) then [queue[0]] else []) + Sendable(w, queue[1..])
  {
    assert queue == [queue[0]] + queue[1..];
    SendableAppend(w, [queue[0]], queue[1..]);
    SendableOne(w, queue[0]);
  }

  lemma AscendingCut(front: seq<Item>, item: Item, back: seq<Item>)
    requires Ascending(front + ([item] + back))
    ensures item !in front
  {
    var all := front + ([item] + back);
    assert all[|front|] == item;
    forall i | 0 <= i < |front| ensures front[i] != item { assert all[i] == front[i]; }
  }

  /** The sendable frames not yet written, as next-out followed by the rest. */
  lemma NextInOrder(w: World, s: State)
    requires HasNext(s) && w.serializes(NextOut(s).frame)
    ensures s.written + Slot(s.pending) + Sendable(w, s.queue)
         == s.written + ([NextOut(s)] + Sendable(w, Behind(s)))
  {
    if s.pending.None? {
      SendableHead(w, s.queue);
    }
  }

  /** What leaves next has not been written before. */
  lemma NextIsFresh(w: World, s: State)
    requires Accounted(w, s) && HasNext(s) && w.serializes(NextOut(s).frame)
    ensures NextOut(s) !in s.written
  {
    assert Ascending(s.enqueued);
    SendableAscending(w, s.enqueued);
    NextInOrder(w, s);
    AscendingCut(s.written, NextOut(s), Sendable(w, Behind(s)));
  }

  function SendNext(w: World, s: State, write: Write): (State, bool)
    requires HasNext(s)
  {
    SendProgress(w, Taken(s), NextOut(s), write)
  }

  lemma SendAccounts(w: World, s: State, write: Write)
    requires Accounted(w, s) && HasNext(s)
    requires s.pending.Some? ==> w.serializes(s.pending.value.frame)
    ensures Accounted(w, SendNext(w, s, write).0)
  {
    if s.pending.None? {
      SendableHead(w, s.queue);
    }
    var s' := SendNext(w, s, write).0;
    assert s'.written + Slot(s'.pending) + Sendable(w, s'.queue)
        == s.written + Slot(s.pending) + Sendable(w, s.queue);
  }

  /** Logging an attempt at what comes next: new at the end of the collapsed
      log, or a repeat of its last entry. */
  lemma LogNext(log: seq<Item>, front: seq<Item>, item: Item)
    requires Collapse(log) == front || Collapse(log) == front + [item]
    requires item !in front
    ensures Collapse(log + [item]) == front + [item]
  {
    CollapseOne(log, item);
    CollapseLast(log);
  }

  /** A try at the item after `front`, first or repeated, which may get through. */
  lemma HeardNext(front: seq<Item>, tried: seq<Item>, item: Item, received: seq<Item>, reached: bool)
    requires item !in front && (tried == front || tried == front + [item]) && Heard(tried, received)
    ensures Heard(front + [item], if reached then received + [item] else received)
  {
    OnlyOne(front, item, received);
    OnlyOne(front, item, received + [item]);
    OnlyIgnores(front, received, item);
    OnlyMembers(front, received);
    if reached { LogNext(received, Only(front, received), item); }
  }

  lemma {:induction false} OnlyMembers(items: seq<Item>, pool: seq<Item>)
    ensures forall x :: x in Only(items, pool) ==> x in items
  {
    if items != [] {
      OnlyMembers(items[..|items| - 1], pool);
    }
  }

  lemma SendStutters(w: World, s: State, write: Write)
    requires Stuttering(s) && HasNext(s) && w.serializes(NextOut(s).frame)
    requires NextOut(s) !in s.written
    ensures Stuttering(SendNext(w, s, write).0)
  {
    var item := NextOut(s);
    assert Tried(s) == s.written || Tried(s) == s.written + [item];
    assert Tried(SendNext(w, s, write).0) == s.written + [item];
    LogNext(s.attempted, s.written, item);
    HeardNext(s.written, Tried(s), item, s.received, write.reached);
  }

  /** Sending what is next in order keeps the invariant and tells whether the
      slot stayed free. */
  lemma SendKeepsInv(w: World, s: State, write: Write)
    requires Inv(w, s) && HasNext(s)
    ensures var (s', usable) := SendNext(w, s, write);
            && Accounted(w, s') && Stuttering(s') && PerInstance(w, s')
            && (usable <==> s'.pending.None?)
            && (s'.pending.Some? ==> w.serializes(s'.pending.value.frame))
  {
    if w.serializes(NextOut(s).frame) {
      NextIsFresh(w, s);
      SendStutters(w, s, write);
    }
    SendAccounts(w, s, write);
    PerInstanceStays(w, s, SendNext(w, s, write).0);
  }

  lemma EnqueueAccounts(w: World, s: State, k: nat)
    requires Accounted(w, s) && MayReport(w, s, k)
    ensures Accounted(w, Enqueue(w, s, k))
  {
    var item := NextItem(w, s, k);
    SendableAppend(w, s.queue, [item]);
    SendableAppend(w, s.enqueued, [item]);
  }

  lemma ReportedGrows(w: World, worker: Worker)
    requires worker.sent < |Script(w, worker)|
    ensures Reported(w, worker.(sent := worker.sent + 1)) ==
      Reported(w, worker) + [OutboundProgress(worker.cmd.jobId, Script(w, worker)[worker.sent])]
  {
    var n := worker.sent;
    assert Script(w, worker)[..n + 1] == Script(w, worker)[..n] + [Script(w, worker)[n]];
  }

  lemma EnqueueAdvances(w: World, s: State, k: nat)
    requires PerInstance(w, s) && MayReport(w, s, k)
    ensures PerInstance(w, Enqueue(w, s, k))
  {
    var s' := Enqueue(w, s, k);
    forall j | 0 <= j < |s'.workers| ensures Of(j, s'.enqueued) == Reported(w, s'.workers[j]) {
      OfOne(j, s.enqueued, NextItem(w, s, k));
      ReportedGrows(w, s.workers[k]);
    }
  }

  lemma SpawnKeepsInv(w: World, s: State, cmd: InboundCommand, reply: PowerShell.Reply)
    requires Inv(w, s)
    ensures Inv(w, Spawn(s, cmd, reply))
  {
    SpawnStartsFresh(w, s, cmd, reply);
  }

  lemma SpawnStartsFresh(w: World, s: State, cmd: InboundCommand, reply: PowerShell.Reply)
    requires PerInstance(w, s)
    ensures PerInstance(w, Spawn(s, cmd, reply))
  {
    var s' := Spawn(s, cmd, reply);
    forall k | 0 <= k < |s'.workers|
      ensures s'.workers[k].sent <= |Script(w, s'.workers[k])| && Of(k, s'.enqueued) == Reported(w, s'.workers[k])
    {
      if k < |s.workers| {
        assert s'.workers[k] == s.workers[k];
      } else {
        NothingReported(w, s, s'.workers[k]);
      }
    }
  }

  lemma NothingReported(w: World, s: State, newcomer: Worker)
    requires PerInstance(w, s) && newcomer.sent == 0
    ensures Of(|s.workers|, s.enqueued) == Reported(w, newcomer)
  {
    OfNone(|s.workers|, s.enqueued);
    assert Script(w, newcomer)[..0] == [];
  }

  /** The link, the slot and the queue do not matter to what each has enqueued. */
  lemma PerInstanceStays(w: World, s: State, t: State)
    requires PerInstance(w, s) && t.workers == s.workers && t.enqueued == s.enqueued
    ensures PerInstance(w, t)
  {
  }

  lemma StepKeepsInv(w: World, s: State, l: Label)
    requires Inv(w, s)
    ensures Inv(w, Step(w, s, l))
  {
    match l {
      case WorkerReport(k) => ReportKeepsInv(w, s, k);
      case Refused =>
      case Connected => ConnectKeepsInv(w, s);
      case FlushPending(write) => FlushKeepsInv(w, s, write);
      case Select(arm) =>
        if s.link == Up { SelectKeepsInv(w, s, arm); }
    }
  }

  lemma ReportKeepsInv(w: World, s: State, k: nat)
    requires Inv(w, s)
    ensures Inv(w, Step(w, s, WorkerReport(k)))
  {
    if MayReport(w, s, k) {
      EnqueueAccounts(w, s, k);
      EnqueueAdvances(w, s, k);
    }
  }

  lemma ConnectKeepsInv(w: World, s: State)
    requires Inv(w, s)
    ensures Inv(w, Step(w, s, Connected))
  {
    PerInstanceStays(w, s, Step(w, s, Connected));
  }

  lemma FlushKeepsInv(w: World, s: State, write: Write)
    requires Inv(w, s)
    ensures Inv(w, Step(w, s, FlushPending(write)))
  {
    if s.link == Flushing {
      SendKeepsInv(w, s, write);
      PerInstanceStays(w, s, Step(w, s, FlushPending(write)));
    }
  }

  lemma SelectKeepsInv(w: World, s: State, arm: Arm)
    requires Inv(w, s) && s.link == Up
    ensures Inv(w, SelectStep(w, s, arm))
  {
    match arm {
      case Recv(write) =>
        if s.queue != [] { SendKeepsInv(w, s, write); }
      case ReadCommand(cmd, reply) => SpawnKeepsInv(w, s, cmd, reply);
      case _ => DroppingKeepsInv(w, s);
    }
  }

  lemma DroppingKeepsInv(w: World, s: State)
    requires Inv(w, s)
    ensures Inv(w, s.(link := Down))
  {
    PerInstanceStays(w, s, s.(link := Down));
  }

  lemma {:induction false} RunKeepsInv(w: World, s: State, labels: seq<Label>)
    requires Inv(w, s)
    ensures Inv(w, After(w, s, labels))
    decreases |labels|
  {
    if labels != [] {
      StepKeepsInv(w, s, labels[0]);
      RunKeepsInv(w, Step(w, s, labels[0]), labels[1..]);
    }
  }

  // ---------- main results ----------

  /** In every reachable state of every interleaving, across any number of
      connections, refusals, drops and failed writes: frames leave in enqueue
      order, none is skipped, none overtakes, the parking slot is never occupied
      twice, and the peer, ignoring immediate repeats, holds in order those of the
      written and parked frames that reached it, and nothing else. */
  lemma InOrderAtLeastOnce(w: World, labels: seq<Label>)
    ensures var s := After(w, INIT, labels);
            && Sendable(w, s.enqueued) == s.written + Slot(s.pending) + Sendable(w, s.queue)
            && (s.link == Up ==> s.pending.None?)
            && Collapse(s.attempted) == s.written + Slot(s.pending)
            && Collapse(s.received) == Only(s.written + Slot(s.pending), s.received)
            && Ascending(Collapse(s.received))
            && (forall x :: x in s.received ==> x in s.written + Slot(s.pending))
  {
    RunKeepsInv(w, INIT, labels);
    var s := After(w, INIT, labels);
    TriedAscends(w, s);
    OnlyAscending(Tried(s), s.received);
  }

  lemma TriedAscends(w: World, s: State)
    requires Accounted(w, s)
    ensures Ascending(Tried(s)) && Tried(s) <= Sendable(w, s.enqueued)
  {
    assert Ascending(s.enqueued);
    SendableAscending(w, s.enqueued);
    assert Sendable(w, s.enqueued) == Tried(s) + Sendable(w, s.queue);
    PrefixAscends(Tried(s), Sendable(w, s.queue));
  }

  lemma PrefixAscends(front: seq<Item>, back: seq<Item>)
    requires Ascending(front + back)
    ensures Ascending(front)
  {
    var all := front + back;
    forall i, j | 0 <= i < j < |front| ensures front[i].serial < front[j].serial {
      assert all[i] == front[i] && all[j] == front[j];
    }
  }

  lemma {:induction false} OfSendable(w: World, instance: nat, items: seq<Item>)
    requires forall x :: x in items && x.instance == instance ==> w.serializes(x.frame)
    ensures Of(instance, Sendable(w, items)) == Of(instance, items)
  {
    if items != [] {
      var n := |items| - 1;
      assert items == items[..n] + [items[n]];
      assert items[n] in items;
      OfSendable(w, instance, items[..n]);
      OfSendableStep(w, instance, items[..n], items[n]);
    }
  }

  lemma OfSendableStep(w: World, instance: nat, front: seq<Item>, item: Item)
    requires item.instance == instance ==> w.serializes(item.frame)
    requires Of(instance, Sendable(w, front)) == Of(instance, front)
    ensures Of(instance, Sendable(w, front + [item])) == Of(instance, front + [item])
  {
    OfOne(instance, front, item);
    OfOne(instance, Sendable(w, front), item);
    SendableOneMore(w, front, item);
  }

  lemma SendableOneMore(w: World, front: seq<Item>, item: Item)
    ensures Sendable(w, front + [item]) == if w.serializes(item.frame) then Sendable(w, front) + [item] else Sendable(w, front)
  {
    assert (front + [item])[..|front|] == front;
  }

  /** The worker of instance k has reported everything and its frames are gone
      from queue and slot, whatever else is waiting there. */
  ghost predicate Settled(w: World, s: State, k: nat)
    requires k < |s.workers|
  {
    && (forall x :: x in s.queue ==> x.instance != k)
    && (s.pending.Some? ==> s.pending.value.instance != k)
    && s.workers[k].sent == |Script(w, s.workers[k])|
    && (forall x :: x in s.enqueued && x.instance == k ==> w.serializes(x.frame))
  }

  lemma {:induction false} OfAppend(instance: nat, a: seq<Item>, b: seq<Item>)
    ensures Of(instance, a + b) == Of(instance, a) + Of(instance, b)
  {
    if b == [] {
      assert a + b == a;
    } else {
      var n := |b| - 1;
      assert a + b == (a + b[..n]) + [b[n]] && b == b[..n] + [b[n]];
      OfAppend(instance, a, b[..n]);
      OfOne(instance, a + b[..n], b[n]);
      OfOne(instance, b[..n], b[n]);
    }
  }

  lemma {:induction false} SendableWithin(w: World, items: seq<Item>)
    ensures forall x :: x in Sendable(w, items) ==> x in items
  {
    if items != [] { SendableWithin(w, items[..|items| - 1]); }
  }

  /** An instance none of whose frames is waiting has all its sendable ones written. */
  lemma WrittenOf(w: World, s: State, k: nat)
    requires Accounted(w, s)
    requires (forall x :: x in s.queue ==> x.instance != k) && (s.pending.Some? ==> s.pending.value.instance != k)
    ensures Of(k, s.written) == Of(k, Sendable(w, s.enqueued))
  {
    var waiting := Slot(s.pending) + Sendable(w, s.queue);
    SendableWithin(w, s.queue);
    OfNone(k, waiting);
    assert Sendable(w, s.enqueued) == s.written + waiting;
    OfAppend(k, s.written, waiting);
  }

  /** Whatever the interleaving: a command instance enqueues a prefix of its own
      report sequence, which has exactly one terminal state, at the end, carrying
      the dispatched outcome; and once it has settled, precisely that sequence has
      been written, whichever connections carried it. */
  lemma CommandIsDelivered(w: World, labels: seq<Label>, k: nat)
    requires forall name :: name in w.handlers ==> Conforms(w.handlers[name])
    requires k < |After(w, INIT, labels).workers|
    ensures var s := After(w, INIT, labels);
            var worker := s.workers[k];
            var cmd := worker.cmd;
            var script := CommandStates(w.handlers, cmd, worker.reply);
            && WellReported(script, DispatchSpec(w.handlers, cmd.command, cmd.role, cmd.params, worker.reply).outcome)
            && worker.sent <= |script|
            && Of(k, s.enqueued) == Tagged(cmd.jobId, script[..worker.sent])
            && (Settled(w, s, k) ==> Of(k, s.written) == Tagged(cmd.jobId, script))
  {
    RunKeepsInv(w, INIT, labels);
    var s := After(w, INIT, labels);
    var worker := s.workers[k];
    EveryCommandReportsOnce(w.handlers, worker.cmd, worker.reply);
    if Settled(w, s, k) {
      OfSendable(w, k, s.enqueued);
      WrittenOf(w, s, k);
      assert Script(w, worker)[..worker.sent] == Script(w, worker);
    }
  }

  lemma StepGetsWorker(w: World, s: State, l: Label)
    ensures var t := Step(w, s, l);
            var read := if s.link == Up && l.Select? && l.arm.ReadCommand? then [l.arm.cmd] else [];
            && |t.workers| == |s.workers| + |read|
            && (forall k :: 0 <= k < |s.workers| ==> t.workers[k].cmd == s.workers[k].cmd)
            && (read != [] ==> t.workers[|s.workers|].cmd == read[0])
  {
  }

  /** Every command read while connected gets a worker of its own, in reading
      order, and no worker ever changes its command. */
  lemma {:induction false} CommandsGetWorkers(w: World, s: State, labels: seq<Label>)
    ensures var t := After(w, s, labels);
            && |t.workers| == |s.workers| + |CommandsRead(w, s, labels)|
            && (forall k :: 0 <= k < |t.workers| ==>
                  t.workers[k].cmd == if k < |s.workers| then s.workers[k].cmd
                                      else CommandsRead(w, s, labels)[k - |s.workers|])
    decreases |labels|
  {
    if labels != [] {
      StepGetsWorker(w, s, labels[0]);
      CommandsGetWorkers(w, Step(w, s, labels[0]), labels[1..]);
    }
  }

  /** The commands read off a connection that was up. */
  function CommandsRead(w: World, s: State, labels: seq<Label>): seq<InboundCommand>
    decreases |labels|
  {
    if labels == [] then []
    else
      (if s.link == Up && labels[0].Select? && labels[0].arm.ReadCommand? then [labels[0].arm.cmd] else [])
      + CommandsRead(w, Step(w, s, labels[0]), labels[1..])
  }
}
