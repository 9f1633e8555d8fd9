/** A write that reports success has only reached the socket. Which written frames
    the peer holds, and what becomes of the others. */
module LostFrames {
  import opened Prelude
  import opened Report
  import opened Registry
  import opened Delivery
  import PowerShell

  /** The write a step performs, if any. */
  function WriteOf(s: State, l: Label): Option<Write> {
    match l
    case FlushPending(write) => if s.link == Flushing && s.pending.Some? then Some(write) else None
    case Select(Recv(write)) => if s.link == Up && s.queue != [] then Some(write) else None
    case _ => None
  }

  /** A write is reported as done, but neither it nor an earlier try of the same
      frame has reached the peer. */
  predicate Silent(w: World, s: State, l: Label) {
    && WriteOf(s, l) == Some(Sent(false))
    && HasNext(s) && w.serializes(NextOut(s).frame) && NextOut(s) !in s.received
  }

  predicate SomeSilent(w: World, s: State, labels: seq<Label>)
    decreases |labels|
  {
    labels != [] && (Silent(w, s, labels[0]) || SomeSilent(w, Step(w, s, labels[0]), labels[1..]))
  }

  /** The peer holds every written frame. */
  ghost predicate AllReached(s: State) { forall x :: x in s.written ==> x in s.received }

  lemma SendReaches(w: World, s: State, write: Write)
    requires HasNext(s) && (w.serializes(NextOut(s).frame) ==> NextOut(s) !in s.written)
    ensures AllReached(SendNext(w, s, write).0) <==>
      AllReached(s) && !(write == Sent(false) && w.serializes(NextOut(s).frame) && NextOut(s) !in s.received)
  {
    var s', item := SendNext(w, s, write).0, NextOut(s);
    if w.serializes(item.frame) {
      assert s'.received == s.received || s'.received == s.received + [item];
      assert s'.written == if write.Sent? then s.written + [item] else s.written;
      assert item in s.written + [item];
      forall x | x in s.written ensures x in s'.written && (x in s'.received <==> x in s.received) {
      }
    }
  }

  lemma StepReaches(w: World, s: State, l: Label)
    requires Inv(w, s)
    ensures AllReached(Step(w, s, l)) <==> AllReached(s) && !Silent(w, s, l)
  {
    var write := WriteOf(s, l);
    if write.Some? {
      if w.serializes(NextOut(s).frame) { NextIsFresh(w, s); }
      SendReaches(w, s, write.value);
    }
  }

  lemma {:induction false} RunReaches(w: World, s: State, labels: seq<Label>)
    requires Inv(w, s)
    ensures AllReached(After(w, s, labels)) <==> AllReached(s) && !SomeSilent(w, s, labels)
    decreases |labels|
  {
    if labels != [] {
      StepReaches(w, s, labels[0]);
      StepKeepsInv(w, s, labels[0]);
      RunReaches(w, Step(w, s, labels[0]), labels[1..]);
    }
  }

  /** The peer holds every written frame if and only if no write was reported as
      done whose frame had reached it neither then nor in an earlier try; and then
      it holds them all in order, and at most the parked one besides. */
  lemma AllReachedExactlyWhen(w: World, labels: seq<Label>)
    ensures var s := After(w, INIT, labels);
            && (AllReached(s) <==> !SomeSilent(w, INIT, labels))
            && (AllReached(s) ==>
                  Collapse(s.received) == s.written || Collapse(s.received) == s.written + Slot(s.pending))
  {
    RunKeepsInv(w, INIT, labels);
    RunReaches(w, INIT, labels);
    var s := After(w, INIT, labels);
    if AllReached(s) {
      OnlyAll(s.written, s.received);
      if s.pending.Some? { OnlyOne(s.written, s.pending.value, s.received); }
      assert s.written + [] == s.written;
    }
  }

  /** A write that succeeds into a dying socket loses its frame for good: it counts
      as written, is not parked, and no later connection tries it again. */
  lemma {:induction false} LostForGood(w: World, s: State, labels: seq<Label>, x: Item)
    requires Inv(w, s) && x in s.written && x !in s.received
    ensures var t := After(w, s, labels);
            x in t.written && x !in t.received && x !in t.queue && t.pending != Some(x)
    decreases |labels|
  {
    if labels == [] {
      WrittenIsGone(w, s, x);
    } else {
      StepKeepsInv(w, s, labels[0]);
      StaysLost(w, s, labels[0], x);
      LostForGood(w, Step(w, s, labels[0]), labels[1..], x);
    }
  }

  /** Such a run: one refused command, whose only frame is written into a socket
      that is already dead. */
  lemma OneFrameLost(w: World, cmd: InboundCommand, reply: PowerShell.Reply)
    requires cmd.command !in w.handlers
    requires w.serializes(OutboundProgress(cmd.jobId, ErrorState(DispatchErrorText(UnknownCommand(cmd.command)))))
    ensures var s := After(w, INIT, LosingRun(cmd, reply));
            && s.received == [] && |s.written| == 1 && |s.workers| == 1
            && Settled(w, s, 0) && Of(0, s.written) == Tagged(cmd.jobId, CommandStates(w.handlers, cmd, reply))
  {
    var run := LosingRun(cmd, reply);
    RefusedScript(w, cmd, reply);
    var item := Item(0, 0, OutboundProgress(cmd.jobId, ErrorState(DispatchErrorText(UnknownCommand(cmd.command)))));
    AfterFour(w, INIT, run[0], run[1], run[2], run[3]);
    var up := Step(w, INIT, run[0]);
    var read := Step(w, up, run[1]);
    assert read.workers == [Worker(cmd, reply, 0)];
    var reported := Step(w, read, run[2]);
    assert reported.queue == [item] && reported.workers == [Worker(cmd, reply, 1)];
    var done := Step(w, reported, run[3]);
    assert done.written == [item] && done.enqueued == [item] && done.queue == [];
    OfOne(0, [], item);
    assert [] + [item] == [item];
  }

  lemma RefusedScript(w: World, cmd: InboundCommand, reply: PowerShell.Reply)
    requires cmd.command !in w.handlers
    ensures CommandStates(w.handlers, cmd, reply) == [ErrorState(DispatchErrorText(UnknownCommand(cmd.command)))]
  {
  }

  lemma AfterFour(w: World, s: State, a: Label, b: Label, c: Label, d: Label)
    ensures After(w, s, [a, b, c, d]) == Step(w, Step(w, Step(w, Step(w, s, a), b), c), d)
  {
    assert [a, b, c, d][1..] == [b, c, d] && [b, c, d][1..] == [c, d] && [c, d][1..] == [d] && [d][1..] == [];
    assert After(w, s, [a, b, c, d]) == After(w, Step(w, s, a), [b, c, d]);
    assert After(w, Step(w, s, a), [b, c, d]) == After(w, Step(w, Step(w, s, a), b), [c, d]);
    assert forall t :: After(w, t, [c, d]) == After(w, Step(w, t, c), [d]);
    assert forall t :: After(w, t, [d]) == Step(w, t, d);
  }

  function LosingRun(cmd: InboundCommand, reply: PowerShell.Reply): seq<Label> {
    [Connected, Select(ReadCommand(cmd, reply)), WorkerReport(0), Select(Recv(Sent(false)))]
  }

  lemma WrittenIsGone(w: World, s: State, x: Item)
    requires Inv(w, s) && x in s.written
    ensures x !in s.queue && s.pending != Some(x)
  {
    WrittenOnce(w, s, Slot(s.pending) + Sendable(w, s.queue), x);
    NotWaiting(w, s.pending, s.queue, x);
  }

  lemma WrittenOnce(w: World, s: State, rest: seq<Item>, x: Item)
    requires Accounted(w, s) && rest == Slot(s.pending) + Sendable(w, s.queue) && x in s.written
    ensures w.serializes(x.frame) && x !in rest
  {
    assert Ascending(s.enqueued);
    SendableAscending(w, s.enqueued);
    assert Sendable(w, s.enqueued) == s.written + rest;
    assert x in Sendable(w, s.enqueued);
    NotTwice(s.written, rest, x);
  }

  lemma NotWaiting(w: World, pending: Option<Item>, queue: seq<Item>, x: Item)
    requires w.serializes(x.frame) && x !in Slot(pending) + Sendable(w, queue)
    ensures x !in queue && pending != Some(x)
  {
    if x in queue { SendableKeeps(w, queue, x); }
    assert pending.Some? ==> pending.value in Slot(pending);
  }

  lemma NotTwice(front: seq<Item>, back: seq<Item>, x: Item)
    requires Ascending(front + back) && x in front
    ensures x !in back
  {
    var all := front + back;
    var i :| 0 <= i < |front| && front[i] == x;
    assert all[i] == x;
    forall j | 0 <= j < |back| ensures back[j] != x { assert all[|front| + j] == back[j]; }
  }

  lemma {:induction false} SendableKeeps(w: World, items: seq<Item>, x: Item)
    requires x in items && w.serializes(x.frame)
    ensures x in Sendable(w, items)
  {
    var front, last := items[..|items| - 1], items[|items| - 1];
    assert items == front + [last];
    if x in front { SendableKeeps(w, front, x); }
  }

  lemma StaysLost(w: World, s: State, l: Label, x: Item)
    requires Inv(w, s) && x in s.written && x !in s.received
    ensures x in Step(w, s, l).written && x !in Step(w, s, l).received
  {
    if WriteOf(s, l).Some? && w.serializes(NextOut(s).frame) { NextIsFresh(w, s); }
  }

  // ---------- nobody can tell ----------

  /** The same outcome as far as the agent sees it. */
  predicate SameWrite(a: Write, b: Write) { a.Sent? == b.Sent? }

  predicate SameLabel(a: Label, b: Label) {
    || a == b
    || (a.FlushPending? && b.FlushPending? && SameWrite(a.write, b.write))
    || (a.Select? && b.Select? && a.arm.Recv? && b.arm.Recv? && SameWrite(a.arm.write, b.arm.write))
    || (a.Select? && b.Select? && a.arm.Ping? && b.arm.Ping? && SameWrite(a.arm.write, b.arm.write))
  }

  /** All the agent knows. */
  function Known(s: State): State { s.(received := []) }

  lemma SameSend(w: World, s: State, t: State, item: Item, a: Write, b: Write)
    requires Known(s) == Known(t) && SameWrite(a, b)
    ensures Known(SendProgress(w, s, item, a).0) == Known(SendProgress(w, t, item, b).0)
    ensures SendProgress(w, s, item, a).1 == SendProgress(w, t, item, b).1
  {
  }

  lemma SameStep(w: World, s: State, t: State, a: Label, b: Label)
    requires Known(s) == Known(t) && SameLabel(a, b)
    ensures Known(Step(w, s, a)) == Known(Step(w, t, b))
  {
    if a.FlushPending? && s.link == Flushing && s.pending.Some? {
      SameSend(w, s.(pending := None), t.(pending := None), s.pending.value, a.write, b.write);
    } else if a.Select? && s.link == Up && a.arm.Recv? && s.queue != [] {
      SameSend(w, s.(queue := s.queue[1..]), t.(queue := s.queue[1..]), s.queue[0], a.arm.write, b.arm.write);
    }
  }

  /** Two runs that differ only in what reached the peer leave the agent in the
      same state: nothing on its side tells a lost frame from a delivered one. */
  lemma {:induction false} NobodyCanTell(w: World, s: State, t: State, a: seq<Label>, b: seq<Label>)
    requires Known(s) == Known(t) && |a| == |b|
    requires forall i :: 0 <= i < |a| ==> SameLabel(a[i], b[i])
    ensures Known(After(w, s, a)) == Known(After(w, t, b))
    decreases |a|
  {
    if a != [] {
      SameStep(w, s, t, a[0], b[0]);
      NobodyCanTell(w, Step(w, s, a[0]), Step(w, t, b[0]), a[1..], b[1..]);
    }
  }
}
