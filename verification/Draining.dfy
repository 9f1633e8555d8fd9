/** How fast a connection that stays up works off what is waiting. */
module Draining {
  import opened Prelude
  import opened Delivery

  /** Labels of a connection that stays up while no worker reports. */
  predicate Quiet(l: Label) {
    && l.Select?
    && match l.arm {
         case Recv(write) => write.Sent?
         case Ping(write) => write.Sent?
         case ReadCommand(_, _) => true
         case ReadOther => true
         case _ => false
       }
  }

  function Receives(labels: seq<Label>): nat {
    if labels == [] then 0
    else Receives(labels[1..]) + if labels[0].Select? && labels[0].arm.Recv? then 1 else 0
  }

  function Backlog(s: State): nat { |s.queue| + |Slot(s.pending)| }

  lemma QuietStep(w: World, s: State, l: Label)
    requires Inv(w, s) && s.link == Up && Quiet(l)
    ensures var t := Step(w, s, l);
            && t.link == Up && t.enqueued == s.enqueued
            && Backlog(t) == if l.arm.Recv? && Backlog(s) > 0 then Backlog(s) - 1 else Backlog(s)
  {
  }

  lemma NoBacklog(w: World, s: State)
    requires Inv(w, s) && Backlog(s) == 0
    ensures s.written == Sendable(w, s.enqueued)
  {
    assert Slot(s.pending) == [] && Sendable(w, s.queue) == [];
  }

  /** While a connection stays up and nothing new is reported, each receive
      shortens the backlog by one, nothing else lengthens it, and as many
      receives as there were queued frames deliver everything. */
  lemma {:induction false} QuietConnectionDrains(w: World, s: State, labels: seq<Label>)
    requires Inv(w, s) && s.link == Up
    requires forall i :: 0 <= i < |labels| ==> Quiet(labels[i])
    ensures var t := After(w, s, labels);
            && t.link == Up
            && t.enqueued == s.enqueued
            && Backlog(t) == (if Receives(labels) <= Backlog(s) then Backlog(s) - Receives(labels) else 0)
            && (Receives(labels) >= Backlog(s) ==> t.written == Sendable(w, s.enqueued))
    decreases |labels|
  {
    if labels == [] {
      if Backlog(s) == 0 { NoBacklog(w, s); }
    } else {
      StepKeepsInv(w, s, labels[0]);
      QuietStep(w, s, labels[0]);
      QuietConnectionDrains(w, Step(w, s, labels[0]), labels[1..]);
    }
  }

  // ---------- draining while workers go on reporting ----------

  predicate Steady(l: Label) { Quiet(l) || l.WorkerReport? }

  /** The first `ahead` items of the queue are all that is left of `early`, the
      items enqueued up to some moment. */
  ghost predicate Ahead(s: State, early: seq<Item>, ahead: nat) {
    ahead <= |s.queue| && s.enqueued == early + s.queue[ahead..]
  }

  lemma NothingAhead(w: World, s: State, early: seq<Item>)
    requires Inv(w, s) && s.link == Up && Ahead(s, early, 0)
    ensures s.written == Sendable(w, early)
  {
    assert s.queue[0..] == s.queue;
    SendableAppend(w, early, s.queue);
    assert s.written + Slot(s.pending) == s.written;
    SameTailCut(Sendable(w, early), s.written, Sendable(w, s.queue));
  }

  lemma SameTailCut(a: seq<Item>, b: seq<Item>, tail: seq<Item>)
    requires a + tail == b + tail
    ensures a == b
  {
    assert |a| == |b|;
    assert a == (a + tail)[..|a|] && b == (b + tail)[..|b|];
  }

  lemma SteadyStep(w: World, s: State, l: Label, early: seq<Item>, ahead: nat)
    requires Inv(w, s) && s.link == Up && Steady(l) && Ahead(s, early, ahead)
    requires ahead > 0
    ensures Step(w, s, l).link == Up
    ensures Ahead(Step(w, s, l), early, if Receives([l]) == 1 then ahead - 1 else ahead)
  {
    assert [l][1..] == [];
    if l.WorkerReport? {
      if MayReport(w, s, l.worker) {
        var item := NextItem(w, s, l.worker);
        assert (s.queue + [item])[ahead..] == s.queue[ahead..] + [item];
        assert early + (s.queue[ahead..] + [item]) == (early + s.queue[ahead..]) + [item];
      }
    } else if l.arm.Recv? {
      assert s.queue[1..][ahead - 1..] == s.queue[ahead..];
    }
  }

  lemma {:induction false} SteadyStaysUp(w: World, s: State, labels: seq<Label>)
    requires s.link == Up && forall i :: 0 <= i < |labels| ==> Steady(labels[i])
    ensures After(w, s, labels).link == Up && s.written <= After(w, s, labels).written
    decreases |labels|
  {
    if labels != [] {
      SteadyStaysUp(w, Step(w, s, labels[0]), labels[1..]);
    }
  }

  lemma {:induction false} SteadyDelivers(w: World, s: State, labels: seq<Label>, early: seq<Item>, ahead: nat)
    requires Inv(w, s) && s.link == Up && Ahead(s, early, ahead) && Receives(labels) >= ahead
    requires forall i :: 0 <= i < |labels| ==> Steady(labels[i])
    ensures Sendable(w, early) <= After(w, s, labels).written
    decreases |labels|
  {
    SteadyStaysUp(w, s, labels);
    if ahead == 0 {
      NothingAhead(w, s, early);
    } else {
      var l := labels[0];
      assert [l][1..] == [];
      SteadyStep(w, s, l, early, ahead);
      StepKeepsInv(w, s, l);
      SteadyDelivers(w, Step(w, s, l), labels[1..], early, if Receives([l]) == 1 then ahead - 1 else ahead);
    }
  }

  /** Workers may go on reporting: on a connection that stays up, as many receives
      as there are frames waiting now deliver everything enqueued up to now. */
  lemma BusyConnectionDelivers(w: World, s: State, labels: seq<Label>)
    requires Inv(w, s) && s.link == Up && Receives(labels) >= Backlog(s)
    requires forall i :: 0 <= i < |labels| ==> Steady(labels[i])
    ensures After(w, s, labels).link == Up
    ensures Sendable(w, s.enqueued) <= After(w, s, labels).written
  {
    SteadyStaysUp(w, s, labels);
    assert s.queue[|s.queue|..] == [] && s.enqueued + [] == s.enqueued;
    SteadyDelivers(w, s, labels, s.enqueued, |s.queue|);
  }
}
