/** How a connection ends, and what the supervisor makes of it: told from what was
    read, written and pinged, not from the ending the client returns. */
module Endings {
  import opened Prelude
  import opened Backoff
  import opened Delivery
  import opened PhoneHome

  /** The select loop is still running when event n, this arm, comes. */
  ghost predicate Meets(w: World, s: State, events: seq<Label>, n: nat, arm: Arm) {
    && n < |events| && events[n] == Select(arm)
    && forall m :: 0 <= m <= n ==> After(w, s, events[..m]).link == Up
  }

  ghost predicate MeetsSome(w: World, s: State, events: seq<Label>, arm: Arm) {
    exists n: nat :: Meets(w, s, events, n, arm)
  }

  /** A connection in use ends on a failed write of a frame, a failed ping, a close
      with code 4409, the end of the stream or a read error, and on nothing else. */
  lemma DropsExactlyWhen(w: World, s: State, l: Label)
    requires s.link == Up
    ensures Step(w, s, l).link == Down <==>
      || l == Select(ReadSuperseded) || l == Select(ReadEnd) || l == Select(ReadError)
      || (l.Select? && l.arm.Ping? && l.arm.write.Lost?)
      || (l.Select? && l.arm.Recv? && l.arm.write.Lost? && s.queue != [] && w.serializes(s.queue[0].frame))
    ensures Step(w, s, l).link != Flushing
  {
  }

  lemma MeetsLater(w: World, s: State, events: seq<Label>, n: nat, arm: Arm)
    requires events != [] && s.link == Up
    ensures Meets(w, s, events, n + 1, arm) <==> Meets(w, Step(w, s, events[0]), events[1..], n, arm)
  {
    var t, rest := Step(w, s, events[0]), events[1..];
    forall m | 0 <= m <= |rest| ensures After(w, s, events[..m + 1]) == After(w, t, rest[..m]) {
      assert events[..m + 1][1..] == rest[..m];
    }
    if Meets(w, s, events, n + 1, arm) {
      forall m | 0 <= m <= n ensures After(w, t, rest[..m]).link == Up {
        assert After(w, s, events[..m + 1]).link == Up;
      }
    }
    if Meets(w, t, rest, n, arm) {
      forall m | 0 <= m <= n + 1 ensures After(w, s, events[..m]).link == Up {
        if m > 0 { assert After(w, t, rest[..m - 1]).link == Up; }
      }
    }
  }

  lemma MeetsNow(w: World, s: State, events: seq<Label>, arm: Arm)
    requires events != [] && s.link == Up
    ensures Meets(w, s, events, 0, arm) <==> events[0] == Select(arm)
  {
    assert events[..0] == [];
  }

  /** Meeting an arm means meeting it first, or later if the first event leaves the
      connection up. */
  lemma MeetsEither(w: World, s: State, events: seq<Label>, arm: Arm)
    requires events != [] && s.link == Up
    ensures MeetsSome(w, s, events, arm) <==>
      events[0] == Select(arm) || MeetsSome(w, Step(w, s, events[0]), events[1..], arm)
  {
    MeetsNow(w, s, events, arm);
    if MeetsSome(w, s, events, arm) {
      var n: nat :| Meets(w, s, events, n, arm);
      if n > 0 { MeetsLater(w, s, events, n - 1, arm); }
    }
    if MeetsSome(w, Step(w, s, events[0]), events[1..], arm) {
      var n: nat :| Meets(w, Step(w, s, events[0]), events[1..], n, arm);
      MeetsLater(w, s, events, n, arm);
      assert Meets(w, s, events, n + 1, arm);
    }
  }

  lemma NothingAfterDown(w: World, s: State, events: seq<Label>, arm: Arm)
    requires s.link == Down
    ensures !MeetsSome(w, s, events, arm)
  {
    forall n | 0 <= n < |events| ensures !Meets(w, s, events, n, arm) {
      assert events[..0] == [];
      assert After(w, s, events[..0]).link == Down;
    }
  }

  /** The loop ends superseded exactly if it meets the 4409 close, and failed
      exactly if it meets a read error. */
  lemma {:induction false} ServeEnds(w: World, s: State, events: seq<Label>)
    requires s.link == Up
    ensures Serve(w, s, events).1 == Superseded <==> MeetsSome(w, s, events, ReadSuperseded)
    ensures Serve(w, s, events).1 == Failed <==> MeetsSome(w, s, events, ReadError)
    decreases |events|
  {
    if events != [] {
      var t := Step(w, s, events[0]);
      DropsExactlyWhen(w, s, events[0]);
      MeetsEither(w, s, events, ReadSuperseded);
      MeetsEither(w, s, events, ReadError);
      if t.link == Down {
        NothingAfterDown(w, t, events[1..], ReadSuperseded);
        NothingAfterDown(w, t, events[1..], ReadError);
      } else {
        ServeEnds(w, t, events[1..]);
      }
    }
  }

  /** The state in which an attempt enters the select loop, if it gets there. */
  function Opened(w: World, s: State, c: Connection): State {
    After(w, After(w, s, Reports(c.early)), [Connected, FlushPending(c.flush)])
  }

  /** The attempt opens a connection, gets its parked frame out, and meets this arm. */
  ghost predicate Comes(w: World, s: State, c: Connection, arm: Arm) {
    c.accepted && Opened(w, s, c).link == Up && MeetsSome(w, Opened(w, s, c), c.events, arm)
  }

  /** An attempt ends superseded exactly if it meets the 4409 close; it ends failed
      exactly if it is refused or meets a read error. */
  lemma AttemptEnds(w: World, s: State, c: Connection)
    requires s.link == Down
    ensures Attempt(w, s, c).1 == Superseded <==> Comes(w, s, c, ReadSuperseded)
    ensures Attempt(w, s, c).1 == Failed <==> !c.accepted || Comes(w, s, c, ReadError)
  {
    ReportsKeepLink(w, s, c.early);
    if c.accepted {
      OpenLeavesDecided(w, After(w, s, Reports(c.early)), c.flush);
      if Opened(w, s, c).link == Up { ServeEnds(w, Opened(w, s, c), c.events); }
    }
  }

  /** A parked frame must get out first: the loop is entered exactly if there is
      none or its write succeeds. */
  lemma OpensExactlyWhen(w: World, s: State, c: Connection)
    requires Inv(w, s) && s.link == Down
    ensures Opened(w, s, c).link == Up <==> s.pending.None? || c.flush.Sent?
  {
    var t := After(w, s, Reports(c.early));
    ReportsKeepLink(w, s, c.early);
    RunKeepsInv(w, s, Reports(c.early));
    assert [Connected, FlushPending(c.flush)][1..] == [FlushPending(c.flush)];
    AfterOne(w, Step(w, t, Connected), FlushPending(c.flush));
  }

  /** A round: after a 4409 close the clock moves on by the attempt and 300 s and
      nothing is counted; after any other end the failure is counted and the sleep
      is the one for that many failures. */
  lemma RoundWaits(w: World, s: State, sup: Supervisor, round: Round)
    requires s.link == Down
    ensures var after := OneRound(w, s, sup, round).1;
            var counted := if round.elapsed >= 60.0 then 0 else sup.attempt;
            && (Comes(w, s, round.connection, ReadSuperseded) ==>
                  after == Supervisor(counted, sup.clock + round.elapsed + 300.0))
            && (!Comes(w, s, round.connection, ReadSuperseded) ==>
                  && after.attempt == counted + 1
                  && after.clock - sup.clock - round.elapsed ==
                       if counted == 0 then 1.0 else if counted == 1 then 2.0
                       else if counted == 2 then 5.0 else if counted == 3 then 10.0 else 30.0)
  {
    AttemptEnds(w, s, round.connection);
    WaitExactly(sup, Iteration(round.elapsed, Attempt(w, s, round.connection).1));
  }

  lemma {:induction false} IterationAt(w: World, s: State, sup: Supervisor, rounds: seq<Round>, i: nat)
    requires i < |rounds|
    ensures Iterations(w, s, sup, rounds)[i] ==
      Iteration(rounds[i].elapsed, Attempt(w, Lifetime(w, s, sup, rounds[..i]).0, rounds[i].connection).1)
  {
    var n := |rounds| - 1;
    IterationsStep(w, s, sup, rounds);
    if i < n {
      IterationAt(w, s, sup, rounds[..n], i);
      assert rounds[..n][..i] == rounds[..i];
    }
  }

  lemma IterationsStep(w: World, s: State, sup: Supervisor, rounds: seq<Round>)
    requires rounds != []
    ensures var n := |rounds| - 1;
            Iterations(w, s, sup, rounds) == Iterations(w, s, sup, rounds[..n])
              + [Iteration(rounds[n].elapsed, Attempt(w, Lifetime(w, s, sup, rounds[..n]).0, rounds[n].connection).1)]
  {
  }

  /** The takeovers in an agent's history are exactly its 4409 closes. */
  lemma TakenExactlyWhen(w: World, s: State, sup: Supervisor, rounds: seq<Round>, i: nat)
    requires s.link == Down && i < |rounds|
    ensures Iterations(w, s, sup, rounds)[i].end == Superseded <==>
      Comes(w, Lifetime(w, s, sup, rounds[..i]).0, rounds[i].connection, ReadSuperseded)
  {
    IterationAt(w, s, sup, rounds, i);
    var trace := LifetimeIsARun(w, s, sup, rounds[..i]);
    AttemptEnds(w, Lifetime(w, s, sup, rounds[..i]).0, rounds[i].connection);
  }
}
