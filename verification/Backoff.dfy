/** The reconnect supervisor as a function of time: how long each attempt took,
    how it ended, and how long the agent then sleeps. */
module Backoff {
  type Seconds = r: real | r >= 0.0 witness 0.0

  const RECONNECT_DELAYS: seq<real> := [1.0, 2.0, 5.0, 10.0, 30.0]
  const SUPERSEDED_DELAY := 300.0
  const HEALTHY_CONNECTION := 60.0

  /** How an attempt ended: taken over (close code 4409), dropped, or an error. */
  datatype End = Superseded | Normal | Failed

  /** `elapsed` runs from before the connect until the attempt ended. */
  datatype Iteration = Iteration(elapsed: Seconds, end: End)

  datatype Supervisor = Supervisor(attempt: nat, clock: real)

  const FRESH := Supervisor(0, 0.0)

  function Delay(attempt: nat): real {
    RECONNECT_DELAYS[if attempt < |RECONNECT_DELAYS| then attempt else |RECONNECT_DELAYS| - 1]
  }

  predicate Healthy(it: Iteration) { it.elapsed >= HEALTHY_CONNECTION }

  function Supervise(s: Supervisor, it: Iteration): Supervisor {
    var attempt := if Healthy(it) then 0 else s.attempt;
    if it.end == Superseded then Supervisor(attempt, s.clock + it.elapsed + SUPERSEDED_DELAY)
    else Supervisor(attempt + 1, s.clock + it.elapsed + Delay(attempt))
  }

  function SuperviseAll(s: Supervisor, its: seq<Iteration>): Supervisor {
    if its == [] then s
    else Supervise(SuperviseAll(s, its[..|its| - 1]), its[|its| - 1])
  }

  // ---------- what the attempt counter means ----------

  function FailedEnds(its: seq<Iteration>): nat {
    if its == [] then 0
    else FailedEnds(its[..|its| - 1]) + if its[|its| - 1].end == Superseded then 0 else 1
  }

  /** The counter is the number of attempts that ended without a takeover since
      the last healthy one, that one included; superseded ends leave it alone. */
  lemma {:induction false} AttemptCountsFailures(s: Supervisor, its: seq<Iteration>, from: nat)
    requires from <= |its|
    requires from < |its| ==> Healthy(its[from]) || from == 0
    requires from == |its| ==> its == []
    requires forall j :: from < j < |its| ==> !Healthy(its[j])
    ensures SuperviseAll(s, its).attempt ==
      FailedEnds(its[from..]) + if from < |its| && Healthy(its[from]) then 0 else s.attempt
  {
    if its != [] {
      var n := |its| - 1;
      var tail := its[from..];
      assert tail[..|tail| - 1] == its[..n][from..];
      if from < n {
        AttemptCountsFailures(s, its[..n], from);
      } else if from == 0 {
        assert its[..n] == [];
      } else {
        assert its[..n][from..] == [];
      }
    }
  }

  // ---------- amortised reconnect rate ----------

  /** Credit already spent when the counter stands at `attempt`. */
  function Potential(attempt: nat): real {
    match attempt
    case 0 => 0.0
    case 1 => 18.5
    case 2 => 36.0
    case 3 => 50.5
    case _ => 60.0
  }

  /** From any counter and over any mix of endings, n attempts take at least
      19.5 n seconds less the credit left. */
  lemma {:induction false} AmortisedBound(s: Supervisor, its: seq<Iteration>)
    ensures var t := SuperviseAll(s, its);
            t.clock - s.clock >=
              19.5 * (|its| as real) - Potential(t.attempt) + Potential(s.attempt)
  {
    if its != [] {
      var n := |its| - 1;
      AmortisedBound(s, its[..n]);
      assert |its| as real == (n as real) + 1.0;
    }
  }

  /** A freshly started agent makes at most one attempt per 19.5 seconds, up to
      a fixed head start. */
  lemma ReconnectRate(its: seq<Iteration>)
    ensures 2.0 * SuperviseAll(FRESH, its).clock >= 39.0 * (|its| as real) - 120.0
  {
    AmortisedBound(FRESH, its);
  }

  function FastestCycles(cycles: nat): (its: seq<Iteration>)
    ensures |its| == 4 * cycles + 4
  {
    var instant := Iteration(0.0, Failed);
    if cycles == 0 then [instant, instant, instant, instant]
    else FastestCycles(cycles - 1) + [Iteration(60.0, Normal), instant, instant, instant]
  }

  lemma SuperviseAppend(s: Supervisor, its: seq<Iteration>, it: Iteration)
    ensures SuperviseAll(s, its + [it]) == Supervise(SuperviseAll(s, its), it)
  {
    assert (its + [it])[..|its|] == its;
  }

  /** The bound is met with equality by arbitrarily long runs: one attempt that
      just reaches healthy, then three that fail at once. */
  lemma {:induction false} ReconnectRateIsTight(cycles: nat)
    ensures var its := FastestCycles(cycles);
            && 2.0 * SuperviseAll(FRESH, its).clock == 39.0 * (|its| as real) - 120.0
            && SuperviseAll(FRESH, its).attempt == 4
  {
    var instant := Iteration(0.0, Failed);
    var start, first := FRESH, instant;
    var before: seq<Iteration> := [];
    if cycles > 0 {
      ReconnectRateIsTight(cycles - 1);
      before := FastestCycles(cycles - 1);
      first := Iteration(60.0, Normal);
    }
    SuperviseAppend(FRESH, before, first);
    SuperviseAppend(FRESH, before + [first], instant);
    SuperviseAppend(FRESH, before + [first] + [instant], instant);
    SuperviseAppend(FRESH, before + [first] + [instant] + [instant], instant);
    assert before + [first] + [instant] + [instant] + [instant] == FastestCycles(cycles);
  }

  // ---------- how long the agent waits ----------

  /** One turn, in seconds: 300 after a takeover, which is not counted; otherwise
      1, 2, 5, 10 and then always 30 after the first, second, ... failure since the
      last attempt of a minute or more. */
  lemma WaitExactly(s: Supervisor, it: Iteration)
    ensures var t := Supervise(s, it);
            var counted := if it.elapsed >= 60.0 then 0 else s.attempt;
            && (it.end == Superseded ==> t == Supervisor(counted, s.clock + it.elapsed + 300.0))
            && (it.end != Superseded ==>
                  && t.attempt == counted + 1
                  && t.clock - s.clock - it.elapsed ==
                       if t.attempt == 1 then 1.0 else if t.attempt == 2 then 2.0
                       else if t.attempt == 3 then 5.0 else if t.attempt == 4 then 10.0 else 30.0)
  {
  }

  function TotalElapsed(its: seq<Iteration>): real {
    if its == [] then 0.0 else TotalElapsed(its[..|its| - 1]) + its[|its| - 1].elapsed
  }

  /** Over every run the agent sleeps at most 30 s per failure, at least 1 s, and
      300 s per takeover. */
  lemma {:induction false} SleepIsBounded(s: Supervisor, its: seq<Iteration>)
    ensures var slept := SuperviseAll(s, its).clock - s.clock - TotalElapsed(its);
            var failures, takeovers := FailedEnds(its) as real, (|its| - FailedEnds(its)) as real;
            failures + 300.0 * takeovers <= slept <= 30.0 * failures + 300.0 * takeovers
  {
    if its != [] {
      var n := |its| - 1;
      SleepIsBounded(s, its[..n]);
      WaitExactly(SuperviseAll(s, its[..n]), its[n]);
      var failed := if its[n].end == Superseded then 0 else 1;
      assert FailedEnds(its) as real == FailedEnds(its[..n]) as real + failed as real;
      assert (|its| - FailedEnds(its)) as real == (n - FailedEnds(its[..n])) as real + (1 - failed) as real;
    }
  }

  function Failures(n: nat): (its: seq<Iteration>)
    ensures |its| == n
  {
    seq(n, _ => Iteration(0.0, Failed))
  }

  /** A backend that is down is tried again after 1, 2, 5 and 10 s and from then on
      every 30 s. */
  lemma {:induction false} FailuresFromFresh(n: nat)
    requires n >= 4
    ensures SuperviseAll(FRESH, Failures(n)) == Supervisor(n, 18.0 + 30.0 * ((n - 4) as real))
  {
    if n == 4 {
      FourFailures();
    } else {
      FailuresFromFresh(n - 1);
      assert Failures(n)[..n - 1] == Failures(n - 1);
      assert (n - 4) as real == (n - 5) as real + 1.0;
    }
  }

  lemma FourFailures()
    ensures SuperviseAll(FRESH, Failures(4)) == Supervisor(4, 18.0)
  {
    assert Failures(1)[..0] == [] && Failures(2)[..1] == Failures(1);
    assert Failures(3)[..2] == Failures(2) && Failures(4)[..3] == Failures(3);
    assert SuperviseAll(FRESH, Failures(1)) == Supervisor(1, 1.0);
    assert SuperviseAll(FRESH, Failures(2)) == Supervisor(2, 3.0);
    assert SuperviseAll(FRESH, Failures(3)) == Supervisor(3, 8.0);
  }

  // ---------- takeovers ----------

  /** Evictions of one agent that fall in the window [from, from + width]. */
  function Evictions(s: Supervisor, its: seq<Iteration>, from: real, width: real): nat {
    if its == [] then 0
    else
      var before := its[..|its| - 1];
      var last := its[|its| - 1];
      var at := SuperviseAll(s, before).clock + last.elapsed;
      Evictions(s, before, from, width)
      + if last.end == Superseded && from <= at <= from + width then 1 else 0
  }

  /** An evicted agent stays away for 300 s, so its evictions are that far apart. */
  lemma {:induction false} EvictionsAreSpaced(s: Supervisor, its: seq<Iteration>, from: real, width: real)
    requires width >= 0.0
    ensures var count := Evictions(s, its, from, width) as real;
            && 300.0 * count <= width + 300.0
            && (count > 0.0 ==> SuperviseAll(s, its).clock >= from + 300.0 * count)
  {
    if its != [] {
      EvictionsAreSpaced(s, its[..|its| - 1], from, width);
    }
  }

  /** One agent: where its clock and counter stood, and what happened to it. */
  datatype Agent = Agent(start: Supervisor, history: seq<Iteration>)

  function TotalEvictions(agents: seq<Agent>, from: real, width: real): nat {
    if agents == [] then 0
    else Evictions(agents[0].start, agents[0].history, from, width)
         + TotalEvictions(agents[1..], from, width)
  }

  /** n equal shares added up. */
  function Shares(n: nat, share: real): real { if n == 0 then 0.0 else Shares(n - 1, share) + share }

  lemma {:induction false} SharesMultiply(n: nat, share: real)
    ensures Shares(n, share) == (n as real) * share
  {
    if n > 0 {
      SharesMultiply(n - 1, share);
      assert n as real == (n - 1) as real + 1.0;
      assert ((n - 1) as real + 1.0) * share == ((n - 1) as real) * share + share;
    }
  }

  lemma {:induction false} SharedEvictions(agents: seq<Agent>, from: real, width: real)
    requires width >= 0.0
    ensures 300.0 * (TotalEvictions(agents, from, width) as real) <= Shares(|agents|, width + 300.0)
  {
    if agents != [] {
      SharedEvictions(agents[1..], from, width);
      EvictionsAreSpaced(agents[0].start, agents[0].history, from, width);
    }
  }

  /** Whoever evicts whom, k agents are evicted at most k (T / 300 + 1) times in
      any window of T seconds. */
  lemma EvictionsAddUp(agents: seq<Agent>, from: real, width: real)
    requires width >= 0.0
    ensures (TotalEvictions(agents, from, width) as real) <= (|agents| as real) * (width / 300.0 + 1.0)
  {
    SharedEvictions(agents, from, width);
    SharesMultiply(|agents|, width + 300.0);
    assert width + 300.0 == 300.0 * (width / 300.0 + 1.0);
  }

  function Takeovers(n: nat): (its: seq<Iteration>)
    ensures |its| == n
  {
    seq(n, _ => Iteration(0.0, Superseded))
  }

  /** The bound is reached: an agent evicted the moment it connects is evicted
      T / 300 + 1 times in T seconds. */
  lemma {:induction false} TakeoverBoundIsReached(n: nat, width: real)
    requires width >= 300.0 * (n as real) - 300.0
    ensures Evictions(FRESH, Takeovers(n), 0.0, width) == n
    ensures SuperviseAll(FRESH, Takeovers(n)).clock == 300.0 * (n as real)
  {
    if n > 0 {
      assert n as real == (n - 1) as real + 1.0;
      TakeoverBoundIsReached(n - 1, width);
      assert Takeovers(n)[..n - 1] == Takeovers(n - 1);
    }
  }
}
