/** Agents sharing one identity on one timeline: the backend keeps one live
    connection, and the arrival of another agent evicts whoever holds it. */
module Takeovers {
  import opened Backoff

  /** Connections in the order the backend sees them: an agent arrives during its
      attempt number `round`, or the live connection ends by itself. */
  datatype Event = Arrives(at: real, agent: nat, round: nat) | Leaves(at: real)

  function StartOf(a: Agent, round: nat): real
    requires round < |a.history|
  {
    SuperviseAll(a.start, a.history[..round]).clock
  }

  function EndOf(a: Agent, round: nat): real
    requires round < |a.history|
  {
    StartOf(a, round) + a.history[round].elapsed
  }

  /** Event i finds another agent's connection live, and evicts it. */
  predicate Evicts(events: seq<Event>, i: nat) {
    0 < i < |events| && events[i - 1].Arrives? && events[i].Arrives?
  }

  function Victim(events: seq<Event>, i: nat): nat
    requires Evicts(events, i)
  {
    events[i - 1].agent
  }

  /** The timeline is one the agents can produce: an arrival falls into one of the
      agent's attempts, each attempt arrives at most once, and an evicted attempt
      ends there and then with the takeover code. */
  ghost predicate Possible(agents: seq<Agent>, events: seq<Event>) {
    && (forall i, j :: 0 <= i < j < |events| ==> events[i].at <= events[j].at)
    && (forall i :: 0 <= i < |events| && events[i].Arrives? ==> Attempting(agents, events[i]))
    && (forall i, j :: 0 <= i < j < |events| ==> InTurn(events[i], events[j]))
    && (forall i :: Evicts(events, i) ==> EndsTaken(agents, events, i))
  }

  predicate InTurn(d: Event, e: Event) {
    d.Arrives? && e.Arrives? && d.agent == e.agent ==> d.round < e.round
  }

  predicate Attempting(agents: seq<Agent>, e: Event)
    requires e.Arrives?
  {
    && e.agent < |agents| && e.round < |agents[e.agent].history|
    && StartOf(agents[e.agent], e.round) <= e.at <= EndOf(agents[e.agent], e.round)
  }

  predicate EndsTaken(agents: seq<Agent>, events: seq<Event>, i: nat)
    requires Evicts(events, i)
  {
    var was := events[i - 1];
    && events[i].agent != was.agent
    && was.agent < |agents| && was.round < |agents[was.agent].history|
    && agents[was.agent].history[was.round].end == Superseded
    && EndOf(agents[was.agent], was.round) == events[i].at
  }

  // ---------- one agent ----------

  lemma {:induction false} ClockAdvances(a: Agent, i: nat, j: nat)
    requires i <= j <= |a.history|
    ensures SuperviseAll(a.start, a.history[..i]).clock <= SuperviseAll(a.start, a.history[..j]).clock
  {
    if i < j {
      ClockAdvances(a, i, j - 1);
      assert a.history[..j][..j - 1] == a.history[..j - 1];
    }
  }

  /** After a takeover the next attempt starts 300 s later at the earliest. */
  lemma StaysAway(a: Agent, i: nat, j: nat)
    requires i < j < |a.history| && a.history[i].end == Superseded
    ensures StartOf(a, j) >= EndOf(a, i) + 300.0
  {
    ClockAdvances(a, i + 1, j);
    assert a.history[..i + 1][..i] == a.history[..i];
  }

  /** An evicted agent is back 300 s after the eviction at the earliest. */
  lemma Returns(agents: seq<Agent>, events: seq<Event>, i: nat, j: nat)
    requires Possible(agents, events) && Evicts(events, i) && i <= j < |events|
    requires events[j].Arrives? && events[j].agent == Victim(events, i)
    ensures events[j].at >= events[i].at + 300.0
  {
    var was := events[i - 1];
    assert EndsTaken(agents, events, i);
    assert InTurn(was, events[j]) && Attempting(agents, events[j]);
    StaysAway(agents[was.agent], was.round, events[j].round);
  }

  // ---------- any k evictions among k agents ----------

  ghost predicate Distinct(v: seq<nat>) { forall i, j :: 0 <= i < j < |v| ==> v[i] != v[j] }

  lemma {:induction false} Pigeonhole(v: seq<nat>, k: nat)
    requires Distinct(v) && forall i :: 0 <= i < |v| ==> v[i] < k
    ensures |v| <= k
  {
    assert v != [] ==> v[0] < k;
    if k > 0 {
      if i :| 0 <= i < |v| && v[i] == k - 1 {
        var rest := v[..i] + v[i + 1..];
        forall j | 0 <= j < |rest| ensures rest[j] < k - 1 {
          assert rest[j] == if j < i then v[j] else v[j + 1];
        }
        Pigeonhole(rest, k - 1);
      } else {
        Pigeonhole(v, k - 1);
      }
    }
  }

  ghost predicate EvictionsAt(events: seq<Event>, es: seq<nat>) {
    && (forall m :: 0 <= m < |es| ==> Evicts(events, es[m]))
    && (forall m, n :: 0 <= m < n < |es| ==> es[m] < es[n])
  }

  /** Victims of evictions less than 300 s apart are different agents. */
  lemma VictimsDiffer(agents: seq<Agent>, events: seq<Event>, i: nat, j: nat)
    requires Possible(agents, events) && Evicts(events, i) && Evicts(events, j) && i < j
    requires events[j].at < events[i].at + 300.0
    ensures Victim(events, i) != Victim(events, j) && Victim(events, i) != events[j].agent
  {
    if Victim(events, i) == events[j - 1].agent { Returns(agents, events, i, j - 1); }
    if Victim(events, i) == events[j].agent { Returns(agents, events, i, j); }
  }

  /** The victims of these evictions, and the agent that made the last one. */
  function Involved(events: seq<Event>, es: seq<nat>): (v: seq<nat>)
    requires es != [] && forall m :: 0 <= m < |es| ==> Evicts(events, es[m])
    ensures |v| == |es| + 1
  {
    assert Evicts(events, es[|es| - 1]);
    seq(|es|, m requires 0 <= m < |es| => Victim(events, es[m])) + [events[es[|es| - 1]].agent]
  }

  /** Of k agents one is always connecting, so k evictions cannot happen within
      300 s: the first victim would have to be back already. */
  lemma KEvictionsTakeTime(agents: seq<Agent>, events: seq<Event>, es: seq<nat>)
    requires Possible(agents, events) && EvictionsAt(events, es)
    requires |es| == |agents| > 0
    ensures events[es[|es| - 1]].at >= events[es[0]].at + 300.0
  {
    var last := es[|es| - 1];
    if events[last].at < events[es[0]].at + 300.0 {
      var v := Involved(events, es);
      forall m, n | 0 <= m < n < |v| ensures v[m] != v[n] {
        InvolvedDiffer(agents, events, es, m, n);
      }
      forall m | 0 <= m < |v| ensures v[m] < |agents| {
        if m < |es| { assert EndsTaken(agents, events, es[m]); } else { assert Attempting(agents, events[last]); }
      }
      Pigeonhole(v, |agents|);
    }
  }

  lemma InvolvedDiffer(agents: seq<Agent>, events: seq<Event>, es: seq<nat>, m: nat, n: nat)
    requires Possible(agents, events) && EvictionsAt(events, es) && es != []
    requires events[es[|es| - 1]].at < events[es[0]].at + 300.0
    requires m < n <= |es|
    ensures Involved(events, es)[m] != Involved(events, es)[n]
  {
    var last := es[|es| - 1];
    InWindow(agents, events, es, m);
    if n < |es| {
      InWindow(agents, events, es, n);
      VictimsDiffer(agents, events, es[m], es[n]);
    } else if es[m] < last {
      VictimsDiffer(agents, events, es[m], last);
    } else {
      assert m == |es| - 1;
      assert EndsTaken(agents, events, es[m]);
    }
  }

  lemma InWindow(agents: seq<Agent>, events: seq<Event>, es: seq<nat>, m: nat)
    requires Possible(agents, events) && EvictionsAt(events, es) && m < |es|
    ensures events[es[0]].at <= events[es[m]].at <= events[es[|es| - 1]].at
  {
    assert m > 0 ==> es[0] < es[m];
    assert m < |es| - 1 ==> es[m] < es[|es| - 1];
  }

  // ---------- the bound ----------

  /** The evictions among the first n events that fall in the window. */
  function EvictionsIn(events: seq<Event>, n: nat, from: real, width: real): seq<nat>
    requires n <= |events|
  {
    if n == 0 then []
    else
      EvictionsIn(events, n - 1, from, width)
      + if Evicts(events, n - 1) && from <= events[n - 1].at <= from + width then [n - 1] else []
  }

  function Total(events: seq<Event>, from: real, width: real): nat {
    |EvictionsIn(events, |events|, from, width)|
  }

  lemma {:induction false} EvictionsInFacts(events: seq<Event>, n: nat, from: real, width: real)
    requires n <= |events|
    ensures var es := EvictionsIn(events, n, from, width);
            && EvictionsAt(events, es)
            && (forall m :: 0 <= m < |es| ==> es[m] < n && from <= events[es[m]].at <= from + width)
  {
    if n > 0 { EvictionsInFacts(events, n - 1, from, width); }
  }

  lemma {:induction false} SharesAdd(n: nat, a: real, b: real)
    ensures Shares(n, a + b) == Shares(n, a) + Shares(n, b)
  {
    if n > 0 { SharesAdd(n - 1, a, b); }
  }

  lemma {:induction false} SharesGrow(n: nat, a: real, b: real)
    requires a <= b
    ensures Shares(n, a) <= Shares(n, b)
  {
    if n > 0 { SharesGrow(n - 1, a, b); }
  }

  lemma SharesOfPause(n: nat)
    ensures Shares(n, 300.0) == 300.0 * (n as real)
  {
    SharesMultiply(n, 300.0);
  }

  /** In blocks of k - 1 evictions, each of which takes 300 s. */
  lemma {:induction false} CountEvictions(agents: seq<Agent>, events: seq<Event>, es: seq<nat>, from: real, width: real)
    requires Possible(agents, events) && EvictionsAt(events, es) && agents != [] && width >= 0.0
    requires forall m :: 0 <= m < |es| ==> from <= events[es[m]].at <= from + width
    ensures 300.0 * (|es| as real) <= Shares(|agents| - 1, width + 300.0)
    decreases |es|
  {
    var k := |agents| - 1;
    SharesOfPause(k);
    if |es| <= k {
      SharesGrow(k, 300.0, width + 300.0);
    } else {
      KEvictionsTakeTime(agents, events, es[..k + 1]);
      var later := events[es[k]].at;
      RestIsLater(agents, events, es, k);
      CountEvictions(agents, events, es[k..], later, from + width - later);
      OneMoreBlock(k, |es[k..]|, from + width - later, width);
    }
  }

  lemma RestIsLater(agents: seq<Agent>, events: seq<Event>, es: seq<nat>, k: nat)
    requires Possible(agents, events) && EvictionsAt(events, es) && k < |es|
    ensures EvictionsAt(events, es[k..])
    ensures forall m :: 0 <= m < |es[k..]| ==> events[es[k]].at <= events[es[k..][m]].at
  {
    forall m | 0 <= m < |es[k..]| ensures events[es[k]].at <= events[es[k..][m]].at {
      InWindow(agents, events, es[k..], m);
    }
  }

  lemma OneMoreBlock(k: nat, others: nat, left: real, width: real)
    requires 300.0 * (others as real) <= Shares(k, left + 300.0) && left + 300.0 <= width
    ensures 300.0 * ((others + k) as real) <= Shares(k, width + 300.0)
  {
    SharesGrow(k, left + 300.0, width);
    SharesAdd(k, width, 300.0);
    SharesOfPause(k);
    assert (others + k) as real == others as real + k as real;
  }

  /** k agents fighting over one identity evict each other at most
      (k - 1) (T / 300 + 1) times in any window of T seconds. */
  lemma TakeoverStorm(agents: seq<Agent>, events: seq<Event>, from: real, width: real)
    requires Possible(agents, events) && agents != [] && width >= 0.0
    ensures Total(events, from, width) as real <= ((|agents| - 1) as real) * (width / 300.0 + 1.0)
  {
    var es := EvictionsIn(events, |events|, from, width);
    EvictionsInFacts(events, |events|, from, width);
    CountEvictions(agents, events, es, from, width);
    SharesPerPause(|es| as real, |agents| - 1, width);
  }

  lemma SharesPerPause(count: real, k: nat, width: real)
    requires 300.0 * count <= Shares(k, width + 300.0)
    ensures count <= (k as real) * (width / 300.0 + 1.0)
  {
    SharesMultiply(k, width + 300.0);
    PerPause(count, k as real, width);
  }

  lemma PerPause(count: real, k: real, width: real)
    requires 300.0 * count <= k * (width + 300.0)
    ensures count <= k * (width / 300.0 + 1.0)
  {
    var per := width / 300.0 + 1.0;
    assert width + 300.0 == 300.0 * per;
    Regroup(k, per);
  }

  lemma Regroup(k: real, per: real)
    ensures k * (300.0 * per) == 300.0 * (k * per)
  {
  }

  // ---------- two agents reach it ----------

  /** Every attempt is connected for 300 s and then evicted. */
  function Duelist(start: real, n: nat): Agent {
    Agent(Supervisor(0, start), seq(n, _ => Iteration(300.0, Superseded)))
  }

  function Duelists(n: nat): seq<Agent> { [Duelist(0.0, n), Duelist(300.0, n)] }

  /** The two take turns, one arrival every 300 s. */
  function Duel(n: nat): seq<Event> {
    seq(n, i requires 0 <= i < n => Arrives(300.0 * (i as real), i % 2, i / 2))
  }

  lemma {:induction false} DuelistClock(start: real, n: nat, r: nat)
    requires r <= n
    ensures SuperviseAll(Supervisor(0, start), Duelist(start, n).history[..r]).clock == start + 600.0 * (r as real)
  {
    if r > 0 {
      DuelistClock(start, n, r - 1);
      var h := Duelist(start, n).history;
      assert h[..r][..r - 1] == h[..r - 1];
      assert r as real == (r - 1) as real + 1.0;
    }
  }

  lemma DuelRound(n: nat, i: nat)
    requires i < n
    ensures var a := Duelists(n)[i % 2];
            i / 2 < |a.history| && StartOf(a, i / 2) == 300.0 * (i as real) && EndOf(a, i / 2) == 300.0 * ((i + 1) as real)
  {
    var start := if i % 2 == 0 then 0.0 else 300.0;
    assert Duelists(n)[i % 2] == Duelist(start, n);
    DuelistClock(start, n, i / 2);
    assert i as real == 2.0 * ((i / 2) as real) + ((i % 2) as real);
    assert (i + 1) as real == i as real + 1.0;
  }

  lemma DuelIsPossible(n: nat)
    ensures Possible(Duelists(n), Duel(n))
  {
    var agents, events := Duelists(n), Duel(n);
    forall i | 0 <= i < n ensures Attempting(agents, events[i]) { DuelArrives(n, i); }
    forall i: nat | Evicts(events, i) ensures EndsTaken(agents, events, i) { DuelTaken(n, i); }
    forall i, j | 0 <= i < j < n ensures InTurn(events[i], events[j]) && events[i].at <= events[j].at {
      if i % 2 == j % 2 { TurnsAscend(i, j); }
    }
  }

  lemma DuelArrives(n: nat, i: nat)
    requires i < n
    ensures Attempting(Duelists(n), Duel(n)[i])
  {
    DuelRound(n, i);
    assert (i + 1) as real == i as real + 1.0;
  }

  lemma DuelTaken(n: nat, i: nat)
    requires Evicts(Duel(n), i)
    ensures EndsTaken(Duelists(n), Duel(n), i)
  {
    DuelRound(n, i - 1);
  }

  lemma TurnsAscend(i: nat, j: nat)
    requires i < j && i % 2 == j % 2
    ensures i / 2 < j / 2
  {
  }

  lemma {:induction false} DuelEvictions(n: nat, m: nat, width: real)
    requires 1 <= m <= n && width >= 300.0 * (n as real) - 600.0
    ensures |EvictionsIn(Duel(n), m, 300.0, width)| == m - 1
  {
    if m > 1 {
      DuelEvictions(n, m - 1, width);
      var i := m - 1;
      assert 1.0 <= i as real <= n as real - 1.0;
      assert Evicts(Duel(n), i) && Duel(n)[i].at == 300.0 * (i as real);
    } else {
      assert EvictionsIn(Duel(n), 0, 300.0, width) == [];
    }
  }

  /** Two agents taking turns evict each other exactly T / 300 + 1 times in T
      seconds, for T of any number of pauses. */
  lemma StormBoundIsReached(pauses: nat)
    ensures var n := pauses + 2;
            && Possible(Duelists(n), Duel(n)) && |Duelists(n)| == 2
            && Total(Duel(n), 300.0, 300.0 * (pauses as real)) == pauses + 1
  {
    DuelIsPossible(pauses + 2);
    DuelTotal(pauses);
  }

  lemma DuelTotal(pauses: nat)
    ensures Total(Duel(pauses + 2), 300.0, 300.0 * (pauses as real)) == pauses + 1
  {
    var n := pauses + 2;
    assert n as real == pauses as real + 2.0;
    assert |Duel(n)| == n;
    DuelEvictions(n, n, 300.0 * (pauses as real));
  }
}
