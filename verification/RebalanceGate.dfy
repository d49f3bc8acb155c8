/** The flag and the clock that keep rebalancing rounds apart, under any number of concurrent callers. */
module RebalanceGate {
  import opened Options

  type Caller = nat

  /** Where a caller of evaluateAndRebalance is; Submitted means the tasks are handed over but not yet dated. */
  datatype Phase = Evaluating | Submitted | Leaving

  datatype Gate = Gate(
    isRebalancing: bool,
    lastRebalance: Option<int>,      // None is the zero time
    inside: map<Caller, Phase>,
    submissions: seq<int>)           // when plans were handed to the migrator

  const OPEN := Gate(false, None, map[], [])

  datatype Event =
    | Enter(caller: Caller, now: int)
    | Submit(caller: Caller, now: int)     // GeneratePlan returned plans
    | NothingToDo(caller: Caller)          // too few nodes, balanced, or planning failed
    | NoPlans(caller: Caller)              // needed, but GeneratePlan returned none
    | Record(caller: Caller, now: int)
    | Leave(caller: Caller)

  predicate Admits(g: Gate, minInterval: int, now: int) {
    && !g.isRebalancing
    && (g.lastRebalance.None? || now - g.lastRebalance.value >= minInterval)
  }

  function Step(minInterval: int, g: Gate, e: Event): Gate {
    match e
    case Enter(c, now) =>
      if c in g.inside || !Admits(g, minInterval, now) then g
      else g.(isRebalancing := true, inside := g.inside[c := Evaluating])
    case Submit(c, now) =>
      if c in g.inside && g.inside[c] == Evaluating
      then g.(inside := g.inside[c := Submitted], submissions := g.submissions + [now]) else g
    case NothingToDo(c) =>
      if c in g.inside && g.inside[c] == Evaluating then g.(inside := g.inside[c := Leaving]) else g
    case NoPlans(c) =>
      if c in g.inside && g.inside[c] == Evaluating then g.(inside := g.inside[c := Submitted]) else g
    case Record(c, now) =>
      if c in g.inside && g.inside[c] == Submitted
      then g.(inside := g.inside[c := Leaving], lastRebalance := Some(now)) else g
    case Leave(c) =>
      if c in g.inside && g.inside[c] == Leaving
      then g.(inside := g.inside - {c}, isRebalancing := false) else g
  }

  function Run(minInterval: int, g: Gate, events: seq<Event>): Gate {
    if events == [] then g
    else Step(minInterval, Run(minInterval, g, events[..|events| - 1]), events[|events| - 1])
  }

  /** The steps of one undisturbed call. */
  function Round(now: int, nodeCount: nat, needed: bool, plans: nat, finished: int): seq<Event> {
    [Enter(0, now)]
    + (if nodeCount < 2 || !needed then [NothingToDo(0)]
       else [if plans > 0 then Submit(0, now) else NoPlans(0), Record(0, finished)])
    + [Leave(0)]
  }

  predicate Timed(e: Event) {
    e.Enter? || e.Submit? || e.Record?
  }

  /** The clock never runs backwards. */
  ghost predicate Ordered(events: seq<Event>) {
    forall j, k :: 0 <= j <= k < |events| && Timed(events[j]) && Timed(events[k]) ==> events[j].now <= events[k].now
  }

  class Manager {
    const minMigrationInterval: int
    var lastRebalance: Option<int>
    var isRebalancing: bool
    var submissions: seq<int>

    constructor (minMigrationInterval: int)
      ensures this.minMigrationInterval == minMigrationInterval && Contents() == OPEN
    {
      this.minMigrationInterval := minMigrationInterval;
      lastRebalance, isRebalancing, submissions := None, false, [];
    }

    /** The shared data, with no caller inside. */
    function Contents(): Gate
      reads this
    {
      Gate(isRebalancing, lastRebalance, map[], submissions)
    }

    /**
     One call from start to end. nodeCount, needed and plans stand for the collector's and the
     strategy's answers, finished for the clock once the plans were submitted.
     */
    method EvaluateAndRebalance(now: int, nodeCount: nat, needed: bool, plans: nat, finished: int)
      modifies this
      ensures Contents() == Run(minMigrationInterval, old(Contents()), Round(now, nodeCount, needed, plans, finished))
      ensures var admitted := !old(isRebalancing)
                && (old(lastRebalance).None? || now - old(lastRebalance).value >= minMigrationInterval);
              && isRebalancing == old(isRebalancing)
              && lastRebalance == (if admitted && nodeCount >= 2 && needed then Some(finished) else old(lastRebalance))
              && submissions == (if admitted && nodeCount >= 2 && needed && plans > 0 then old(submissions) + [now]
                                 else old(submissions))
    {
      ghost var round := Round(now, nodeCount, needed, plans, finished);
      RoundOutcome(minMigrationInterval, Contents(), now, nodeCount, needed, plans, finished);
      if isRebalancing {
        return;
      }
      if lastRebalance.Some? && now - lastRebalance.value < minMigrationInterval {
        return;
      }
      isRebalancing := true;
      if nodeCount >= 2 && needed {
        if plans > 0 {
          submissions := submissions + [now];
        }
        lastRebalance := Some(finished);
      }
      isRebalancing := false;
    }
  }

  /**
   A round is admitted if no other is under way and none was dated less than the interval ago.
   If it is needed it then dates itself, and submits exactly if there are plans; nothing else
   changes anything.
   */
  lemma RoundOutcome(minInterval: int, g: Gate, now: int, nodeCount: nat, needed: bool, plans: nat, finished: int)
    requires g.inside == map[]
    ensures Run(minInterval, g, Round(now, nodeCount, needed, plans, finished))
            == if && !g.isRebalancing && (g.lastRebalance == None || now - g.lastRebalance.value >= minInterval)
                  && nodeCount >= 2 && needed
               then Gate(false, Some(finished), map[], if plans > 0 then g.submissions + [now] else g.submissions)
               else g
  {
    var r := Round(now, nodeCount, needed, plans, finished);
    var g1 := Step(minInterval, g, r[0]);
    assert r[..1][..0] == [] && r[..2][..1] == r[..1] && r[..3][..2] == r[..2];
    assert Run(minInterval, g, r[..1]) == g1;
    assert Run(minInterval, g, r[..2]) == Step(minInterval, g1, r[1]);
    assert Run(minInterval, g, r[..3]) == Step(minInterval, Step(minInterval, g1, r[1]), r[2]);
    if |r| == 3 {
      assert r[..3] == r;
    } else {
      assert r[..4] == r && r[..4][..3] == r[..3];
    }
    if Admits(g, minInterval, now) {
      assert g1.inside == map[0 := Evaluating];
      assert map[0 := Leaving] - {0} == map[];
    }
  }

  // ---------- Invariants of every run ----------

  ghost predicate Solo(g: Gate) {
    && (g.isRebalancing <==> g.inside != map[])
    && forall c, d :: c in g.inside && d in g.inside ==> c == d
  }

  /** Submissions lie far enough apart, and the date of the last round covers them once the gate is open. */
  ghost predicate Spaced(minInterval: int, g: Gate) {
    forall j, k :: 0 <= j < k < |g.submissions| ==> g.submissions[k] - g.submissions[j] >= minInterval
  }

  ghost predicate SomeoneIn(g: Gate, phase: Phase) {
    exists c :: c in g.inside && g.inside[c] == phase
  }

  ghost predicate Covered(minInterval: int, g: Gate, now: int) {
    forall k :: 0 <= k < |g.submissions| ==>
      && g.submissions[k] <= now
      && (!SomeoneIn(g, Submitted) ==> g.lastRebalance.Some? && g.submissions[k] <= g.lastRebalance.value)
      && (SomeoneIn(g, Evaluating) ==> now - g.submissions[k] >= minInterval)
  }

  lemma StepKeepsSolo(minInterval: int, g: Gate, e: Event)
    requires Solo(g)
    ensures Solo(Step(minInterval, g, e))
  {
    if e.Leave? && e.caller in g.inside {
      assert g.inside - {e.caller} == map[];
    } else if e.caller in g.inside {
      assert e.caller in Step(minInterval, g, e).inside;
    }
  }

  lemma StepKeepsSpaced(minInterval: int, g: Gate, e: Event, before: int, now: int)
    requires Solo(g) && Spaced(minInterval, g) && Covered(minInterval, g, before)
    requires before <= now && (Timed(e) ==> e.now == now)
    ensures Spaced(minInterval, Step(minInterval, g, e)) && Covered(minInterval, Step(minInterval, g, e), now)
  {
    var t := Step(minInterval, g, e);
    if e.caller in g.inside {
      assert g.inside[e.caller] == Evaluating ==> SomeoneIn(g, Evaluating);
      assert g.inside[e.caller] == Submitted ==> SomeoneIn(g, Submitted);
    }
    if e.caller in t.inside {
      assert t.inside[e.caller] == Submitted ==> SomeoneIn(t, Submitted);
    }
    if SomeoneIn(g, Submitted) {
      var c :| c in g.inside && g.inside[c] == Submitted;
      assert c != e.caller && c in t.inside ==> t.inside[c] == Submitted;
    }
  }

  /** The latest clock reading of a run, or the given start. */
  function Clock(events: seq<Event>, start: int): int {
    if events == [] then start
    else
      var last := events[|events| - 1];
      if Timed(last) then last.now else Clock(events[..|events| - 1], start)
  }

  lemma {:induction false} ClockBelow(events: seq<Event>, start: int, e: Event)
    requires Ordered(events + [e]) && Timed(e)
    requires forall k :: 0 <= k < |events| && Timed(events[k]) ==> start <= events[k].now
    requires start <= e.now
    ensures start <= Clock(events, start) <= e.now
  {
    var all := events + [e];
    if events != [] {
      var front, last := events[..|events| - 1], events[|events| - 1];
      assert all[|events| - 1] == last && all[|events|] == e;
      if !Timed(last) {
        assert Ordered(front + [e]) by {
          forall j, k | 0 <= j <= k < |front + [e]| && Timed((front + [e])[j]) && Timed((front + [e])[k])
            ensures (front + [e])[j].now <= (front + [e])[k].now
          {
            assert k < |front| ==> (front + [e])[k] == all[k];
            assert j < |front| ==> (front + [e])[j] == all[j];
          }
        }
        ClockBelow(front, start, e);
      }
    }
  }

  /**
   For any number of concurrent callers, at most one is between setting and clearing the flag,
   and any two submissions are at least the minimum interval apart.
   */
  lemma {:induction false} RoundsAreSoloAndSpaced(minInterval: int, events: seq<Event>, start: int)
    requires Ordered(events) && forall k :: 0 <= k < |events| && Timed(events[k]) ==> start <= events[k].now
    ensures var g := Run(minInterval, OPEN, events);
            Solo(g) && Spaced(minInterval, g) && Covered(minInterval, g, Clock(events, start))
  {
    if events != [] {
      var front, last := events[..|events| - 1], events[|events| - 1];
      assert events == front + [last];
      RoundsAreSoloAndSpaced(minInterval, front, start);
      var g := Run(minInterval, OPEN, front);
      if Timed(last) {
        ClockBelow(front, start, last);
      }
      StepKeepsSolo(minInterval, g, last);
      StepKeepsSpaced(minInterval, g, last, Clock(front, start), Clock(events, start));
    }
  }

  // ---------- When the gate opens ----------

  lemma {:induction false} FlagIsUpWhileInside(minInterval: int, events: seq<Event>)
    ensures Solo(Run(minInterval, OPEN, events))
  {
    if events != [] {
      FlagIsUpWhileInside(minInterval, events[..|events| - 1]);
      StepKeepsSolo(minInterval, Run(minInterval, OPEN, events[..|events| - 1]), events[|events| - 1]);
    }
  }

  /** The date of the last round that got that far, if any did. */
  ghost predicate LastRecorded(minInterval: int, events: seq<Event>, k: int) {
    && 0 <= k < |events| && Records(minInterval, events, k)
    && forall j :: k < j < |events| ==> !Records(minInterval, events, j)
  }

  /** This step dates a round: its caller has submitted, or was needed and found no plans. */
  ghost predicate Records(minInterval: int, events: seq<Event>, k: int)
    requires 0 <= k < |events|
  {
    var g := Run(minInterval, OPEN, events[..k]);
    events[k].Record? && events[k].caller in g.inside && g.inside[events[k].caller] == Submitted
  }

  lemma {:induction false} DateIsLastRecorded(minInterval: int, events: seq<Event>)
    ensures var last := Run(minInterval, OPEN, events).lastRebalance;
            && (last == None <==> forall k :: 0 <= k < |events| ==> !Records(minInterval, events, k))
            && forall k :: LastRecorded(minInterval, events, k) ==> last == Some(events[k].now)
  {
    if events != [] {
      var n := |events| - 1;
      var front := events[..n];
      DateIsLastRecorded(minInterval, front);
      assert events[..n] == front && Run(minInterval, OPEN, events) == Step(minInterval, Run(minInterval, OPEN, front), events[n]);
      assert Run(minInterval, OPEN, events).lastRebalance
          == if Records(minInterval, events, n) then Some(events[n].now) else Run(minInterval, OPEN, front).lastRebalance;
      forall k | 0 <= k < n ensures Records(minInterval, events, k) <==> Records(minInterval, front, k) {
        assert front[..k] == events[..k] && front[k] == events[k];
      }
      forall k | LastRecorded(minInterval, events, k)
        ensures Run(minInterval, OPEN, events).lastRebalance == Some(events[k].now)
      {
        if k < n {
          assert LastRecorded(minInterval, front, k);
        }
      }
    }
  }

  /**
   In every run with nobody inside, the next caller gets in exactly if no round was ever dated or
   the interval has passed since the last one was: the gate lets the first round through, and it
   opens again.
   */
  lemma GateOpensIff(minInterval: int, events: seq<Event>, c: Caller, now: int)
    requires Run(minInterval, OPEN, events).inside == map[]
    ensures Run(minInterval, OPEN, events + [Enter(c, now)]).inside != map[]
        <==> forall k :: LastRecorded(minInterval, events, k) ==> now - events[k].now >= minInterval
  {
    assert (events + [Enter(c, now)])[..|events|] == events;
    FlagIsUpWhileInside(minInterval, events);
    DateIsLastRecorded(minInterval, events);
    var g := Run(minInterval, OPEN, events);
    assert c in g.inside[c := Evaluating];
    if g.lastRebalance.Some? {
      SomeLastRecorded(minInterval, events, |events|);
      var k :| LastRecorded(minInterval, events, k);
    }
  }

  lemma {:induction false} SomeLastRecorded(minInterval: int, events: seq<Event>, n: nat)
    requires n <= |events| && exists k :: 0 <= k < n && Records(minInterval, events, k)
    requires forall k :: n <= k < |events| ==> !Records(minInterval, events, k)
    ensures exists k :: LastRecorded(minInterval, events, k)
  {
    if Records(minInterval, events, n - 1) {
      assert LastRecorded(minInterval, events, n - 1);
    } else {
      SomeLastRecorded(minInterval, events, n - 1);
    }
  }
}
