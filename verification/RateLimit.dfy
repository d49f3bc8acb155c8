/**
 The sliding-window rate limiter. Each client's list of admission times is pruned by the
 request path and by a background sweep; a reference limiter keeps everything.
 Clock readings are integers; limit and window are arbitrary.
 */
module RateLimit {
  type Client = string
  type Table = map<Client, seq<int>>

  /** The times that are younger than the window at now, in order. */
  function Active(times: seq<int>, now: int, window: int): seq<int> {
    if times == [] then []
    else
      var last := times[|times| - 1];
      Active(times[..|times| - 1], now, window) + if now - last < window then [last] else []
  }

  /** Exactly the times younger than the window are left, as often as they were there. */
  lemma {:induction false} ActiveIsYounger(times: seq<int>, now: int, window: int)
    ensures forall t :: multiset(Active(times, now, window))[t] == if now - t < window then multiset(times)[t] else 0
    ensures Active(times, now, window) != [] <==> exists k :: 0 <= k < |times| && now - times[k] < window
  {
    if times != [] {
      var front, last := times[..|times| - 1], times[|times| - 1];
      ActiveIsYounger(front, now, window);
      assert times == front + [last];
      if k :| 0 <= k < |front| && now - front[k] < window {
        assert times[k] == front[k];
      }
    }
  }

  function TimesOf(table: Table, client: Client): seq<int> {
    if client in table then table[client] else []
  }

  function Swept(table: Table, now: int, window: int): Table {
    map client | client in table && Active(table[client], now, window) != [] :: Active(table[client], now, window)
  }

  /** A sweep keeps exactly the clients with a time younger than the window, and exactly those times. */
  lemma SweepForgets(table: Table, now: int, window: int)
    ensures forall c :: c in Swept(table, now, window) <==>
              c in table && exists k :: 0 <= k < |table[c]| && now - table[c][k] < window
    ensures forall c, t :: c in Swept(table, now, window) ==>
              multiset(Swept(table, now, window)[c])[t] == if now - t < window then multiset(table[c])[t] else 0
  {
    forall c | c in table
      ensures c in Swept(table, now, window) <==> exists k :: 0 <= k < |table[c]| && now - table[c][k] < window
      ensures forall t :: multiset(Active(table[c], now, window))[t] == if now - t < window then multiset(table[c])[t] else 0
    {
      ActiveIsYounger(table[c], now, window);
    }
  }

  class RateLimiter {
    const limit: int
    const window: int
    var requests: Table

    constructor (limit: int, window: int)
      ensures this.limit == limit && this.window == window && requests == map[]
    {
      this.limit, this.window, requests := limit, window, map[];
    }

    method ActiveTimes(times: seq<int>, now: int) returns (active: seq<int>)
      ensures active == Active(times, now, window)
    {
      active := [];
      for i := 0 to |times|
        invariant active == Active(times[..i], now, window)
      {
        assert times[..i + 1][..i] == times[..i];
        if now - times[i] < window {
          active := active + [times[i]];
        }
      }
      assert times[..|times|] == times;
    }

    /** One pass of the background sweep; clients are visited in any order. */
    method Sweep(now: int)
      modifies this
      ensures requests == Swept(old(requests), now, window)
    {
      var pending := requests.Keys;
      while pending != {}
        invariant pending <= requests.Keys <= old(requests).Keys
        invariant forall c :: c in pending ==> requests[c] == old(requests)[c]
        invariant forall c :: c in old(requests) && c !in pending ==>
                    (c in requests <==> Active(old(requests)[c], now, window) != [])
        invariant forall c :: c in requests && c !in pending ==>
                    requests[c] == Active(old(requests)[c], now, window)
        decreases |pending|
      {
        var client :| client in pending;
        var active := ActiveTimes(requests[client], now);
        if |active| == 0 {
          requests := requests - {client};
        } else {
          requests := requests[client := active];
        }
        pending := pending - {client};
      }
    }

    method Request(client: Client, now: int) returns (admitted: bool)
      modifies this
      ensures Step(limit, window, State(old(requests), [], []), RequestAt(client, now))
              == State(requests, if admitted then [Admission(client, now)] else [], [admitted])
    {
      var active := [];
      if client in requests {
        active := ActiveTimes(requests[client], now);
      }
      if |active| >= limit {
        return false;
      }
      requests := requests[client := active + [now]];
      return true;
    }
  }

  // ---------- Runs ----------

  datatype Event = RequestAt(client: Client, now: int) | SweepAt(now: int)
  datatype Admission = Admission(client: Client, at: int)

  /** The limiter's table together with what it has answered so far. */
  datatype State = State(table: Table, admitted: seq<Admission>, decisions: seq<bool>)

  function Step(limit: int, window: int, s: State, e: Event): State {
    match e
    case SweepAt(now) => s.(table := Swept(s.table, now, window))
    case RequestAt(client, now) =>
      var active := Active(TimesOf(s.table, client), now, window);
      if |active| >= limit then s.(decisions := s.decisions + [false])
      else State(s.table[client := active + [now]], s.admitted + [Admission(client, now)], s.decisions + [true])
  }

  /** Any interleaving of requests and sweeps. */
  function Run(limit: int, window: int, events: seq<Event>): State {
    if events == [] then State(map[], [], [])
    else Step(limit, window, Run(limit, window, events[..|events| - 1]), events[|events| - 1])
  }

  /** All admission times of one client. */
  function Admissions(admitted: seq<Admission>, client: Client): seq<int> {
    if admitted == [] then []
    else
      var last := admitted[|admitted| - 1];
      Admissions(admitted[..|admitted| - 1], client) + if last.client == client then [last.at] else []
  }

  datatype Reference = Reference(admitted: seq<Admission>, decisions: seq<bool>)

  /** The reference limiter: no table, nothing is ever forgotten, sweeps do nothing. */
  function RunReference(limit: int, window: int, events: seq<Event>): Reference {
    if events == [] then Reference([], [])
    else
      var before := RunReference(limit, window, events[..|events| - 1]);
      match events[|events| - 1]
      case SweepAt(_) => before
      case RequestAt(client, now) =>
        if |Active(Admissions(before.admitted, client), now, window)| < limit
        then Reference(before.admitted + [Admission(client, now)], before.decisions + [true])
        else before.(decisions := before.decisions + [false])
  }

  /** The clock never runs backwards. */
  ghost predicate Ordered(events: seq<Event>) {
    forall j, k :: 0 <= j <= k < |events| ==> events[j].now <= events[k].now
  }

  /** From now on, pruned and full lists have the same active times. */
  ghost predicate Agree(s: State, window: int, from: int) {
    forall client, now :: from <= now ==>
      Active(TimesOf(s.table, client), now, window) == Active(Admissions(s.admitted, client), now, window)
  }

  lemma {:induction false} ActiveConcat(a: seq<int>, b: seq<int>, now: int, window: int)
    ensures Active(a + b, now, window) == Active(a, now, window) + Active(b, now, window)
    decreases |b|
  {
    if b == [] {
      assert a + b == a;
    } else {
      ActiveConcat(a, b[..|b| - 1], now, window);
      assert (a + b)[..|a + b| - 1] == a + b[..|b| - 1];
    }
  }

  /** Pruning earlier does not change what is active later. */
  lemma {:induction false} ActiveTwice(times: seq<int>, earlier: int, later: int, window: int)
    requires earlier <= later
    ensures Active(Active(times, earlier, window), later, window) == Active(times, later, window)
  {
    if times != [] {
      var front, last := times[..|times| - 1], times[|times| - 1];
      ActiveTwice(front, earlier, later, window);
      ActiveConcat(Active(front, earlier, window), if earlier - last < window then [last] else [], later, window);
      assert Active([last], later, window) == if later - last < window then [last] else [];
    }
  }

  lemma AdmissionsSnoc(admitted: seq<Admission>, a: Admission, client: Client)
    ensures Admissions(admitted + [a], client)
            == if a.client == client then Admissions(admitted, client) + [a.at] else Admissions(admitted, client)
  {
    assert (admitted + [a])[..|admitted + [a]| - 1] == admitted;
    assert Admissions(admitted, client) + [] == Admissions(admitted, client);
  }

  lemma StepAgrees(limit: int, window: int, s: State, e: Event)
    requires Agree(s, window, e.now)
    ensures Agree(Step(limit, window, s, e), window, e.now)
  {
    var t := Step(limit, window, s, e);
    forall client, now | e.now <= now
      ensures Active(TimesOf(t.table, client), now, window) == Active(Admissions(t.admitted, client), now, window)
    {
      var times := TimesOf(s.table, client);
      var full := Admissions(s.admitted, client);
      assert Active(times, now, window) == Active(full, now, window);
      ActiveTwice(times, e.now, now, window);
      match e
      case SweepAt(_) =>
        assert TimesOf(t.table, client) == Active(times, e.now, window);
      case RequestAt(requester, _) =>
        if |Active(TimesOf(s.table, requester), e.now, window)| < limit {
          AdmissionsSnoc(s.admitted, Admission(requester, e.now), client);
          ActiveConcat(Active(times, e.now, window), [e.now], now, window);
          ActiveConcat(full, [e.now], now, window);
        }
    }
  }

  lemma {:induction false} RunAgrees(limit: int, window: int, events: seq<Event>, from: int)
    requires Ordered(events)
    requires forall k :: 0 <= k < |events| ==> events[k].now <= from
    ensures Agree(Run(limit, window, events), window, from)
  {
    if events != [] {
      var front, last := events[..|events| - 1], events[|events| - 1];
      RunAgrees(limit, window, front, last.now);
      StepAgrees(limit, window, Run(limit, window, front), last);
    }
  }

  /** In every interleaving, the pruned limiter answers exactly as the one that forgets nothing. */
  lemma {:induction false} PrunedDecidesLikeReference(limit: int, window: int, events: seq<Event>)
    requires Ordered(events)
    ensures Run(limit, window, events).decisions == RunReference(limit, window, events).decisions
    ensures Run(limit, window, events).admitted == RunReference(limit, window, events).admitted
  {
    if events != [] {
      var front, last := events[..|events| - 1], events[|events| - 1];
      PrunedDecidesLikeReference(limit, window, front);
      RunAgrees(limit, window, front, last.now);
    }
  }

  // ---------- What the answers guarantee ----------

  /** The times in the half-open interval [start, start + window). */
  function Within(times: seq<int>, start: int, window: int): seq<int> {
    if times == [] then []
    else
      var last := times[|times| - 1];
      Within(times[..|times| - 1], start, window) + if start <= last < start + window then [last] else []
  }

  lemma WithinSnoc(times: seq<int>, t: int, start: int, window: int)
    ensures Within(times + [t], start, window)
            == if start <= t < start + window then Within(times, start, window) + [t] else Within(times, start, window)
  {
    assert Within(times, start, window) + [] == Within(times, start, window);
    assert (times + [t])[..|times + [t]| - 1] == times;
  }

  lemma {:induction false} WithinIsActive(times: seq<int>, start: int, now: int, window: int)
    requires start <= now < start + window
    ensures |Within(times, start, window)| <= |Active(times, now, window)|
  {
    if times != [] {
      WithinIsActive(times[..|times| - 1], start, now, window);
    }
  }

  lemma {:induction false} ActiveIsWithin(times: seq<int>, now: int, window: int)
    requires forall k :: 0 <= k < |times| ==> times[k] <= now
    ensures |Active(times, now, window)| <= |Within(times, now - window + 1, window)|
  {
    if times != [] {
      ActiveIsWithin(times[..|times| - 1], now, window);
    }
  }

  /** Any interval as long as the window contains at most limit admissions of a client. */
  lemma {:induction false} AtMostLimitPerWindow(limit: int, window: int, events: seq<Event>, client: Client, start: int)
    requires Ordered(events)
    ensures |Within(Admissions(Run(limit, window, events).admitted, client), start, window)|
            <= if limit > 0 then limit else 0
  {
    if events != [] {
      var front, last := events[..|events| - 1], events[|events| - 1];
      var s := Run(limit, window, front);
      AtMostLimitPerWindow(limit, window, front, client, start);
      if last.RequestAt? && |Active(TimesOf(s.table, last.client), last.now, window)| < limit {
        AdmissionsSnoc(s.admitted, Admission(last.client, last.now), client);
        if last.client == client {
          WithinSnoc(Admissions(s.admitted, client), last.now, start, window);
          if start <= last.now < start + window {
            RunAgrees(limit, window, front, last.now);
            WithinIsActive(Admissions(s.admitted, client), start, last.now, window);
            assert Active(TimesOf(s.table, client), last.now, window)
                == Active(Admissions(s.admitted, client), last.now, window);
          }
        }
      }
    }
  }

  lemma {:induction false} AdmissionsBefore(limit: int, window: int, events: seq<Event>, client: Client, now: int)
    requires forall k :: 0 <= k < |events| ==> events[k].now <= now
    ensures forall k :: 0 <= k < |Admissions(Run(limit, window, events).admitted, client)| ==>
              Admissions(Run(limit, window, events).admitted, client)[k] <= now
  {
    if events != [] {
      var front := events[..|events| - 1];
      AdmissionsBefore(limit, window, front, client, now);
      var s, t := Run(limit, window, front), Run(limit, window, events);
      if t.admitted != s.admitted {
        AdmissionsSnoc(s.admitted, t.admitted[|s.admitted|], client);
      }
    }
  }

  /**
   A request is rejected if and only if the last window, up to and including now, already
   contains limit admissions of that client. With a positive limit it contains exactly limit.
   */
  lemma RejectionMeansFullWindow(limit: int, window: int, events: seq<Event>, client: Client, now: int)
    requires Ordered(events) && forall k :: 0 <= k < |events| ==> events[k].now <= now
    ensures var s := Run(limit, window, events);
            var inWindow := InWindow(s, client, now, window);
            && Step(limit, window, s, RequestAt(client, now)).decisions == s.decisions + [inWindow < limit]
            && (inWindow >= limit > 0 ==> inWindow == limit)
  {
    var s := Run(limit, window, events);
    ActiveListCountsWindow(limit, window, events, client, now);
    DecisionCounts(limit, window, s, client, now, InWindow(s, client, now, window));
    AtMostLimitPerWindow(limit, window, events, client, now - window + 1);
  }

  /** How many admissions of the client the last window, up to and including now, contains. */
  function InWindow(s: State, client: Client, now: int, window: int): nat {
    |Within(Admissions(s.admitted, client), now - window + 1, window)|
  }

  lemma DecisionCounts(limit: int, window: int, s: State, client: Client, now: int, count: nat)
    requires count == |Active(TimesOf(s.table, client), now, window)|
    ensures Step(limit, window, s, RequestAt(client, now)).decisions == s.decisions + [count < limit]
  {
  }

  lemma ActiveListCountsWindow(limit: int, window: int, events: seq<Event>, client: Client, now: int)
    requires Ordered(events) && forall k :: 0 <= k < |events| ==> events[k].now <= now
    ensures var s := Run(limit, window, events);
            |Active(TimesOf(s.table, client), now, window)| == InWindow(s, client, now, window)
  {
    var s := Run(limit, window, events);
    RunAgrees(limit, window, events, now);
    assert Active(TimesOf(s.table, client), now, window) == Active(Admissions(s.admitted, client), now, window);
    AdmissionsBefore(limit, window, events, client, now);
    ActiveCountsWindow(Admissions(s.admitted, client), now, window);
  }

  lemma ActiveCountsWindow(times: seq<int>, now: int, window: int)
    requires forall k :: 0 <= k < |times| ==> times[k] <= now
    ensures |Active(times, now, window)| == |Within(times, now - window + 1, window)|
  {
    ActiveIsWithin(times, now, window);
    if window > 0 {
      WithinIsActive(times, now - window + 1, now, window);
    } else {
      NothingActive(times, now, window);
      NothingWithin(times, now - window + 1, window);
    }
  }

  lemma {:induction false} NothingActive(times: seq<int>, now: int, window: int)
    requires window <= 0 && forall k :: 0 <= k < |times| ==> times[k] <= now
    ensures Active(times, now, window) == []
  {
    if times != [] {
      NothingActive(times[..|times| - 1], now, window);
    }
  }

  lemma {:induction false} NothingWithin(times: seq<int>, start: int, window: int)
    requires window <= 0
    ensures Within(times, start, window) == []
  {
    if times != [] {
      NothingWithin(times[..|times| - 1], start, window);
    }
  }
}
