/**
 Queries as they really interleave. The leader is stored and the cache emptied in two steps; a
 query reads the leader once and statuses once, and for each of its nodes either takes the cached
 entry or writes one built from what it read.
 */
module SplitQueries {
  import opened Options
  import opened CM = ClusterManager
  import Heartbeat

  type Query = nat

  /** The leader a query read, the nodes it has still to visit, and what it has answered so far. */
  datatype Open = Open(leader: NodeId, todo: set<NodeId>, shown: seq<NodeInfo>)

  datatype Read = Read(statuses: map<NodeId, Status>, at: int)

  datatype State = State(view: View, open: map<Query, Open>, seen: map<Query, Read>)

  const START := State(View("", map[]), map[], map[])

  datatype Event =
    | LeaderSet(leader: NodeId)
    | CacheCleared
    | Forgotten(node: NodeId)
    | StatusesRead(query: Query, statuses: map<NodeId, Status>, at: int)
    | LeaderRead(query: Query, todo: set<NodeId>, elected: NodeId)
    | FromCache(query: Query, node: NodeId, now: int)
    | Built(query: Query, node: NodeId, now: int)
    | Closed(query: Query)

  /** A query is about one node, or a listing of those whose statuses it has read. */
  predicate MayAsk(s: State, q: Query, todo: set<NodeId>) {
    |todo| == 1 || (q in s.seen && todo == s.seen[q].statuses.Keys)
  }

  /** The query can go on with this node: it is still to be visited, and its status was read. */
  predicate AtNode(s: State, q: Query, id: NodeId) {
    q in s.open && id in s.open[q].todo && q in s.seen && id in s.seen[q].statuses
  }

  function Show(o: Open, id: NodeId, info: NodeInfo): Open {
    o.(todo := o.todo - {id}, shown := o.shown + [info])
  }

  function Info(s: State, q: Query, id: NodeId): NodeInfo
    requires AtNode(s, q, id)
  {
    NodeInfo(id, s.seen[q].statuses[id], id == s.open[q].leader)
  }

  /**
   One atomic step; a step that is not possible leaves everything as it is. The miss that makes a
   query build an entry was seen earlier: another query may have filled the entry since.
   */
  function Step(s: State, e: Event): State {
    match e
    case LeaderSet(leader) => s.(view := s.view.(leader := leader))
    case CacheCleared => s.(view := s.view.(cache := map[]))
    case Forgotten(id) => s.(view := Forget(s.view, id))
    case StatusesRead(q, statuses, at) => if q in s.seen then s else s.(seen := s.seen[q := Read(statuses, at)])
    case LeaderRead(q, todo, elected) =>
      if q in s.open || !MayAsk(s, q, todo) then s
      else s.(open := s.open[q := Open(CurrentLeader(s.view, elected), todo, [])])
    case FromCache(q, id, now) =>
      if AtNode(s, q, id) && Hit(s.view, id, now)
      then s.(open := s.open[q := Show(s.open[q], id, s.view.cache[id].info)]) else s
    case Built(q, id, now) =>
      if !AtNode(s, q, id) then s
      else
        s.(view := s.view.(cache := s.view.cache[id := Cached(Info(s, q, id), now)]),
           open := s.open[q := Show(s.open[q], id, Info(s, q, id))])
    case Closed(q) => s.(open := s.open - {q}, seen := s.seen - {q})
  }

  function Run(s: State, events: seq<Event>): State {
    if events == [] then s
    else Step(Run(s, events[..|events| - 1]), events[|events| - 1])
  }

  lemma RunSnoc(s: State, events: seq<Event>, e: Event)
    ensures Run(s, events + [e]) == Step(Run(s, events), e)
  {
    assert (events + [e])[..|events|] == events;
  }

  lemma RunOne(s: State, e: Event)
    ensures Run(s, [e]) == Step(s, e)
  {
    RunSnoc(s, [], e);
    assert [] + [e] == [e];
  }

  lemma RunTwo(s: State, e: Event, f: Event)
    ensures Run(s, [e, f]) == Step(Step(s, e), f)
  {
    RunOne(s, e);
    RunSnoc(s, [e], f);
    assert [e] + [f] == [e, f];
  }

  lemma {:induction false} RunConcat(s: State, a: seq<Event>, b: seq<Event>)
    ensures Run(s, a + b) == Run(Run(s, a), b)
  {
    if b == [] {
      assert a + b == a;
    } else {
      RunConcat(s, a, b[..|b| - 1]);
      assert (a + b)[..|a + b| - 1] == a + b[..|b| - 1];
    }
  }

  /** No other leader is announced meanwhile. */
  ghost predicate SameTerm(events: seq<Event>) {
    forall e :: e in events ==> !e.LeaderSet?
  }

  lemma SameTermConcat(a: seq<Event>, b: seq<Event>)
    requires SameTerm(a) && SameTerm(b)
    ensures SameTerm(a + b)
  {
  }

  // ---------- What an open query may still write ----------

  /** The query may still write an entry for the node: it is to be visited, and its status not read as missing. */
  predicate MayWrite(s: State, q: Query, id: NodeId) {
    q in s.open && id in s.open[q].todo && (q in s.seen ==> id in s.seen[q].statuses)
  }

  /** It read another leader, and one of the two leaders is among the nodes it may still write. */
  predicate Harmful(s: State, q: Query)
    requires q in s.open
  {
    && s.open[q].leader != s.view.leader
    && (MayWrite(s, q, s.open[q].leader) || MayWrite(s, q, s.view.leader))
  }

  /** It may still present the leader it read as such, though there is another. */
  predicate Misleading(s: State, q: Query)
    requires q in s.open
  {
    s.open[q].leader != s.view.leader && MayWrite(s, q, s.open[q].leader)
  }

  ghost predicate NoneHarmful(s: State) {
    forall q :: q in s.open ==> !Harmful(s, q)
  }

  ghost predicate NoneMisleading(s: State) {
    forall q :: q in s.open ==> !Misleading(s, q)
  }

  /** The steps by which a query writes an entry it may still write. */
  function WriteOut(s: State, q: Query, id: NodeId, now: int): seq<Event> {
    if q in s.seen then [Built(q, id, now)]
    else [StatusesRead(q, map[id := Heartbeat.Healthy], now), Built(q, id, now)]
  }

  lemma BuiltWrites(s: State, q: Query, id: NodeId, now: int)
    requires AtNode(s, q, id)
    ensures var t := Step(s, Built(q, id, now));
            && t.view.leader == s.view.leader && t.open.Keys == s.open.Keys && t.seen == s.seen
            && id in t.view.cache && t.view.cache[id] == Cached(Info(s, q, id), now)
  {
  }

  lemma WriteOutWrites(s: State, q: Query, id: NodeId, now: int)
    requires MayWrite(s, q, id)
    ensures SameTerm(WriteOut(s, q, id, now))
    ensures var t := Run(s, WriteOut(s, q, id, now));
            && t.view.leader == s.view.leader
            && t.open.Keys == s.open.Keys && t.seen.Keys == s.seen.Keys + {q}
            && id in t.view.cache && t.view.cache[id].timestamp == now
            && t.view.cache[id].info.id == id && t.view.cache[id].info.isLeader == (id == s.open[q].leader)
  {
    if q in s.seen {
      RunOne(s, Built(q, id, now));
      BuiltWrites(s, q, id, now);
    } else {
      var read := StatusesRead(q, map[id := Heartbeat.Healthy], now);
      RunTwo(s, read, Built(q, id, now));
      BuiltWrites(Step(s, read), q, id, now);
    }
  }

  // ---------- When the cached flags stay right ----------

  /** What a query writes back is right exactly if it read the present leader or the node is neither of the two. */
  lemma WriteBackIsRightIff(s: State, q: Query, id: NodeId, now: int)
    requires AtNode(s, q, id) && FlagsAgree(s.view)
    ensures FlagsAgree(Step(s, Built(q, id, now)).view)
        <==> s.open[q].leader == s.view.leader || (id != s.open[q].leader && id != s.view.leader)
  {
    var t := Step(s, Built(q, id, now));
    assert t.view.cache[id].info == Info(s, q, id);
  }

  lemma StepKeepsHarmless(s: State, e: Event)
    requires s.view.leader != "" && NoneHarmful(s) && !e.LeaderSet?
    ensures NoneHarmful(Step(s, e)) && Step(s, e).view.leader == s.view.leader
  {
    var t := Step(s, e);
    forall q | q in t.open ensures !Harmful(t, q) {
      if q in s.open {
        assert !Harmful(s, q);
      }
    }
  }

  lemma StepKeepsFlags(s: State, e: Event)
    requires s.view.leader != "" && NoneHarmful(s) && FlagsAgree(s.view) && !e.LeaderSet?
    ensures FlagsAgree(Step(s, e).view)
  {
    if e.Built? && AtNode(s, e.query, e.node) {
      assert !Harmful(s, e.query);
    }
  }

  lemma {:induction false} HarmlessStays(s: State, more: seq<Event>)
    requires s.view.leader != "" && NoneHarmful(s) && SameTerm(more)
    ensures NoneHarmful(Run(s, more)) && Run(s, more).view.leader == s.view.leader
    ensures FlagsAgree(s.view) ==> FlagsAgree(Run(s, more).view)
  {
    if more != [] {
      var front, last := more[..|more| - 1], more[|more| - 1];
      HarmlessStays(s, front);
      StepKeepsHarmless(Run(s, front), last);
      if FlagsAgree(s.view) {
        StepKeepsFlags(Run(s, front), last);
      }
    }
  }

  /** A moment at which neither entry would be served. */
  function Later(v: View, a: NodeId, b: NodeId): (now: int)
    ensures !Hit(v, a, now) && !Hit(v, b, now)
  {
    var x := if a in v.cache then v.cache[a].timestamp + CACHE_TTL else 0;
    var y := if b in v.cache then v.cache[b].timestamp + CACHE_TTL else 0;
    if x < y then y else x
  }

  /**
   Until the next leader change, whatever queries do, every cached flag agrees with the leader
   exactly if all do now and no open query that read another leader has either of the two
   leaders still to write.
   */
  lemma FlagsStayIff(s: State)
    requires s.view.leader != ""
    ensures FlagsAgree(s.view) && NoneHarmful(s)
        <==> forall more :: SameTerm(more) ==> FlagsAgree(Run(s, more).view)
  {
    if FlagsAgree(s.view) && NoneHarmful(s) {
      forall more | SameTerm(more) ensures FlagsAgree(Run(s, more).view) {
        HarmlessStays(s, more);
      }
    } else {
      assert SameTerm([]) && Run(s, []) == s;
      if q :| q in s.open && Harmful(s, q) {
        var id := if MayWrite(s, q, s.view.leader) then s.view.leader else s.open[q].leader;
        var more := WriteOut(s, q, id, Later(s.view, id, id));
        WriteOutWrites(s, q, id, Later(s.view, id, id));
        assert !FlagsAgree(Run(s, more).view);
      }
    }
  }

  /** Wrong flags do not outlive the cache: once nothing harmful is open, only entries of before can be wrong, until they expire. */
  lemma {:induction false} OnlyOldFlagsAreWrong(s: State, more: seq<Event>)
    requires s.view.leader != "" && NoneHarmful(s) && SameTerm(more)
    ensures var v := Run(s, more).view;
            forall id :: id in v.cache ==>
              || (v.cache[id].info.id == id && v.cache[id].info.isLeader == (id == s.view.leader))
              || (id in s.view.cache && v.cache[id] == s.view.cache[id])
  {
    if more != [] {
      var front, last := more[..|more| - 1], more[|more| - 1];
      OnlyOldFlagsAreWrong(s, front);
      HarmlessStays(s, front);
      var r := Run(s, front);
      if last.Built? && AtNode(r, last.query, last.node) {
        assert !Harmful(r, last.query);
      }
    }
  }

  lemma WrongFlagsExpire(s: State, more: seq<Event>, id: NodeId, now: int, latest: int)
    requires s.view.leader != "" && NoneHarmful(s) && SameTerm(more)
    requires forall n :: n in s.view.cache ==> s.view.cache[n].timestamp <= latest
    requires now >= latest + CACHE_TTL && Hit(Run(s, more).view, id, now)
    ensures Run(s, more).view.cache[id].info.isLeader == (id == Run(s, more).view.leader)
  {
    OnlyOldFlagsAreWrong(s, more);
    HarmlessStays(s, more);
  }

  // ---------- When listings show one leader ----------

  ghost predicate OneLeader(infos: seq<NodeInfo>) {
    forall i, j :: 0 <= i < j < |infos| && infos[i].isLeader && infos[j].isLeader ==> infos[i].id == infos[j].id
  }

  /** No cached entry presents a node other than the leader as such. */
  ghost predicate NoFalseLeader(v: View) {
    forall id :: id in v.cache ==> v.cache[id].info.id == id && (v.cache[id].info.isLeader ==> id == v.leader)
  }

  ghost predicate OnlyLeaderShown(o: Open, leader: NodeId) {
    forall k :: 0 <= k < |o.shown| && o.shown[k].isLeader ==> o.shown[k].id == leader
  }

  /** Queries other than the earlier ones read the present leader and showed no other. */
  ghost predicate NewOnesTellTruth(s: State, earlier: set<Query>) {
    forall q :: q in s.open && q !in earlier ==>
      s.open[q].leader == s.view.leader && OnlyLeaderShown(s.open[q], s.view.leader)
  }

  lemma StepKeepsUnmisled(s: State, e: Event)
    requires s.view.leader != "" && NoneMisleading(s) && NoFalseLeader(s.view) && !e.LeaderSet?
    ensures NoneMisleading(Step(s, e)) && NoFalseLeader(Step(s, e).view) && Step(s, e).view.leader == s.view.leader
  {
    var t := Step(s, e);
    forall q | q in t.open ensures !Misleading(t, q) {
      if q in s.open {
        assert !Misleading(s, q);
      }
    }
  }

  lemma StepKeepsTruth(s: State, e: Event, earlier: set<Query>)
    requires s.view.leader != "" && NoFalseLeader(s.view) && NewOnesTellTruth(s, earlier) && !e.LeaderSet?
    ensures NewOnesTellTruth(Step(s, e), earlier)
  {
  }

  lemma {:induction false} NewQueriesTellTruth(s: State, more: seq<Event>, earlier: set<Query>)
    requires s.view.leader != "" && NoneMisleading(s) && NoFalseLeader(s.view)
    requires NewOnesTellTruth(s, earlier) && SameTerm(more)
    ensures var t := Run(s, more);
            && NoneMisleading(t) && NoFalseLeader(t.view) && t.view.leader == s.view.leader
            && NewOnesTellTruth(t, earlier)
  {
    if more != [] {
      var front, last := more[..|more| - 1], more[|more| - 1];
      NewQueriesTellTruth(s, front, earlier);
      StepKeepsUnmisled(Run(s, front), last);
      StepKeepsTruth(Run(s, front), last, earlier);
    }
  }

  /** A listing of two nodes: the first is served from the cache, the second built. */
  function ListTwo(q: Query, first: NodeId, second: NodeId, now: int): seq<Event> {
    [StatusesRead(q, map[first := Heartbeat.Healthy, second := Heartbeat.Healthy], now), LeaderRead(q, {first, second}, "")]
    + [FromCache(q, first, now), Built(q, second, now)]
  }

  lemma ListTwoBegins(s: State, q: Query, first: NodeId, second: NodeId, now: int)
    requires q !in s.open && q !in s.seen && s.view.leader != ""
    ensures var statuses := map[first := Heartbeat.Healthy, second := Heartbeat.Healthy];
            Step(Step(s, StatusesRead(q, statuses, now)), LeaderRead(q, {first, second}, ""))
            == State(s.view, s.open[q := Open(s.view.leader, {first, second}, [])], s.seen[q := Read(statuses, now)])
  {
    assert map[first := Heartbeat.Healthy, second := Heartbeat.Healthy].Keys == {first, second};
  }

  lemma ListTwoEnds(s: State, q: Query, first: NodeId, second: NodeId, now: int)
    requires q in s.open && s.open[q] == Open(second, {first, second}, []) && first != second
    requires q in s.seen && first in s.seen[q].statuses && second in s.seen[q].statuses
    requires Hit(s.view, first, now) && s.view.cache[first].info.isLeader && s.view.cache[first].info.id == first
    ensures var t := Step(Step(s, FromCache(q, first, now)), Built(q, second, now));
            q in t.open && !OneLeader(t.open[q].shown)
  {
    var t := Step(s, FromCache(q, first, now));
    assert t.open[q] == Open(second, {second}, [s.view.cache[first].info]);
    var shown := Step(t, Built(q, second, now)).open[q].shown;
    assert shown == [s.view.cache[first].info, Info(t, q, second)];
    assert shown[0].isLeader && shown[1].isLeader;
  }

  lemma ListTwoShows(s: State, q: Query, first: NodeId, second: NodeId, now: int)
    requires q !in s.open && q !in s.seen && s.view.leader == second != "" && first != second
    requires Hit(s.view, first, now) && s.view.cache[first].info.isLeader && s.view.cache[first].info.id == first
    ensures SameTerm(ListTwo(q, first, second, now))
    ensures var t := Run(s, ListTwo(q, first, second, now)); q in t.open && !OneLeader(t.open[q].shown)
  {
    var statuses := map[first := Heartbeat.Healthy, second := Heartbeat.Healthy];
    var e, f := StatusesRead(q, statuses, now), LeaderRead(q, {first, second}, "");
    var g, h := FromCache(q, first, now), Built(q, second, now);
    RunTwo(s, e, f);
    ListTwoBegins(s, q, first, second, now);
    RunConcat(s, [e, f], [g, h]);
    var begun := Step(Step(s, e), f);
    RunTwo(begun, g, h);
    ListTwoEnds(begun, q, first, second, now);
  }

  /** A query that may still present its old leader does, and a listing begun afterwards shows both. */
  lemma MisleadingQueryShowsTwoLeaders(s: State, q: Query, listing: Query, now: int)
    requires s.view.leader != "" && q in s.open && Misleading(s, q)
    requires listing !in s.open && listing !in s.seen && listing != q
    ensures var more := WriteOut(s, q, s.open[q].leader, now) + ListTwo(listing, s.open[q].leader, s.view.leader, now);
            SameTerm(more) && listing in Run(s, more).open && !OneLeader(Run(s, more).open[listing].shown)
  {
    var former := s.open[q].leader;
    var write, list := WriteOut(s, q, former, now), ListTwo(listing, former, s.view.leader, now);
    WriteOutWrites(s, q, former, now);
    ListTwoShows(Run(s, write), listing, former, s.view.leader, now);
    RunConcat(s, write, list);
    SameTermConcat(write, list);
  }

  ghost predicate ShowsOneLeader(s: State, more: seq<Event>, q: Query) {
    q in Run(s, more).open ==> OneLeader(Run(s, more).open[q].shown)
  }

  /**
   With no false leader cached, no query begun from now until the next leader change shows two
   leaders exactly if no open query that read another leader has that one still to write.
   */
  lemma NewListingsShowOneLeaderIff(s: State)
    requires s.view.leader != "" && NoFalseLeader(s.view)
    ensures NoneMisleading(s) <==> forall more, q :: SameTerm(more) && q !in s.open ==> ShowsOneLeader(s, more, q)
  {
    if NoneMisleading(s) {
      forall more, q | SameTerm(more) && q !in s.open ensures ShowsOneLeader(s, more, q) {
        NewQueriesTellTruth(s, more, s.open.Keys);
      }
    } else {
      var q :| q in s.open && Misleading(s, q);
      var listing := Unused(s.open.Keys + s.seen.Keys);
      var now := Later(s.view, s.open[q].leader, s.view.leader);
      MisleadingQueryShowsTwoLeaders(s, q, listing, now);
      var more := WriteOut(s, q, s.open[q].leader, now) + ListTwo(listing, s.open[q].leader, s.view.leader, now);
      assert SameTerm(more) && !ShowsOneLeader(s, more, listing);
    }
  }

  // ---------- Whole runs ----------

  /**
   In every run: once a leader change has been handled, the flags stay right for its term exactly
   if no query open then is harmful, and no listing begun in the term shows two leaders exactly
   if none is misleading.
   */
  lemma TermIsCleanIff(events: seq<Event>)
    requires Run(START, events).view.leader != ""
    ensures var s := Run(START, events + [CacheCleared]);
            && (NoneHarmful(s) <==>
                  forall more :: SameTerm(more) ==> FlagsAgree(Run(START, events + [CacheCleared] + more).view))
            && (NoneMisleading(s) <==>
                  forall more, q :: SameTerm(more) && q !in s.open ==> ShowsOneLeader(START, events + [CacheCleared] + more, q))
  {
    var handled := events + [CacheCleared];
    var s := Run(START, handled);
    RunSnoc(START, events, CacheCleared);
    forall more ensures Run(START, handled + more) == Run(s, more) {
      RunConcat(START, handled, more);
    }
    FlagsStayIff(s);
    NewListingsShowOneLeaderIff(s);
    forall more, q ensures ShowsOneLeader(START, handled + more, q) <==> ShowsOneLeader(s, more, q) {
    }
  }

  lemma {:induction false} CurrentStays(s: State, more: seq<Event>)
    requires s.view.leader != "" && SameTerm(more)
    requires forall q :: q in s.open ==> s.open[q].leader == s.view.leader
    ensures Run(s, more).view.leader == s.view.leader
    ensures forall q :: q in Run(s, more).open ==> Run(s, more).open[q].leader == s.view.leader
  {
    if more != [] {
      CurrentStays(s, more[..|more| - 1]);
    }
  }

  /** If no query was open when the leader was stored, the term is clean from the clearing on. */
  lemma QuietChangeIsClean(before: seq<Event>, leader: NodeId, meanwhile: seq<Event>, more: seq<Event>)
    requires Run(START, before).open == map[] && leader != "" && SameTerm(meanwhile) && SameTerm(more)
    ensures var s := Run(START, before + [LeaderSet(leader)] + meanwhile + [CacheCleared] + more);
            s.view.leader == leader && FlagsAgree(s.view)
  {
    var stored := before + [LeaderSet(leader)];
    RunSnoc(START, before, LeaderSet(leader));
    RunConcat(START, stored, meanwhile);
    CurrentStays(Run(START, stored), meanwhile);
    var cleared := stored + meanwhile + [CacheCleared];
    RunSnoc(START, stored + meanwhile, CacheCleared);
    RunConcat(START, cleared, more);
    HarmlessStays(Run(START, cleared), more);
  }

  // ---------- How old a served status can be ----------

  /** The status of the node was read in the run, after the given moment. */
  ghost predicate WasRead(events: seq<Event>, id: NodeId, status: Status, after: int) {
    exists k :: 0 <= k < |events| && ReadsStatus(events[k], id, status, after)
  }

  predicate ReadsStatus(e: Event, id: NodeId, status: Status, after: int) {
    e.StatusesRead? && id in e.statuses && e.statuses[id] == status && e.at > after
  }

  /** Every entry is dated at most d after its query read the statuses. */
  ghost predicate Prompt(events: seq<Event>, d: int) {
    events == [] ||
    (var front, last := events[..|events| - 1], events[|events| - 1];
     var s := Run(START, front);
     Prompt(front, d) && (last.Built? && last.query in s.seen ==> last.now - s.seen[last.query].at <= d))
  }

  lemma WasReadSnoc(events: seq<Event>, e: Event, id: NodeId, status: Status, after: int)
    ensures WasRead(events, id, status, after) ==> WasRead(events + [e], id, status, after)
    ensures ReadsStatus(e, id, status, after) ==> WasRead(events + [e], id, status, after)
  {
    var all := events + [e];
    assert all[|events|] == e;
    if WasRead(events, id, status, after) {
      var k :| 0 <= k < |events| && ReadsStatus(events[k], id, status, after);
      assert all[k] == events[k];
    }
  }

  lemma {:induction false} ReadsComeFromRun(events: seq<Event>, q: Query, id: NodeId)
    requires q in Run(START, events).seen && id in Run(START, events).seen[q].statuses
    ensures var r := Run(START, events).seen[q]; WasRead(events, id, r.statuses[id], r.at - 1)
  {
    var front, last := events[..|events| - 1], events[|events| - 1];
    var r := Run(START, events).seen[q];
    assert events == front + [last];
    WasReadSnoc(front, last, id, r.statuses[id], r.at - 1);
    if q in Run(START, front).seen {
      ReadsComeFromRun(front, q, id);
    }
  }

  lemma {:induction false} EntriesComeFromReads(events: seq<Event>, d: int, id: NodeId)
    requires Prompt(events, d) && id in Run(START, events).view.cache
    ensures var c := Run(START, events).view.cache[id]; WasRead(events, id, c.info.status, c.timestamp - d - 1)
  {
    var front, last := events[..|events| - 1], events[|events| - 1];
    var s, c := Run(START, front), Run(START, events).view.cache[id];
    assert events == front + [last];
    WasReadSnoc(front, last, id, c.info.status, c.timestamp - d - 1);
    if id in s.view.cache && c == s.view.cache[id] {
      EntriesComeFromReads(front, d, id);
    } else {
      ReadsComeFromRun(front, last.query, id);
      var k :| 0 <= k < |front| && ReadsStatus(front[k], id, c.info.status, s.seen[last.query].at - 1);
      assert ReadsStatus(front[k], id, c.info.status, c.timestamp - d - 1);
    }
  }

  /** Whenever the cache serves an entry, its status was read less than the TTL and e before. */
  ghost predicate ServesYounger(events: seq<Event>, e: int) {
    var v := Run(START, events).view;
    forall id, now :: Hit(v, id, now) ==> WasRead(events, id, v.cache[id].info.status, now - CACHE_TTL - e)
  }

  lemma PromptRunsServeYounger(events: seq<Event>, d: int, e: int)
    requires Prompt(events, d) && d <= e
    ensures ServesYounger(events, e)
  {
    var v := Run(START, events).view;
    forall id, now | Hit(v, id, now) ensures WasRead(events, id, v.cache[id].info.status, now - CACHE_TTL - e) {
      EntriesComeFromReads(events, d, id);
      var c := v.cache[id];
      var k :| 0 <= k < |events| && ReadsStatus(events[k], id, c.info.status, c.timestamp - d - 1);
      assert ReadsStatus(events[k], id, c.info.status, now - CACHE_TTL - e);
    }
  }

  lemma PromptSnoc(events: seq<Event>, e: Event, d: int)
    requires Prompt(events, d)
    requires var s := Run(START, events); e.Built? && e.query in s.seen ==> e.now - s.seen[e.query].at <= d
    ensures Prompt(events + [e], d)
  {
    assert (events + [e])[..|events|] == events;
  }

  /** A query for one node that dates its entry d after it read the status. */
  function LateEntry(id: NodeId, d: int): seq<Event> {
    [LeaderRead(0, {id}, ""), StatusesRead(0, map[id := Heartbeat.Healthy], 0)] + [Built(0, id, d)]
  }

  lemma LateEntryRun(id: NodeId, d: int)
    ensures Prompt(LateEntry(id, d), d)
    ensures var v := Run(START, LateEntry(id, d)).view;
            id in v.cache && v.cache[id].timestamp == d && v.cache[id].info.status == Heartbeat.Healthy
  {
    var e, f := LeaderRead(0, {id}, ""), StatusesRead(0, map[id := Heartbeat.Healthy], 0);
    var s := State(View("", map[]), map[0 := Open("", {id}, [])], map[0 := Read(map[id := Heartbeat.Healthy], 0)]);
    assert Run(START, [e, f]) == s by {
      RunTwo(START, e, f);
    }
    assert Prompt([e, f], d) by {
      PromptSnoc([], e, d);
      PromptSnoc([e], f, d);
      assert [] + [e] == [e] && [e] + [f] == [e, f];
    }
    PromptSnoc([e, f], Built(0, id, d), d);
    RunSnoc(START, [e, f], Built(0, id, d));
    BuiltWrites(s, 0, id, d);
  }

  lemma LateEntryIsServed(id: NodeId, d: int, e: int)
    requires d > e
    ensures Prompt(LateEntry(id, d), d) && !ServesYounger(LateEntry(id, d), e)
  {
    LateEntryRun(id, d);
    var events, v, now := LateEntry(id, d), Run(START, LateEntry(id, d)).view, d + CACHE_TTL - 1;
    assert !WasRead(events, id, Heartbeat.Healthy, now - CACHE_TTL - e) by {
      forall k | 0 <= k < |events| ensures !ReadsStatus(events[k], id, Heartbeat.Healthy, now - CACHE_TTL - e) {
      }
    }
    assert Hit(v, id, now);
  }

  /**
   With entries dated at most d after their query's read, every status served from the cache, in
   every run, was read less than the TTL and e before exactly if d is at most e.
   */
  lemma ServedStatusAgeIff(d: int, e: int)
    ensures d <= e <==> forall events :: Prompt(events, d) ==> ServesYounger(events, e)
  {
    if d <= e {
      forall events | Prompt(events, d) ensures ServesYounger(events, e) {
        PromptRunsServeYounger(events, d, e);
      }
    } else {
      LateEntryIsServed("", d, e);
    }
  }

  // ---------- When a handled change can be undone ----------

  /** The query has read a status of the node and may still write it. */
  predicate HoldsStatus(s: State, q: Query, id: NodeId) {
    q in s.seen && id in s.seen[q].statuses && (q in s.open ==> id in s.open[q].todo)
  }

  ghost predicate NoneHolds(s: State, id: NodeId) {
    forall q :: q in s.seen ==> !HoldsStatus(s, q, id)
  }

  ghost predicate ReadIn(events: seq<Event>, id: NodeId, status: Status) {
    exists k :: 0 <= k < |events| && ReadsIt(events[k], id, status)
  }

  predicate ReadsIt(e: Event, id: NodeId, status: Status) {
    e.StatusesRead? && id in e.statuses && e.statuses[id] == status
  }

  lemma ReadInSnoc(events: seq<Event>, e: Event, id: NodeId, status: Status)
    ensures ReadIn(events + [e], id, status) <==> ReadIn(events, id, status) || ReadsIt(e, id, status)
  {
    var all := events + [e];
    assert all[|events|] == e;
    assert forall k :: 0 <= k < |events| ==> all[k] == events[k];
    if ReadIn(events, id, status) {
      var k :| 0 <= k < |events| && ReadsIt(events[k], id, status);
      assert ReadsIt(all[k], id, status);
    }
  }

  /** Every status of the node that is cached, or that a query holds, was read in these events. */
  ghost predicate AllReadIn(s: State, events: seq<Event>, id: NodeId) {
    && (id in s.view.cache ==> ReadIn(events, id, s.view.cache[id].info.status))
    && forall q :: q in s.seen && HoldsStatus(s, q, id) ==> ReadIn(events, id, s.seen[q].statuses[id])
  }

  lemma StepKeepsReadIn(s: State, events: seq<Event>, e: Event, id: NodeId)
    requires AllReadIn(s, events, id)
    ensures AllReadIn(Step(s, e), events + [e], id)
  {
    var t := Step(s, e);
    if id in t.view.cache {
      ReadInSnoc(events, e, id, t.view.cache[id].info.status);
      if e.Built? && AtNode(s, e.query, e.node) && e.node == id {
        assert HoldsStatus(s, e.query, id);
      }
    }
    forall q | q in t.seen && HoldsStatus(t, q, id) ensures ReadIn(events + [e], id, t.seen[q].statuses[id]) {
      ReadInSnoc(events, e, id, t.seen[q].statuses[id]);
      if q in s.seen {
        assert HoldsStatus(s, q, id);
      }
    }
  }

  lemma {:induction false} RunKeepsReadIn(s: State, more: seq<Event>, id: NodeId)
    requires id !in s.view.cache && NoneHolds(s, id)
    ensures AllReadIn(Run(s, more), more, id)
  {
    if more != [] {
      var front, last := more[..|more| - 1], more[|more| - 1];
      assert more == front + [last];
      RunKeepsReadIn(s, front, id);
      StepKeepsReadIn(Run(s, front), front, last, id);
    }
  }

  /** The steps by which a query writes the status it holds. */
  function WriteHeld(s: State, q: Query, id: NodeId, now: int): seq<Event> {
    if q in s.open then [Built(q, id, now)] else [LeaderRead(q, {id}, ""), Built(q, id, now)]
  }

  lemma WriteHeldWrites(s: State, q: Query, id: NodeId, now: int)
    requires HoldsStatus(s, q, id)
    ensures var more := WriteHeld(s, q, id, now);
            && id in Run(s, more).view.cache
            && Run(s, more).view.cache[id].info.status == s.seen[q].statuses[id]
            && forall status :: !ReadIn(more, id, status)
  {
    if q in s.open {
      RunOne(s, Built(q, id, now));
      BuiltWrites(s, q, id, now);
    } else {
      var read := LeaderRead(q, {id}, "");
      RunTwo(s, read, Built(q, id, now));
      BuiltWrites(Step(s, read), q, id, now);
    }
  }

  /**
   From every state: once a change of a node has been handled, the cache serves only statuses of
   it that were read after that, in every continuation, exactly if no query had read one before
   that it may still write.
   */
  lemma ChangeIsSeenIff(s: State, id: NodeId)
    ensures NoneHolds(s, id) <==>
            forall more :: var v := Run(Step(s, Forgotten(id)), more).view;
                           id in v.cache ==> ReadIn(more, id, v.cache[id].info.status)
  {
    var t := Step(s, Forgotten(id));
    if NoneHolds(s, id) {
      forall more ensures var v := Run(t, more).view; id in v.cache ==> ReadIn(more, id, v.cache[id].info.status) {
        assert NoneHolds(t, id) by {
          forall q | q in t.seen ensures !HoldsStatus(t, q, id) {
            assert !HoldsStatus(s, q, id);
          }
        }
        RunKeepsReadIn(t, more, id);
      }
    } else {
      var q :| q in s.seen && HoldsStatus(s, q, id);
      assert HoldsStatus(t, q, id);
      WriteHeldWrites(t, q, id, 0);
      assert !ReadIn(WriteHeld(t, q, id, 0), id, s.seen[q].statuses[id]);
    }
  }
}
