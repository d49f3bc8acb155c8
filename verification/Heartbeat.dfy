/**
 The failure detector: timed status changes per node, announced on a channel. Clock readings
 are integers; a send on the full channel waits, so a step that sends happens when there is room.
 */
module Heartbeat {
  import opened Options

  type NodeId = string

  datatype Status = Unknown | Healthy | Suspect | Dead
  datatype NodeState = NodeState(status: Status, lastHeartbeat: int, failCount: nat)
  datatype StateChange = StateChange(node: NodeId, status: Status)
  datatype Config = Config(self: NodeId, suspectTimeout: int, deadTimeout: int)

  const CHANNEL_CAPACITY := 100

  /** The monitored nodes and what is waiting in the state-change channel. */
  datatype Monitor = Monitor(nodes: map<NodeId, NodeState>, queue: seq<StateChange>)

  datatype Event =
    | Register(node: NodeId, now: int)
    | Unregister(node: NodeId)
    | Beat(node: NodeId, now: int)
    | Check(node: NodeId, now: int)
    | Cleanup(node: NodeId, now: int)

  /** One node's part of a heartbeat check. */
  function Checked(c: Config, id: NodeId, s: NodeState, now: int): NodeState {
    var silence := now - s.lastHeartbeat;
    if id == c.self then s
    else if s.status == Healthy && silence > c.suspectTimeout then s.(status := Suspect, failCount := s.failCount + 1)
    else if s.status == Suspect && silence > c.deadTimeout then s.(status := Dead)
    else s
  }

  predicate Expired(c: Config, s: NodeState, now: int) {
    s.status == Dead && now - s.lastHeartbeat > 3 * c.deadTimeout
  }

  function StatusIn(nodes: map<NodeId, NodeState>, id: NodeId): Status {
    if id in nodes then nodes[id].status else Unknown
  }

  function Announce(m: Monitor, nodes: map<NodeId, NodeState>, id: NodeId): Monitor
    requires id in nodes
  {
    if StatusIn(m.nodes, id) == nodes[id].status then Monitor(nodes, m.queue)
    else Monitor(nodes, m.queue + [StateChange(id, nodes[id].status)])
  }

  function Step(c: Config, m: Monitor, e: Event): Monitor {
    match e
    case Register(id, now) => m.(nodes := m.nodes[id := NodeState(Healthy, now, 0)])
    case Unregister(id) => m.(nodes := m.nodes - {id})
    case Beat(id, now) => Announce(m, m.nodes[id := NodeState(Healthy, now, 0)], id)
    case Check(id, now) =>
      if id in m.nodes then Announce(m, m.nodes[id := Checked(c, id, m.nodes[id], now)], id) else m
    case Cleanup(id, now) =>
      if id in m.nodes && Expired(c, m.nodes[id], now) then m.(nodes := m.nodes - {id}) else m
  }

  function Run(c: Config, m: Monitor, events: seq<Event>): Monitor {
    if events == [] then m
    else Step(c, Run(c, m, events[..|events| - 1]), events[|events| - 1])
  }

  class Manager {
    const cfg: Config
    var nodeStates: map<NodeId, NodeState>
    var stateChangeCh: seq<StateChange>

    constructor (cfg: Config)
      ensures this.cfg == cfg && Contents() == Monitor(map[], [])
    {
      this.cfg, nodeStates, stateChangeCh := cfg, map[], [];
    }

    function Contents(): Monitor
      reads this
    {
      Monitor(nodeStates, stateChangeCh)
    }

    method RegisterNode(id: NodeId, now: int)
      modifies this
      ensures Contents() == Step(cfg, old(Contents()), Register(id, now))
      ensures nodeStates == old(nodeStates)[id := NodeState(Healthy, now, 0)] && stateChangeCh == old(stateChangeCh)
    {
      nodeStates := nodeStates[id := NodeState(Healthy, now, 0)];
    }

    method UnregisterNode(id: NodeId)
      modifies this
      ensures Contents() == Step(cfg, old(Contents()), Unregister(id))
      ensures nodeStates == old(nodeStates) - {id} && stateChangeCh == old(stateChangeCh)
    {
      nodeStates := nodeStates - {id};
    }

    method RecordHeartbeat(id: NodeId, now: int)
      modifies this
      ensures Contents() == Step(cfg, old(Contents()), Beat(id, now))
      ensures nodeStates == old(nodeStates)[id := NodeState(Healthy, now, 0)]
      ensures stateChangeCh == old(stateChangeCh)
                + if id in old(nodeStates) && old(nodeStates)[id].status == Healthy then [] else [StateChange(id, Healthy)]
    {
      if id in nodeStates {
        var oldState := nodeStates[id].status;
        nodeStates := nodeStates[id := nodeStates[id].(lastHeartbeat := now, failCount := 0, status := Healthy)];
        if oldState != Healthy {
          stateChangeCh := stateChangeCh + [StateChange(id, Healthy)];
        }
      } else {
        nodeStates := nodeStates[id := NodeState(Healthy, now, 0)];
        stateChangeCh := stateChangeCh + [StateChange(id, Healthy)];
      }
    }

    /** One tick of the checker: every node once, in the order the map happens to be visited. */
    method CheckHeartbeats(now: int) returns (ghost order: seq<NodeId>)
      modifies this
      ensures Enumerates(order, old(nodeStates).Keys)
      ensures Contents() == Run(cfg, old(Contents()), Checks(order, now))
    {
      order := [];
      var pending := nodeStates.Keys;
      while pending != {}
        invariant pending <= nodeStates.Keys == old(nodeStates).Keys
        invariant Enumerates(order, nodeStates.Keys - pending)
        invariant Contents() == Run(cfg, old(Contents()), Checks(order, now))
        decreases |pending|
      {
        var id :| id in pending;
        ExtendEnumeration(order, nodeStates.Keys, pending, id);
        pending := pending - {id};
        ghost var before := order;
        order := order + [id];
        assert Checks(order, now)[..|order| - 1] == Checks(before, now);
        CheckNode(id, now);
      }
    }

    method CheckNode(id: NodeId, now: int)
      requires id in nodeStates
      modifies this
      ensures Contents() == Step(cfg, old(Contents()), Check(id, now))
    {
      var state := nodeStates[id];
      assert nodeStates[id := state] == nodeStates;
      if id == cfg.self {
        return;
      }
      var silence := now - state.lastHeartbeat;
      if state.status == Healthy && silence > cfg.suspectTimeout {
        nodeStates := nodeStates[id := state.(status := Suspect, failCount := state.failCount + 1)];
        stateChangeCh := stateChangeCh + [StateChange(id, Suspect)];
      } else if state.status == Suspect && silence > cfg.deadTimeout {
        nodeStates := nodeStates[id := state.(status := Dead)];
        stateChangeCh := stateChangeCh + [StateChange(id, Dead)];
      }
    }

    /** One tick of the cleanup: every node once, in the order the map happens to be visited. */
    method CleanupDeadNodes(now: int) returns (ghost order: seq<NodeId>)
      modifies this`nodeStates
      ensures Enumerates(order, old(nodeStates).Keys)
      ensures Contents() == Run(cfg, old(Contents()), Cleanups(order, now))
      ensures nodeStates ==
              map id | id in old(nodeStates)
                       && !(old(nodeStates)[id].status == Dead && now - old(nodeStates)[id].lastHeartbeat > 3 * cfg.deadTimeout)
                     :: old(nodeStates)[id]
    {
      order := [];
      var pending := nodeStates.Keys;
      while pending != {}
        invariant pending <= nodeStates.Keys <= old(nodeStates).Keys
        invariant Enumerates(order, old(nodeStates).Keys - pending)
        invariant Contents() == Run(cfg, old(Contents()), Cleanups(order, now))
        invariant forall id :: id in old(nodeStates) && id !in pending ==>
                    (id in nodeStates <==> !Expired(cfg, old(nodeStates)[id], now))
        invariant forall id :: id in nodeStates ==> nodeStates[id] == old(nodeStates)[id]
        decreases |pending|
      {
        var id :| id in pending;
        ExtendEnumeration(order, old(nodeStates).Keys, pending, id);
        pending := pending - {id};
        ghost var before := order;
        order := order + [id];
        assert Cleanups(order, now)[..|order| - 1] == Cleanups(before, now);
        if nodeStates[id].status == Dead && now - nodeStates[id].lastHeartbeat > 3 * cfg.deadTimeout {
          nodeStates := nodeStates - {id};
        }
      }
    }

    method GetNodeState(id: NodeId) returns (s: Status)
      ensures s == StatusIn(nodeStates, id)
    {
      if id in nodeStates {
        return nodeStates[id].status;
      }
      return Unknown;
    }
  }

  function Checks(order: seq<NodeId>, now: int): seq<Event> {
    seq(|order|, i requires 0 <= i < |order| => Check(order[i], now))
  }

  function Cleanups(order: seq<NodeId>, now: int): seq<Event> {
    seq(|order|, i requires 0 <= i < |order| => Cleanup(order[i], now))
  }

  /** A map's keys in some order, each once. */
  ghost predicate Enumerates(order: seq<NodeId>, keys: set<NodeId>) {
    && (forall id :: id in order <==> id in keys)
    && forall i, j :: 0 <= i < j < |order| ==> order[i] != order[j]
  }

  lemma ExtendEnumeration(order: seq<NodeId>, keys: set<NodeId>, pending: set<NodeId>, id: NodeId)
    requires Enumerates(order, keys - pending) && id in pending && pending <= keys
    ensures Enumerates(order + [id], keys - (pending - {id}))
  {
    var more := order + [id];
    forall i, j | 0 <= i < j < |more| ensures more[i] != more[j] {
      assert more[i] in order;
    }
  }

  /** In whatever order a tick visits the nodes, each is checked once against the same clock reading. */
  lemma {:induction false} TickChecksEveryNode(c: Config, m: Monitor, order: seq<NodeId>, now: int)
    requires Enumerates(order, set id | id in order) && forall id :: id in order ==> id in m.nodes
    ensures Run(c, m, Checks(order, now)).nodes
            == map id | id in m.nodes :: if id in order then Checked(c, id, m.nodes[id], now) else m.nodes[id]
  {
    if order != [] {
      var front, last := order[..|order| - 1], order[|order| - 1];
      assert order == front + [last] && last !in front;
      TickChecksEveryNode(c, m, front, now);
      assert Checks(order, now)[..|order| - 1] == Checks(front, now);
    }
  }

  // ---------- A node's status is determined by its trace ----------

  /** The last heartbeat or registration of a node, and the checks it has seen since. */
  datatype Trace = Trace(beat: Option<int>, checks: seq<int>)

  function TraceOf(events: seq<Event>, id: NodeId): Trace {
    if events == [] then Trace(None, [])
    else
      var before := TraceOf(events[..|events| - 1], id);
      match events[|events| - 1]
      case Register(n, now) => if n == id then Trace(Some(now), []) else before
      case Beat(n, now) => if n == id then Trace(Some(now), []) else before
      case Check(n, now) => if n == id then before.(checks := before.checks + [now]) else before
      case _ => before
  }

  ghost predicate Suspected(c: Config, beat: int, checks: seq<int>) {
    exists i :: 0 <= i < |checks| && checks[i] - beat > c.suspectTimeout
  }

  ghost predicate Condemned(c: Config, beat: int, checks: seq<int>) {
    exists i, j :: 0 <= i < j < |checks| && checks[i] - beat > c.suspectTimeout && checks[j] - beat > c.deadTimeout
  }

  /**
   In every run, a monitored node other than this one is suspect or dead exactly when some
   check since its last heartbeat found it silent for longer than SuspectTimeout, and dead
   exactly when a later check also found it silent for longer than DeadTimeout. Its failure
   count is then one.
   */
  lemma {:induction false} StatusIsDeterminedByTrace(c: Config, events: seq<Event>, id: NodeId)
    requires id != c.self
    ensures var m, t := Run(c, Monitor(map[], []), events), TraceOf(events, id);
            id in m.nodes ==>
              && t.beat == Some(m.nodes[id].lastHeartbeat)
              && m.nodes[id].status != Unknown
              && (m.nodes[id].status != Healthy <==> Suspected(c, t.beat.value, t.checks))
              && (m.nodes[id].status == Dead <==> Condemned(c, t.beat.value, t.checks))
              && m.nodes[id].failCount == if m.nodes[id].status == Healthy then 0 else 1
  {
    if events != [] {
      var front, e := events[..|events| - 1], events[|events| - 1];
      var m, t := Run(c, Monitor(map[], []), front), TraceOf(front, id);
      StatusIsDeterminedByTrace(c, front, id);
      if e.Check? && e.node == id && id in m.nodes {
        OneMoreCheck(c, t.beat.value, t.checks, e.now);
      }
    }
  }

  lemma OneMoreCheck(c: Config, beat: int, checks: seq<int>, now: int)
    ensures Suspected(c, beat, checks + [now]) <==> Suspected(c, beat, checks) || now - beat > c.suspectTimeout
    ensures Condemned(c, beat, checks + [now])
        <==> Condemned(c, beat, checks) || (Suspected(c, beat, checks) && now - beat > c.deadTimeout)
  {
    var all := checks + [now];
    assert forall i :: 0 <= i < |checks| ==> all[i] == checks[i];
    assert all[|checks|] == now;
    if Suspected(c, beat, checks) {
      var i :| 0 <= i < |checks| && checks[i] - beat > c.suspectTimeout;
      assert all[i] - beat > c.suspectTimeout;
    }
    if Condemned(c, beat, checks) {
      var i, j :| 0 <= i < j < |checks| && checks[i] - beat > c.suspectTimeout && checks[j] - beat > c.deadTimeout;
      assert all[i] - beat > c.suspectTimeout && all[j] - beat > c.deadTimeout;
    }
  }

  lemma HealthyWithoutLateCheck(c: Config, events: seq<Event>, id: NodeId)
    requires id != c.self
    requires var t := TraceOf(events, id);
             t.beat.Some? ==> forall k :: 0 <= k < |t.checks| ==> t.checks[k] - t.beat.value <= c.suspectTimeout
    ensures StatusIn(Run(c, Monitor(map[], []), events).nodes, id) in {Unknown, Healthy}
  {
    StatusIsDeterminedByTrace(c, events, id);
  }

  predicate IsBeatOf(e: Event, id: NodeId) {
    (e.Beat? || e.Register?) && e.node == id
  }

  /**
   A heartbeat's clock reading is not before any earlier one, and none is past the horizon. A
   check or cleanup reads the clock before it takes the lock, so it may be dated earlier.
   */
  ghost predicate Timely(events: seq<Event>, horizon: int) {
    && (forall i, j :: 0 <= i < j < |events| && !events[i].Unregister? && (events[j].Beat? || events[j].Register?) ==>
          events[i].now <= events[j].now)
    && forall i :: 0 <= i < |events| && !events[i].Unregister? ==> events[i].now <= horizon
  }

  ghost predicate FollowedWithin(events: seq<Event>, k: nat, timeout: int)
    requires k < |events| && !events[k].Unregister?
  {
    exists l :: k < l < |events| && IsBeatOf(events[l], events[k].node) && events[l].now <= events[k].now + timeout
  }

  /** Every heartbeat is followed by the next within the timeout, unless the horizon comes first. */
  ghost predicate BeatsEvery(events: seq<Event>, id: NodeId, timeout: int, horizon: int) {
    forall k :: 0 <= k < |events| && IsBeatOf(events[k], id) ==>
      horizon <= events[k].now + timeout || FollowedWithin(events, k, timeout)
  }

  /** Where in the run the trace's last heartbeat and the checks after it happened. */
  lemma {:induction false} LastBeatOf(events: seq<Event>, id: NodeId) returns (k: nat)
    requires TraceOf(events, id).beat.Some?
    ensures var t := TraceOf(events, id);
            && k < |events| && IsBeatOf(events[k], id) && events[k].now == t.beat.value
            && (forall l :: k < l < |events| ==> !IsBeatOf(events[l], id))
            && forall now :: now in t.checks ==> exists i :: k < i < |events| && events[i] == Check(id, now)
  {
    var n := |events| - 1;
    var front, e := events[..n], events[n];
    if IsBeatOf(e, id) {
      k := n;
    } else {
      k := LastBeatOf(front, id);
      forall now | now in TraceOf(events, id).checks ensures exists i :: k < i < |events| && events[i] == Check(id, now) {
        if now in TraceOf(front, id).checks {
          var i :| k < i < |front| && front[i] == Check(id, now);
          assert events[i] == Check(id, now);
        } else {
          assert events[n] == Check(id, now);
        }
      }
    }
  }

  /** The node is taken out: unregistered, or found dead and silent for more than three times DeadTimeout. */
  predicate TakesOut(c: Config, nodes: map<NodeId, NodeState>, e: Event, id: NodeId) {
    || e == Unregister(id)
    || (e.Cleanup? && e.node == id && id in nodes && nodes[id].status == Dead
        && e.now - nodes[id].lastHeartbeat > 3 * c.deadTimeout)
  }

  ghost predicate InSince(c: Config, events: seq<Event>, id: NodeId, k: int) {
    && 0 <= k < |events| && IsBeatOf(events[k], id)
    && forall l :: k < l < |events| ==> !TakesOut(c, Run(c, Monitor(map[], []), events[..l]).nodes, events[l], id)
  }

  lemma InSinceSnoc(c: Config, front: seq<Event>, e: Event, id: NodeId, k: int)
    ensures InSince(c, front + [e], id, k)
        <==> || (k == |front| && IsBeatOf(e, id))
             || (InSince(c, front, id, k) && !TakesOut(c, Run(c, Monitor(map[], []), front).nodes, e, id))
  {
    var events, n := front + [e], |front|;
    assert events[n] == e && events[..n] == front;
    assert forall l :: 0 <= l < n ==> events[..l] == front[..l] && events[l] == front[l];
  }

  lemma StepMembership(c: Config, m: Monitor, e: Event, id: NodeId)
    ensures id in Step(c, m, e).nodes <==> IsBeatOf(e, id) || (id in m.nodes && !TakesOut(c, m.nodes, e, id))
  {
  }

  /** In every run a node is monitored exactly if it was registered or heard of and not taken out since. */
  lemma {:induction false} MonitoredIff(c: Config, events: seq<Event>, id: NodeId)
    ensures id in Run(c, Monitor(map[], []), events).nodes <==> exists k :: InSince(c, events, id, k)
  {
    if events != [] {
      var front, e := events[..|events| - 1], events[|events| - 1];
      assert events == front + [e];
      MonitoredIff(c, front, id);
      StepMembership(c, Run(c, Monitor(map[], []), front), e, id);
      forall k ensures InSince(c, events, id, k)
                   <==> || (k == |front| && IsBeatOf(e, id))
                        || (InSince(c, front, id, k) && !TakesOut(c, Run(c, Monitor(map[], []), front).nodes, e, id))
      {
        InSinceSnoc(c, front, e, id, k);
      }
      if IsBeatOf(e, id) {
        assert InSince(c, events, id, |front|);
      } else if k :| InSince(c, front, id, k) && !TakesOut(c, Run(c, Monitor(map[], []), front).nodes, e, id) {
        assert InSince(c, events, id, k);
      }
    }
  }

  /** A node whose heartbeats are never more than SuspectTimeout apart is never suspected, at any point of any run. */
  lemma PunctualNodeStaysHealthy(c: Config, events: seq<Event>, id: NodeId, horizon: int, n: nat)
    requires id != c.self && n <= |events|
    requires Timely(events, horizon) && BeatsEvery(events, id, c.suspectTimeout, horizon)
    ensures StatusIn(Run(c, Monitor(map[], []), events[..n]).nodes, id) in {Unknown, Healthy}
  {
    var past := events[..n];
    var t := TraceOf(past, id);
    if t.beat.Some? {
      var k := LastBeatOf(past, id);
      assert forall l :: 0 <= l < n ==> past[l] == events[l];
      forall x | 0 <= x < |t.checks| ensures t.checks[x] - t.beat.value <= c.suspectTimeout {
        assert t.checks[x] in t.checks;
        var i :| k < i < n && past[i] == Check(id, t.checks[x]);
        if horizon > events[k].now + c.suspectTimeout {
          assert FollowedWithin(events, k, c.suspectTimeout);
          var l :| k < l < |events| && IsBeatOf(events[l], id) && events[l].now <= events[k].now + c.suspectTimeout;
          assert i < l;
        }
      }
    }
    HealthyWithoutLateCheck(c, past, id);
  }

  /** This node never suspects itself. */
  lemma {:induction false} SelfStaysHealthy(c: Config, events: seq<Event>)
    ensures StatusIn(Run(c, Monitor(map[], []), events).nodes, c.self) in {Unknown, Healthy}
  {
    if events != [] {
      SelfStaysHealthy(c, events[..|events| - 1]);
    }
  }

  /** From any reachable state a node becomes dead only from suspect, and only after silence above DeadTimeout. */
  lemma DeadOnlyFromSuspect(c: Config, m: Monitor, e: Event, id: NodeId)
    requires StatusIn(Step(c, m, e).nodes, id) == Dead && StatusIn(m.nodes, id) != Dead
    ensures StatusIn(m.nodes, id) == Suspect && e == Check(id, e.now)
    ensures e.now - m.nodes[id].lastHeartbeat > c.deadTimeout
  {
  }

  /** The sweep forgets a node only when it is dead and has been silent for more than three times DeadTimeout. */
  lemma ForgottenOnlyAfterLongSilence(c: Config, events: seq<Event>, id: NodeId, now: int)
    requires id != c.self
    requires var m := Run(c, Monitor(map[], []), events);
             id in m.nodes && id !in Step(c, m, Cleanup(id, now)).nodes
    ensures var t := TraceOf(events, id);
            t.beat.Some? && Condemned(c, t.beat.value, t.checks) && now - t.beat.value > 3 * c.deadTimeout
  {
    StatusIsDeterminedByTrace(c, events, id);
  }

  /** Checks come at least every d: any moment up to the horizon less d is followed by a check within d. */
  ghost predicate CheckedEvery(checks: seq<int>, d: int, from: int, horizon: int) {
    && (forall i, j :: 0 <= i <= j < |checks| ==> checks[i] <= checks[j])
    && forall x :: from <= x <= horizon - d ==> CheckWithin(checks, x, d)
  }

  ghost predicate CheckWithin(checks: seq<int>, x: int, d: int) {
    exists i :: 0 <= i < |checks| && x < checks[i] <= x + d
  }

  /**
   Bounded detection: silent since its last heartbeat, a node other than this one is dead or no
   longer monitored by that heartbeat + max(SuspectTimeout, DeadTimeout) + 2d.
   */
  lemma SilentNodeIsDeadInTime(c: Config, events: seq<Event>, id: NodeId, d: int, horizon: int)
    requires id != c.self && d >= 0 && c.suspectTimeout >= 0 && c.deadTimeout >= 0
    requires var t := TraceOf(events, id);
             && t.beat.Some?
             && CheckedEvery(t.checks, d, t.beat.value, horizon)
             && horizon >= t.beat.value + (if c.suspectTimeout > c.deadTimeout then c.suspectTimeout else c.deadTimeout) + 2 * d
    ensures StatusIn(Run(c, Monitor(map[], []), events).nodes, id) in {Unknown, Dead}
  {
    var t := TraceOf(events, id);
    var x := t.beat.value + if c.suspectTimeout > c.deadTimeout then c.suspectTimeout else c.deadTimeout;
    assert CheckWithin(t.checks, x, d);
    var i :| 0 <= i < |t.checks| && x < t.checks[i] <= x + d;
    assert CheckWithin(t.checks, t.checks[i], d);
    var j :| 0 <= j < |t.checks| && t.checks[i] < t.checks[j] <= t.checks[i] + d;
    StatusIsDeterminedByTrace(c, events, id);
    assert i < j;
  }

  // ---------- The mirror kept by the cluster manager ----------

  type Mirror = map<NodeId, Status>

  /** The mirror once everything queued has been handled. */
  function Drain(mirror: Mirror, queue: seq<StateChange>): Mirror
    decreases |queue|
  {
    if queue == [] then mirror
    else Drain(mirror[queue[0].node := queue[0].status], queue[1..])
  }

  /** announced: the monitored nodes whose latest status change went through the channel. */
  datatype World = World(monitor: Monitor, mirror: Mirror, announced: set<NodeId>)

  datatype Action = Do(event: Event) | Deliver

  function NowAnnounced(c: Config, w: World, e: Event): set<NodeId> {
    var next := Step(c, w.monitor, e);
    if e.node !in next.nodes then w.announced - {e.node}
    else if StatusIn(w.monitor.nodes, e.node) == next.nodes[e.node].status then w.announced
    else if e.Register? then w.announced - {e.node}
    else w.announced + {e.node}
  }

  function Act(c: Config, w: World, a: Action): World {
    match a
    case Do(e) => World(Step(c, w.monitor, e), w.mirror, NowAnnounced(c, w, e))
    case Deliver =>
      if w.monitor.queue == [] then w
      else
        var change := w.monitor.queue[0];
        w.(mirror := w.mirror[change.node := change.status],
           monitor := w.monitor.(queue := w.monitor.queue[1..]))
  }

  /** A sender waits while the channel is full. */
  predicate Enabled(c: Config, w: World, a: Action) {
    a.Do? ==> |Step(c, w.monitor, a.event).queue| <= CHANNEL_CAPACITY
  }

  function ActAll(c: Config, w: World, actions: seq<Action>): World {
    if actions == [] then w
    else Act(c, ActAll(c, w, actions[..|actions| - 1]), actions[|actions| - 1])
  }

  ghost predicate AllEnabled(c: Config, w: World, actions: seq<Action>) {
    forall k :: 0 <= k < |actions| ==> Enabled(c, ActAll(c, w, actions[..k]), actions[k])
  }

  const START := World(Monitor(map[], []), map[], {})

  ghost predicate InStep(w: World) {
    forall id :: id in w.monitor.nodes && id in w.announced ==>
      var m := Drain(w.mirror, w.monitor.queue);
      id in m && m[id] == w.monitor.nodes[id].status
  }

  ghost predicate UnannouncedAreHealthy(w: World) {
    forall id :: id in w.monitor.nodes && id !in w.announced ==> w.monitor.nodes[id].status == Healthy
  }

  lemma {:induction false} RunKeepsUnannouncedHealthy(c: Config, actions: seq<Action>)
    ensures UnannouncedAreHealthy(ActAll(c, START, actions))
  {
    if actions != [] {
      RunKeepsUnannouncedHealthy(c, actions[..|actions| - 1]);
    }
  }

  /**
   Exactly when the mirror is right: for a monitored node whose latest change was announced, or
   if what was last announced of it is healthy; a silent registration is what makes the difference.
   */
  lemma MirrorIsRightIff(c: Config, actions: seq<Action>, id: NodeId)
    requires id in ActAll(c, START, actions).monitor.nodes
    ensures var w := ActAll(c, START, actions);
            var m := Drain(w.mirror, w.monitor.queue);
            (id in m && m[id] == w.monitor.nodes[id].status) <==> id in w.announced || (id in m && m[id] == Healthy)
  {
    MirrorStaysInStep(c, actions);
    RunKeepsUnannouncedHealthy(c, actions);
  }

  lemma {:induction false} DrainSnoc(mirror: Mirror, queue: seq<StateChange>, change: StateChange)
    ensures Drain(mirror, queue + [change]) == Drain(mirror, queue)[change.node := change.status]
    decreases |queue|
  {
    if queue == [] {
      assert queue + [change] == [change];
      assert [change][1..] == [];
    } else {
      DrainSnoc(mirror[queue[0].node := queue[0].status], queue[1..], change);
      assert (queue + [change])[1..] == queue[1..] + [change];
    }
  }

  lemma ActKeepsInStep(c: Config, w: World, a: Action)
    requires InStep(w)
    ensures InStep(Act(c, w, a))
  {
    if a.Do? {
      var next := Step(c, w.monitor, a.event);
      if next.queue != w.monitor.queue {
        DrainSnoc(w.mirror, w.monitor.queue, StateChange(a.event.node, next.nodes[a.event.node].status));
      }
    }
  }

  /**
   At every step of every run, handling the queued changes in order brings the mirror to the
   detector's current status for every monitored node whose latest change was announced, and
   the channel never holds more than its capacity.
   */
  lemma {:induction false} MirrorStaysInStep(c: Config, actions: seq<Action>)
    ensures InStep(ActAll(c, START, actions))
    ensures AllEnabled(c, START, actions) ==> |ActAll(c, START, actions).monitor.queue| <= CHANNEL_CAPACITY
  {
    if actions != [] {
      var front, last := actions[..|actions| - 1], actions[|actions| - 1];
      MirrorStaysInStep(c, front);
      ActKeepsInStep(c, ActAll(c, START, front), last);
      if AllEnabled(c, START, actions) {
        assert Enabled(c, ActAll(c, START, front), last);
        assert AllEnabled(c, START, front) by {
          forall k | 0 <= k < |front| ensures Enabled(c, ActAll(c, START, front[..k]), front[k]) {
            assert front[..k] == actions[..k] && Enabled(c, ActAll(c, START, actions[..k]), actions[k]);
          }
        }
      }
    }
  }

  /** Registering again resets a node silently: the mirror can go on saying dead of a healthy node. */
  lemma SilentResetLeavesMirrorBehind(c: Config, id: NodeId)
    requires id != c.self && c.suspectTimeout >= 0 && c.deadTimeout >= 0
    ensures exists actions ::
              var w := ActAll(c, START, actions);
              w.monitor.queue == [] && id in w.mirror && w.mirror[id] == Dead && StatusIn(w.monitor.nodes, id) == Healthy
  {
    var late := c.suspectTimeout + c.deadTimeout + 1;
    var a0 := [Do(Beat(id, 0))];
    var a1 := a0 + [Deliver];
    var a2 := a1 + [Do(Check(id, late))];
    var a3 := a2 + [Deliver];
    var a4 := a3 + [Do(Check(id, late))];
    var a5 := a4 + [Deliver];
    var a6 := a5 + [Do(Register(id, late))];
    ActSnoc(c, [], Do(Beat(id, 0)));
    assert [] + a0 == a0;
    ActSnoc(c, a0, Deliver);
    ActSnoc(c, a1, Do(Check(id, late)));
    ActSnoc(c, a2, Deliver);
    ActSnoc(c, a3, Do(Check(id, late)));
    ActSnoc(c, a4, Deliver);
    ActSnoc(c, a5, Do(Register(id, late)));
    var w := ActAll(c, START, a6);
    assert w.monitor.queue == [] && id in w.mirror && w.mirror[id] == Dead && StatusIn(w.monitor.nodes, id) == Healthy;
  }

  lemma ActSnoc(c: Config, actions: seq<Action>, a: Action)
    ensures ActAll(c, START, actions + [a]) == Act(c, ActAll(c, START, actions), a)
  {
    assert (actions + [a])[..|actions|] == actions;
  }
}
