/** The cluster manager: its mirror of node statuses, its leader, and its cache of node information. */
module ClusterManager {
  import opened Options
  import Heartbeat

  type NodeId = Heartbeat.NodeId
  type Status = Heartbeat.Status

  const CACHE_TTL := 10_000_000_000    // ten seconds, in nanoseconds
  const LEADER_CHANNEL_CAPACITY := 10

  datatype NodeInfo = NodeInfo(id: NodeId, status: Status, isLeader: bool)
  datatype Cached = Cached(info: NodeInfo, timestamp: int)

  /** The part of the manager that answers queries. An empty leader means none is known yet. */
  datatype View = View(leader: NodeId, cache: map<NodeId, Cached>)

  function CurrentLeader(v: View, elected: NodeId): NodeId {
    if v.leader != "" then v.leader else elected
  }

  predicate Hit(v: View, id: NodeId, now: int) {
    id in v.cache && now - v.cache[id].timestamp < CACHE_TTL
  }

  function Answer(v: View, id: NodeId, status: Status, elected: NodeId, now: int): NodeInfo {
    if Hit(v, id, now) then v.cache[id].info else NodeInfo(id, status, id == CurrentLeader(v, elected))
  }

  function Remembered(v: View, id: NodeId, status: Status, elected: NodeId, now: int): View {
    if Hit(v, id, now) then v else v.(cache := v.cache[id := Cached(Answer(v, id, status, elected, now), now)])
  }

  function ElectLeader(v: View, leader: NodeId): View {
    View(leader, map[])
  }

  function Forget(v: View, id: NodeId): View {
    v.(cache := v.cache - {id})
  }

  /** The answers of one listing in the order its nodes are visited. */
  function Listed(v: View, order: seq<NodeId>, statuses: map<NodeId, Status>, elected: NodeId, now: int)
    : (r: (seq<NodeInfo>, View))
    requires forall id :: id in order ==> id in statuses
    ensures |r.0| == |order|
  {
    if order == [] then ([], v)
    else
      var front := Listed(v, order[..|order| - 1], statuses, elected, now);
      var id := order[|order| - 1];
      (front.0 + [Answer(front.1, id, statuses[id], elected, now)],
       Remembered(front.1, id, statuses[id], elected, now))
  }

  /** The entry after a query for the node: the one cached if it is young enough, otherwise a new one. */
  function EntryAfter(v: View, id: NodeId, status: Status, elected: NodeId, now: int): Cached {
    if id in v.cache && now - v.cache[id].timestamp < 10_000_000_000 then v.cache[id]
    else Cached(NodeInfo(id, status, id == if v.leader != "" then v.leader else elected), now)
  }

  /** A listing leaves what it does not visit as it was. */
  lemma {:induction false} ListedKeepsOthers(v: View, order: seq<NodeId>, statuses: map<NodeId, Status>, elected: NodeId, now: int)
    requires forall id :: id in order ==> id in statuses
    ensures var t := Listed(v, order, statuses, elected, now).1;
            && t.leader == v.leader
            && forall id :: id !in order ==> (id in t.cache <==> id in v.cache) && (id in v.cache ==> t.cache[id] == v.cache[id])
  {
    if order != [] {
      var front, last := order[..|order| - 1], order[|order| - 1];
      assert order == front + [last];
      ListedKeepsOthers(v, front, statuses, elected, now);
    }
  }

  /** Every node of a listing is answered from the cache as it was, or built from its status and the leader. */
  lemma {:induction false} ListedOneByOne(v: View, order: seq<NodeId>, statuses: map<NodeId, Status>, elected: NodeId, now: int, k: nat)
    requires forall id :: id in order ==> id in statuses
    requires forall i, j :: 0 <= i < j < |order| ==> order[i] != order[j]
    requires k < |order|
    ensures var r, id := Listed(v, order, statuses, elected, now), order[k];
            && id in r.1.cache
            && r.1.cache[id] == EntryAfter(v, id, statuses[id], elected, now)
            && r.0[k] == r.1.cache[id].info
    decreases |order|
  {
    var n := |order| - 1;
    var front, last := order[..n], order[n];
    assert last !in front;
    var before := Listed(v, front, statuses, elected, now).1;
    if k == n {
      ListedKeepsOthers(v, front, statuses, elected, now);
      OneMoreListed(v, before, last, statuses[last], elected, now);
    } else {
      assert front[k] == order[k] != last;
      ListedOneByOne(v, front, statuses, elected, now, k);
    }
  }

  lemma ListedAll(v: View, order: seq<NodeId>, statuses: map<NodeId, Status>, elected: NodeId, now: int)
    requires forall id :: id in order ==> id in statuses
    requires forall i, j :: 0 <= i < j < |order| ==> order[i] != order[j]
    ensures var r := Listed(v, order, statuses, elected, now);
            forall k :: 0 <= k < |order| ==>
              && order[k] in r.1.cache
              && r.1.cache[order[k]] == EntryAfter(v, order[k], statuses[order[k]], elected, now)
              && r.0[k] == r.1.cache[order[k]].info
  {
    var r := Listed(v, order, statuses, elected, now);
    forall k | 0 <= k < |order|
      ensures order[k] in r.1.cache && r.1.cache[order[k]] == EntryAfter(v, order[k], statuses[order[k]], elected, now)
      ensures order[k] in r.1.cache && r.0[k] == r.1.cache[order[k]].info
    {
      ListedOneByOne(v, order, statuses, elected, now, k);
    }
  }

  lemma OneMoreListed(v: View, t: View, id: NodeId, status: Status, elected: NodeId, now: int)
    requires t.leader == v.leader && (id in t.cache <==> id in v.cache) && (id in v.cache ==> t.cache[id] == v.cache[id])
    ensures var u := Remembered(t, id, status, elected, now);
            id in u.cache && u.cache[id] == EntryAfter(v, id, status, elected, now)
            && Answer(t, id, status, elected, now) == u.cache[id].info
  {
  }

  class ClusterManager {
    const nodeId: NodeId
    const heartbeatMgr: Heartbeat.Manager
    var isLeader: bool
    var leader: NodeId
    var nodes: Heartbeat.Mirror
    var nodeCache: map<NodeId, Cached>
    var leaderChangeCh: seq<NodeId>

    constructor (nodeId: NodeId, heartbeatMgr: Heartbeat.Manager)
      ensures this.nodeId == nodeId && this.heartbeatMgr == heartbeatMgr
      ensures Answers() == View("", map[]) && nodes == map[] && !isLeader && leaderChangeCh == []
    {
      this.nodeId, this.heartbeatMgr := nodeId, heartbeatMgr;
      isLeader, leader, nodes, nodeCache, leaderChangeCh := false, "", map[], map[], [];
    }

    function Answers(): View
      reads this
    {
      View(leader, nodeCache)
    }

    /** A full outgoing channel drops the notification. */
    method HandleLeaderChange(leaderId: NodeId)
      modifies this
      ensures Answers() == ElectLeader(old(Answers()), leaderId) == View(leaderId, map[])
      ensures isLeader == (leaderId == nodeId) && nodes == old(nodes)
      ensures leaderChangeCh ==
              if |old(leaderChangeCh)| < LEADER_CHANNEL_CAPACITY then old(leaderChangeCh) + [leaderId]
              else old(leaderChangeCh)
    {
      isLeader := leaderId == nodeId;
      leader := leaderId;
      if |leaderChangeCh| < LEADER_CHANNEL_CAPACITY {
        leaderChangeCh := leaderChangeCh + [leaderId];
      }
      nodeCache := map[];
    }

    /** leading and removable are the answers of the election manager to IsLeader and RemovePeer. */
    method HandleNodeStateChange(change: Heartbeat.StateChange, leading: bool, removable: bool)
      modifies this, heartbeatMgr
      ensures nodes == old(nodes)[change.node := change.status]
      ensures Answers() == Forget(old(Answers()), change.node)
      ensures leader == old(leader) && nodeCache == old(nodeCache) - {change.node}
      ensures isLeader == old(isLeader) && leaderChangeCh == old(leaderChangeCh)
      ensures heartbeatMgr.Contents() ==
              if change.status == Heartbeat.Dead && leading && removable
              then Heartbeat.Step(heartbeatMgr.cfg, old(heartbeatMgr.Contents()), Heartbeat.Unregister(change.node))
              else old(heartbeatMgr.Contents())
      ensures heartbeatMgr.nodeStates ==
              old(heartbeatMgr.nodeStates) - if change.status == Heartbeat.Dead && leading && removable then {change.node} else {}
    {
      nodes := nodes[change.node := change.status];
      nodeCache := nodeCache - {change.node};
      if change.status == Heartbeat.Dead && leading && removable {
        UnregisterNode(change.node);
      }
    }

    method UnregisterNode(id: NodeId)
      modifies this`nodeCache, heartbeatMgr
      ensures Answers() == Forget(old(Answers()), id)
      ensures leader == old(leader) && nodeCache == old(nodeCache) - {id}
      ensures heartbeatMgr.nodeStates == old(heartbeatMgr.nodeStates) - {id}
      ensures heartbeatMgr.Contents() ==
              Heartbeat.Step(heartbeatMgr.cfg, old(heartbeatMgr.Contents()), Heartbeat.Unregister(id))
    {
      heartbeatMgr.UnregisterNode(id);
      nodeCache := nodeCache - {id};
    }

    method GetNodeInfo(id: NodeId, elected: NodeId, now: int) returns (r: Option<NodeInfo>)
      modifies this`nodeCache
      ensures var v, status := old(Answers()), Heartbeat.StatusIn(heartbeatMgr.nodeStates, id);
              if !Hit(v, id, now) && status == Heartbeat.Unknown then r == None && Answers() == v
              else r == Some(Answer(v, id, status, elected, now)) && Answers() == Remembered(v, id, status, elected, now)
      ensures var status := Heartbeat.StatusIn(heartbeatMgr.nodeStates, id);
              var built := NodeInfo(id, status, id == if leader != "" then leader else elected);
              if id in old(nodeCache) && now - old(nodeCache)[id].timestamp < 10_000_000_000
              then r == Some(old(nodeCache)[id].info) && nodeCache == old(nodeCache)
              else if id !in heartbeatMgr.nodeStates || status == Heartbeat.Unknown
              then r == None && nodeCache == old(nodeCache)
              else r == Some(built) && nodeCache == old(nodeCache)[id := Cached(built, now)]
    {
      if id in nodeCache && now - nodeCache[id].timestamp < CACHE_TTL {
        return Some(nodeCache[id].info);
      }
      var status := heartbeatMgr.GetNodeState(id);
      if status == Heartbeat.Unknown {
        return None;
      }
      var info := NodeInfo(id, status, id == if leader != "" then leader else elected);
      nodeCache := nodeCache[id := Cached(info, now)];
      return Some(info);
    }

    /** The node map is visited in any order. */
    method ListNodes(elected: NodeId, now: int) returns (infos: seq<NodeInfo>, ghost order: seq<NodeId>)
      modifies this`nodeCache
      ensures Heartbeat.Enumerates(order, heartbeatMgr.nodeStates.Keys)
      ensures var statuses := map id | id in heartbeatMgr.nodeStates :: heartbeatMgr.nodeStates[id].status;
              (infos, Answers()) == Listed(old(Answers()), order, statuses, elected, now)
      ensures |infos| == |order| && leader == old(leader)
      ensures forall k :: 0 <= k < |order| ==>
                && order[k] in heartbeatMgr.nodeStates && order[k] in nodeCache
                && infos[k] == nodeCache[order[k]].info
                && nodeCache[order[k]]
                   == EntryAfter(old(Answers()), order[k], heartbeatMgr.nodeStates[order[k]].status, elected, now)
    {
      infos, order := [], [];
      ghost var statuses := map id | id in heartbeatMgr.nodeStates :: heartbeatMgr.nodeStates[id].status;
      var pending := heartbeatMgr.nodeStates.Keys;
      while pending != {}
        invariant pending <= heartbeatMgr.nodeStates.Keys
        invariant Heartbeat.Enumerates(order, heartbeatMgr.nodeStates.Keys - pending)
        invariant (infos, Answers()) == Listed(old(Answers()), order, statuses, elected, now)
        decreases |pending|
      {
        var id :| id in pending;
        Heartbeat.ExtendEnumeration(order, heartbeatMgr.nodeStates.Keys, pending, id);
        pending := pending - {id};
        ghost var before := order;
        order := order + [id];
        assert order[..|order| - 1] == before;
        if id in nodeCache && now - nodeCache[id].timestamp < CACHE_TTL {
          infos := infos + [nodeCache[id].info];
        } else {
          var info := NodeInfo(id, heartbeatMgr.nodeStates[id].status, id == if leader != "" then leader else elected);
          nodeCache := nodeCache[id := Cached(info, now)];
          infos := infos + [info];
        }
      }
      ListedAll(old(Answers()), order, statuses, elected, now);
      ListedKeepsOthers(old(Answers()), order, statuses, elected, now);
    }
  }

  // ---------- Runs, with queries as atomic steps ----------

  /** A query carries the clock reading and the detector's statuses of its moment. */
  datatype Event =
    | LeaderChanged(leader: NodeId)
    | Invalidated(node: NodeId)
    | Queried(node: NodeId, elected: NodeId, at: int, statuses: map<NodeId, Status>)

  function Step(v: View, e: Event): View {
    match e
    case LeaderChanged(leader) => ElectLeader(v, leader)
    case Invalidated(id) => Forget(v, id)
    case Queried(id, elected, now, statuses) =>
      if Hit(v, id, now) || id !in statuses then v else Remembered(v, id, statuses[id], elected, now)
  }

  function Run(events: seq<Event>): View {
    if events == [] then View("", map[])
    else Step(Run(events[..|events| - 1]), events[|events| - 1])
  }

  /** Every cached leader flag agrees with the known leader. */
  ghost predicate FlagsAgree(v: View) {
    forall id :: id in v.cache ==> v.cache[id].info.id == id && v.cache[id].info.isLeader == (id == v.leader)
  }

  /** Once a leader is known, every cached entry's flag agrees with it, through every later step. */
  lemma {:induction false} FlagsAgreeOnceLeaderKnown(events: seq<Event>)
    requires forall k :: 0 <= k < |events| && events[k].LeaderChanged? ==> events[k].leader != ""
    ensures Run(events).leader != "" ==> FlagsAgree(Run(events))
    ensures Run(events).leader != "" <==> exists k :: 0 <= k < |events| && events[k].LeaderChanged?
  {
    if events != [] {
      var front, last := events[..|events| - 1], events[|events| - 1];
      FlagsAgreeOnceLeaderKnown(front);
      if k :| 0 <= k < |front| && front[k].LeaderChanged? {
        assert events[k].LeaderChanged?;
      }
      assert last == events[|events| - 1];
    }
  }

  ghost predicate AtMostOneLeader(infos: seq<NodeInfo>) {
    forall i, j :: 0 <= i < j < |infos| ==> !(infos[i].isLeader && infos[j].isLeader)
  }

  lemma {:induction false} ListingAgreesWithLeader(v: View, order: seq<NodeId>, statuses: map<NodeId, Status>, elected: NodeId, now: int)
    requires v.leader != "" && FlagsAgree(v) && forall id :: id in order ==> id in statuses
    ensures var r := Listed(v, order, statuses, elected, now);
            && r.1.leader == v.leader && FlagsAgree(r.1)
            && forall k :: 0 <= k < |order| ==> r.0[k].id == order[k] && r.0[k].isLeader == (order[k] == v.leader)
  {
    if order != [] {
      ListingAgreesWithLeader(v, order[..|order| - 1], statuses, elected, now);
    }
  }

  /** So no listing taken after a leader change was handled shows two leaders. */
  lemma ListingShowsOneLeader(events: seq<Event>, order: seq<NodeId>, statuses: map<NodeId, Status>, elected: NodeId, now: int)
    requires forall k :: 0 <= k < |events| && events[k].LeaderChanged? ==> events[k].leader != ""
    requires exists k :: 0 <= k < |events| && events[k].LeaderChanged?
    requires Heartbeat.Enumerates(order, statuses.Keys)
    ensures AtMostOneLeader(Listed(Run(events), order, statuses, elected, now).0)
  {
    FlagsAgreeOnceLeaderKnown(events);
    ListingAgreesWithLeader(Run(events), order, statuses, elected, now);
  }

  // ---------- Returned statuses are recent ----------

  ghost predicate HeldAt(events: seq<Event>, k: nat, id: NodeId, status: Status, at: int) {
    k < |events| && events[k].Queried? && events[k].at == at && id in events[k].statuses && events[k].statuses[id] == status
  }

  ghost predicate HeldRecently(events: seq<Event>, k: nat, id: NodeId, status: Status, at: int, now: int) {
    HeldAt(events, k, id, status, at) && now - at < CACHE_TTL
  }

  lemma {:induction false} CachedStatusHeldAtTimestamp(events: seq<Event>, id: NodeId)
    requires id in Run(events).cache
    ensures var c := Run(events).cache[id]; exists k :: HeldAt(events, k, id, c.info.status, c.timestamp)
  {
    var front, last := events[..|events| - 1], events[|events| - 1];
    var c := Run(events).cache[id];
    if id in Run(front).cache && Run(front).cache[id] == c {
      CachedStatusHeldAtTimestamp(front, id);
      var k :| HeldAt(front, k, id, c.info.status, c.timestamp);
      assert HeldAt(events, k, id, c.info.status, c.timestamp);
    } else {
      assert HeldAt(events, |front|, id, c.info.status, c.timestamp);
    }
  }

  /** The status that a query after these events returns. */
  function Returned(events: seq<Event>, e: Event): Status
    requires e.Queried?
  {
    var status := if e.node in e.statuses then e.statuses[e.node] else Heartbeat.Unknown;
    Answer(Run(events), e.node, status, e.elected, e.at).status
  }

  /** Every status a query returns was the node's status at some moment less than the cache TTL before. */
  lemma ReturnedStatusHeldRecently(events: seq<Event>, e: Event)
    requires e.Queried? && (Hit(Run(events), e.node, e.at) || e.node in e.statuses)
    ensures exists k, at :: HeldRecently(events + [e], k, e.node, Returned(events, e), at, e.at)
  {
    var all, status := events + [e], Returned(events, e);
    if Hit(Run(events), e.node, e.at) {
      CachedStatusHeldAtTimestamp(events, e.node);
      var at := Run(events).cache[e.node].timestamp;
      var k: nat :| HeldAt(events, k, e.node, status, at);
      assert all[k] == events[k];
      assert HeldRecently(all, k, e.node, status, at, e.at);
    } else {
      assert all[|events|] == e;
      assert HeldRecently(all, |events|, e.node, status, e.at, e.at);
    }
  }

  // ---------- A handled change is seen by the next query ----------

  ghost predicate QueriedIn(events: seq<Event>, k: int, id: NodeId, status: Status) {
    && 0 <= k < |events| && events[k].Queried? && events[k].node == id
    && id in events[k].statuses && events[k].statuses[id] == status
  }

  lemma {:induction false} CachedAfterInvalidation(before: seq<Event>, after: seq<Event>, id: NodeId)
    ensures var v := Run(before + [Invalidated(id)] + after);
            id in v.cache ==> exists k :: QueriedIn(after, k, id, v.cache[id].info.status)
    decreases |after|
  {
    var all := before + [Invalidated(id)] + after;
    if after == [] {
      assert all[..|all| - 1] == before && all[|all| - 1] == Invalidated(id);
    } else {
      var front, last := after[..|after| - 1], after[|after| - 1];
      var mid := before + [Invalidated(id)] + front;
      assert all[..|all| - 1] == mid && all[|all| - 1] == last;
      CachedAfterInvalidation(before, front, id);
      if id in Run(all).cache {
        var status := Run(all).cache[id].info.status;
        if id in Run(mid).cache && Run(mid).cache[id] == Run(all).cache[id] {
          var k :| QueriedIn(front, k, id, status);
          assert QueriedIn(after, k, id, status);
        } else {
          assert QueriedIn(after, |front|, id, status);
        }
      }
    }
  }

  /**
   In every run: whatever a query returns for a node after a change of it was handled, was the
   node's status when some query asked for it after that.
   */
  lemma ChangeIsSeen(before: seq<Event>, after: seq<Event>, e: Event, id: NodeId)
    requires e.Queried? && e.node == id
    requires Hit(Run(before + [Invalidated(id)] + after), id, e.at) || id in e.statuses
    ensures exists k :: QueriedIn(after + [e], k, id, Returned(before + [Invalidated(id)] + after, e))
  {
    var events := before + [Invalidated(id)] + after;
    var status := Returned(events, e);
    if Hit(Run(events), id, e.at) {
      CachedAfterInvalidation(before, after, id);
      var k :| QueriedIn(after, k, id, status);
      assert (after + [e])[k] == after[k];
      assert QueriedIn(after + [e], k, id, status);
    } else {
      assert (after + [e])[|after|] == e;
      assert QueriedIn(after + [e], |after|, id, status);
    }
  }
}
