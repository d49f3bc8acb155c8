/** What carrying out the plans of one round does to the shard counts, and why rounds come to an end. */
module Rounds {
  import opened Strategy
  import opened Statistics

  type Counts = map<NodeId, int>

  function Move(counts: Counts, p: Plan): Counts
    requires p.source in counts && p.target in counts
  {
    var taken := counts[p.source := counts[p.source] - p.shards];
    taken[p.target := taken[p.target] + p.shards]
  }

  predicate Known(counts: Counts, plans: seq<Plan>) {
    forall p :: p in plans ==> p.source in counts && p.target in counts
  }

  function CarryOut(counts: Counts, plans: seq<Plan>): (r: Counts)
    requires Known(counts, plans)
    ensures r.Keys == counts.Keys
  {
    if plans == [] then counts else CarryOut(Move(counts, plans[0]), plans[1..])
  }

  function Total(counts: Counts, ids: seq<NodeId>): int
    requires forall id :: id in ids ==> id in counts
  {
    if ids == [] then 0 else Total(counts, ids[..|ids| - 1]) + counts[ids[|ids| - 1]]
  }

  function Square(c: int): nat {
    if c >= 0 then c * c else (-c) * (-c)
  }

  /** The measure of imbalance that every good round lowers. */
  function SquareTotal(counts: Counts, ids: seq<NodeId>): nat
    requires forall id :: id in ids ==> id in counts
  {
    if ids == [] then 0
    else SquareTotal(counts, ids[..|ids| - 1]) + Square(counts[ids[|ids| - 1]])
  }

  ghost predicate Distinct(ids: seq<NodeId>) {
    forall i, j :: 0 <= i < j < |ids| ==> ids[i] != ids[j]
  }

  ghost predicate Lists(ids: seq<NodeId>, counts: Counts) {
    Distinct(ids) && forall id :: id in ids <==> id in counts
  }

  lemma {:induction false} UpdateTotal(counts: Counts, ids: seq<NodeId>, x: NodeId, v: int)
    requires Distinct(ids) && forall id :: id in ids ==> id in counts
    ensures Total(counts[x := v], ids) == Total(counts, ids) + if x in ids then v - counts[x] else 0
  {
    if ids != [] {
      var front, last := ids[..|ids| - 1], ids[|ids| - 1];
      assert ids == front + [last];
      UpdateTotal(counts, front, x, v);
    }
  }

  lemma {:induction false} UpdateSquareTotal(counts: Counts, ids: seq<NodeId>, x: NodeId, v: int)
    requires Distinct(ids) && forall id :: id in ids ==> id in counts
    ensures SquareTotal(counts[x := v], ids)
            == SquareTotal(counts, ids) + if x in ids then Square(v) - Square(counts[x]) else 0
  {
    if ids != [] {
      var front, last := ids[..|ids| - 1], ids[|ids| - 1];
      assert ids == front + [last];
      UpdateSquareTotal(counts, front, x, v);
    }
  }

  /** A plan that narrows the gap between its two nodes without crossing. */
  ghost predicate Narrows(counts: Counts, p: Plan) {
    && p.source in counts && p.target in counts && p.source != p.target
    && p.shards >= 1
    && 2 * p.shards <= counts[p.source] - counts[p.target]
  }

  lemma MoveLowersSquares(counts: Counts, ids: seq<NodeId>, p: Plan)
    requires Lists(ids, counts) && Narrows(counts, p)
    ensures Lists(ids, Move(counts, p))
    ensures Total(Move(counts, p), ids) == Total(counts, ids)
    ensures SquareTotal(Move(counts, p), ids) <= SquareTotal(counts, ids) - 2
  {
    var s, t, m := counts[p.source], counts[p.target], p.shards;
    var taken := counts[p.source := s - m];
    UpdateTotal(counts, ids, p.source, s - m);
    UpdateTotal(taken, ids, p.target, t + m);
    UpdateSquareTotal(counts, ids, p.source, s - m);
    UpdateSquareTotal(taken, ids, p.target, t + m);
    TransferLowersSquares(s, t, m);
  }

  lemma TransferLowersSquares(s: int, t: int, m: int)
    requires m >= 1 && 2 * m <= s - t
    ensures Square(s - m) + Square(t + m) <= Square(s) + Square(t) - 2
  {
    assert (s - m) * (s - m) + (t + m) * (t + m) == s * s + t * t - 2 * m * (s - t - m);
    assert s - t - m >= m;
    assert m * (s - t - m) >= 1;
  }

  ghost predicate AllNarrow(counts: Counts, plans: seq<Plan>) {
    forall k :: 0 <= k < |plans| ==> Narrows(counts, plans[k])
  }

  /** Carrying out one plan leaves the others as they were. */
  lemma RestStillNarrows(counts: Counts, plans: seq<Plan>)
    requires plans != [] && AllNarrow(counts, plans) && Disjoint(plans)
    ensures AllNarrow(Move(counts, plans[0]), plans[1..]) && Disjoint(plans[1..])
    ensures forall q :: q in plans[1..] ==> Apart(plans[0], q)
  {
    var rest := plans[1..];
    assert forall k :: 0 <= k < |rest| ==> rest[k] == plans[k + 1];
    forall k | 0 <= k < |rest| ensures Narrows(Move(counts, plans[0]), rest[k]) {
      assert Narrows(counts, plans[k + 1]) && Apart(plans[0], plans[k + 1]);
    }
  }

  /** A round of disjoint narrowing plans keeps the shard total and lowers the squares by two per plan. */
  lemma {:induction false} RoundLowersSquares(counts: Counts, ids: seq<NodeId>, plans: seq<Plan>)
    requires Lists(ids, counts) && AllNarrow(counts, plans) && Disjoint(plans)
    ensures Known(counts, plans)
    ensures var after := CarryOut(counts, plans);
            && Lists(ids, after)
            && Total(after, ids) == Total(counts, ids)
            && SquareTotal(after, ids) <= SquareTotal(counts, ids) - 2 * |plans|
    decreases |plans|
  {
    if plans != [] {
      assert Narrows(counts, plans[0]);
      MoveLowersSquares(counts, ids, plans[0]);
      RestStillNarrows(counts, plans);
      RoundLowersSquares(Move(counts, plans[0]), ids, plans[1..]);
      assert plans == [plans[0]] + plans[1..];
    }
  }

  /** A node outside all plans keeps its count. */
  lemma {:induction false} BystanderKeepsCount(counts: Counts, plans: seq<Plan>, id: NodeId)
    requires Known(counts, plans) && id in counts
    requires forall p :: p in plans ==> id != p.source && id != p.target
    ensures CarryOut(counts, plans)[id] == counts[id]
    decreases |plans|
  {
    if plans != [] {
      assert plans[0] in plans && forall p :: p in plans[1..] ==> p in plans;
      BystanderKeepsCount(Move(counts, plans[0]), plans[1..], id);
    }
  }

  /** Each plan shows up in full at its two nodes, and no source ends below its target. */
  lemma {:induction false} PlanTakesEffect(counts: Counts, plans: seq<Plan>, k: nat)
    requires AllNarrow(counts, plans) && Disjoint(plans) && Known(counts, plans) && k < |plans|
    ensures var p, after := plans[k], CarryOut(counts, plans);
            && after[p.source] == counts[p.source] - p.shards
            && after[p.target] == counts[p.target] + p.shards
            && after[p.source] >= after[p.target]
    decreases |plans|
  {
    var moved, rest := Move(counts, plans[0]), plans[1..];
    assert Narrows(counts, plans[0]) && Narrows(counts, plans[k]);
    assert Known(moved, rest);
    RestStillNarrows(counts, plans);
    if k == 0 {
      BystanderKeepsCount(moved, rest, plans[0].source);
      BystanderKeepsCount(moved, rest, plans[0].target);
    } else {
      assert rest[k - 1] == plans[k] && rest[k - 1] in rest;
      PlanTakesEffect(moved, rest, k - 1);
    }
  }

  /** The weighted move is at least one shard; it stays within half the gap exactly when the gap is two or more. */
  lemma WeightedMoveNarrowsIff(s: Strategy, source: int, target: int)
    requires s.WeightedScore?
    ensures var m := ShardsToMigrate(s, source, target);
            && m >= 1
            && (2 * m <= source - target <==> source >= target + 2)
  {
    var average := (source + target) as real / 2.0;
    var half := (source - target) as real / 2.0;
    assert source as real - average == half == average - target as real;
    if source >= target + 2 {
      assert half.Floor as real <= half;
      assert Truncate(half) >= 1;
    }
  }

  ghost predicate CountsOf(counts: Counts, nodes: seq<Node>) {
    forall n :: n in nodes ==> n.id in counts && counts[n.id] == n.metrics.shardCount
  }

  /**
   One weighted round: if every planned source has at least two shards more than its target,
   carrying out the plans keeps the total, leaves no source below its target and strictly
   lowers the squares.
   */
  lemma WeightedRoundBalances(s: Strategy, f: Node -> real, sorted: seq<Node>, counts: Counts, ids: seq<NodeId>)
    requires s.WeightedScore? && Descending(f, sorted) && DistinctIds(sorted)
    requires CountsOf(counts, sorted) && Lists(ids, counts)
    requires var plans := Plans(s, f, sorted);
             forall p :: p in plans ==>
               p.source in counts && p.target in counts && counts[p.source] >= counts[p.target] + 2
    ensures var plans := Plans(s, f, sorted);
            && AllNarrow(counts, plans) && Disjoint(plans) && Known(counts, plans)
            && var after := CarryOut(counts, plans);
            && Total(after, ids) == Total(counts, ids)
            && (forall p :: p in plans ==> after[p.source] >= after[p.target])
            && SquareTotal(after, ids) <= SquareTotal(counts, ids) - 2 * |plans|
  {
    var plans := Plans(s, f, sorted);
    PlansAreLeadingPairs(s, f, sorted, PairLimit(s, |sorted|));
    PlansUseNodesOnce(s, f, sorted);
    forall k | 0 <= k < |plans| ensures Narrows(counts, plans[k]) {
      var source, target := sorted[k], sorted[|sorted| - 1 - k];
      assert plans[k] == PairPlan(s, sorted, k) && plans[k] in plans;
      assert source in sorted && target in sorted;
      WeightedMoveNarrowsIff(s, source.metrics.shardCount, target.metrics.shardCount);
    }
    RoundLowersSquares(counts, ids, plans);
    forall p | p in plans ensures CarryOut(counts, plans)[p.source] >= CarryOut(counts, plans)[p.target] {
      var k :| 0 <= k < |plans| && plans[k] == p;
      PlanTakesEffect(counts, plans, k);
    }
  }

  /** What one round goes by: the nodes with their metrics of the moment, and the order it sorts them in. */
  datatype Round = Round(nodes: seq<Node>, sorted: seq<Node>)

  ghost function PlansOf(s: Strategy, r: Round): seq<Plan>
    requires r.nodes != []
  {
    Plans(s, LoadOf(s, r.nodes), r.sorted)
  }

  /** The round plans something, from the counts it finds, and every source leads its target by two shards. */
  ghost predicate PlansWithGuard(s: Strategy, counts: Counts, r: Round) {
    && r.nodes != [] && multiset(r.sorted) == multiset(r.nodes)
    && Descending(LoadOf(s, r.nodes), r.sorted) && DistinctIds(r.sorted) && CountsOf(counts, r.sorted)
    && PlansOf(s, r) != []
    && Known(counts, PlansOf(s, r))
    && forall p :: p in PlansOf(s, r) ==> counts[p.source] >= counts[p.target] + 2
  }

  /** Successive weighted rounds, each carried out before the next is planned. */
  ghost predicate Progressing(s: Strategy, counts: Counts, rounds: seq<Round>)
    decreases |rounds|
  {
    rounds == [] ||
    (PlansWithGuard(s, counts, rounds[0])
     && Progressing(s, CarryOut(counts, PlansOf(s, rounds[0])), rounds[1..]))
  }

  /** Such rounds cannot recur for ever: whatever metrics they meet, their number is bounded by the initial squares. */
  lemma {:induction false} RoundsComeToAnEnd(s: Strategy, counts: Counts, ids: seq<NodeId>, rounds: seq<Round>)
    requires s.WeightedScore? && Lists(ids, counts) && Progressing(s, counts, rounds)
    ensures 2 * |rounds| <= SquareTotal(counts, ids)
    decreases |rounds|
  {
    if rounds != [] {
      var r := rounds[0];
      var plans := PlansOf(s, r);
      WeightedRoundBalances(s, LoadOf(s, r.nodes), r.sorted, counts, ids);
      RoundLowersSquares(counts, ids, plans);
      RoundsComeToAnEnd(s, CarryOut(counts, plans), ids, rounds[1..]);
    }
  }

  /** Without the two-shard guard a round can turn the imbalance round: the lighter node gives its only shard. */
  lemma LighterSourceStillGives()
    ensures exists s: Strategy, nodes: seq<Node> ::
              && s == DEFAULT_STRATEGY && |nodes| == 2 && NonNegative(nodes) && DistinctIds(nodes)
              && Descending(LoadOf(s, nodes), nodes)
              && (var plans := Plans(s, LoadOf(s, nodes), nodes);
                  |plans| == 1 && plans[0].source == nodes[0].id && plans[0].target == nodes[1].id && plans[0].shards == 1)
              && nodes[0].metrics.shardCount < nodes[1].metrics.shardCount
  {
    var nodes := [Node("a", NodeMetrics(100.0, 0, 0.0, 1)), Node("b", NodeMetrics(0.0, 0, 0.0, 2))];
    var s := DEFAULT_STRATEGY;
    var g := ShardsOf();
    assert nodes[..1] == [nodes[0]];
    assert [nodes[0]][..0] == [];
    assert SumBy(g, nodes[..1]) == SumBy(g, []) + g(nodes[0]) == 1.0;
    assert SumBy(g, nodes) == SumBy(g, nodes[..1]) + g(nodes[1]) == 3.0;
    assert AverageShards(nodes) == 1.5;
    var f := LoadOf(s, nodes);
    assert f(nodes[0]) == 40.0 + 0.2 * (1.0 / 1.5) * 100.0;
    assert f(nodes[1]) == 0.2 * (2.0 / 1.5) * 100.0;
    assert Descending(f, nodes);
    assert PairLimit(s, 2) == 1;
    PlansAreLeadingPairs(s, f, nodes, 1);
    assert Gap(f, nodes, 0) > 0.1;
    assert |Plans(s, f, nodes)| == 1;
    PlansGoDownhill(s, f, nodes);
  }
}
