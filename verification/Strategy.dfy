/**
 The three concrete balancing strategies: the imbalance test and the sort-and-pair planner.
 A cluster is the metrics map in the order some range over it visits; Go ranges in any order,
 so results that involve two visits are stated for two permutations.
 */
module Strategy {
  import opened Statistics

  type NodeId = string

  datatype NodeMetrics = NodeMetrics(
    cpuUsagePercent: real,
    memoryUsageBytes: nat,
    diskUsageRatio: real,
    shardCount: int)

  datatype Node = Node(id: NodeId, metrics: NodeMetrics)

  datatype Strategy =
    | WeightedScore(cpuWeight: real, memoryWeight: real, diskWeight: real, shardWeight: real)
    | CapacityBalance(threshold: real)
    | AccessFrequency(threshold: real)

  const DEFAULT_STRATEGY := WeightedScore(0.4, 0.2, 0.2, 0.2)
  const GIGABYTE: int := 0x4000_0000

  /** A threshold that is not positive falls back to 20 per cent. */
  function BaseThreshold(threshold: real): real {
    if threshold <= 0.0 then 20.0 else threshold
  }

  function ThresholdOf(s: Strategy): real {
    if s.WeightedScore? then BaseThreshold(0.0) else BaseThreshold(s.threshold)
  }

  function ShardsOf(): Node -> real {
    (n: Node) => n.metrics.shardCount as real
  }

  function AverageShards(nodes: seq<Node>): real
    requires nodes != []
  {
    Mean(ShardsOf(), nodes)
  }

  /** The load a strategy compares nodes by. */
  function Load(s: Strategy, averageShards: real, m: NodeMetrics): real {
    match s
    case WeightedScore(cpu, memory, disk, shard) =>
      var normalized := if averageShards > 0.0 then m.shardCount as real / averageShards else 0.0;
      cpu * m.cpuUsagePercent
      + memory * (m.memoryUsageBytes as real / GIGABYTE as real)
      + disk * m.diskUsageRatio * 100.0
      + shard * normalized * 100.0
    case CapacityBalance(_) => m.diskUsageRatio
    case AccessFrequency(_) => m.cpuUsagePercent
  }

  function LoadOf(s: Strategy, nodes: seq<Node>): Node -> real
    requires nodes != []
  {
    var average := AverageShards(nodes);
    (n: Node) => Load(s, average, n.metrics)
  }

  // ---------- The imbalance test ----------

  /** The score is 100 * sqrt(variance) / mean; the test is written without the root. */
  predicate Exceeds(mean: real, variance: real, threshold: real) {
    mean > 0.0 && variance * 10000.0 > threshold * mean * (threshold * mean)
  }

  datatype Verdict = Verdict(needed: bool, mean: real, variance: real)

  method CalculateNodeScore(s: Strategy, m: NodeMetrics, nodes: seq<Node>) returns (score: real)
    requires nodes != []
    ensures score == Load(s, AverageShards(nodes), m)
    ensures s.CapacityBalance? ==> score == m.diskUsageRatio
    ensures s.AccessFrequency? ==> score == m.cpuUsagePercent
    ensures s.WeightedScore? ==>
              var average := Mean((n: Node) => n.metrics.shardCount as real, nodes);
              score == s.cpuWeight * m.cpuUsagePercent
                       + s.memoryWeight * (m.memoryUsageBytes as real / 1073741824.0)
                       + s.diskWeight * m.diskUsageRatio * 100.0
                       + s.shardWeight * (if average > 0.0 then m.shardCount as real / average else 0.0) * 100.0
  {
    var average := 0.0;
    for i := 0 to |nodes|
      invariant average == SumBy(ShardsOf(), nodes[..i])
    {
      assert nodes[..i + 1][..i] == nodes[..i];
      average := average + nodes[i].metrics.shardCount as real;
    }
    assert nodes[..|nodes|] == nodes;
    average := average / |nodes| as real;
    score := Load(s, average, m);
  }

  method SumScores(scores: seq<real>, ghost f: Node -> real, ghost nodes: seq<Node>) returns (sum: real)
    requires |scores| == |nodes| && forall k :: 0 <= k < |nodes| ==> scores[k] == f(nodes[k])
    ensures sum == SumBy(f, nodes)
  {
    sum := 0.0;
    for i := 0 to |scores|
      invariant sum == SumBy(f, nodes[..i])
    {
      assert nodes[..i + 1][..i] == nodes[..i];
      sum := sum + scores[i];
    }
    assert nodes[..|nodes|] == nodes;
  }

  method SumSquaredDiffs(scores: seq<real>, avg: real, ghost f: Node -> real, ghost nodes: seq<Node>)
    returns (sum: real)
    requires |scores| == |nodes| && forall k :: 0 <= k < |nodes| ==> scores[k] == f(nodes[k])
    ensures sum == SumBy(SquaredDistance(f, avg), nodes)
  {
    sum := 0.0;
    for i := 0 to |scores|
      invariant sum == SumBy(SquaredDistance(f, avg), nodes[..i])
    {
      assert nodes[..i + 1][..i] == nodes[..i];
      var diff := scores[i] - avg;
      sum := sum + diff * diff;
    }
    assert nodes[..|nodes|] == nodes;
  }

  method Evaluate(s: Strategy, nodes: seq<Node>) returns (v: Verdict)
    ensures |nodes| < 2 ==> v == Verdict(false, 0.0, 0.0)
    ensures |nodes| >= 2 ==>
              var f := LoadOf(s, nodes);
              var threshold := if s.WeightedScore? || s.threshold <= 0.0 then 20.0 else s.threshold;
              v == Verdict(Exceeds(Mean(f, nodes), Variance(f, nodes), threshold), Mean(f, nodes), Variance(f, nodes))
  {
    if |nodes| < 2 {
      return Verdict(false, 0.0, 0.0);
    }
    ghost var f := LoadOf(s, nodes);
    var scores: seq<real> := [];
    for i := 0 to |nodes|
      invariant |scores| == i && forall k :: 0 <= k < i ==> scores[k] == f(nodes[k])
    {
      var score := CalculateNodeScore(s, nodes[i].metrics, nodes);
      scores := scores + [score];
    }
    var sum := SumScores(scores, f, nodes);
    var avg := sum / |scores| as real;
    var squaredDiffSum := SumSquaredDiffs(scores, avg, f, nodes);
    var variance := squaredDiffSum / |scores| as real;
    if avg == 0.0 {
      return Verdict(false, avg, variance);
    }
    return Verdict(Exceeds(avg, variance, ThresholdOf(s)), avg, variance);
  }

  /** The test is the program's own: for the root of the variance, root / mean * 100 > threshold. */
  lemma ExceedsIsScoreAboveThreshold(root: real, mean: real, variance: real, threshold: real)
    requires root >= 0.0 && root * root == variance && mean != 0.0 && threshold > 0.0
    ensures root / mean * 100.0 > threshold <==> Exceeds(mean, variance, threshold)
  {
    var q := root / mean;
    assert q * mean == root;
    var a, b := root * 100.0, threshold * mean;
    assert a * a == variance * 10000.0;
    if mean > 0.0 {
      if q * 100.0 > threshold {
        ScaleStrict(threshold, q * 100.0, mean);
        SquareOrder(b, a, b * b, a * a);
      } else if q * 100.0 < threshold {
        ScaleStrict(q * 100.0, threshold, mean);
        SquareOrder(a, b, a * a, b * b);
      }
    } else if q > 0.0 {
      ScaleStrict(0.0, q, -mean);
    }
  }

  // ---------- The planner ----------

  datatype Plan = Plan(source: NodeId, target: NodeId, shards: nat, priority: int)

  /** Go's integer division and float-to-int conversion truncate towards zero. */
  function Quotient(a: int, b: int): int
    requires b > 0
  {
    if a >= 0 then a / b else -((-a) / b)
  }

  function Truncate(x: real): int {
    if x >= 0.0 then x.Floor else -((-x).Floor)
  }

  function Min(a: real, b: real): real {
    if a < b then a else b
  }

  function AtLeastOne(n: int): nat {
    if n < 1 then 1 else n
  }

  function ShardsToMigrate(s: Strategy, source: int, target: int): nat {
    match s
    case WeightedScore(_, _, _, _) =>
      var average := (source + target) as real / 2.0;
      var wanted := Truncate(Min(source as real - average, average - target as real));
      var most := AtLeastOne(Quotient(source, 4));
      AtLeastOne(if wanted > most then most else wanted)
    case CapacityBalance(_) => AtLeastOne(Truncate(source as real * 0.3))
    case AccessFrequency(_) => AtLeastOne(Quotient(source, 5))
  }

  /** Pairs whose loads are this close are passed over. */
  predicate Skips(s: Strategy, gap: real) {
    match s
    case WeightedScore(_, _, _, _) => gap <= 0.1
    case CapacityBalance(_) => gap < 0.1
    case AccessFrequency(_) => gap < 20.0
  }

  function CeilThird(n: nat): nat {
    (n + 2) / 3
  }

  function PairLimit(s: Strategy, n: nat): nat {
    var limit := if s.AccessFrequency? then 2 else AtLeastOne(CeilThird(n));
    if limit < n / 2 then limit else n / 2
  }

  /** The i-th heaviest node against the i-th lightest. */
  function Gap(f: Node -> real, sorted: seq<Node>, i: nat): real
    requires i < |sorted|
  {
    f(sorted[i]) - f(sorted[|sorted| - 1 - i])
  }

  function PairPlan(s: Strategy, sorted: seq<Node>, i: nat): Plan
    requires i < |sorted|
  {
    var source, target := sorted[i], sorted[|sorted| - 1 - i];
    Plan(source.id, target.id, ShardsToMigrate(s, source.metrics.shardCount, target.metrics.shardCount), 10 - i)
  }

  /** The plans of the first k pairs, passing over close ones. */
  function PlansUpTo(s: Strategy, f: Node -> real, sorted: seq<Node>, k: nat): seq<Plan>
    requires k <= |sorted|
  {
    if k == 0 then []
    else
      PlansUpTo(s, f, sorted, k - 1)
      + if Skips(s, Gap(f, sorted, k - 1)) then [] else [PairPlan(s, sorted, k - 1)]
  }

  function Plans(s: Strategy, f: Node -> real, sorted: seq<Node>): seq<Plan> {
    PlansUpTo(s, f, sorted, PairLimit(s, |sorted|))
  }

  ghost predicate Descending(f: Node -> real, nodes: seq<Node>) {
    forall i, j :: 0 <= i < j < |nodes| ==> f(nodes[i]) >= f(nodes[j])
  }

  method InsertByLoad(f: Node -> real, sorted: seq<Node>, node: Node) returns (r: seq<Node>)
    requires Descending(f, sorted)
    ensures multiset(r) == multiset(sorted) + multiset{node} && Descending(f, r)
  {
    var k := 0;
    while k < |sorted| && f(sorted[k]) >= f(node)
      invariant 0 <= k <= |sorted|
      invariant forall j :: 0 <= j < k ==> f(sorted[j]) >= f(node)
    {
      k := k + 1;
    }
    InsertKeepsOrder(f, sorted, k, node);
    ghost var front, back := sorted[..k], sorted[k..];
    assert sorted == front + back;
    assert multiset(sorted) == multiset(front) + multiset(back);
    r := sorted[..k] + [node] + sorted[k..];
  }

  lemma InsertKeepsOrder(f: Node -> real, sorted: seq<Node>, k: nat, node: Node)
    requires Descending(f, sorted) && k <= |sorted|
    requires forall j :: 0 <= j < k ==> f(sorted[j]) >= f(node)
    requires k < |sorted| ==> f(sorted[k]) < f(node)
    ensures var r := sorted[..k] + [node] + sorted[k..];
            Descending(f, r)
  {
    var r := sorted[..k] + [node] + sorted[k..];
    forall i, j | 0 <= i < j < |r| ensures f(r[i]) >= f(r[j]) {
      if i < k < j {
        assert f(sorted[i]) >= f(sorted[j - 1]);
      } else if i == k {
        assert f(sorted[k]) >= f(sorted[j - 1]);
      }
    }
  }

  /** sort.Slice may order equal loads in any way; callers may rely on no more than this contract. */
  method SortByLoad(f: Node -> real, nodes: seq<Node>) returns (sorted: seq<Node>)
    ensures multiset(sorted) == multiset(nodes) && Descending(f, sorted)
  {
    sorted := [];
    for i := 0 to |nodes|
      invariant multiset(sorted) == multiset(nodes[..i]) && Descending(f, sorted)
    {
      assert nodes[..i + 1] == nodes[..i] + [nodes[i]];
      sorted := InsertByLoad(f, sorted, nodes[i]);
    }
    assert nodes[..|nodes|] == nodes;
  }

  datatype PlanResult = Planned(plans: seq<Plan>) | TooFewNodes

  method GeneratePlan(s: Strategy, nodes: seq<Node>) returns (r: PlanResult, sorted: seq<Node>)
    ensures r == TooFewNodes <==> |nodes| < 2
    ensures |nodes| >= 2 ==>
              && multiset(sorted) == multiset(nodes)
              && Descending(LoadOf(s, nodes), sorted)
              && r == Planned(Plans(s, LoadOf(s, nodes), sorted))
  {
    sorted := [];
    if |nodes| < 2 {
      return TooFewNodes, sorted;
    }
    var f := LoadOf(s, nodes);
    sorted := SortByLoad(f, nodes);
    assert |sorted| == |multiset(sorted)| == |multiset(nodes)| == |nodes|;
    var plans := [];
    var i := 0;
    while i < PairLimit(s, |sorted|)
      invariant 0 <= i <= PairLimit(s, |sorted|)
      invariant plans == PlansUpTo(s, f, sorted, i)
    {
      if Skips(s, Gap(f, sorted, i)) {
        i := i + 1;
        continue;
      }
      plans := plans + [PairPlan(s, sorted, i)];
      i := i + 1;
    }
    r := Planned(plans);
  }

  // ---------- Which pairs are planned ----------

  lemma SkipsClosedBelow(s: Strategy, gap: real, smaller: real)
    requires Skips(s, gap) && smaller <= gap
    ensures Skips(s, smaller)
  {
  }

  /**
   Because gaps shrink with the pair index, passing over a pair is the same as stopping: the
   plans are exactly those of the first k pairs, with priorities 10, 9, ... downwards.
   */
  lemma {:induction false} PlansAreLeadingPairs(s: Strategy, f: Node -> real, sorted: seq<Node>, limit: nat)
    requires Descending(f, sorted) && limit <= |sorted| / 2
    ensures var plans := PlansUpTo(s, f, sorted, limit);
            && |plans| <= limit
            && (forall i :: 0 <= i < limit ==> (i < |plans| <==> !Skips(s, Gap(f, sorted, i))))
            && forall i :: 0 <= i < |plans| ==> plans[i] == PairPlan(s, sorted, i) && plans[i].priority == 10 - i
  {
    if limit > 0 {
      PlansAreLeadingPairs(s, f, sorted, limit - 1);
      var before := PlansUpTo(s, f, sorted, limit - 1);
      if |before| < limit - 1 {
        var k := |before|;
        assert Skips(s, Gap(f, sorted, k));
        assert Gap(f, sorted, limit - 1) <= Gap(f, sorted, k);
        SkipsClosedBelow(s, Gap(f, sorted, k), Gap(f, sorted, limit - 1));
      }
    }
  }

  ghost predicate DistinctIds(nodes: seq<Node>) {
    forall i, j :: 0 <= i < j < |nodes| ==> nodes[i].id != nodes[j].id
  }

  ghost predicate Apart(p: Plan, q: Plan) {
    p.source != q.source && p.source != q.target && p.target != q.source && p.target != q.target
  }

  /** No node appears in two plans, nor on both sides of one. */
  ghost predicate Disjoint(plans: seq<Plan>) {
    && (forall i :: 0 <= i < |plans| ==> plans[i].source != plans[i].target)
    && forall i, j :: 0 <= i < j < |plans| ==> Apart(plans[i], plans[j])
  }

  /** At most ceil(n/3) plans (two for access frequency), and every node is in at most one. */
  lemma PlansUseNodesOnce(s: Strategy, f: Node -> real, sorted: seq<Node>)
    requires Descending(f, sorted) && DistinctIds(sorted)
    ensures Disjoint(Plans(s, f, sorted))
    ensures |Plans(s, f, sorted)| <= if s.AccessFrequency? then 2 else CeilThird(|sorted|)
  {
    PlansAreLeadingPairs(s, f, sorted, PairLimit(s, |sorted|));
  }

  ghost predicate DocumentedPriorities(plans: seq<Plan>) {
    forall p :: p in plans ==> 1 <= p.priority <= 10
  }

  /**
   Priorities stay in the documented range 1 to 10 exactly when there is no eleventh pair or its
   gap is below the planner's limit; always up to thirty nodes.
   */
  lemma PrioritiesDocumentedIff(s: Strategy, f: Node -> real, sorted: seq<Node>)
    requires Descending(f, sorted)
    ensures DocumentedPriorities(Plans(s, f, sorted))
        <==> PairLimit(s, |sorted|) <= 10 || Skips(s, Gap(f, sorted, 10))
    ensures |sorted| <= 30 || s.AccessFrequency? ==> DocumentedPriorities(Plans(s, f, sorted))
  {
    PlansAreLeadingPairs(s, f, sorted, PairLimit(s, |sorted|));
    var plans := Plans(s, f, sorted);
    if |plans| > 10 {
      assert plans[10] in plans;
    }
  }

  /** n disks, the first half full and the rest empty. */
  ghost function HalfFull(n: nat): seq<Node> {
    seq(n, i requires 0 <= i < n =>
      Node(seq(i, _ => 'n'), NodeMetrics(0.0, 0, if i < n / 2 then 1.0 else 0.0, 1)))
  }

  /** Thirty nodes is sharp: every larger size has a half-full cluster that is given priority zero. */
  lemma PriorityZeroBeyondThirty(n: nat, threshold: real)
    requires n > 30
    ensures var s, nodes := CapacityBalance(threshold), HalfFull(n);
            && DistinctIds(nodes)
            && Descending(LoadOf(s, nodes), nodes)
            && |Plans(s, LoadOf(s, nodes), nodes)| > 10
            && Plans(s, LoadOf(s, nodes), nodes)[10].priority == 0
  {
    var s, nodes := CapacityBalance(threshold), HalfFull(n);
    forall i, j | 0 <= i < j < n ensures nodes[i].id != nodes[j].id {
      assert |nodes[i].id| == i && |nodes[j].id| == j;
    }
    var f := LoadOf(s, nodes);
    forall i | 0 <= i < n ensures f(nodes[i]) == if i < n / 2 then 1.0 else 0.0 {
      assert nodes[i].metrics.diskUsageRatio == if i < n / 2 then 1.0 else 0.0;
    }
    PlansAreLeadingPairs(s, f, nodes, PairLimit(s, n));
    assert 10 < PairLimit(s, n);
    assert Gap(f, nodes, 10) == 1.0;
  }

  /**
   How many shards may move, in whole numbers: capacity balancing takes three tenths of the source
   and access balancing a fifth, rounded down; the weighted strategy takes half the difference but
   no more than a quarter of the source. At least one always moves, even from an empty source.
   */
  predicate RightNumber(s: Strategy, source: nat, target: nat, m: nat) {
    match s
    case CapacityBalance(_) => if source < 4 then m == 1 else 10 * m <= 3 * source < 10 * (m + 1)
    case AccessFrequency(_) => if source < 5 then m == 1 else 5 * m <= source < 5 * (m + 1)
    case WeightedScore(_, _, _, _) =>
      if source < 4 || source < target + 2 then m == 1
      else
        && 4 * m <= source && 2 * m <= source - target
        && (source < 4 * (m + 1) || source - target < 2 * (m + 1))
  }

  lemma MoveSizes(s: Strategy, source: nat, target: nat)
    ensures RightNumber(s, source, target, ShardsToMigrate(s, source, target))
  {
    if s.WeightedScore? {
      var average := (source + target) as real / 2.0;
      var half := (source - target) as real / 2.0;
      assert source as real - average == half == average - target as real;
      assert half.Floor as real <= half < half.Floor as real + 1.0;
      if source == 0 {
        assert half <= 0.0;
      }
    } else if s.CapacityBalance? {
      var share := source as real * 0.3;
      assert share.Floor as real <= share < share.Floor as real + 1.0;
    }
  }

  lemma PlannedIff(s: Strategy, f: Node -> real, sorted: seq<Node>, i: nat)
    requires Descending(f, sorted) && i < |sorted| / 2
    ensures var gap := f(sorted[i]) - f(sorted[|sorted| - 1 - i]);
            i < |Plans(s, f, sorted)| <==>
              && i < (if s.AccessFrequency? then 2 else (|sorted| + 2) / 3)
              && if s.WeightedScore? then gap > 0.1 else if s.CapacityBalance? then gap >= 0.1 else gap >= 20.0
  {
    PlansAreLeadingPairs(s, f, sorted, PairLimit(s, |sorted|));
    assert i < PairLimit(s, |sorted|) <==> i < if s.AccessFrequency? then 2 else (|sorted| + 2) / 3;
    assert Gap(f, sorted, i) == f(sorted[i]) - f(sorted[|sorted| - 1 - i]);
  }

  lemma PlanGoesDownhill(s: Strategy, f: Node -> real, sorted: seq<Node>, i: nat)
    requires Descending(f, sorted) && i < |Plans(s, f, sorted)|
    ensures i < |sorted| / 2
    ensures var p, heavy, light := Plans(s, f, sorted)[i], sorted[i], sorted[|sorted| - 1 - i];
            && p.source == heavy.id && p.target == light.id && f(heavy) > f(light) && p.priority == 10 - i
            && (heavy.metrics.shardCount >= 0 && light.metrics.shardCount >= 0 ==>
                  RightNumber(s, heavy.metrics.shardCount, light.metrics.shardCount, p.shards))
  {
    PlansAreLeadingPairs(s, f, sorted, PairLimit(s, |sorted|));
    assert !Skips(s, Gap(f, sorted, i)) && Plans(s, f, sorted)[i] == PairPlan(s, sorted, i);
    var heavy, light := sorted[i].metrics.shardCount, sorted[|sorted| - 1 - i].metrics.shardCount;
    if heavy >= 0 && light >= 0 {
      MoveSizes(s, heavy, light);
    }
  }

  /**
   What is planned, in terms of the sorted nodes alone: the i-th heaviest gives to the i-th
   lightest, exactly while pairs are left and their loads lie far enough apart; the giver is
   strictly heavier, and the number of shards is the right one for the two counts.
   */
  lemma PlansGoDownhill(s: Strategy, f: Node -> real, sorted: seq<Node>)
    requires Descending(f, sorted)
    ensures |Plans(s, f, sorted)| <= |sorted| / 2
    ensures forall i :: 0 <= i < |sorted| / 2 ==>
              var gap := f(sorted[i]) - f(sorted[|sorted| - 1 - i]);
              (i < |Plans(s, f, sorted)| <==>
                 && i < (if s.AccessFrequency? then 2 else (|sorted| + 2) / 3)
                 && if s.WeightedScore? then gap > 0.1 else if s.CapacityBalance? then gap >= 0.1 else gap >= 20.0)
    ensures forall i :: 0 <= i < |Plans(s, f, sorted)| ==>
              var p, heavy, light := Plans(s, f, sorted)[i], sorted[i], sorted[|sorted| - 1 - i];
              && p.source == heavy.id && p.target == light.id && f(heavy) > f(light) && p.priority == 10 - i
              && (heavy.metrics.shardCount >= 0 && light.metrics.shardCount >= 0 ==>
                    RightNumber(s, heavy.metrics.shardCount, light.metrics.shardCount, p.shards))
  {
    PlansAreLeadingPairs(s, f, sorted, PairLimit(s, |sorted|));
    forall i | 0 <= i < |sorted| / 2
      ensures var gap := f(sorted[i]) - f(sorted[|sorted| - 1 - i]);
              (i < |Plans(s, f, sorted)| <==>
                 && i < (if s.AccessFrequency? then 2 else (|sorted| + 2) / 3)
                 && if s.WeightedScore? then gap > 0.1 else if s.CapacityBalance? then gap >= 0.1 else gap >= 20.0)
    {
      PlannedIff(s, f, sorted, i);
    }
    forall i | 0 <= i < |Plans(s, f, sorted)|
      ensures var p, heavy, light := Plans(s, f, sorted)[i], sorted[i], sorted[|sorted| - 1 - i];
              && p.source == heavy.id && p.target == light.id && f(heavy) > f(light) && p.priority == 10 - i
              && (heavy.metrics.shardCount >= 0 && light.metrics.shardCount >= 0 ==>
                    RightNumber(s, heavy.metrics.shardCount, light.metrics.shardCount, p.shards))
    {
      PlanGoesDownhill(s, f, sorted, i);
    }
  }

  // ---------- A rebalance that is needed is planned ----------

  ghost predicate NonNegative(nodes: seq<Node>) {
    forall n :: n in nodes ==>
      n.metrics.cpuUsagePercent >= 0.0 && n.metrics.diskUsageRatio >= 0.0 && n.metrics.shardCount >= 0
  }

  function CpuOf(): Node -> real {
    (n: Node) => n.metrics.cpuUsagePercent
  }

  function GigabytesOf(): Node -> real {
    (n: Node) => n.metrics.memoryUsageBytes as real / GIGABYTE as real
  }

  function DiskOf(): Node -> real {
    (n: Node) => n.metrics.diskUsageRatio
  }

  /** The shard part of the default score, with c the weight per shard. */
  function ShardPartOf(c: real): Node -> real {
    (n: Node) => c * ShardsOf()(n)
  }

  lemma {:induction false} ScoreSum(f: Node -> real, g: Node -> real, nodes: seq<Node>)
    requires forall n :: n in nodes ==> f(n) == 0.4 * CpuOf()(n) + 0.2 * GigabytesOf()(n) + 20.0 * DiskOf()(n) + g(n)
    ensures SumBy(f, nodes)
            == 0.4 * SumBy(CpuOf(), nodes) + 0.2 * SumBy(GigabytesOf(), nodes) + 20.0 * SumBy(DiskOf(), nodes)
               + SumBy(g, nodes)
  {
    if nodes != [] {
      assert nodes[|nodes| - 1] in nodes;
      ScoreSum(f, g, nodes[..|nodes| - 1]);
    }
  }

  /** Shard counts are normalised by their average, so the shard part of the score averages exactly 20. */
  lemma ShardPartAveragesTwenty(nodes: seq<Node>, average: real, c: real, n: real)
    requires n == |nodes| as real && average * n == SumBy(ShardsOf(), nodes) && c * average == 20.0
    ensures SumBy(ShardPartOf(c), nodes) == 20.0 * n
  {
    ScaledSum(ShardsOf(), ShardPartOf(c), nodes, c);
    TwentyEach(c, average, n, SumBy(ShardsOf(), nodes), SumBy(ShardPartOf(c), nodes));
  }

  lemma TwentyEach(c: real, average: real, n: real, sum: real, total: real)
    requires average * n == sum && c * average == 20.0 && total == c * sum
    ensures total == 20.0 * n
  {
    assert c * (average * n) == (c * average) * n;
  }

  /**
   With any shard in the cluster the mean default score is 20 plus the weighted means of the
   other metrics.
   */
  lemma MeanScoreDecomposes(nodes: seq<Node>)
    requires nodes != [] && AverageShards(nodes) > 0.0
    ensures Mean(LoadOf(DEFAULT_STRATEGY, nodes), nodes)
            == 0.4 * Mean(CpuOf(), nodes) + 0.2 * Mean(GigabytesOf(), nodes) + 20.0 * Mean(DiskOf(), nodes) + 20.0
  {
    var average, f := AverageShards(nodes), LoadOf(DEFAULT_STRATEGY, nodes);
    var c := 20.0 / average;
    var g := ShardPartOf(c);
    forall n | n in nodes
      ensures f(n) == 0.4 * CpuOf()(n) + 0.2 * GigabytesOf()(n) + 20.0 * DiskOf()(n) + g(n)
    {
      ShardPart(n.metrics.shardCount as real, average, c);
    }
    ScoreSum(f, g, nodes);
    MeanTimesCount(ShardsOf(), nodes);
    ShardPartAveragesTwenty(nodes, average, c, |nodes| as real);
    QuotientOfSum(SumBy(f, nodes), SumBy(CpuOf(), nodes), SumBy(GigabytesOf(), nodes), SumBy(DiskOf(), nodes), |nodes| as real);
  }

  lemma ShardPart(shards: real, average: real, c: real)
    requires average > 0.0 && c == 20.0 / average
    ensures 0.2 * (shards / average) * 100.0 == c * shards
  {
    var q := shards / average;
    assert q * average == shards && c * average == 20.0;
    assert c * shards == c * average * q;
  }

  lemma QuotientOfSum(total: real, a: real, b: real, d: real, n: real)
    requires n > 0.0 && total == 0.4 * a + 0.2 * b + 20.0 * d + 20.0 * n
    ensures total / n == 0.4 * (a / n) + 0.2 * (b / n) + 20.0 * (d / n) + 20.0
  {
    var x, y, z := a / n, b / n, d / n;
    assert x * n == a && y * n == b && z * n == d;
    var exact, mean := total / n, 0.4 * x + 0.2 * y + 20.0 * z + 20.0;
    assert exact * n == total && mean * n == total;
    if exact < mean {
      ScaleStrict(exact, mean, n);
    } else if exact > mean {
      ScaleStrict(mean, exact, n);
    }
  }

  lemma MeanScoreAtLeastTwenty(nodes: seq<Node>)
    requires nodes != [] && NonNegative(nodes) && AverageShards(nodes) > 0.0
    ensures Mean(LoadOf(DEFAULT_STRATEGY, nodes), nodes) >= 20.0
  {
    MeanScoreDecomposes(nodes);
    NonNegativeMean(CpuOf(), nodes);
    NonNegativeMean(GigabytesOf(), nodes);
    NonNegativeMean(DiskOf(), nodes);
  }

  lemma NonNegativeMean(f: Node -> real, nodes: seq<Node>)
    requires nodes != [] && forall n :: n in nodes ==> f(n) >= 0.0
    ensures Mean(f, nodes) >= 0.0
  {
    ZeroSumOfNonNegatives(f, nodes);
    var s, n := SumBy(f, nodes), |nodes| as real;
    var q := s / n;
    assert q * n == s;
    if q < 0.0 {
      ScaleStrict(q, 0.0, n);
    }
  }

  lemma ImbalanceForcesPlan(nodes: seq<Node>, sorted: seq<Node>, f: Node -> real)
    requires |nodes| >= 2 && multiset(nodes) == multiset(sorted) && Descending(f, sorted)
    requires Mean(f, nodes) >= 20.0 && Exceeds(Mean(f, nodes), Variance(f, nodes), 20.0)
    ensures Plans(DEFAULT_STRATEGY, f, sorted) != []
  {
    assert |sorted| == |multiset(sorted)| == |multiset(nodes)| == |nodes|;
    LoadsBetweenEnds(f, nodes, sorted);
    var hi, lo := f(sorted[0]), f(sorted[|sorted| - 1]);
    VarianceWithinSpread(f, nodes, lo, hi);
    SpreadAboveFour(Mean(f, nodes), Variance(f, nodes), hi - lo);
    TopPairIsPlanned(DEFAULT_STRATEGY, f, sorted);
  }

  /**
   With the default weights, non-negative metrics and at least one shard in the cluster, a
   needed rebalance always yields a plan, in whatever orders the map is visited and equal
   scores are sorted.
   */
  lemma NeededRebalanceIsPlanned(visited: seq<Node>, revisited: seq<Node>, sorted: seq<Node>)
    requires |visited| >= 2 && multiset(visited) == multiset(revisited) == multiset(sorted)
    requires NonNegative(visited) && AverageShards(visited) > 0.0
    requires var f := LoadOf(DEFAULT_STRATEGY, visited);
             Exceeds(Mean(f, visited), Variance(f, visited), ThresholdOf(DEFAULT_STRATEGY))
    requires revisited != [] && Descending(LoadOf(DEFAULT_STRATEGY, revisited), sorted)
    ensures Plans(DEFAULT_STRATEGY, LoadOf(DEFAULT_STRATEGY, revisited), sorted) != []
  {
    VarianceOfPermutation(ShardsOf(), visited, revisited);
    assert LoadOf(DEFAULT_STRATEGY, revisited) == LoadOf(DEFAULT_STRATEGY, visited);
    MeanScoreAtLeastTwenty(visited);
    ImbalanceForcesPlan(visited, sorted, LoadOf(DEFAULT_STRATEGY, visited));
  }

  lemma LoadsBetweenEnds(f: Node -> real, nodes: seq<Node>, sorted: seq<Node>)
    requires multiset(nodes) == multiset(sorted) && sorted != [] && Descending(f, sorted)
    ensures forall n :: n in nodes ==> f(sorted[|sorted| - 1]) <= f(n) <= f(sorted[0])
  {
    forall n | n in nodes ensures f(sorted[|sorted| - 1]) <= f(n) <= f(sorted[0]) {
      assert n in multiset(sorted);
      var k :| 0 <= k < |sorted| && sorted[k] == n;
    }
  }

  /** A planner returns nothing exactly when even the widest gap is below its limit. */
  lemma TopPairIsPlanned(s: Strategy, f: Node -> real, sorted: seq<Node>)
    requires |sorted| >= 2 && Descending(f, sorted)
    ensures var widest := f(sorted[0]) - f(sorted[|sorted| - 1]);
            Plans(s, f, sorted) != [] <==>
            if s.WeightedScore? then widest > 0.1 else if s.CapacityBalance? then widest >= 0.1 else widest >= 20.0
  {
    PlansAreLeadingPairs(s, f, sorted, PairLimit(s, |sorted|));
    assert Gap(f, sorted, 0) == f(sorted[0]) - f(sorted[|sorted| - 1]);
  }

  lemma SpreadAboveFour(mean: real, variance: real, spread: real)
    requires mean >= 20.0 && spread >= 0.0 && variance <= spread * spread
    requires Exceeds(mean, variance, 20.0)
    ensures spread > 4.0
  {
    var m := 20.0 * mean;
    var mm, ss := m * m, spread * spread;
    if m > 400.0 {
      SquareOrder(400.0, m, 400.0 * 400.0, mm);
    }
    if spread < 4.0 {
      SquareOrder(spread, 4.0, ss, 4.0 * 4.0);
    }
  }

  /** Without shards the promise fails: a nearly idle cluster is judged unbalanced but gets no plan. */
  lemma IdleClusterNeedsButPlansNothing()
    ensures exists nodes ::
              && |nodes| == 2 && NonNegative(nodes) && DistinctIds(nodes)
              && (var f := LoadOf(DEFAULT_STRATEGY, nodes);
                  && Exceeds(Mean(f, nodes), Variance(f, nodes), ThresholdOf(DEFAULT_STRATEGY))
                  && Descending(f, nodes)
                  && Plans(DEFAULT_STRATEGY, f, nodes) == [])
  {
    var a := Node("a", NodeMetrics(0.1, 0, 0.0, 0));
    var b := Node("b", NodeMetrics(0.0, 0, 0.0, 0));
    var nodes := [a, b];
    assert nodes[..1] == [a] && [a][..0] == [];
    var g := ShardsOf();
    assert SumBy(g, [a]) == SumBy(g, []) + g(a) == 0.0;
    assert SumBy(g, nodes) == SumBy(g, nodes[..1]) + g(b) == 0.0;
    assert AverageShards(nodes) == 0.0;
    var f := LoadOf(DEFAULT_STRATEGY, nodes);
    assert f(a) == 0.04 && f(b) == 0.0;
    assert SumBy(f, [a]) == SumBy(f, []) + f(a) == 0.04;
    assert SumBy(f, nodes) == 0.04;
    var m := Mean(f, nodes);
    assert m == 0.02;
    var d := SquaredDistance(f, m);
    assert d(a) == 0.0004 && d(b) == 0.0004;
    assert SumBy(d, [a]) == SumBy(d, []) + d(a) == 0.0004;
    assert SumBy(d, nodes) == 0.0008;
    assert Variance(f, nodes) == 0.0004;
    assert Gap(f, nodes, 0) == 0.04;
    assert PairLimit(DEFAULT_STRATEGY, 2) == 1;
    assert PlansUpTo(DEFAULT_STRATEGY, f, nodes, 0) == [];
  }

  /** Scaling every load by a positive factor changes neither the score nor the verdict. */
  lemma VerdictIgnoresScale(f: Node -> real, g: Node -> real, nodes: seq<Node>, c: real, threshold: real)
    requires nodes != [] && c > 0.0 && forall n :: n in nodes ==> g(n) == c * f(n)
    ensures Exceeds(Mean(f, nodes), Variance(f, nodes), threshold)
        <==> Exceeds(Mean(g, nodes), Variance(g, nodes), threshold)
  {
    ScaledLoads(f, g, nodes, c, c * c);
    ScaledTest(Mean(f, nodes), Variance(f, nodes), threshold, c, c * c);
  }

  lemma ScaledTest(mean: real, variance: real, threshold: real, c: real, cc: real)
    requires c > 0.0 && cc == c * c
    ensures Exceeds(mean, variance, threshold) <==> Exceeds(c * mean, cc * variance, threshold)
  {
    ProductPositive(c, c, cc);
    var left, right := variance * 10000.0, threshold * mean * (threshold * mean);
    assert threshold * (c * mean) * (threshold * (c * mean)) == right * cc;
    assert cc * variance * 10000.0 == left * cc;
    if left > right {
      ScaleStrict(right, left, cc);
    } else if left < right {
      ScaleStrict(left, right, cc);
    }
    if mean > 0.0 {
      ScaleStrict(0.0, mean, c);
    } else if mean < 0.0 {
      ScaleStrict(mean, 0.0, c);
    }
  }
}
