/**
 The replicated log as values: what one Ready does to the stored entries, and the
 index-to-entry map those entries stand for.
 */
module RaftLog {
  import opened Options

  const TWO63: int := 0x8000_0000_0000_0000
  const TWO64: int := 0x1_0000_0000_0000_0000

  type Byte = b: int | 0 <= b < 256
  type Bytes = seq<Byte>

  // Log positions are uint64 in the program; positions of 2^63 and more are out of scope.
  type Index = i: int | 0 <= i < TWO63

  datatype EntryKind = EntryNormal | EntryConfChange | EntryConfChangeV2
  datatype Entry = Entry(index: Index, term: nat, kind: EntryKind, data: Bytes)
  datatype Snapshot = Snapshot(index: Index, term: nat, data: Bytes)
  datatype Log = Log(entries: seq<Entry>, snapshot: Snapshot)

  ghost predicate Contiguous(es: seq<Entry>) {
    forall k :: 0 <= k < |es| ==> es[k].index == es[0].index + k
  }

  /** The storage invariant: stored entries are contiguous and start right above the snapshot. */
  ghost predicate WellFormed(log: Log) {
    && Contiguous(log.entries)
    && (log.entries != [] ==> log.entries[0].index == log.snapshot.index + 1)
  }

  /** What the library sees as the last position. */
  function LastIndex(log: Log): nat {
    if log.entries == [] then log.snapshot.index else log.entries[|log.entries| - 1].index
  }

  /** uint64 subtraction followed by conversion to int, as the handler computes its offset. */
  function WrappedOffset(firstNew: Index, firstStored: Index): int {
    var difference := (firstNew - firstStored) % TWO64;
    if difference >= TWO63 then difference - TWO64 else difference
  }

  lemma OffsetIsDifference(firstNew: Index, firstStored: Index)
    ensures WrappedOffset(firstNew, firstStored) == firstNew - firstStored
  {
    if firstNew < firstStored {
      assert (firstNew - firstStored) % TWO64 == firstNew - firstStored + TWO64;
    }
  }

  /** The four-way branch of the handler; None is the "raft log has gap" panic. */
  function StoreEntries(stored: seq<Entry>, incoming: seq<Entry>): Option<seq<Entry>> {
    if incoming == [] then Some(stored)
    else if stored == [] then Some(incoming)
    else
      var offset := WrappedOffset(incoming[0].index, stored[0].index);
      if offset < 0 then Some(incoming)
      else if offset < |stored| then Some(stored[..offset] + incoming)
      else if offset == |stored| then Some(stored + incoming)
      else None
  }

  /** The entries that outlive a snapshot at position s, in order. */
  function Above(es: seq<Entry>, s: Index): seq<Entry> {
    if es == [] then []
    else
      var last := es[|es| - 1];
      Above(es[..|es| - 1], s) + if last.index > s then [last] else []
  }

  /** Effect of one Ready on the log: entries are stored first, the snapshot is installed second. */
  function Handle(log: Log, incoming: seq<Entry>, snap: Snapshot): Option<Log> {
    match StoreEntries(log.entries, incoming)
    case None => None
    case Some(es) =>
      // An index of zero marks the empty snapshot.
      if snap.index == 0 then Some(Log(es, log.snapshot))
      else Some(Log(Above(es, snap.index), snap))
  }

  // ---------- The map a log stands for ----------

  /** The position an index has inside a contiguous run of entries. */
  ghost predicate Within(es: seq<Entry>, i: int) {
    es != [] && es[0].index <= i < es[0].index + |es|
  }

  ghost function At(es: seq<Entry>, i: int): Entry
    requires Within(es, i)
  {
    es[i - es[0].index]
  }

  ghost function View(es: seq<Entry>): (m: map<int, Entry>)
    requires Contiguous(es)
    ensures forall i :: i in m <==> Within(es, i)
    ensures forall i :: i in m ==> m[i] == At(es, i)
  {
    if es == [] then map[]
    else
      var first := es[0].index;
      map i | first <= i < first + |es| && Within(es, i) :: At(es, i)
  }

  /** A slice of the stored entries is the map's content at the positions it covers. */
  lemma SliceIsView(log: Log, lo: nat, hi: nat)
    requires WellFormed(log) && log.snapshot.index < lo <= hi <= LastIndex(log) + 1 && log.entries != []
    ensures LastIndex(log) == log.snapshot.index + |log.entries|
    ensures var range := log.entries[lo - log.snapshot.index - 1..hi - log.snapshot.index - 1];
            && |range| == hi - lo
            && forall i :: lo <= i < hi ==> i in View(log.entries) && View(log.entries)[i] == range[i - lo]
  {
    var es := log.entries;
    assert es[|es| - 1].index == es[0].index + |es| - 1;
    var range := es[lo - log.snapshot.index - 1..hi - log.snapshot.index - 1];
    forall i | lo <= i < hi ensures i in View(es) && View(es)[i] == range[i - lo] {
      assert Within(es, i);
      assert At(es, i) == es[i - es[0].index];
    }
  }

  /** The map holds exactly the stored entries, each under its own index. */
  lemma ViewIsMembership(es: seq<Entry>, e: Entry)
    requires Contiguous(es)
    ensures e in es <==> e.index in View(es) && View(es)[e.index] == e
  {
    if e in es {
      var k :| 0 <= k < |es| && es[k] == e;
      assert es[k].index == es[0].index + k;
      assert At(es, e.index) == es[k];
    }
  }

  /** Raft's rule for new entries: keep what is below them, install them, drop what is above. */
  ghost function Overwrite(m: map<int, Entry>, incoming: seq<Entry>): map<int, Entry>
    requires Contiguous(incoming)
  {
    if incoming == [] then m
    else (map i | i in m && i < incoming[0].index :: m[i]) + View(incoming)
  }

  /** Log compaction: a snapshot drops exactly the positions up to its own. */
  ghost function Compact(m: map<int, Entry>, s: Index): map<int, Entry> {
    if s == 0 then m else map i | i in m && i > s :: m[i]
  }

  lemma {:induction false} AboveIsSuffix(es: seq<Entry>, s: Index)
    requires Contiguous(es)
    ensures Above(es, s) == if es == [] || s < es[0].index then es
                            else if s < es[0].index + |es| - 1 then es[s + 1 - es[0].index..]
                            else []
  {
    if es != [] {
      var front, last := es[..|es| - 1], es[|es| - 1];
      AboveIsSuffix(front, s);
      assert last.index == es[0].index + |es| - 1;
      assert es == front + [last];
      if es[0].index <= s < last.index {
        SuffixSnoc(front, last, s + 1 - es[0].index);
      }
    }
  }

  lemma SuffixSnoc(front: seq<Entry>, last: Entry, n: nat)
    requires n <= |front|
    ensures (front + [last])[n..] == front[n..] + [last]
  {
  }

  lemma SuffixIsContiguous(es: seq<Entry>, n: nat)
    requires Contiguous(es) && n <= |es|
    ensures Contiguous(es[n..])
  {
    forall k | 0 <= k < |es[n..]| ensures es[n..][k].index == es[n..][0].index + k {
      assert es[n..][k] == es[n + k] && es[n..][0] == es[n];
    }
  }

  /** A Ready panics exactly when its entries leave a gap above a non-empty log. */
  lemma PanicsExactlyOnGap(log: Log, incoming: seq<Entry>, snap: Snapshot)
    requires WellFormed(log)
    ensures Handle(log, incoming, snap) == None
        <==> log.entries != [] && incoming != [] && incoming[0].index > LastIndex(log) + 1
  {
    if log.entries != [] && incoming != [] {
      OffsetIsDifference(incoming[0].index, log.entries[0].index);
    }
  }

  lemma StoreRefines(log: Log, incoming: seq<Entry>)
    requires WellFormed(log) && Contiguous(incoming)
    requires incoming != [] && log.entries != [] ==>
               log.snapshot.index < incoming[0].index <= LastIndex(log) + 1
    ensures StoreEntries(log.entries, incoming).Some?
    ensures var es := StoreEntries(log.entries, incoming).value;
            && Contiguous(es)
            && View(es) == Overwrite(View(log.entries), incoming)
            && (log.entries != [] ==> es != [] && es[0].index == log.snapshot.index + 1)
            && (incoming != [] ==> es != [] && es[|es| - 1] == incoming[|incoming| - 1])
  {
    if incoming != [] && log.entries != [] {
      StoreSplices(log, incoming);
      SpliceRefines(log.entries, incoming, incoming[0].index - log.entries[0].index);
    }
  }

  lemma StoreSplices(log: Log, incoming: seq<Entry>)
    requires WellFormed(log) && incoming != [] && log.entries != []
    requires log.snapshot.index < incoming[0].index <= LastIndex(log) + 1
    ensures 0 <= incoming[0].index - log.entries[0].index <= |log.entries|
    ensures StoreEntries(log.entries, incoming)
            == Some(log.entries[..incoming[0].index - log.entries[0].index] + incoming)
  {
    var stored := log.entries;
    OffsetIsDifference(incoming[0].index, stored[0].index);
    assert stored[|stored| - 1].index == stored[0].index + |stored| - 1;
    assert stored[..|stored|] == stored;
  }

  lemma SpliceIsContiguous(stored: seq<Entry>, incoming: seq<Entry>, offset: nat)
    requires Contiguous(stored) && Contiguous(incoming) && incoming != []
    requires offset <= |stored| && stored != [] && incoming[0].index == stored[0].index + offset
    ensures var es := stored[..offset] + incoming;
            Contiguous(es) && es[0].index == stored[0].index
  {
    var es := stored[..offset] + incoming;
    forall k | 0 <= k < |es| ensures es[k].index == stored[0].index + k {
      assert es[k] == if k < offset then stored[k] else incoming[k - offset];
    }
  }

  lemma SpliceRefines(stored: seq<Entry>, incoming: seq<Entry>, offset: nat)
    requires Contiguous(stored) && Contiguous(incoming) && incoming != []
    requires offset <= |stored| && stored != [] && incoming[0].index == stored[0].index + offset
    ensures var es := stored[..offset] + incoming;
            && Contiguous(es)
            && es[0].index == stored[0].index
            && View(es) == Overwrite(View(stored), incoming)
  {
    var es := stored[..offset] + incoming;
    SpliceIsContiguous(stored, incoming, offset);
    var m := Overwrite(View(stored), incoming);
    forall i ensures i in View(es) <==> i in m {
      assert Within(es, i) <==> (Within(stored, i) && i < incoming[0].index) || Within(incoming, i);
    }
    forall i | i in View(es) ensures View(es)[i] == m[i] {
      if i < incoming[0].index {
        assert At(es, i) == At(stored, i);
      } else {
        assert At(es, i) == At(incoming, i);
      }
    }
  }

  lemma CompactRefines(es: seq<Entry>, s: Index)
    requires Contiguous(es) && s != 0
    requires es != [] ==> es[0].index <= s + 1
    ensures Contiguous(Above(es, s))
    ensures Above(es, s) != [] ==> Above(es, s)[0].index == s + 1
    ensures View(Above(es, s)) == Compact(View(es), s)
  {
    AboveIsSuffix(es, s);
    if es != [] && s < es[0].index + |es| - 1 && es[0].index <= s {
      SuffixView(es, s + 1 - es[0].index);
    } else {
      WholeView(es, s);
    }
  }

  lemma WholeView(es: seq<Entry>, s: Index)
    requires Contiguous(es) && s != 0
    ensures es == [] || s < es[0].index ==> Compact(View(es), s) == View(es)
    ensures es != [] && es[0].index + |es| - 1 <= s ==> Compact(View(es), s) == View([])
  {
  }

  lemma SuffixView(es: seq<Entry>, n: nat)
    requires Contiguous(es) && 0 < n < |es| && es[n].index > 1
    ensures Contiguous(es[n..]) && es[n].index == es[0].index + n
    ensures View(es[n..]) == Compact(View(es), es[n].index - 1)
  {
    SuffixIsContiguous(es, n);
    var rest := es[n..];
    assert rest[0] == es[n];
    forall i | Within(rest, i) ensures At(rest, i) == At(es, i) {}
    var m, c := View(rest), Compact(View(es), es[n].index - 1);
    assert forall i :: i in m <==> i in c;
  }

  // ---------- Runs of Readys ----------

  datatype LogUpdate = LogUpdate(entries: seq<Entry>, snapshot: Snapshot)

  /** What the storage relies on the library for. */
  ghost predicate Supplied(log: Log, u: LogUpdate) {
    && Contiguous(u.entries)
    && (u.entries != [] ==> log.snapshot.index < u.entries[0].index <= LastIndex(log) + 1)
    && (u.snapshot.index != 0 ==> log.snapshot.index <= u.snapshot.index)
  }

  function Run(log: Log, updates: seq<LogUpdate>): Option<Log>
    decreases |updates|
  {
    if updates == [] then Some(log)
    else
      match Handle(log, updates[0].entries, updates[0].snapshot)
      case None => None
      case Some(next) => Run(next, updates[1..])
  }

  ghost predicate RunSupplied(log: Log, updates: seq<LogUpdate>)
    decreases |updates|
  {
    updates == [] ||
    (&& Supplied(log, updates[0])
     && match Handle(log, updates[0].entries, updates[0].snapshot)
        case None => true
        case Some(next) => RunSupplied(next, updates[1..]))
  }

  /** The same run on the index-to-entry map alone. */
  ghost function MapRun(m: map<int, Entry>, updates: seq<LogUpdate>): map<int, Entry>
    requires forall u :: u in updates ==> Contiguous(u.entries)
    decreases |updates|
  {
    if updates == [] then m
    else MapRun(Compact(Overwrite(m, updates[0].entries), updates[0].snapshot.index), updates[1..])
  }

  lemma StepRefines(log: Log, u: LogUpdate)
    requires WellFormed(log) && Supplied(log, u)
    ensures var next := Handle(log, u.entries, u.snapshot);
            && next.Some?
            && WellFormed(next.value)
            && View(next.value.entries) == Compact(Overwrite(View(log.entries), u.entries), u.snapshot.index)
            && next.value.snapshot == (if u.snapshot.index == 0 then log.snapshot else u.snapshot)
  {
    StoreRefines(log, u.entries);
    if u.snapshot.index != 0 {
      CompactRefines(StoreEntries(log.entries, u.entries).value, u.snapshot.index);
    }
  }

  /**
   One supplied Ready in terms of entries alone: what was stored below the first new entry
   stays, what was stored from there on goes, the new ones are in; then whatever the snapshot
   covers goes.
   */
  lemma ReadyOnEntries(log: Log, u: LogUpdate, e: Entry)
    requires WellFormed(log) && Supplied(log, u)
    ensures Handle(log, u.entries, u.snapshot).Some?
    ensures e in Handle(log, u.entries, u.snapshot).value.entries
        <==> && ((e in log.entries && (u.entries != [] ==> e.index < u.entries[0].index)) || e in u.entries)
             && (u.snapshot.index != 0 ==> e.index > u.snapshot.index)
  {
    StepRefines(log, u);
    var next := Handle(log, u.entries, u.snapshot).value;
    ViewIsMembership(next.entries, e);
    ViewIsMembership(log.entries, e);
    ViewIsMembership(u.entries, e);
    if e in log.entries && u.entries != [] && e.index < u.entries[0].index {
      assert !Within(u.entries, e.index);
    }
  }

  /**
   Over every run the library supplies, the gap panic is never reached, the stored entries
   stay contiguous above the snapshot, and they hold exactly what the map run holds.
   */
  lemma {:induction false} RunRefinesMap(log: Log, updates: seq<LogUpdate>)
    requires WellFormed(log) && RunSupplied(log, updates)
    ensures forall u :: u in updates ==> Contiguous(u.entries)
    ensures Run(log, updates).Some?
    ensures WellFormed(Run(log, updates).value)
    ensures View(Run(log, updates).value.entries) == MapRun(View(log.entries), updates)
    decreases |updates|
  {
    if updates != [] {
      StepRefines(log, updates[0]);
      RunRefinesMap(Handle(log, updates[0].entries, updates[0].snapshot).value, updates[1..]);
      assert updates == [updates[0]] + updates[1..];
    }
  }

  ghost predicate LastInstalled(updates: seq<LogUpdate>, k: int) {
    && 0 <= k < |updates| && updates[k].snapshot.index != 0
    && forall j :: k < j < |updates| ==> updates[j].snapshot.index == 0
  }

  /** After every supplied run the storage holds the last snapshot installed, which is also the furthest. */
  lemma {:induction false} SnapshotIsLastInstalled(log: Log, updates: seq<LogUpdate>)
    requires WellFormed(log) && RunSupplied(log, updates)
    ensures Run(log, updates).Some?
    ensures var s := Run(log, updates).value.snapshot;
            && log.snapshot.index <= s.index
            && (forall u :: u in updates ==> u.snapshot.index <= s.index)
            && ((forall u :: u in updates ==> u.snapshot.index == 0) ==> s == log.snapshot)
            && forall k :: LastInstalled(updates, k) ==> s == updates[k].snapshot
    decreases |updates|
  {
    if updates != [] {
      var u, rest := updates[0], updates[1..];
      StepRefines(log, u);
      var next := Handle(log, u.entries, u.snapshot).value;
      SnapshotIsLastInstalled(next, rest);
      assert updates == [u] + rest;
      var s := Run(next, rest).value.snapshot;
      forall k | LastInstalled(updates, k) ensures s == updates[k].snapshot {
        LastInstalledAfterFirst(u, rest, k);
      }
    }
  }

  lemma LastInstalledAfterFirst(u: LogUpdate, rest: seq<LogUpdate>, k: int)
    requires LastInstalled([u] + rest, k)
    ensures if k == 0 then forall v :: v in rest ==> v.snapshot.index == 0 else LastInstalled(rest, k - 1)
  {
    var all := [u] + rest;
    assert forall j :: 0 <= j < |rest| ==> rest[j] == all[j + 1];
  }

  /** Without the assumption, entries that start before the whole log replace it. */
  lemma EarlierEntriesReplaceLog(stored: seq<Entry>, incoming: seq<Entry>)
    requires stored != [] && incoming != [] && incoming[0].index < stored[0].index
    ensures StoreEntries(stored, incoming) == Some(incoming)
  {
    OffsetIsDifference(incoming[0].index, stored[0].index);
  }

  /** The branch for entries older than the whole log is dead under the same assumption. */
  lemma EarlierBranchIsDead(log: Log, u: LogUpdate)
    requires WellFormed(log) && Supplied(log, u) && log.entries != [] && u.entries != []
    ensures 0 <= WrappedOffset(u.entries[0].index, log.entries[0].index) <= |log.entries|
  {
    OffsetIsDifference(u.entries[0].index, log.entries[0].index);
  }

  // ---------- Readys that carry a snapshot and the entries after it ----------

  /** The shape the library promises: entries follow the snapshot of the same Ready. */
  ghost predicate SnapshotFirst(log: Log, u: LogUpdate) {
    && Contiguous(u.entries)
    && u.snapshot.index > log.snapshot.index
    && (u.entries != [] ==> u.entries[0].index == u.snapshot.index + 1)
  }

  /**
   The handler stores entries before the snapshot. That is harmless, and leaves exactly the
   new entries, unless the snapshot jumps past a non-empty log: then, and only then, it panics.
   */
  lemma SnapshotReadyOutcome(log: Log, u: LogUpdate)
    requires WellFormed(log) && SnapshotFirst(log, u) && u.entries != []
    ensures Handle(log, u.entries, u.snapshot) == None
        <==> log.entries != [] && u.snapshot.index > LastIndex(log)
    ensures Handle(log, u.entries, u.snapshot).Some? ==>
              Handle(log, u.entries, u.snapshot).value == Log(u.entries, u.snapshot)
  {
    PanicsExactlyOnGap(log, u.entries, u.snapshot);
    if log.entries == [] || u.snapshot.index <= LastIndex(log) {
      StoreRefines(log, u.entries);
      var es := StoreEntries(log.entries, u.entries).value;
      if log.entries != [] {
        OffsetIsDifference(u.entries[0].index, log.entries[0].index);
        assert es == log.entries[..u.entries[0].index - log.entries[0].index] + u.entries;
      }
      AboveIsSuffix(es, u.snapshot.index);
    }
  }

  /** Either kind of Ready: entries that continue the log, or that follow the Ready's own snapshot. */
  ghost predicate Permitted(log: Log, u: LogUpdate) {
    Supplied(log, u) || SnapshotFirst(log, u)
  }

  /** The snapshot jumps past the end of a non-empty log, with entries after it. */
  predicate JumpsPast(log: Log, u: LogUpdate) {
    log.entries != [] && u.entries != [] && u.snapshot.index > LastIndex(log) && u.entries[0].index == u.snapshot.index + 1
  }

  ghost predicate RunPermitted(log: Log, updates: seq<LogUpdate>)
    decreases |updates|
  {
    updates == [] ||
    (&& Permitted(log, updates[0])
     && match Handle(log, updates[0].entries, updates[0].snapshot)
        case None => true
        case Some(next) => RunPermitted(next, updates[1..]))
  }

  /** Some Ready of the run meets a log that its snapshot jumps past. */
  ghost predicate MeetsJump(log: Log, updates: seq<LogUpdate>)
    decreases |updates|
  {
    updates != [] &&
    (JumpsPast(log, updates[0]) ||
     match Handle(log, updates[0].entries, updates[0].snapshot)
     case None => false
     case Some(next) => MeetsJump(next, updates[1..]))
  }

  lemma PermittedOutcome(log: Log, u: LogUpdate)
    requires WellFormed(log) && Permitted(log, u)
    ensures var next := Handle(log, u.entries, u.snapshot);
            && (next == None <==> JumpsPast(log, u))
            && (next.Some? ==>
                  && WellFormed(next.value)
                  && View(next.value.entries) == Compact(Overwrite(View(log.entries), u.entries), u.snapshot.index))
  {
    if Supplied(log, u) {
      StepRefines(log, u);
    } else if u.entries == [] {
      StepRefines(log, LogUpdate([], u.snapshot));
    } else {
      SnapshotReadyOutcome(log, u);
      assert Handle(log, u.entries, u.snapshot).Some? ==>
          View(u.entries) == Compact(Overwrite(View(log.entries), u.entries), u.snapshot.index);
    }
  }

  /**
   Over every run of both kinds of Readys: the handler panics exactly if some snapshot with
   entries jumps past a log that is not empty; otherwise the log ends contiguous above its
   snapshot and holds exactly what the map run holds.
   */
  lemma {:induction false} RunOutcome(log: Log, updates: seq<LogUpdate>)
    requires WellFormed(log) && RunPermitted(log, updates)
    ensures Run(log, updates) == None <==> MeetsJump(log, updates)
    ensures Run(log, updates).Some? ==>
              && WellFormed(Run(log, updates).value)
              && (forall u :: u in updates ==> Contiguous(u.entries))
              && View(Run(log, updates).value.entries) == MapRun(View(log.entries), updates)
    decreases |updates|
  {
    if updates != [] {
      var u, rest := updates[0], updates[1..];
      PermittedOutcome(log, u);
      assert updates == [u] + rest;
      var next := Handle(log, u.entries, u.snapshot);
      if next.Some? {
        RunOutcome(next.value, rest);
      }
    }
  }

  /** A follower at position 1 that receives a snapshot at 3 together with entry 4 panics. */
  lemma SnapshotPastLogPanics()
    ensures exists log, u ::
              && WellFormed(log)
              && SnapshotFirst(log, u)
              && Handle(log, u.entries, u.snapshot) == None
  {
    var log := Log([Entry(1, 1, EntryNormal, [])], Snapshot(0, 0, []));
    var u := LogUpdate([Entry(4, 2, EntryNormal, [])], Snapshot(3, 2, []));
    SnapshotReadyOutcome(log, u);
  }

  // ---------- Pages of entries ----------

  function Payload(es: seq<Entry>): nat {
    if es == [] then 0 else Payload(es[..|es| - 1]) + |es[|es| - 1].data|
  }

  /** A page is a prefix: never empty for a non-empty range, over the limit only if a single entry. */
  ghost predicate IsPage(range: seq<Entry>, page: seq<Entry>, maxSize: nat) {
    && page <= range
    && (range != [] ==> page != [])
    && (|page| > 1 ==> Payload(page) <= maxSize)
    && (|page| < |range| ==> Payload(range[..|page| + 1]) > maxSize)
  }

  lemma {:induction false} PayloadMonotone(es: seq<Entry>, n: nat, m: nat)
    requires n <= m <= |es|
    ensures Payload(es[..n]) <= Payload(es[..m])
    decreases m
  {
    if n < m {
      PayloadMonotone(es, n, m - 1);
      assert es[..m][..m - 1] == es[..m - 1];
    }
  }

  /** What a payload is: the bytes of the entries added up. */
  lemma {:induction false} PayloadAdds(a: seq<Entry>, b: seq<Entry>)
    ensures Payload([]) == 0
    ensures forall e: Entry :: Payload([e]) == |e.data|
    ensures Payload(a + b) == Payload(a) + Payload(b)
    decreases |b|
  {
    forall e: Entry ensures Payload([e]) == |e.data| {
      assert [e][..0] == [];
    }
    if b == [] {
      assert a + b == a;
    } else {
      PayloadAdds(a, b[..|b| - 1]);
      assert (a + b)[..|a + b| - 1] == a + b[..|b| - 1];
    }
  }

  /**
   A page is a prefix of its range, more than one entry only if they fit, never empty for a
   non-empty range, and no longer prefix fits: so range and limit determine it.
   */
  lemma PageIsLongest(range: seq<Entry>, page: seq<Entry>, maxSize: nat)
    requires IsPage(range, page, maxSize)
    ensures page <= range && (range != [] ==> page != [])
    ensures |page| > 1 ==> Payload(page) <= maxSize
    ensures forall n :: |page| < n <= |range| ==> Payload(range[..n]) > maxSize
  {
    forall n | |page| < n <= |range| ensures Payload(range[..n]) > maxSize {
      PayloadMonotone(range, |page| + 1, n);
    }
  }

  function Concat(pages: seq<seq<Entry>>): seq<Entry> {
    if pages == [] then [] else Concat(pages[..|pages| - 1]) + pages[|pages| - 1]
  }

  /** Pages of a range, each asked for where the ones before it stopped. */
  ghost predicate Paged(range: seq<Entry>, pages: seq<seq<Entry>>, maxSize: nat) {
    pages == [] ||
    (var front, page := pages[..|pages| - 1], pages[|pages| - 1];
     var start := |Concat(front)|;
     Paged(range, front, maxSize) && start < |range| && IsPage(range[start..], page, maxSize))
  }

  /** However they are cut, pages reassemble the part of the range they cover, with at most one page per entry. */
  lemma {:induction false} PagesReassemble(range: seq<Entry>, pages: seq<seq<Entry>>, maxSize: nat)
    requires Paged(range, pages, maxSize)
    ensures |pages| <= |Concat(pages)| <= |range|
    ensures Concat(pages) <= range
  {
    if pages != [] {
      var front, page := pages[..|pages| - 1], pages[|pages| - 1];
      PagesReassemble(range, front, maxSize);
      PrefixesJoin(range, Concat(front), page);
    }
  }

  lemma PrefixesJoin(range: seq<Entry>, a: seq<Entry>, b: seq<Entry>)
    requires a <= range && b <= range[|a|..]
    ensures a + b <= range
  {
  }

  lemma OneMorePage(range: seq<Entry>, pages: seq<seq<Entry>>, maxSize: nat, page: seq<Entry>)
    requires Paged(range, pages, maxSize)
    requires |Concat(pages)| < |range| && IsPage(range[|Concat(pages)|..], page, maxSize)
    ensures Paged(range, pages + [page], maxSize)
    ensures Concat(pages + [page]) == Concat(pages) + page
  {
    var more := pages + [page];
    assert more[..|more| - 1] == pages && more[|more| - 1] == page;
  }
}
