/**
 What the handler sends to the state machine: one message per committed command or decodable
 configuration change, plus one per installed snapshot.
 */
module RaftApply {
  import opened Options
  import opened RaftLog

  datatype ConfChange = ConfChange(changeType: nat, nodeId: nat)
  datatype ConfState = ConfState(voters: set<nat>)

  /** The library calls the handler makes; their results are whatever the library returns. */
  datatype Library = Library(unmarshal: Bytes -> Option<ConfChange>, apply: (ConfState, ConfChange) -> ConfState)

  datatype ApplyMsg =
    | Command(command: Bytes, index: Index, term: nat)
    | SnapshotMsg(snapshot: Snapshot)

  /** Which committed entries reach the state machine. */
  predicate Delivered(lib: Library, e: Entry) {
    || (e.kind == EntryNormal && |e.data| > 0)
    || (e.kind == EntryConfChange && lib.unmarshal(e.data).Some?)
  }

  function MessageFor(e: Entry): ApplyMsg {
    Command(e.data, e.index, e.term)
  }

  function Applied(lib: Library, es: seq<Entry>): seq<ApplyMsg> {
    if es == [] then []
    else
      var last := es[|es| - 1];
      Applied(lib, es[..|es| - 1]) + if Delivered(lib, last) then [MessageFor(last)] else []
  }

  /** The membership after the configuration changes among es. */
  function Membership(lib: Library, cs: ConfState, es: seq<Entry>): ConfState {
    if es == [] then cs
    else
      var before := Membership(lib, cs, es[..|es| - 1]);
      var last := es[|es| - 1];
      if last.kind == EntryConfChange && lib.unmarshal(last.data).Some?
      then lib.apply(before, lib.unmarshal(last.data).value)
      else before
  }

  predicate ChangesMembership(lib: Library, es: seq<Entry>) {
    exists k :: 0 <= k < |es| && es[k].kind == EntryConfChange && lib.unmarshal(es[k].data).Some?
  }

  /** The stream of one Ready: the snapshot, if any, comes before the committed entries. */
  function Stream(lib: Library, snap: Snapshot, committed: seq<Entry>): seq<ApplyMsg> {
    (if snap.index == 0 then [] else [SnapshotMsg(snap)]) + Applied(lib, committed)
  }

  /** A Ready's stream is its snapshot message, if it has a snapshot, and then its commands. */
  lemma SnapshotComesFirst(lib: Library, snap: Snapshot, committed: seq<Entry>)
    ensures snap.index != 0 ==> Stream(lib, snap, committed) == [SnapshotMsg(snap)] + Applied(lib, committed)
    ensures snap.index == 0 ==> Stream(lib, snap, committed) == Applied(lib, committed)
  {
    assert [] + Applied(lib, committed) == Applied(lib, committed);
  }

  datatype Delivery = Delivery(snapshot: Snapshot, committed: seq<Entry>)

  function Streams(lib: Library, ds: seq<Delivery>): seq<ApplyMsg> {
    if ds == [] then []
    else Stream(lib, ds[0].snapshot, ds[0].committed) + Streams(lib, ds[1..])
  }

  function AllCommitted(ds: seq<Delivery>): seq<Entry> {
    if ds == [] then [] else ds[0].committed + AllCommitted(ds[1..])
  }

  function Commands(ms: seq<ApplyMsg>): seq<ApplyMsg> {
    if ms == [] then []
    else (if ms[0].Command? then [ms[0]] else []) + Commands(ms[1..])
  }

  /** Only commands, at strictly increasing positions. */
  ghost predicate StrictlyOrdered(ms: seq<ApplyMsg>) {
    && (forall k :: 0 <= k < |ms| ==> ms[k].Command?)
    && forall j, k :: 0 <= j < k < |ms| ==> ms[j].index < ms[k].index
  }

  lemma {:induction false} AppliedConcat(lib: Library, a: seq<Entry>, b: seq<Entry>)
    ensures Applied(lib, a + b) == Applied(lib, a) + Applied(lib, b)
    decreases |b|
  {
    if b == [] {
      assert a + b == a;
    } else {
      AppliedConcat(lib, a, b[..|b| - 1]);
      assert (a + b)[..|a + b| - 1] == a + b[..|b| - 1];
    }
  }

  lemma {:induction false} CommandsConcat(a: seq<ApplyMsg>, b: seq<ApplyMsg>)
    ensures Commands(a + b) == Commands(a) + Commands(b)
  {
    if a == [] {
      assert a + b == b;
    } else {
      var rest, c := a[1..], if a[0].Command? then [a[0]] else [];
      CommandsConcat(rest, b);
      assert (a + b)[0] == a[0] && (a + b)[1..] == rest + b;
      assert Commands(a) == c + Commands(rest) && Commands(a + b) == c + Commands(rest + b);
      assert c + (Commands(rest) + Commands(b)) == c + Commands(rest) + Commands(b);
    }
  }

  lemma {:induction false} AppliedAreCommands(lib: Library, es: seq<Entry>)
    ensures Commands(Applied(lib, es)) == Applied(lib, es)
  {
    if es != [] {
      var front, last := es[..|es| - 1], es[|es| - 1];
      AppliedAreCommands(lib, front);
      CommandsConcat(Applied(lib, front), if Delivered(lib, last) then [MessageFor(last)] else []);
    }
  }

  /** However the committed entries are cut into Readys, the commands sent are the same. */
  lemma {:induction false} CommandsIndependentOfReadys(lib: Library, ds: seq<Delivery>)
    ensures Commands(Streams(lib, ds)) == Applied(lib, AllCommitted(ds))
  {
    if ds != [] {
      CommandsIndependentOfReadys(lib, ds[1..]);
      var snapPart: seq<ApplyMsg> := if ds[0].snapshot.index == 0 then [] else [SnapshotMsg(ds[0].snapshot)];
      var head := Applied(lib, ds[0].committed);
      assert Commands(snapPart) == [];
      CommandsConcat(snapPart, head);
      AppliedAreCommands(lib, ds[0].committed);
      CommandsConcat(snapPart + head, Streams(lib, ds[1..]));
      AppliedConcat(lib, ds[0].committed, AllCommitted(ds[1..]));
    }
  }

  /** What one more committed entry adds. */
  lemma OneMoreCommitted(lib: Library, cs: ConfState, es: seq<Entry>, e: Entry)
    ensures Applied(lib, es + [e]) == Applied(lib, es) + if Delivered(lib, e) then [MessageFor(e)] else []
    ensures var decodes := e.kind == EntryConfChange && lib.unmarshal(e.data).Some?;
            && Membership(lib, cs, es + [e]) == (if decodes then lib.apply(Membership(lib, cs, es), lib.unmarshal(e.data).value)
                                                 else Membership(lib, cs, es))
            && (ChangesMembership(lib, es + [e]) <==> ChangesMembership(lib, es) || decodes)
  {
    var all := es + [e];
    assert all[..|all| - 1] == es && all[|es|] == e;
    assert forall k :: 0 <= k < |es| ==> all[k] == es[k];
    if k :| 0 <= k < |es| && es[k].kind == EntryConfChange && lib.unmarshal(es[k].data).Some? {
      assert all[k].kind == EntryConfChange && lib.unmarshal(all[k].data).Some?;
    }
  }

  /** A message is sent exactly for a non-empty normal entry or a configuration change that decodes. */
  lemma {:induction false} AppliedAreTheCommitted(lib: Library, es: seq<Entry>)
    ensures forall m :: m in Applied(lib, es) <==>
              exists k :: 0 <= k < |es| && m == Command(es[k].data, es[k].index, es[k].term)
                          && ((es[k].kind == EntryNormal && es[k].data != [])
                              || (es[k].kind == EntryConfChange && lib.unmarshal(es[k].data).Some?))
  {
    if es != [] {
      var n := |es| - 1;
      var front, last := es[..n], es[n];
      AppliedAreTheCommitted(lib, front);
      forall m ensures m in Applied(lib, es) <==>
                exists k :: 0 <= k < |es| && m == Command(es[k].data, es[k].index, es[k].term)
                            && ((es[k].kind == EntryNormal && es[k].data != [])
                                || (es[k].kind == EntryConfChange && lib.unmarshal(es[k].data).Some?))
      {
        assert forall k :: 0 <= k < n ==> front[k] == es[k];
        if m in Applied(lib, front) {
          var k :| 0 <= k < n && m == Command(front[k].data, front[k].index, front[k].term)
                   && ((front[k].kind == EntryNormal && front[k].data != [])
                       || (front[k].kind == EntryConfChange && lib.unmarshal(front[k].data).Some?));
          assert es[k] == front[k];
        } else if m in Applied(lib, es) {
          assert m == Command(es[n].data, es[n].index, es[n].term);
        }
      }
    }
  }

  /** Exactly those entries appear, and positions strictly increase, so each appears once. */
  lemma {:induction false} AppliedExactlyOnceInOrder(lib: Library, es: seq<Entry>)
    requires Contiguous(es)
    ensures forall m :: m in Applied(lib, es) <==>
              exists k :: 0 <= k < |es| && m == Command(es[k].data, es[k].index, es[k].term)
                          && ((es[k].kind == EntryNormal && es[k].data != [])
                              || (es[k].kind == EntryConfChange && lib.unmarshal(es[k].data).Some?))
    ensures StrictlyOrdered(Applied(lib, es))
    ensures forall m :: m in Applied(lib, es) ==> m.Command? && m.index < es[0].index + |es|
  {
    AppliedAreTheCommitted(lib, es);
    AppliedInOrder(lib, es);
  }

  lemma {:induction false} AppliedInOrder(lib: Library, es: seq<Entry>)
    requires Contiguous(es)
    ensures StrictlyOrdered(Applied(lib, es))
    ensures forall m :: m in Applied(lib, es) ==> m.Command? && m.index < es[0].index + |es|
  {
    if es != [] {
      var front, last := es[..|es| - 1], es[|es| - 1];
      AppliedInOrder(lib, front);
      assert last.index == es[0].index + |es| - 1;
      if front != [] {
        assert front[0] == es[0];
      }
      OneMoreInOrder(Applied(lib, front), MessageFor(last));
    }
  }

  /**
   The membership after some entries: the given one, with one call of the library for each
   configuration change that decodes, in order, each on what the one before returned.
   */
  lemma {:induction false} MembershipFollowsChanges(lib: Library, cs: ConfState, es: seq<Entry>)
    returns (at: seq<nat>, states: seq<ConfState>)
    ensures |states| == |at| + 1 && states[0] == cs && states[|at|] == Membership(lib, cs, es)
    ensures forall i :: 0 <= i < |at| ==>
              && at[i] < |es| && es[at[i]].kind == EntryConfChange && lib.unmarshal(es[at[i]].data).Some?
              && states[i + 1] == lib.apply(states[i], lib.unmarshal(es[at[i]].data).value)
    ensures forall i, j :: 0 <= i < j < |at| ==> at[i] < at[j]
    ensures forall k :: 0 <= k < |es| && es[k].kind == EntryConfChange && lib.unmarshal(es[k].data).Some? ==> k in at
    ensures ChangesMembership(lib, es) <==> at != []
  {
    if es == [] {
      at, states := [], [cs];
    } else {
      var n := |es| - 1;
      var front, last := es[..n], es[n];
      at, states := MembershipFollowsChanges(lib, cs, front);
      assert es == front + [last];
      OneMoreCommitted(lib, cs, front, last);
      if last.kind == EntryConfChange && lib.unmarshal(last.data).Some? {
        at, states := at + [n], states + [Membership(lib, cs, es)];
      }
    }
  }

  lemma OneMoreInOrder(ms: seq<ApplyMsg>, m: ApplyMsg)
    requires StrictlyOrdered(ms) && m.Command? && forall n :: n in ms ==> n.Command? && n.index < m.index
    ensures StrictlyOrdered(ms + [m])
  {
    forall k | 0 <= k < |ms| ensures ms[k].index < m.index {
      assert ms[k] in ms;
    }
  }

  /** Two nodes whose committed logs are prefix-related apply prefix-related streams. */
  lemma PrefixLogsGivePrefixStreams(lib: Library, shorter: seq<Entry>, longer: seq<Entry>)
    requires shorter <= longer
    ensures Applied(lib, shorter) <= Applied(lib, longer)
  {
    AppliedConcat(lib, shorter, longer[|shorter|..]);
    assert longer == shorter + longer[|shorter|..];
  }

  /**
   State-machine safety over whole runs: whatever Readys two nodes see, if one committed log
   extends the other then so do the commands they applied.
   */
  lemma NodesApplyTheSameCommands(lib: Library, a: seq<Delivery>, b: seq<Delivery>)
    requires Contiguous(AllCommitted(b)) && AllCommitted(a) <= AllCommitted(b)
    ensures Commands(Streams(lib, a)) <= Commands(Streams(lib, b))
    ensures StrictlyOrdered(Commands(Streams(lib, b)))
  {
    CommandsIndependentOfReadys(lib, a);
    CommandsIndependentOfReadys(lib, b);
    PrefixLogsGivePrefixStreams(lib, AllCommitted(a), AllCommitted(b));
    AppliedExactlyOnceInOrder(lib, AllCommitted(b));
  }
}
