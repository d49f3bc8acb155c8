/** The in-memory storage and the Ready handler, in place. */
module RaftNode {
  import opened Options
  import opened RaftLog
  import opened RaftApply

  datatype HardState = HardState(term: nat, vote: nat, commit: nat)

  const EMPTY_HARD_STATE := HardState(0, 0, 0)

  datatype Message = Message(to: nat, payload: Bytes)

  datatype Ready = Ready(
    hardState: HardState,
    entries: seq<Entry>,
    snapshot: Snapshot,
    messages: seq<Message>,
    committed: seq<Entry>,
    softStateIsLeader: Option<bool>)

  /** What a storage read returns; OutOfRange is the run-time panic of a slice whose end precedes its start. */
  datatype Read<T> = Ok(value: T) | ErrCompacted | ErrUnavailable | ErrSnapshotTemporarilyUnavailable | OutOfRange

  class MemoryStorage {
    var hardState: HardState
    var confState: ConfState
    var entries: seq<Entry>
    var snapshot: Snapshot

    constructor ()
      ensures Contents() == Log([], Snapshot(0, 0, [])) && WellFormed(Contents())
    {
      hardState, confState, entries, snapshot := EMPTY_HARD_STATE, ConfState({}), [], Snapshot(0, 0, []);
    }

    function Contents(): Log
      reads this
    {
      Log(entries, snapshot)
    }

    /** For an empty log every read is unavailable, whatever was compacted. */
    method Entries(lo: nat, hi: nat, maxSize: nat) returns (r: Read<seq<Entry>>)
      requires WellFormed(Contents())
      ensures entries == [] ==> r == ErrUnavailable
      ensures entries != [] && lo <= snapshot.index ==> r == ErrCompacted
      ensures entries != [] && snapshot.index < lo ==>
                var top := if hi > LastIndex(Contents()) + 1 then LastIndex(Contents()) + 1 else hi;
                if top < lo then r == OutOfRange
                else
                  && r.Ok?
                  && var range := entries[lo - snapshot.index - 1..top - snapshot.index - 1];
                  && IsPage(range, r.value, maxSize)
    {
      if |entries| == 0 {
        return ErrUnavailable;
      }
      var offset := entries[0].index;
      assert entries[|entries| - 1].index == offset + |entries| - 1;
      if lo < offset {
        return ErrCompacted;
      }
      var top := hi;
      if top > offset + |entries| {
        top := offset + |entries|;
      }
      if top < lo {
        return OutOfRange;
      }
      var page := FirstPage(entries[lo - offset..top - offset], maxSize);
      return Ok(page);
    }

    /** The loop of Entries that cuts the clamped range to the size limit. */
    method FirstPage(result: seq<Entry>, maxSize: nat) returns (page: seq<Entry>)
      ensures IsPage(result, page, maxSize)
    {
      var size, i := 0, 0;
      while i < |result|
        invariant 0 <= i <= |result|
        invariant size == Payload(result[..i])
        invariant i > 1 ==> size <= maxSize
      {
        assert result[..i + 1][..i] == result[..i];
        size := size + |result[i].data|;
        if size > maxSize && i > 0 {
          return result[..i];
        }
        i := i + 1;
      }
      assert result[..|result|] == result;
      return result;
    }

    method FirstIndex() returns (i: nat)
      requires WellFormed(Contents())
      ensures i == snapshot.index + 1
      ensures forall k :: k in View(entries) ==> i <= k
    {
      if |entries| == 0 {
        return snapshot.index + 1;
      }
      return entries[0].index;
    }

    method LastIndexOf() returns (i: nat)
      requires WellFormed(Contents())
      ensures i == LastIndex(Contents()) == snapshot.index + |entries|
      ensures forall k :: k in View(entries) <==> snapshot.index < k <= i
    {
      if |entries| == 0 {
        return snapshot.index;
      }
      return entries[|entries| - 1].index;
    }

    method SnapshotOf() returns (r: Read<Snapshot>)
      ensures r == if snapshot.index == 0 then ErrSnapshotTemporarilyUnavailable else Ok(snapshot)
    {
      if snapshot.index == 0 {
        return ErrSnapshotTemporarilyUnavailable;
      }
      return Ok(snapshot);
    }

    /**
     The term of every stored position, and errors outside. The position of the snapshot
     itself, which the library needs for its log-matching check, is answered exactly when
     nothing is stored above it.
     */
    method Term(i: nat) returns (r: Read<nat>)
      requires WellFormed(Contents())
      ensures i in View(entries) ==> r == Ok(View(entries)[i].term)
      ensures i < snapshot.index ==> r == ErrCompacted
      ensures i == snapshot.index ==> r == if entries == [] then Ok(snapshot.term) else ErrCompacted
      ensures i > LastIndex(Contents()) ==> r == ErrUnavailable
    {
      if i < snapshot.index {
        return ErrCompacted;
      }
      if |entries| == 0 {
        if i == snapshot.index {
          return Ok(snapshot.term);
        }
        return ErrUnavailable;
      }
      var offset := entries[0].index;
      if i < offset {
        return ErrCompacted;
      }
      if i > entries[|entries| - 1].index {
        return ErrUnavailable;
      }
      assert entries[|entries| - 1].index == offset + |entries| - 1;
      assert At(entries, i) == entries[i - offset];
      return Ok(entries[i - offset].term);
    }
  }

  ghost function Range(storage: MemoryStorage, lo: nat, hi: nat): seq<Entry>
    requires storage.snapshot.index < lo <= hi <= storage.snapshot.index + |storage.entries| + 1
    reads storage
  {
    storage.entries[lo - storage.snapshot.index - 1..hi - storage.snapshot.index - 1]
  }

  /** A request inside the log is always answered with a page of what is left of the range from lo. */
  method NextPage(storage: MemoryStorage, ghost lo: nat, at: nat, hi: nat, maxSize: nat) returns (page: seq<Entry>)
    requires WellFormed(storage.Contents())
    requires storage.snapshot.index < lo <= at < hi <= storage.snapshot.index + |storage.entries| + 1
    ensures IsPage(Range(storage, lo, hi)[at - lo..], page, maxSize)
  {
    SliceIsView(storage.Contents(), at, at);
    var r := storage.Entries(at, hi, maxSize);
    page := r.value;
    assert Range(storage, at, hi) == Range(storage, lo, hi)[at - lo..];
  }

  /**
   Reads positions lo up to hi as the library does, asking again from where each page stopped:
   it ends after at most one request per entry and has read exactly that range.
   */
  method ReadAll(storage: MemoryStorage, lo: nat, hi: nat, maxSize: nat)
    returns (all: seq<Entry>, asked: nat, ghost pages: seq<seq<Entry>>)
    requires WellFormed(storage.Contents())
    requires storage.snapshot.index < lo <= hi <= storage.snapshot.index + |storage.entries| + 1
    ensures all == Range(storage, lo, hi)
    ensures asked == |pages| <= hi - lo
    ensures all == Concat(pages) && Paged(all, pages, maxSize)
  {
    ghost var range := Range(storage, lo, hi);
    var at := lo;
    all, asked, pages := [], 0, [];
    while at < hi
      invariant lo <= at <= hi && |all| == at - lo
      invariant asked == |pages| && all == Concat(pages)
      invariant Paged(range, pages, maxSize)
    {
      var page := NextPage(storage, lo, at, hi, maxSize);
      OneMorePage(range, pages, maxSize, page);
      all, asked, pages := all + page, asked + 1, pages + [page];
      PagesReassemble(range, pages, maxSize);
      at := at + |page|;
    }
    PagesReassemble(range, pages, maxSize);
  }

  class RaftNode {
    const library: Library
    const raftStorage: MemoryStorage
    var isLeader: bool
    var membership: ConfState       // the library's own view, returned by ApplyConfChange
    var applyCh: seq<ApplyMsg>      // everything sent so far
    var outbox: seq<Message>        // everything handed to the transport so far
    var advanced: nat               // calls of Advance

    constructor (library: Library, membership: ConfState)
      ensures fresh(raftStorage) && raftStorage.Contents() == Log([], Snapshot(0, 0, []))
      ensures this.library == library && !isLeader && applyCh == [] && outbox == [] && advanced == 0
    {
      this.library, this.membership := library, membership;
      raftStorage := new MemoryStorage();
      isLeader, applyCh, outbox, advanced := false, [], [], 0;
    }

    /** On a gap the handler panics after the hard state was saved and nothing else. */
    method HandleReady(rd: Ready) returns (panicked: bool)
      modifies this, raftStorage
      ensures panicked <==> Handle(old(raftStorage.Contents()), rd.entries, rd.snapshot) == None
      ensures raftStorage.hardState ==
              if rd.hardState == EMPTY_HARD_STATE then old(raftStorage.hardState) else rd.hardState
      ensures !panicked ==>
                && Handle(old(raftStorage.Contents()), rd.entries, rd.snapshot) == Some(raftStorage.Contents())
                && applyCh == old(applyCh) + Stream(library, rd.snapshot, rd.committed)
                && outbox == old(outbox) + rd.messages
                && membership == Membership(library, old(membership), rd.committed)
                && raftStorage.confState ==
                   (if ChangesMembership(library, rd.committed) then membership else old(raftStorage.confState))
                && isLeader == (if rd.softStateIsLeader.Some? then rd.softStateIsLeader.value else old(isLeader))
                && advanced == old(advanced) + 1
      ensures panicked ==>
                && raftStorage.Contents() == old(raftStorage.Contents())
                && raftStorage.confState == old(raftStorage.confState)
                && unchanged(this)
    {
      if rd.hardState != EMPTY_HARD_STATE {
        raftStorage.hardState := rd.hardState;
      }
      panicked := StoreNew(rd.entries);
      if panicked {
        return;
      }
      ghost var sentBefore := applyCh;
      if rd.snapshot.index != 0 {
        InstallSnapshot(rd.snapshot);
      }
      outbox := outbox + rd.messages;
      ghost var sentSnapshot := applyCh;
      ApplyCommitted(rd.committed);
      assert applyCh == sentBefore + Stream(library, rd.snapshot, rd.committed) by {
        assert applyCh == sentSnapshot + Applied(library, rd.committed);
      }
      if rd.softStateIsLeader.Some? && isLeader != rd.softStateIsLeader.value {
        isLeader := rd.softStateIsLeader.value;
      }
      advanced := advanced + 1;
    }

    method StoreNew(incoming: seq<Entry>) returns (panicked: bool)
      modifies raftStorage`entries
      ensures panicked <==> StoreEntries(old(raftStorage.entries), incoming) == None
      ensures raftStorage.entries ==
              if panicked then old(raftStorage.entries) else StoreEntries(old(raftStorage.entries), incoming).value
    {
      if |incoming| > 0 {
        if |raftStorage.entries| == 0 {
          raftStorage.entries := incoming;
        } else {
          var offset := WrappedOffset(incoming[0].index, raftStorage.entries[0].index);
          if offset < 0 {
            raftStorage.entries := incoming;
          } else if offset < |raftStorage.entries| {
            raftStorage.entries := raftStorage.entries[..offset] + incoming;
          } else if offset == |raftStorage.entries| {
            raftStorage.entries := raftStorage.entries + incoming;
          } else {
            return true;
          }
        }
      }
      return false;
    }

    method InstallSnapshot(snap: Snapshot)
      modifies raftStorage`entries, raftStorage`snapshot, this`applyCh
      ensures raftStorage.snapshot == snap
      ensures raftStorage.entries == Above(old(raftStorage.entries), snap.index)
      ensures applyCh == old(applyCh) + [SnapshotMsg(snap)]
    {
      raftStorage.snapshot := snap;
      var all := raftStorage.entries;
      var newEntries := [];
      for i := 0 to |all|
        invariant newEntries == Above(all[..i], snap.index)
      {
        assert all[..i + 1][..i] == all[..i];
        if all[i].index > snap.index {
          newEntries := newEntries + [all[i]];
        }
      }
      assert all[..|all|] == all;
      raftStorage.entries := newEntries;
      applyCh := applyCh + [SnapshotMsg(snap)];
    }

    method ApplyCommitted(committed: seq<Entry>)
      modifies this`applyCh, this`membership, raftStorage`confState
      ensures applyCh == old(applyCh) + Applied(library, committed)
      ensures membership == Membership(library, old(membership), committed)
      ensures raftStorage.confState ==
              if ChangesMembership(library, committed) then membership else old(raftStorage.confState)
    {
      for i := 0 to |committed|
        invariant applyCh == old(applyCh) + Applied(library, committed[..i])
        invariant membership == Membership(library, old(membership), committed[..i])
        invariant raftStorage.confState ==
                  if ChangesMembership(library, committed[..i]) then membership else old(raftStorage.confState)
      {
        var entry := committed[i];
        assert committed[..i + 1] == committed[..i] + [entry];
        OneMoreCommitted(library, old(membership), committed[..i], entry);
        if entry.kind == EntryNormal && |entry.data| > 0 {
          applyCh := applyCh + [Command(entry.data, entry.index, entry.term)];
        } else if entry.kind == EntryConfChange {
          var cc := library.unmarshal(entry.data);
          if cc.None? {
            continue;
          }
          membership := library.apply(membership, cc.value);
          raftStorage.confState := membership;
          applyCh := applyCh + [Command(entry.data, entry.index, entry.term)];
        }
      }
      assert committed[..|committed|] == committed;
    }
  }
}
