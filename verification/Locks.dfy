/**
 Path locks: one shared map, a load-then-delete release, a sweep that removes old locks, and a
 retry loop with a deadline. Clock readings are nanoseconds.
 */
module Locks {
  import opened Options

  type Path = string
  type Owner = string

  datatype LockType = ReadLock | WriteLock | IntentRead | IntentWrite
  datatype LockInfo = LockInfo(owner: Owner, lockType: LockType, timestamp: int)

  const WAIT_TIMEOUT := 30_000_000_000
  const LOCK_TIMEOUT := 300_000_000_000
  const RETRY_WAIT := 100_000_000

  predicate CanShareLock(existing: LockType, requested: LockType) {
    existing == ReadLock && requested == ReadLock
  }

  /** Whether a request succeeds given the lock found on the path. */
  predicate Grants(found: Option<LockInfo>, lockType: LockType, owner: Owner) {
    match found
    case None => true
    case Some(existing) => CanShareLock(existing.lockType, lockType) && existing.owner == owner
  }

  function Find(locks: map<Path, LockInfo>, path: Path): Option<LockInfo> {
    if path in locks then Some(locks[path]) else None
  }

  predicate Expired(lock: LockInfo, now: int) {
    now - lock.timestamp > LOCK_TIMEOUT
  }

  /** What one caller of Lock observes: the lock met at each try, the clock after it, the context's state. */
  datatype Surroundings = Surroundings(
    start: int, found: nat -> Option<LockInfo>, clock: nat -> int, cancelled: nat -> bool)

  datatype LockResult = Acquired | TimedOut | Cancelled

  /** Each wait lasts at least the retry interval. */
  ghost predicate Waits(w: Surroundings) {
    w.clock(0) >= w.start && forall k: nat :: w.clock(k + 1) >= w.clock(k) + RETRY_WAIT
  }

  class Manager {
    var pathLocks: map<Path, LockInfo>

    constructor ()
      ensures pathLocks == map[]
    {
      pathLocks := map[];
    }

    /** A held path is granted again only to its owner, and only for reading twice. */
    method TryLock(path: Path, lockType: LockType, owner: Owner, now: int) returns (ok: bool)
      modifies this
      ensures ok == Grants(Find(old(pathLocks), path), lockType, owner)
      ensures ok <==> path !in old(pathLocks)
                      || (lockType == ReadLock && old(pathLocks)[path].lockType == ReadLock && old(pathLocks)[path].owner == owner)
      ensures pathLocks ==
              if path in old(pathLocks) then old(pathLocks) else old(pathLocks)[path := LockInfo(owner, lockType, now)]
    {
      if path !in pathLocks {
        pathLocks := pathLocks[path := LockInfo(owner, lockType, now)];
        return true;
      }
      var existing := pathLocks[path];
      if CanShareLock(existing.lockType, lockType) && existing.owner == owner {
        return true;
      }
      return false;
    }

    /** Without interference between its two steps, a release removes the caller's lock or nothing. */
    method Unlock(path: Path, owner: Owner)
      modifies this
      ensures pathLocks ==
              if path in old(pathLocks) && old(pathLocks)[path].owner == owner then old(pathLocks) - {path}
              else old(pathLocks)
    {
      if path !in pathLocks {
        return;
      }
      if pathLocks[path].owner != owner {
        return;
      }
      pathLocks := pathLocks - {path};
    }

    method CleanupExpiredLocks(now: int)
      modifies this
      ensures pathLocks ==
              map p | p in old(pathLocks) && now - old(pathLocks)[p].timestamp <= 300_000_000_000 :: old(pathLocks)[p]
    {
      var pending := pathLocks.Keys;
      while pending != {}
        invariant pending <= pathLocks.Keys <= old(pathLocks).Keys
        invariant forall p :: p in old(pathLocks) && p !in pending ==>
                    (p in pathLocks <==> !Expired(old(pathLocks)[p], now))
        invariant forall p :: p in pathLocks ==> pathLocks[p] == old(pathLocks)[p]
        decreases |pending|
      {
        var p :| p in pending;
        pending := pending - {p};
        if now - pathLocks[p].timestamp > LOCK_TIMEOUT {
          pathLocks := pathLocks - {p};
        }
      }
    }

    /**
     Returns after at most 302 tries, acquired exactly if the last try was granted; a path that
     stays blocked while every wait is as short as allowed takes all 302.
     */
    method Lock(w: Surroundings, lockType: LockType, owner: Owner) returns (r: LockResult, tries: nat)
      requires Waits(w)
      ensures 1 <= tries <= 302
      ensures forall k :: 0 <= k < tries - 1 ==> !Grants(w.found(k), lockType, owner)
      ensures r == Acquired <==> Grants(w.found(tries - 1), lockType, owner)
      ensures r == TimedOut ==> w.clock(tries - 1) > w.start + WAIT_TIMEOUT
      ensures r == Cancelled ==> w.cancelled(tries - 1) && w.clock(tries - 1) <= w.start + WAIT_TIMEOUT
      ensures (forall k: nat :: w.clock(k) == w.start + k * RETRY_WAIT && !w.cancelled(k)
                                && !Grants(w.found(k), lockType, owner)) ==>
                r == TimedOut && tries == 302
    {
      var deadline := w.start + WAIT_TIMEOUT;
      tries := 0;
      while true
        invariant w.clock(tries) >= w.start + tries * RETRY_WAIT
        invariant tries > 0 ==> w.clock(tries - 1) <= deadline && !w.cancelled(tries - 1)
        invariant tries > 0 ==> w.clock(tries - 1) >= w.start + (tries - 1) * RETRY_WAIT
        invariant forall k :: 0 <= k < tries ==> !Grants(w.found(k), lockType, owner)
        decreases 302 - tries
      {
        tries := tries + 1;
        if Grants(w.found(tries - 1), lockType, owner) {
          return Acquired, tries;
        }
        if w.clock(tries - 1) > deadline {
          return TimedOut, tries;
        }
        if w.cancelled(tries - 1) {
          return Cancelled, tries;
        }
      }
    }
  }

  // ---------- All clients at once ----------

  type Client = nat

  /**
   Who is between loading its lock and deleting it, and which client believes it holds which
 path, counting granted tries it has not released yet.
   */
  datatype State = State(
    locks: map<Path, LockInfo>,
    releasing: map<Client, Path>,
    sweeping: set<Path>,
    held: map<(Client, Path), nat>)

  const START := State(map[], map[], {}, map[])

  function OneMore(held: map<(Client, Path), nat>, h: (Client, Path)): map<(Client, Path), nat> {
    held[h := if h in held then held[h] + 1 else 1]
  }

  function OneLess(held: map<(Client, Path), nat>, h: (Client, Path)): map<(Client, Path), nat> {
    if h in held && held[h] > 1 then held[h := held[h] - 1] else held - {h}
  }

  datatype Event =
    | Try(client: Client, path: Path, lockType: LockType, now: int)
    | ReleaseLoad(client: Client, path: Path)
    | ReleaseDelete(client: Client)
    | SweepSee(path: Path, now: int)
    | SweepDelete(path: Path)

  /** Atomic steps; a client in the middle of a release starts nothing else. */
  function Step(name: Client -> Owner, s: State, e: Event): State {
    match e
    case Try(c, p, lockType, now) =>
      if c in s.releasing || !Grants(Find(s.locks, p), lockType, name(c)) then s
      else s.(locks := if p in s.locks then s.locks else s.locks[p := LockInfo(name(c), lockType, now)],
              held := OneMore(s.held, (c, p)))
    case ReleaseLoad(c, p) =>
      if c in s.releasing || p !in s.locks || s.locks[p].owner != name(c) then s
      else s.(releasing := s.releasing[c := p], held := OneLess(s.held, (c, p)))
    case ReleaseDelete(c) =>
      if c !in s.releasing then s
      else s.(locks := s.locks - {s.releasing[c]}, releasing := s.releasing - {c})
    case SweepSee(p, now) =>
      if p in s.locks && Expired(s.locks[p], now) then s.(sweeping := s.sweeping + {p}) else s
    case SweepDelete(p) =>
      if p in s.sweeping then s.(locks := s.locks - {p}, sweeping := s.sweeping - {p}) else s
  }

  function Run(name: Client -> Owner, events: seq<Event>): State {
    if events == [] then START
    else Step(name, Run(name, events[..|events| - 1]), events[|events| - 1])
  }

  ghost predicate OneClientPerName(name: Client -> Owner) {
    forall c, d :: name(c) == name(d) ==> c == d
  }

  /** No sweep finds a lock older than the timeout. */
  ghost predicate NothingExpires(name: Client -> Owner, events: seq<Event>) {
    forall k :: 0 <= k < |events| && events[k].SweepSee? ==>
      var s := Run(name, events[..k]);
      events[k].path in s.locks ==> !Expired(s.locks[events[k].path], events[k].now)
  }

  ghost predicate Exclusive(s: State) {
    forall c, d, p :: (c, p) in s.held && (d, p) in s.held ==> c == d
  }

  /** No client tries a path it already holds. */
  ghost predicate NoNesting(name: Client -> Owner, events: seq<Event>) {
    forall k :: 0 <= k < |events| && events[k].Try? ==> !Nests(Run(name, events[..k]), events[k])
  }

  predicate Nests(s: State, e: Event) {
    e.Try? && (e.client, e.path) in s.held
  }

  predicate Outlived(s: State, e: Event) {
    e.SweepSee? && e.path in s.locks && Expired(s.locks[e.path], e.now)
  }

  /** Whoever is about to delete would delete its own lock. */
  ghost predicate ReleasesOwn(name: Client -> Owner, s: State) {
    && s.sweeping == {}
    && forall c :: c in s.releasing ==> s.releasing[c] in s.locks && s.locks[s.releasing[c]].owner == name(c)
  }

  lemma StepKeepsReleases(name: Client -> Owner, s: State, e: Event)
    requires OneClientPerName(name) && ReleasesOwn(name, s) && !Outlived(s, e)
    ensures ReleasesOwn(name, Step(name, s, e))
  {
    if e.ReleaseDelete? && e.client in s.releasing {
      forall d | d in s.releasing && d != e.client ensures s.releasing[d] != s.releasing[e.client] {
        assert name(d) != name(e.client);
      }
    }
  }

  /** Whoever believes to hold a path owns the lock on it, once, and is not releasing it. */
  ghost predicate HoldersOwn(name: Client -> Owner, s: State) {
    && (forall h :: h in s.held ==> h.1 in s.locks && s.locks[h.1].owner == name(h.0) && s.held[h] == 1)
    && forall c :: c in s.releasing ==> (c, s.releasing[c]) !in s.held
  }

  lemma StepKeepsHolders(name: Client -> Owner, s: State, e: Event)
    requires OneClientPerName(name) && ReleasesOwn(name, s) && HoldersOwn(name, s)
    requires !Outlived(s, e) && !Nests(s, e)
    ensures HoldersOwn(name, Step(name, s, e))
  {
    if e.ReleaseDelete? && e.client in s.releasing {
      forall h | h in s.held ensures h.1 != s.releasing[e.client] {
        assert h.0 != e.client ==> name(h.0) != name(e.client);
      }
    }
  }

  lemma EventsBefore(name: Client -> Owner, events: seq<Event>)
    requires events != []
    ensures var front, last := events[..|events| - 1], events[|events| - 1];
            && (NothingExpires(name, events) ==> NothingExpires(name, front) && !Outlived(Run(name, front), last))
            && (NoNesting(name, events) ==> NoNesting(name, front) && !Nests(Run(name, front), last))
  {
    var front := events[..|events| - 1];
    assert forall k :: 0 <= k < |front| ==> front[..k] == events[..k] && front[k] == events[k];
  }

  lemma {:induction false} RunKeepsReleases(name: Client -> Owner, events: seq<Event>)
    requires OneClientPerName(name) && NothingExpires(name, events)
    ensures ReleasesOwn(name, Run(name, events))
  {
    if events != [] {
      var front, last := events[..|events| - 1], events[|events| - 1];
      EventsBefore(name, events);
      RunKeepsReleases(name, front);
      StepKeepsReleases(name, Run(name, front), last);
    }
  }

  lemma {:induction false} RunKeepsHolders(name: Client -> Owner, events: seq<Event>)
    requires OneClientPerName(name) && NothingExpires(name, events) && NoNesting(name, events)
    ensures HoldersOwn(name, Run(name, events))
  {
    if events != [] {
      var front, last := events[..|events| - 1], events[|events| - 1];
      EventsBefore(name, events);
      RunKeepsHolders(name, front);
      RunKeepsReleases(name, front);
      StepKeepsHolders(name, Run(name, front), last);
    }
  }

  /**
   With one client per owner name, no lock outliving the timeout and no client trying a path it
   holds, in every interleaving no two clients hold the same path. That no release deletes
   another owner's lock needs only the first two.
   */
  lemma LocksAreExclusive(name: Client -> Owner, events: seq<Event>)
    requires OneClientPerName(name) && NothingExpires(name, events)
    ensures ReleasesOwn(name, Run(name, events))
    ensures NoNesting(name, events) ==> Exclusive(Run(name, events))
  {
    RunKeepsReleases(name, events);
    if NoNesting(name, events) {
      RunKeepsHolders(name, events);
    }
  }

  // ---------- A lock never changes while it is held ----------

  ghost predicate Removes(s: State, e: Event, p: Path) {
    match e
    case ReleaseDelete(c) => c in s.releasing && s.releasing[c] == p
    case SweepDelete(q) => q == p && q in s.sweeping
    case _ => false
  }

  /** No step of more removes the lock. */
  ghost predicate KeepsLock(name: Client -> Owner, events: seq<Event>, more: seq<Event>, p: Path)
    decreases |more|
  {
    more == [] ||
    (var front := more[..|more| - 1];
     KeepsLock(name, events, front, p) && !Removes(Run(name, events + front), more[|more| - 1], p))
  }

  /** Since s the lock is unchanged, and whoever has come to hold the path is its owner's reader. */
  ghost predicate AsAcquired(name: Client -> Owner, s: State, t: State, p: Path)
    requires p in s.locks
  {
    && p in t.locks && t.locks[p] == s.locks[p]
    && forall c :: (c, p) in t.held && (c, p) !in s.held ==>
         name(c) == s.locks[p].owner && s.locks[p].lockType == ReadLock
  }

  lemma StepKeepsLock(name: Client -> Owner, s: State, e: Event, p: Path)
    requires p in s.locks && !Removes(s, e, p)
    ensures AsAcquired(name, s, Step(name, s, e), p)
  {
  }

  /**
   From any moment of any run until its removal, a lock stays exactly as it was acquired: no try
   upgrades, extends or takes it over, and whoever comes to hold the path meanwhile goes by the
   owner's name and finds a read lock.
   */
  lemma {:induction false} LockStaysAsAcquired(name: Client -> Owner, events: seq<Event>, more: seq<Event>, p: Path)
    requires p in Run(name, events).locks && KeepsLock(name, events, more, p)
    ensures AsAcquired(name, Run(name, events), Run(name, events + more), p)
    decreases |more|
  {
    if more == [] {
      assert events + more == events;
    } else {
      var front, last := more[..|more| - 1], more[|more| - 1];
      assert more == front + [last] && events + more == events + front + [last];
      LockStaysAsAcquired(name, events, front, p);
      RunSnoc(name, events + front, last);
      StepKeepsLock(name, Run(name, events + front), last, p);
    }
  }

  lemma RunSnoc(name: Client -> Owner, events: seq<Event>, e: Event)
    ensures Run(name, events + [e]) == Step(name, Run(name, events), e)
  {
    assert (events + [e])[..|events|] == events;
  }

  // ---------- One client per name is exactly what exclusion needs ----------

  ghost predicate NoSweeps(events: seq<Event>) {
    forall e :: e in events ==> !e.SweepSee?
  }

  lemma NothingExpiresUnswept(name: Client -> Owner, events: seq<Event>)
    requires NoSweeps(events)
    ensures NothingExpires(name, events)
  {
  }

  /** Two readers under one name hold a path together. */
  lemma SharedNameBreaksExclusion(name: Client -> Owner, c: Client, d: Client, p: Path)
    requires c != d && name(c) == name(d)
    ensures exists events ::
              NothingExpires(name, events) && NoNesting(name, events) && !Exclusive(Run(name, events))
  {
    var first, second := Try(c, p, ReadLock, 0), Try(d, p, ReadLock, 0);
    var one, two := [first], [first, second];
    RunSnoc(name, [], first);
    assert [] + one == one && one + [second] == two;
    RunSnoc(name, one, second);
    NothingExpiresUnswept(name, two);
    assert two[..0] == [] && two[..1] == one;
    assert NoNesting(name, two);
    var s := Run(name, two);
    assert (c, p) in s.held && (d, p) in s.held && !Exclusive(s);
  }

  /**
   As long as nothing expires and no client tries a path it holds, exclusion holds in every run
   exactly if no two clients share a name.
   */
  lemma ExclusiveIffOneClientPerName(name: Client -> Owner)
    ensures OneClientPerName(name)
        <==> forall events :: NothingExpires(name, events) && NoNesting(name, events) ==> Exclusive(Run(name, events))
  {
    if OneClientPerName(name) {
      forall events | NothingExpires(name, events) && NoNesting(name, events) ensures Exclusive(Run(name, events)) {
        LocksAreExclusive(name, events);
      }
    } else {
      var c, d :| name(c) == name(d) && c != d;
      SharedNameBreaksExclusion(name, c, d, "");
    }
  }

  /** No release is about to delete a lock of another owner. */
  ghost predicate NoForeignRelease(name: Client -> Owner, s: State) {
    forall c :: c in s.releasing && s.releasing[c] in s.locks ==> s.locks[s.releasing[c]].owner == name(c)
  }

  /** Both clients of a shared name find their own lock and are about to delete it. */
  lemma DoubleRelease(name: Client -> Owner, c: Client, d: Client, p: Path, events: seq<Event>)
    requires c != d && name(c) == name(d)
    requires events == [Try(c, p, WriteLock, 0), ReleaseLoad(c, p), ReleaseLoad(d, p)]
    ensures var s := Run(name, events);
            s.locks == map[p := LockInfo(name(c), WriteLock, 0)] && s.releasing == map[c := p, d := p]
  {
    var e1 := [Try(c, p, WriteLock, 0)];
    var e2 := e1 + [ReleaseLoad(c, p)];
    assert [] + e1 == e1 && e2 + [ReleaseLoad(d, p)] == events;
    RunSnoc(name, [], Try(c, p, WriteLock, 0));
    RunSnoc(name, e1, ReleaseLoad(c, p));
    RunSnoc(name, e2, ReleaseLoad(d, p));
  }

  lemma SecondDeleteIsForeign(name: Client -> Owner, s: State, c: Client, d: Client, third: Client, p: Path)
    requires c != d && third != c && third != d && name(c) == name(d) != name(third)
    requires s.locks == map[p := LockInfo(name(c), WriteLock, 0)] && s.releasing == map[c := p, d := p]
    ensures !NoForeignRelease(name, Step(name, Step(name, s, ReleaseDelete(c)), Try(third, p, WriteLock, 0)))
  {
    var s1 := Step(name, s, ReleaseDelete(c));
    assert s1.locks == map[] && s1.releasing == map[d := p];
    var t := Step(name, s1, Try(third, p, WriteLock, 0));
    assert d in t.releasing && t.releasing[d] == p && t.locks[p].owner == name(third);
  }

  /** The second delete of a double release removes a third client's lock. */
  lemma SharedNameBreaksRelease(name: Client -> Owner, c: Client, d: Client, third: Client, p: Path)
    requires c != d && name(c) == name(d) != name(third)
    ensures exists events :: NothingExpires(name, events) && !NoForeignRelease(name, Run(name, events))
  {
    var loaded := [Try(c, p, WriteLock, 0), ReleaseLoad(c, p), ReleaseLoad(d, p)];
    DoubleRelease(name, c, d, p, loaded);
    SecondDeleteIsForeign(name, Run(name, loaded), c, d, third, p);
    var deleted := loaded + [ReleaseDelete(c)];
    RunSnoc(name, loaded, ReleaseDelete(c));
    var all := deleted + [Try(third, p, WriteLock, 0)];
    RunSnoc(name, deleted, Try(third, p, WriteLock, 0));
    assert NoSweeps(all);
    NothingExpiresUnswept(name, all);
  }

  ghost predicate AllOneName(name: Client -> Owner) {
    forall c, d :: name(c) == name(d)
  }

  lemma {:induction false} OwnersAreNames(name: Client -> Owner, events: seq<Event>, p: Path)
    requires AllOneName(name) && p in Run(name, events).locks
    ensures Run(name, events).locks[p].owner == name(0)
  {
    if p in Run(name, events[..|events| - 1]).locks {
      OwnersAreNames(name, events[..|events| - 1], p);
    }
  }

  /** No release ever deletes another owner's lock exactly if no two clients share a name, or all of them do. */
  lemma ReleasesOwnIff(name: Client -> Owner)
    ensures OneClientPerName(name) || AllOneName(name)
        <==> forall events :: NothingExpires(name, events) ==> NoForeignRelease(name, Run(name, events))
  {
    if OneClientPerName(name) || AllOneName(name) {
      forall events | NothingExpires(name, events) ensures NoForeignRelease(name, Run(name, events)) {
        if OneClientPerName(name) {
          LocksAreExclusive(name, events);
        } else {
          var s := Run(name, events);
          forall c | c in s.releasing && s.releasing[c] in s.locks ensures s.locks[s.releasing[c]].owner == name(c) {
            OwnersAreNames(name, events, s.releasing[c]);
          }
        }
      }
    } else {
      var c, d :| name(c) == name(d) && c != d;
      var e: Client, f: Client :| name(e) != name(f);
      SharedNameBreaksRelease(name, c, d, if name(e) != name(c) then e else f, "");
    }
  }

  // ---------- And no expiry of a held lock ----------

  /** The run goes on with a sweep of p at now and a try by client d. */
  function SweptThenTried(events: seq<Event>, p: Path, now: int, d: Client, lockType: LockType): seq<Event> {
    events + [SweepSee(p, now)] + [SweepDelete(p)] + [Try(d, p, lockType, now)]
  }

  lemma RunSweptThenTried(name: Client -> Owner, events: seq<Event>, p: Path, now: int, d: Client, lockType: LockType)
    ensures Run(name, SweptThenTried(events, p, now, d, lockType))
            == Step(name, Step(name, Step(name, Run(name, events), SweepSee(p, now)), SweepDelete(p)), Try(d, p, lockType, now))
  {
    RunSnoc(name, events, SweepSee(p, now));
    RunSnoc(name, events + [SweepSee(p, now)], SweepDelete(p));
    RunSnoc(name, events + [SweepSee(p, now)] + [SweepDelete(p)], Try(d, p, lockType, now));
  }

  /** A run in which all was well. */
  ghost predicate Good(name: Client -> Owner, events: seq<Event>) {
    OneClientPerName(name) && NothingExpires(name, events) && NoNesting(name, events)
  }

  /** Holding is what makes Exclusive fail: another client, or the owner of a lock it does not own. */
  lemma HoldersAreExclusive(name: Client -> Owner, s: State)
    requires OneClientPerName(name)
    requires forall h :: h in s.held ==> h.1 in s.locks && s.locks[h.1].owner == name(h.0)
    ensures Exclusive(s)
  {
  }

  lemma TryKeepsExclusive(name: Client -> Owner, s: State, e: Event)
    requires OneClientPerName(name) && HoldersOwn(name, s) && e.Try?
    ensures Exclusive(Step(name, s, e))
  {
    HoldersAreExclusive(name, Step(name, s, e));
  }

  lemma ReleaseKeepsHolders(name: Client -> Owner, s: State, e: Event)
    requires OneClientPerName(name) && ReleasesOwn(name, s) && HoldersOwn(name, s)
    requires e.ReleaseLoad? || e.ReleaseDelete?
    ensures ReleasesOwn(name, Step(name, s, e)) && HoldersOwn(name, Step(name, s, e))
  {
    StepKeepsReleases(name, s, e);
    StepKeepsHolders(name, s, e);
  }

  /**
   After any run in which all was well, a sweep can put a second client on a held path exactly if
   the lock has outlived the timeout by then.
   */
  lemma SweepBreaksExclusionIffExpired(name: Client -> Owner, events: seq<Event>, c: Client, p: Path, now: int)
    requires Good(name, events)
    requires (c, p) in Run(name, events).held
    ensures p in Run(name, events).locks
    ensures now - Run(name, events).locks[p].timestamp > 300_000_000_000
        <==> exists d, lockType :: !Exclusive(Run(name, SweptThenTried(events, p, now, d, lockType)))
  {
    var s := Run(name, events);
    RunKeepsReleases(name, events);
    RunKeepsHolders(name, events);
    if Expired(s.locks[p], now) {
      var d := Unused(s.releasing.Keys + {c});
      RunSweptThenTried(name, events, p, now, d, WriteLock);
      var t := Run(name, SweptThenTried(events, p, now, d, WriteLock));
      assert (c, p) in t.held && (d, p) in t.held;
      assert !Exclusive(t);
    } else if d, lockType :| !Exclusive(Run(name, SweptThenTried(events, p, now, d, lockType))) {
      RunSweptThenTried(name, events, p, now, d, lockType);
      TryKeepsExclusive(name, s, Try(d, p, lockType, now));
    }
  }

  // ---------- And no second try by the holder ----------

  /** The holder tries once more and releases once; then client d tries. */
  function NestedThenReleased(events: seq<Event>, c: Client, p: Path, again: LockType, d: Client, now: int): seq<Event> {
    events + [Try(c, p, again, now)] + [ReleaseLoad(c, p)] + [ReleaseDelete(c)] + [Try(d, p, WriteLock, now)]
  }

  lemma RunNestedThenReleased(name: Client -> Owner, events: seq<Event>, c: Client, p: Path, again: LockType, d: Client, now: int)
    ensures Run(name, NestedThenReleased(events, c, p, again, d, now))
            == Step(name, Step(name, Step(name, Step(name, Run(name, events),
                 Try(c, p, again, now)), ReleaseLoad(c, p)), ReleaseDelete(c)), Try(d, p, WriteLock, now))
  {
    RunSnoc(name, events, Try(c, p, again, now));
    RunSnoc(name, events + [Try(c, p, again, now)], ReleaseLoad(c, p));
    RunSnoc(name, events + [Try(c, p, again, now)] + [ReleaseLoad(c, p)], ReleaseDelete(c));
    RunSnoc(name, events + [Try(c, p, again, now)] + [ReleaseLoad(c, p)] + [ReleaseDelete(c)], Try(d, p, WriteLock, now));
  }

  /** Reading twice and releasing once takes the lock from under the holder. */
  lemma SecondReadLosesLock(name: Client -> Owner, s: State, c: Client, p: Path, d: Client, now: int)
    requires c != d && c !in s.releasing && d !in s.releasing
    requires (c, p) in s.held && s.held[(c, p)] == 1 && p in s.locks && s.locks[p].owner == name(c)
    requires s.locks[p].lockType == ReadLock
    ensures !Exclusive(Step(name, Step(name, Step(name, Step(name, s,
                Try(c, p, ReadLock, now)), ReleaseLoad(c, p)), ReleaseDelete(c)), Try(d, p, WriteLock, now)))
  {
    var s1 := Step(name, s, Try(c, p, ReadLock, now));
    assert s1.held[(c, p)] == 2 && s1.locks == s.locks && s1.releasing == s.releasing;
    var s2 := Step(name, s1, ReleaseLoad(c, p));
    assert s2.held[(c, p)] == 1 && s2.releasing == s.releasing[c := p];
    var s3 := Step(name, s2, ReleaseDelete(c));
    assert p !in s3.locks && (c, p) in s3.held && d !in s3.releasing;
    var t := Step(name, s3, Try(d, p, WriteLock, now));
    assert (c, p) in t.held && (d, p) in t.held;
  }

  /** A second try that is refused changes nothing, and one release is then the only one. */
  lemma RefusedTryIsHarmless(name: Client -> Owner, s: State, c: Client, p: Path, again: LockType, d: Client, now: int)
    requires OneClientPerName(name) && ReleasesOwn(name, s) && HoldersOwn(name, s)
    requires p in s.locks && !(again == ReadLock && s.locks[p].lockType == ReadLock)
    ensures Exclusive(Step(name, Step(name, Step(name, Step(name, s,
                Try(c, p, again, now)), ReleaseLoad(c, p)), ReleaseDelete(c)), Try(d, p, WriteLock, now)))
  {
    assert Step(name, s, Try(c, p, again, now)) == s;
    var s2 := Step(name, s, ReleaseLoad(c, p));
    ReleaseKeepsHolders(name, s, ReleaseLoad(c, p));
    var s3 := Step(name, s2, ReleaseDelete(c));
    ReleaseKeepsHolders(name, s2, ReleaseDelete(c));
    TryKeepsExclusive(name, s3, Try(d, p, WriteLock, now));
  }

  /**
   After any run in which all was well, a second try by the holder followed by one release lets
   another client onto the path exactly if it reads again what it holds for reading: the one
   lock stands for both acquisitions, and the first release deletes it.
   */
  lemma SecondReadBreaksExclusionIff(name: Client -> Owner, events: seq<Event>, c: Client, p: Path, again: LockType, now: int)
    requires Good(name, events)
    requires (c, p) in Run(name, events).held && c !in Run(name, events).releasing
    ensures p in Run(name, events).locks
    ensures again == ReadLock && Run(name, events).locks[p].lockType == ReadLock
        <==> exists d :: !Exclusive(Run(name, NestedThenReleased(events, c, p, again, d, now)))
  {
    var s := Run(name, events);
    RunKeepsReleases(name, events);
    RunKeepsHolders(name, events);
    if again == ReadLock && s.locks[p].lockType == ReadLock {
      var d := Unused(s.releasing.Keys + {c});
      RunNestedThenReleased(name, events, c, p, again, d, now);
      SecondReadLosesLock(name, s, c, p, d, now);
    } else {
      forall d ensures Exclusive(Run(name, NestedThenReleased(events, c, p, again, d, now))) {
        RunNestedThenReleased(name, events, c, p, again, d, now);
        RefusedTryIsHarmless(name, s, c, p, again, d, now);
      }
    }
  }
}
