/**
 The detector announces changes on a bounded channel while it holds its lock; the event loop
 that empties the channel needs the same lock when, as leader, it removes a dead node. This is
 the interplay of the two, with everything but the lock and the channel left out.
 */
module EventLoop {
  import Heartbeat

  /** Whether a change says that a node is dead. */
  type IsDead = bool

  datatype Consumer = Receiving | WantsLock

  /**
   backlog: what the holder of the detector's lock still has to send; empty when the lock is free.
   leads: what the election manager would answer now.
   */
  datatype Loop = Loop(backlog: seq<IsDead>, queue: seq<IsDead>, consumer: Consumer, leads: bool)

  const START := Loop([], [], Receiving, false)

  datatype Event =
    | Announce(changes: seq<IsDead>)   // a check or a heartbeat takes the lock
    | Send
    | Receive(removed: bool)           // removed: whether the election group lets a dead node go
    | Unregister
    | Elect(leads: bool)

  predicate Enabled(s: Loop, e: Event) {
    match e
    case Announce(changes) => s.backlog == []
    case Send => s.backlog != [] && |s.queue| < Heartbeat.CHANNEL_CAPACITY
    case Receive(_) => s.consumer == Receiving && s.queue != []
    case Unregister => s.consumer == WantsLock && s.backlog == []
    case Elect(_) => true
  }

  /** A dead node is removed, and then unregistered under the lock, only if this node leads when the change is handled. */
  function Step(s: Loop, e: Event): Loop {
    if !Enabled(s, e) then s
    else
      match e
      case Announce(changes) => s.(backlog := changes)
      case Send => s.(queue := s.queue + [s.backlog[0]], backlog := s.backlog[1..])
      case Receive(removed) =>
        s.(queue := s.queue[1..], consumer := if s.queue[0] && s.leads && removed then WantsLock else Receiving)
      case Unregister => s.(consumer := Receiving)
      case Elect(leads) => s.(leads := leads)
  }

  function Run(s: Loop, events: seq<Event>): Loop
    decreases |events|
  {
    if events == [] then s else Run(Step(s, events[0]), events[1..])
  }

  /** The lock holder waits for room in the channel, the event loop for the lock. */
  predicate Stuck(s: Loop) {
    s.backlog != [] && |s.queue| == Heartbeat.CHANNEL_CAPACITY && s.consumer == WantsLock
  }

  lemma {:induction false} QueueIsBounded(s: Loop, events: seq<Event>)
    requires |s.queue| <= Heartbeat.CHANNEL_CAPACITY
    ensures |Run(s, events).queue| <= Heartbeat.CHANNEL_CAPACITY
    decreases |events|
  {
    if events != [] {
      QueueIsBounded(Step(s, events[0]), events[1..]);
    }
  }

  /** In any reachable state neither of the two can do anything any more exactly if they wait for each other. */
  lemma BlockedExactlyWhenStuck(events: seq<Event>)
    ensures var s := Run(START, events); Stuck(s) <==> forall e: Event :: !e.Elect? ==> !Enabled(s, e)
  {
    var s := Run(START, events);
    QueueIsBounded(START, events);
    if !Stuck(s) {
      assert Enabled(s, Announce([])) || Enabled(s, Send) || Enabled(s, Receive(false));
    }
  }

  /** Nor does any election help. */
  lemma {:induction false} StuckForever(s: Loop, events: seq<Event>)
    requires Stuck(s)
    ensures Stuck(Run(s, events)) && Run(s, events) == s.(leads := Run(s, events).leads)
    decreases |events|
  {
    if events != [] {
      StuckForever(Step(s, events[0]), events[1..]);
    }
  }

  ghost predicate NeverElected(events: seq<Event>) {
    forall e :: e in events && e.Elect? ==> !e.leads
  }

  /** As long as this node is not elected, the event loop never waits for the lock, whatever was announced. */
  lemma {:induction false} FollowerNeverWaits(s: Loop, events: seq<Event>)
    requires NeverElected(events) && !s.leads && s.consumer == Receiving
    ensures Run(s, events).consumer == Receiving && !Stuck(Run(s, events))
    decreases |events|
  {
    if events != [] {
      assert events[0] in events && forall e :: e in events[1..] ==> e in events;
      FollowerNeverWaits(Step(s, events[0]), events[1..]);
    }
  }

  /** n dead nodes announced one at a time and sent at once. */
  function OneByOne(n: nat): seq<Event> {
    if n == 0 then [] else [Announce([true]), Send] + OneByOne(n - 1)
  }

  lemma {:induction false} QueueFills(s: Loop, n: nat)
    requires s.backlog == [] && |s.queue| + n <= Heartbeat.CHANNEL_CAPACITY
    ensures var t := Run(s, OneByOne(n));
            t.backlog == [] && t.consumer == s.consumer && |t.queue| == |s.queue| + n
    decreases n
  {
    if n > 0 {
      var events := OneByOne(n);
      assert events[0] == Announce([true]) && events[1..][0] == Send && events[1..][1..] == OneByOne(n - 1);
      var t := Step(Step(s, Announce([true])), Send);
      assert t.backlog == [];
      QueueFills(t, n - 1);
    }
  }

  lemma {:induction false} RunConcat(s: Loop, a: seq<Event>, b: seq<Event>)
    ensures Run(s, a + b) == Run(Run(s, a), b)
    decreases |a|
  {
    if a == [] {
      assert a + b == b;
    } else {
      assert (a + b)[1..] == a[1..] + b;
      RunConcat(Step(s, a[0]), a[1..], b);
    }
  }

  /** Every change is announced on its own, and no election is held. */
  ghost predicate Plain(events: seq<Event>) {
    forall e :: e in events ==> !e.Elect? && (e.Announce? ==> |e.changes| == 1)
  }

  lemma {:induction false} OneByOneIsPlain(n: nat)
    ensures Plain(OneByOne(n))
  {
    if n > 0 {
      OneByOneIsPlain(n - 1);
    }
  }

  ghost predicate CanGetStuck(s: Loop) {
    exists events :: Plain(events) && Stuck(Run(s, events))
  }

  /** With the lock free and the loop waiting for it, the channel fills before the loop gets it. */
  lemma WaitingLoopGetsStuck(s: Loop)
    requires |s.queue| <= Heartbeat.CHANNEL_CAPACITY && s.backlog == [] && s.consumer == WantsLock
    ensures CanGetStuck(s)
  {
    var n := Heartbeat.CHANNEL_CAPACITY - |s.queue|;
    var full, last := OneByOne(n), [Announce([true])];
    QueueFills(s, n);
    RunConcat(s, full, last);
    assert last[1..] == [];
    OneByOneIsPlain(n);
    assert Plain(full + last) && Stuck(Run(s, full + last));
  }

  /** One more step towards being stuck. */
  lemma StuckAfter(s: Loop, e: Event)
    requires !e.Elect? && (e.Announce? ==> |e.changes| == 1)
    requires CanGetStuck(Step(s, e))
    ensures CanGetStuck(s)
  {
    var rest :| Plain(rest) && Stuck(Run(Step(s, e), rest));
    var events := [e] + rest;
    assert events[1..] == rest;
    assert Plain(events) && Stuck(Run(s, events));
  }

  /**
   From every state, reachable or not, that respects the channel's capacity, in which this node
   leads or the loop already waits for the lock, the two can still get stuck.
   */
  lemma {:induction false} LeaderCanAlwaysGetStuck(s: Loop)
    requires |s.queue| <= Heartbeat.CHANNEL_CAPACITY && (s.leads || s.consumer == WantsLock)
    ensures CanGetStuck(s)
    decreases 2 * |s.backlog| + |s.queue|
  {
    if Stuck(s) {
      assert Plain([]) && Stuck(Run(s, []));
    } else if s.consumer == WantsLock && s.backlog == [] {
      WaitingLoopGetsStuck(s);
    } else if s.backlog != [] && |s.queue| < Heartbeat.CHANNEL_CAPACITY {
      LeaderCanAlwaysGetStuck(Step(s, Send));
      StuckAfter(s, Send);
    } else if s.queue != [] {
      LeaderCanAlwaysGetStuck(Step(s, Receive(true)));
      StuckAfter(s, Receive(true));
    } else {
      var announced := Step(s, Announce([true]));
      var sent := Step(announced, Send);
      WaitingLoopGetsStuck(Step(sent, Receive(true)));
      StuckAfter(sent, Receive(true));
      StuckAfter(announced, Send);
      StuckAfter(s, Announce([true]));
    }
  }

  /**
   In every reachable state: unless this node is elected later, the two can get stuck exactly if
   it leads now or the loop is already waiting for the lock.
   */
  lemma StuckReachableIffLeading(past: seq<Event>)
    ensures var s := Run(START, past);
            s.leads || s.consumer == WantsLock <==> exists events :: NeverElected(events) && Stuck(Run(s, events))
  {
    var s := Run(START, past);
    QueueIsBounded(START, past);
    if s.leads || s.consumer == WantsLock {
      LeaderCanAlwaysGetStuck(s);
      var events :| Plain(events) && Stuck(Run(s, events));
      assert NeverElected(events);
    } else if events :| NeverElected(events) && Stuck(Run(s, events)) {
      FollowerNeverWaits(s, events);
    }
  }
}
