/**
 * The event queue of the tunnel manager under its mutex (coreapi/TunnelManager.cc:395-427, 466-478):
 * any number of callback threads run `postEvent` while the core's thread runs `onIterate`, which gives
 * the mutex up around each event it handles. Every instruction on the shared queue is a step of its own.
 */
module TunnelQueue {
  import opened Bytes
  import opened TunnelState

  datatype Thread = CoreThread | Callback(id: nat)

  /** Where a callback thread is: outside, holding the mutex before the push, or after it. */
  datatype PostPc = Outside | BeforePush(ev: Event) | AfterPush

  /** Where the core's thread is in its loop; it holds the mutex in Testing and Popped only. */
  datatype IteratePc = Idle | Testing | Popped(ev: Event) | Handling(ev: Event) | Relocking

  datatype Config = Config(
    owner: Option<Thread>, posters: map<nat, PostPc>, core: IteratePc, evq: seq<Event>,
    posted: seq<Event>, handled: seq<Event>)

  datatype Step =
    | PostLock(id: nat, ev: Event) | PostPush(id: nat) | PostUnlock(id: nat)
    | IterateLock | PopOrLeave | UnlockToHandle | HandleEvent

  function PcOf(c: Config, id: nat): PostPc {
    if id in c.posters then c.posters[id] else Outside
  }

  predicate Enabled(c: Config, s: Step) {
    match s
    case PostLock(id, _) => PcOf(c, id).Outside? && c.owner.None?
    case PostPush(id) => PcOf(c, id).BeforePush?
    case PostUnlock(id) => PcOf(c, id).AfterPush?
    case IterateLock => (c.core.Idle? || c.core.Relocking?) && c.owner.None?
    case PopOrLeave => c.core.Testing?
    case UnlockToHandle => c.core.Popped?
    case HandleEvent => c.core.Handling?
  }

  function Next(c: Config, s: Step): Config
    requires Enabled(c, s)
  {
    match s
    case PostLock(id, ev) => c.(owner := Some(Callback(id)), posters := c.posters[id := BeforePush(ev)])
    case PostPush(id) =>
      var ev := PcOf(c, id).ev;
      c.(evq := c.evq + [ev], posted := c.posted + [ev], posters := c.posters[id := AfterPush])
    case PostUnlock(id) => c.(owner := None, posters := c.posters[id := Outside])
    case IterateLock => c.(owner := Some(CoreThread), core := Testing)
    case PopOrLeave =>
      if c.evq == [] then c.(owner := None, core := Idle)
      else c.(core := Popped(c.evq[0]), evq := c.evq[1..])
    case UnlockToHandle => c.(owner := None, core := Handling(c.core.ev))
    case HandleEvent => c.(handled := c.handled + [c.core.ev], core := Relocking)
  }

  /** The event taken off the queue and not yet handled. */
  function InFlight(c: Config): seq<Event> {
    if c.core.Popped? || c.core.Handling? then [c.core.ev] else []
  }

  /** Whoever stands in a critical section owns the mutex, and nobody else stands in one. */
  ghost predicate MutexOk(c: Config) {
    && (c.owner == Some(CoreThread) <==> c.core.Testing? || c.core.Popped?)
    && (forall id: nat :: c.owner == Some(Callback(id)) <==> !PcOf(c, id).Outside?)
  }

  /** Nothing lost, nothing twice, in order: posted is handled, then the one in flight, then the queue. */
  ghost predicate Inv(c: Config) {
    MutexOk(c) && c.posted == c.handled + InFlight(c) + c.evq
  }

  const START: Config := Config(None, map[], Idle, [], [], [])

  lemma NextKeepsInv(c: Config, s: Step)
    requires Inv(c) && Enabled(c, s)
    ensures Inv(Next(c, s))
  {
    var d := Next(c, s);
    forall id: nat ensures d.owner == Some(Callback(id)) <==> !PcOf(d, id).Outside? {
      assert c.owner == Some(Callback(id)) <==> !PcOf(c, id).Outside?;
      if s.PostPush? { assert c.owner == Some(Callback(s.id)) <==> !PcOf(c, s.id).Outside?; }
      if s.PostUnlock? { assert c.owner == Some(Callback(s.id)) <==> !PcOf(c, s.id).Outside?; }
    }
  }

  ghost predicate Feasible(c: Config, steps: seq<Step>)
    decreases |steps|
  {
    steps == [] || (Enabled(c, steps[0]) && Feasible(Next(c, steps[0]), steps[1..]))
  }

  ghost function Run(c: Config, steps: seq<Step>): Config
    requires Feasible(c, steps)
    decreases |steps|
  {
    if steps == [] then c else Run(Next(c, steps[0]), steps[1..])
  }

  lemma {:induction false} RunKeepsInv(c: Config, steps: seq<Step>)
    requires Inv(c) && Feasible(c, steps)
    ensures Inv(Run(c, steps))
    decreases |steps|
  {
    if steps != [] {
      NextKeepsInv(c, steps[0]);
      RunKeepsInv(Next(c, steps[0]), steps[1..]);
    }
  }

  /**
   * Under every interleaving, the events handled are a prefix of the events posted, at most one is in
   * flight, and when the core's thread leaves its loop everything posted so far has been handled.
   */
  lemma HandledIsPrefix(steps: seq<Step>)
    requires Feasible(START, steps)
    ensures var c := Run(START, steps);
            && c.handled <= c.posted
            && c.posted == c.handled + InFlight(c) + c.evq
            && (Enabled(c, PopOrLeave) && Next(c, PopOrLeave).core.Idle? ==> c.handled == c.posted)
  {
    RunKeepsInv(START, steps);
    var c := Run(START, steps);
    assert c.posted == c.handled + (InFlight(c) + c.evq);
  }

  /** The queue is only ever touched by the thread that holds the mutex. */
  lemma QueueIsGuarded(steps: seq<Step>, s: Step)
    requires Feasible(START, steps) && Enabled(Run(START, steps), s)
    ensures var c := Run(START, steps);
            Next(c, s).evq != c.evq ==>
              c.owner == Some(if s.PostPush? then Callback(s.id) else CoreThread)
  {
    RunKeepsInv(START, steps);
    var c := Run(START, steps);
    if s.PostPush? {
      assert c.owner == Some(Callback(s.id)) <==> !PcOf(c, s.id).Outside?;
    }
  }

  // ---- Progress -------------------------------------------------------------------------------------

  lemma RunCons(c: Config, s: Step, steps: seq<Step>)
    requires Enabled(c, s) && Feasible(Next(c, s), steps)
    ensures Feasible(c, [s] + steps) && Run(c, [s] + steps) == Run(Next(c, s), steps)
  {
    hide Next, Enabled;
    assert ([s] + steps)[1..] == steps;
  }

  /** When the mutex is free a callback thread can post its event, once, and be outside again. */
  lemma PostCompletes(c: Config, id: nat, ev: Event)
    requires Inv(c) && c.owner.None?
    ensures var steps := [PostLock(id, ev), PostPush(id), PostUnlock(id)];
            && Feasible(c, steps)
            && var d := Run(c, steps);
            && d.posted == c.posted + [ev] && d.evq == c.evq + [ev] && d.owner.None? && PcOf(d, id).Outside?
            && d.core == c.core && d.handled == c.handled
  {
    assert c.owner == Some(Callback(id)) <==> !PcOf(c, id).Outside?;
    var c1 := Next(c, PostLock(id, ev));
    var c2 := Next(c1, PostPush(id));
    var c3 := Next(c2, PostUnlock(id));
    assert Run(c3, []) == c3;
    RunCons(c2, PostUnlock(id), []);
    RunCons(c1, PostPush(id), [PostUnlock(id)]);
    RunCons(c, PostLock(id, ev), [PostPush(id), PostUnlock(id)]);
    assert [PostUnlock(id)] + [] == [PostUnlock(id)];
    assert [PostPush(id)] + [PostUnlock(id)] == [PostPush(id), PostUnlock(id)];
    assert [PostLock(id, ev)] + [PostPush(id), PostUnlock(id)] == [PostLock(id, ev), PostPush(id), PostUnlock(id)];
  }

  /** When the mutex is free the core's thread can handle everything queued and leave its loop. */
  lemma {:induction false} CoreDrains(c: Config) returns (steps: seq<Step>)
    requires Inv(c) && c.owner.None? && (c.core.Idle? || c.core.Relocking?)
    ensures Feasible(c, steps)
    ensures var d := Run(c, steps);
            d.core.Idle? && d.owner.None? && d.evq == [] && d.posted == c.posted && d.handled == d.posted
    decreases |c.evq|
  {
    hide Run, Feasible, MutexOk;
    var c1 := Next(c, IterateLock);
    NextKeepsInv(c, IterateLock);
    var c2 := Next(c1, PopOrLeave);
    NextKeepsInv(c1, PopOrLeave);
    if c.evq == [] {
      NoSteps(c2);
      RunCons(c1, PopOrLeave, []);
      RunCons(c, IterateLock, [PopOrLeave] + []);
      steps := [IterateLock] + ([PopOrLeave] + []);
    } else {
      var c3 := Next(c2, UnlockToHandle);
      NextKeepsInv(c2, UnlockToHandle);
      var c4 := Next(c3, HandleEvent);
      NextKeepsInv(c3, HandleEvent);
      var rest := CoreDrains(c4);
      RunCons(c3, HandleEvent, rest);
      RunCons(c2, UnlockToHandle, [HandleEvent] + rest);
      RunCons(c1, PopOrLeave, [UnlockToHandle] + ([HandleEvent] + rest));
      RunCons(c, IterateLock, [PopOrLeave] + ([UnlockToHandle] + ([HandleEvent] + rest)));
      steps := [IterateLock] + ([PopOrLeave] + ([UnlockToHandle] + ([HandleEvent] + rest)));
    }
  }

  lemma NoSteps(c: Config)
    ensures Feasible(c, []) && Run(c, []) == c
  {
  }
}
