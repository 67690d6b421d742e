/**
 * Whose mirrors a detection listens to. The results of UDP-mirror tests travel through the manager's event queue
 * without saying which detection asked for them (coreapi/TunnelManager.cc:439-478), so the result of a cancelled
 * detection that is still queued is taken for one of the next. Here each result carries, for the proof only, the
 * detection and the mirror it comes from.
 */
module TunnelDetection {
  import opened Bytes
  import opened TunnelState
  import opened TunnelRuns

  /** The test of one mirror by one detection, and what it reported. */
  datatype Test = Test(detection: nat, mirror: nat)
  datatype Result = Result(test: Test, haveUdp: bool)

  /** A result the manager acted on, and whether it counted as a failure at that moment. */
  datatype Consumed = Consumed(test: Test, failed: bool)

  /** A detection that came to its end: what it consumed, the target it set, and how many mirrors there were. */
  datatype Outcome = Outcome(detection: nat, consumed: seq<Consumed>, target: Switch, mirrors: nat)

  /** The manager, the number of detections so far, the tests under way, the results queued, and the log. */
  datatype System = System(
    s: State, detection: nat, tests: set<Test>, queue: seq<Result>, consumed: seq<Consumed>, outcomes: seq<Outcome>)

  /** A manager step that handles no mirror result, a test that reports, or the manager handling a result. */
  datatype DetectionStep = Manage(step: Step) | Report(test: Test, haveUdp: bool) | HandleResult(env: Env)

  const START: System := System(NEW, 0, {}, [], [], [])

  /** The step (re)starts detection at the first mirror. */
  predicate Starts(s: State, step: Step) {
    && s.mirrors != []
    && ((step.SetModeStep? && s.mode != step.mode && step.mode == Auto && s.core.reachable)
        || (step.NetworkStep? && step.reachable && s.mode == Auto))
  }

  /** The step cancels a running detection and with it the tests under way. */
  predicate Stops(s: State, step: Step) {
    && s.running
    && ((step.SetModeStep? && s.mode != step.mode && step.mode != Auto) || (step.NetworkStep? && !step.reachable))
  }

  /** A mirror runs one test at a time: starting one replaces the one it had. */
  function Launch(tests: set<Test>, t: Test): set<Test> {
    (set u <- tests | u.mirror != t.mirror) + {t}
  }

  predicate Enabled(y: System, x: DetectionStep) {
    match x
    case Manage(step) => !IsMirrorEvent(step)
    case Report(t, _) => t in y.tests
    case HandleResult(_) => y.queue != [] && CursorInv(y.s)
  }

  function Next(y: System, x: DetectionStep): System
    requires Enabled(y, x)
  {
    match x
    case Manage(step) => Managed(y, step)
    case Report(t, haveUdp) => y.(tests := y.tests - {t}, queue := y.queue + [Result(t, haveUdp)])
    case HandleResult(e) => Handled(y, e)
  }

  function Managed(y: System, step: Step): System
    requires !IsMirrorEvent(step)
  {
    var y1 := y.(s := TunnelState.Next(y.s, step));
    if Starts(y.s, step) then
      y1.(detection := y.detection + 1, tests := Launch(y.tests, Test(y.detection + 1, 0)), consumed := [])
    else if Stops(y.s, step) || step.CleanServersStep? then y1.(tests := {})
    else y1
  }

  function Handled(y: System, e: Env): System
    requires y.queue != [] && CursorInv(y.s)
  {
    var r := y.queue[0];
    var s' := ProcessUdpMirrorEvent(y.s, r.haveUdp, e);
    var y1 := y.(s := s', queue := y.queue[1..]);
    if !y.s.running then y1
    else
      var log := y.consumed + [Consumed(r.test, y.s.simulateLoss || !r.haveUdp)];
      if s'.running then y1.(consumed := log, tests := Launch(y.tests, Test(y.detection, s'.cursor.index)))
      else y1.(consumed := log, outcomes := y.outcomes + [Outcome(y.detection, log, s'.target, |y.s.mirrors|)])
  }

  // ---- A detection that listens to its own mirrors only -----------------------------------------------

  /** The only thing awaited is the result of the current mirror, under test or queued. */
  predicate AwaitsOwn(y: System)
    requires y.s.cursor.At?
  {
    var own := Test(y.detection, y.s.cursor.index);
    (y.tests == {own} && y.queue == []) || (y.tests == {} && |y.queue| == 1 && y.queue[0].test == own)
  }

  /** Every mirror before the current one was tested by this detection, in order, and failed. */
  predicate ConsumedOwn(y: System)
    requires y.s.cursor.At?
  {
    && |y.consumed| == y.s.cursor.index
    && forall i | 0 <= i < |y.consumed| :: y.consumed[i] == Consumed(Test(y.detection, i), true)
  }

  predicate Fresh(y: System) {
    y.s.running ==> CursorOk(y.s) && AwaitsOwn(y) && ConsumedOwn(y)
  }

  /** Nothing is left over from earlier detections: no result queued, no other mirror under test. */
  predicate Settled(y: System) {
    y.queue == [] && forall t <- y.tests :: t.mirror == 0
  }

  /** Detection is only started when nothing is left over, and servers are only cleaned while none runs. */
  predicate Proper(y: System, x: DetectionStep) {
    x.Manage? ==>
      && (Starts(y.s, x.step) ==> Settled(y))
      && !(x.step.CleanServersStep? && y.s.running)
  }

  /** What a manager step that handles no mirror result does to a detection. */
  lemma ManageFrame(s: State, step: Step)
    requires !IsMirrorEvent(step)
    ensures var t := TunnelState.Next(s, step);
            if Starts(s, step) then t.running && t.cursor == At(0) && t.mirrors == s.mirrors
            else if Stops(s, step) then !t.running
            else if step.CleanServersStep? then t.running == s.running && t.cursor == End
            else t.running == s.running && t.cursor == s.cursor && |s.mirrors| <= |t.mirrors|
  {
    hide ApplyState, StopTask, BeginTask, StopClient;
    match step
    case SetModeStep(m, e) => SetModeFrame(s, m, e);
    case NetworkStep(r, e) => NetworkStepFrame(s, r, e);
    case HandleStep(ev, e) => ApplyFrame(s, e);
    case CleanServersStep => TaskFrame(s, Env(false, 0, false));
    case AddServerStep(_, _) =>
    case AddServerPairStep(_, _, _, _) =>
    case AddMirrorStep(_, _, _) =>
    case SimulateLossStep(_) =>
    case EnableDualStep(_) =>
  }

  lemma SetModeFrame(s: State, m: Mode, e: Env)
    ensures var t := SetMode(s, m, e);
            if Starts(s, SetModeStep(m, e)) then t.running && t.cursor == At(0) && t.mirrors == s.mirrors
            else if Stops(s, SetModeStep(m, e)) then !t.running
            else t.running == s.running && t.cursor == s.cursor && t.mirrors == s.mirrors
  {
    hide ApplyState, StopTask, BeginTask;
    var s1 := s.(mode := m);
    TaskFrame(s1.(running := false), e);
    TaskFrame(s1.(cursor := At(0)), e);
    ApplyFrame(StopDetection(s1).(target := On), e);
    ApplyFrame(StopDetection(s1).(target := Off), e);
  }

  lemma NetworkStepFrame(s: State, reachable: bool, e: Env)
    ensures var t := NetworkReachable(s, reachable, e);
            if Starts(s, NetworkStep(reachable, e)) then t.running && t.cursor == At(0) && t.mirrors == s.mirrors
            else if Stops(s, NetworkStep(reachable, e)) then !t.running
            else t.running == s.running && t.cursor == s.cursor && t.mirrors == s.mirrors
  {
    hide ApplyState, StopTask, BeginTask, StopClient;
    var s1 := s.(core := s.core.(reachable := reachable));
    TaskFrame(s1.(running := false), e);
    TaskFrame(s1.(cursor := At(0)), e);
    ApplyFrame(s1, e);
    ApplyFrame(Untunnelize(StopDetection(s1)), e);
  }

  /** What is awaited after a test was launched. */
  lemma LaunchOnly(tests: set<Test>, t: Test)
    ensures Launch(tests, t) == {t} <==> forall u <- tests :: u.mirror == t.mirror
    ensures t in Launch(tests, t)
  {
    forall u <- tests | u.mirror != t.mirror ensures u in Launch(tests, t) && u != t { }
  }

  lemma ManagedFreshIff(y: System, step: Step)
    requires Fresh(y) && !IsMirrorEvent(step)
    ensures Fresh(Managed(y, step)) <==> Proper(y, Manage(step))
  {
    hide TunnelState.Next, Launch, IsMirrorEvent;
    ManageFrame(y.s, step);
    LaunchOnly(y.tests, Test(y.detection + 1, 0));
  }

  lemma HandledKeepsFresh(y: System, e: Env)
    requires Fresh(y) && y.queue != []
    ensures Fresh(Handled(y, e))
  {
    hide ApplyState, StopTask, Handle;
    HandleFrame(y.s, UdpMirrorEvent(y.queue[0].haveUdp), e);
    assert Handle(y.s, UdpMirrorEvent(y.queue[0].haveUdp), e) == ProcessUdpMirrorEvent(y.s, y.queue[0].haveUdp, e) by {
      HandleIsProcess(y.s, y.queue[0].haveUdp, e);
    }
    if y.s.running { LaunchOnly(y.tests, Test(y.detection, y.s.cursor.index + 1)); }
  }

  lemma HandleIsProcess(s: State, haveUdp: bool, e: Env)
    requires CursorInv(s)
    ensures Handle(s, UdpMirrorEvent(haveUdp), e) == ProcessUdpMirrorEvent(s, haveUdp, e)
  {
  }

  /**
   * A detection that listens to its own mirrors goes on doing so if and only if the step is proper: it does not
   * start a detection over leftovers, and does not clean the servers of a running one.
   */
  lemma FreshKeptIff(y: System, x: DetectionStep)
    requires Fresh(y) && Enabled(y, x)
    ensures Fresh(Next(y, x)) <==> Proper(y, x)
  {
    hide Managed, Handled;
    match x
    case Manage(step) => ManagedFreshIff(y, step);
    case Report(_, _) =>
    case HandleResult(e) => HandledKeepsFresh(y, e);
  }

  // ---- Verdicts -----------------------------------------------------------------------------------

  /**
   * The verdict is that of the detection's own tests, of the mirrors in order: On when every mirror failed, Off
   * at the first that did not.
   */
  predicate OwnVerdict(o: Outcome) {
    && 0 < |o.consumed| <= o.mirrors
    && (forall i | 0 <= i < |o.consumed| :: o.consumed[i].test == Test(o.detection, i))
    && (forall i | 0 <= i < |o.consumed| - 1 :: o.consumed[i].failed)
    && (if o.consumed[|o.consumed| - 1].failed then o.target == On && |o.consumed| == o.mirrors else o.target == Off)
  }

  lemma HandledVerdict(y: System, e: Env)
    requires Fresh(y) && y.queue != []
    ensures var y' := Handled(y, e);
            || y'.outcomes == y.outcomes
            || (|y'.outcomes| == |y.outcomes| + 1 && y'.outcomes[..|y.outcomes|] == y.outcomes
                && OwnVerdict(y'.outcomes[|y.outcomes|]))
  {
    hide ApplyState, StopTask, Handle;
    HandleIsProcess(y.s, y.queue[0].haveUdp, e);
    HandleFrame(y.s, UdpMirrorEvent(y.queue[0].haveUdp), e);
  }

  predicate AllOwn(y: System) { forall o <- y.outcomes :: OwnVerdict(o) }

  lemma NextKeepsOwn(y: System, x: DetectionStep)
    requires Fresh(y) && AllOwn(y) && Enabled(y, x)
    ensures AllOwn(Next(y, x))
  {
    hide OwnVerdict, Handled, Fresh, TunnelState.Next;
    if x.HandleResult? {
      HandledVerdict(y, x.env);
      var y' := Next(y, x);
      forall o <- y'.outcomes ensures OwnVerdict(o) {
        var i :| 0 <= i < |y'.outcomes| && y'.outcomes[i] == o;
        if i < |y.outcomes| { assert y'.outcomes[..|y.outcomes|][i] == y.outcomes[i]; }
      }
    }
  }

  predicate Feasible(y: System, xs: seq<DetectionStep>)
    decreases |xs|
  {
    xs == [] || (Enabled(y, xs[0]) && Feasible(Next(y, xs[0]), xs[1..]))
  }

  function Run(y: System, xs: seq<DetectionStep>): System
    requires Feasible(y, xs)
    decreases |xs|
  {
    if xs == [] then y else Run(Next(y, xs[0]), xs[1..])
  }

  predicate AllProper(y: System, xs: seq<DetectionStep>)
    requires Feasible(y, xs)
    decreases |xs|
  {
    xs == [] || (Proper(y, xs[0]) && AllProper(Next(y, xs[0]), xs[1..]))
  }

  predicate AlwaysFresh(y: System, xs: seq<DetectionStep>)
    requires Feasible(y, xs)
    decreases |xs|
  {
    Fresh(y) && (xs == [] || AlwaysFresh(Next(y, xs[0]), xs[1..]))
  }

  lemma {:induction false} RunFreshIff(y: System, xs: seq<DetectionStep>)
    requires Feasible(y, xs) && Fresh(y)
    ensures AlwaysFresh(y, xs) <==> AllProper(y, xs)
    ensures AllProper(y, xs) && AllOwn(y) ==> AllOwn(Run(y, xs))
    decreases |xs|
  {
    hide Next, Fresh, Proper, AllOwn;
    if xs != [] {
      FreshKeptIff(y, xs[0]);
      if AllOwn(y) { NextKeepsOwn(y, xs[0]); }
      if Proper(y, xs[0]) { RunFreshIff(Next(y, xs[0]), xs[1..]); }
    }
  }

  /**
   * Over every run, detections await nothing but the result of their own current mirror at every point if and only
   * if each one was started with nothing left over and servers were not cleaned while one ran. Then every verdict
   * is that of the detection's own tests.
   */
  lemma VerdictsAreOwn(xs: seq<DetectionStep>)
    requires Feasible(START, xs)
    ensures AlwaysFresh(START, xs) <==> AllProper(START, xs)
    ensures AllProper(START, xs) ==> forall o <- Run(START, xs).outcomes :: OwnVerdict(o)
  {
    RunFreshIff(START, xs);
  }

  // ---- Leftovers ----------------------------------------------------------------------------------

  /** Tests and results belong to detections that were started. */
  predicate Numbered(y: System) {
    (forall t <- y.tests :: t.detection <= y.detection) && (forall r <- y.queue :: r.test.detection <= y.detection)
  }

  lemma NextKeepsNumbered(y: System, x: DetectionStep)
    requires Numbered(y) && Enabled(y, x)
    ensures Numbered(Next(y, x))
  {
    hide TunnelState.Next, ProcessUdpMirrorEvent;
  }

  lemma {:induction false} RunKeepsNumbered(y: System, xs: seq<DetectionStep>)
    requires Numbered(y) && Feasible(y, xs)
    ensures Numbered(Run(y, xs))
    decreases |xs|
  {
    hide Next, Numbered;
    if xs != [] {
      NextKeepsNumbered(y, xs[0]);
      RunKeepsNumbered(Next(y, xs[0]), xs[1..]);
    }
  }

  /** Only reports and handlings: the manager is left to itself. */
  predicate Listening(xs: seq<DetectionStep>) { forall x <- xs :: !x.Manage? }

  /** The verdicts reached since there were `n` are own. */
  predicate OwnSince(n: nat, y: System) { forall i | n <= i < |y.outcomes| :: OwnVerdict(y.outcomes[i]) }

  lemma {:induction false} ListeningKeepsOwn(y: System, xs: seq<DetectionStep>, n: nat)
    requires Fresh(y) && n <= |y.outcomes| && OwnSince(n, y) && Feasible(y, xs) && Listening(xs)
    ensures OwnSince(n, Run(y, xs))
    decreases |xs|
  {
    hide Handled, Fresh, OwnVerdict;
    if xs != [] {
      var x := xs[0];
      assert !x.Manage?;
      FreshKeptIff(y, x);
      if x.HandleResult? { HandledVerdict(y, x.env); }
      ListeningKeepsOwn(Next(y, x), xs[1..], n);
    }
  }

  /** The verdict a run adds, of a log that takes up the present one with the result at the head of the queue. */
  predicate EndsWith(y: System, z: System)
    requires y.queue != []
  {
    && |z.outcomes| == |y.outcomes| + 1
    && var o := z.outcomes[|y.outcomes|];
    && o.detection == y.detection && |o.consumed| > |y.consumed|
    && o.consumed[..|y.consumed|] == y.consumed && o.consumed[|y.consumed|].test == y.queue[0].test
  }

  /** What handling the head of the queue does to a running detection. */
  lemma HandledEffect(y: System, e: Env)
    requires y.queue != [] && y.s.running && CursorOk(y.s)
    ensures var z := Handled(y, e);
            var log := y.consumed + [Consumed(y.queue[0].test, y.s.simulateLoss || !y.queue[0].haveUdp)];
            && z.detection == y.detection && z.consumed == log && z.queue == y.queue[1..]
            && (z.s.running ==>
                  && z.outcomes == y.outcomes && CursorOk(z.s) && z.s.mirrors == y.s.mirrors
                  && z.s.cursor.index == y.s.cursor.index + 1 && Test(y.detection, z.s.cursor.index) in z.tests)
            && (!z.s.running ==> EndsWith(y, z))
  {
    hide ApplyState, StopTask, Handle, Launch;
    HandleIsProcess(y.s, y.queue[0].haveUdp, e);
    HandleFrame(y.s, UdpMirrorEvent(y.queue[0].haveUdp), e);
    LaunchOnly(y.tests, Test(y.detection, y.s.cursor.index + 1));
  }

  lemma RunCons(y: System, x: DetectionStep, xs: seq<DetectionStep>)
    requires Enabled(y, x) && Feasible(Next(y, x), xs)
    ensures Feasible(y, [x] + xs) && Run(y, [x] + xs) == Run(Next(y, x), xs)
    ensures !x.Manage? && Listening(xs) ==> Listening([x] + xs)
  {
    hide Next, Enabled;
    assert ([x] + xs)[1..] == xs;
  }

  /** A running detection with a result queued can be brought to its end by reports and handlings. */
  lemma {:induction false} Completes(y: System, e: Env) returns (xs: seq<DetectionStep>)
    requires y.queue != [] && y.s.running && CursorOk(y.s)
    ensures Listening(xs) && Feasible(y, xs) && EndsWith(y, Run(y, xs))
    decreases |y.s.mirrors| - y.s.cursor.index
  {
    hide Handled, Feasible, Run;
    var handle := HandleResult(e);
    var z := Next(y, handle);
    HandledEffect(y, e);
    if !z.s.running {
      xs := [handle];
      RunTrace([y, z], xs);
    } else if z.queue != [] {
      var rest := Completes(z, e);
      xs := [handle] + rest;
      RunCons(y, handle, rest);
      EndsLater(y, z, Run(y, xs));
    } else {
      var report := Report(Test(y.detection, z.s.cursor.index), true);
      var z' := Next(z, report);
      var rest := Completes(z', e);
      RunCons(z, report, rest);
      RunCons(y, handle, [report] + rest);
      xs := [handle] + ([report] + rest);
      EndsLater(y, z', Run(y, xs));
    }
  }

  /** The end of what comes after the first handling is the end of the whole. */
  lemma EndsLater(y: System, z: System, w: System)
    requires y.queue != [] && z.queue != [] && EndsWith(z, w)
    requires z.detection == y.detection && z.outcomes == y.outcomes
    requires |z.consumed| == |y.consumed| + 1 && z.consumed[..|y.consumed|] == y.consumed
    requires z.consumed[|y.consumed|].test == y.queue[0].test
    ensures EndsWith(y, w)
  {
    var o, n := w.outcomes[|y.outcomes|], |y.consumed|;
    assert o.consumed[..n] == o.consumed[..n + 1][..n] && o.consumed[n] == o.consumed[..n + 1][n];
  }

  /** A detection started over leftovers can end in a verdict on another detection's result. */
  lemma LeftoverMisleads(y: System, step: Step, e: Env) returns (xs: seq<DetectionStep>)
    requires Numbered(y) && !IsMirrorEvent(step) && Starts(y.s, step) && !Settled(y)
    ensures Listening(xs) && Feasible(Managed(y, step), xs)
    ensures var z := Run(Managed(y, step), xs);
            |z.outcomes| == |y.outcomes| + 1 && z.outcomes[|y.outcomes|].detection == y.detection + 1
            && !OwnVerdict(z.outcomes[|y.outcomes|])
  {
    hide TunnelState.Next, IsMirrorEvent, Starts, Feasible, Run;
    var y1 := Managed(y, step);
    ManageFrame(y.s, step);
    MirrorsWhenStarting(y.s, step);
    if y.queue != [] {
      assert y1.queue[0] in y.queue;
      xs := Completes(y1, e);
    } else {
      var t :| t in y.tests && t.mirror != 0;
      var report := Report(t, true);
      assert t in y1.tests;
      var y2 := Next(y1, report);
      assert y2.queue == [Result(t, true)];
      var rest := Completes(y2, e);
      xs := [report] + rest;
      RunCons(y1, report, rest);
    }
  }

  /**
   * Exactly when it matters: in every reachable system, a detection is started with nothing left over if and only
   * if every continuation by reports and handlings gives own verdicts only.
   */
  lemma SettledIffOwn(xs: seq<DetectionStep>, step: Step)
    requires Feasible(START, xs) && !IsMirrorEvent(step) && Starts(Run(START, xs).s, step)
    ensures var y := Run(START, xs);
            var y1 := Managed(y, step);
            Settled(y) <==> forall zs | Listening(zs) && Feasible(y1, zs) :: OwnSince(|y.outcomes|, Run(y1, zs))
  {
    hide Managed, OwnVerdict, Fresh, Numbered, Settled, Starts;
    var y := Run(START, xs);
    var y1 := Managed(y, step);
    ManagedOutcomes(y, step);
    if Settled(y) {
      SettledStartIsFresh(y, step);
      forall zs | Listening(zs) && Feasible(y1, zs) ensures OwnSince(|y.outcomes|, Run(y1, zs)) {
        ListeningKeepsOwn(y1, zs, |y.outcomes|);
      }
    } else {
      assert Numbered(START) by { StartNumbered(); }
      RunKeepsNumbered(START, xs);
      var zs := LeftoverMisleads(y, step, Env(false, 0, false));
      assert !OwnSince(|y.outcomes|, Run(y1, zs));
    }
  }

  lemma StartNumbered()
    ensures Numbered(START)
  {
  }

  lemma ManagedOutcomes(y: System, step: Step)
    requires !IsMirrorEvent(step)
    ensures Managed(y, step).outcomes == y.outcomes
  {
  }

  lemma SettledStartIsFresh(y: System, step: Step)
    requires !IsMirrorEvent(step) && Starts(y.s, step) && Settled(y)
    ensures Fresh(Managed(y, step))
  {
    hide TunnelState.Next, Launch, IsMirrorEvent;
    ManageFrame(y.s, step);
    LaunchOnly(y.tests, Test(y.detection + 1, 0));
  }

  lemma MirrorsWhenStarting(s: State, step: Step)
    requires Starts(s, step)
    ensures s.mirrors != []
  {
  }

  // The failing run: on a network without UDP the one mirror reports failure, which is still queued when the
  // network goes and another comes back; there the mirror answers, but the old result is handled first.

  function OverLeftover(e: Env): seq<DetectionStep> {
    [Manage(AddMirrorStep(Some("h"), 1, 0)), Manage(NetworkStep(true, e)), Manage(SetModeStep(Auto, e)),
     Report(Test(1, 0), false), Manage(NetworkStep(false, e)), Manage(NetworkStep(true, e)),
     Report(Test(2, 0), true), HandleResult(e)]
  }

  /** A run given state by state. */
  lemma {:induction false} RunTrace(ys: seq<System>, xs: seq<DetectionStep>)
    requires |ys| == |xs| + 1
    requires forall i | 0 <= i < |xs| :: Enabled(ys[i], xs[i]) && ys[i + 1] == Next(ys[i], xs[i])
    ensures Feasible(ys[0], xs) && Run(ys[0], xs) == ys[|xs|]
    decreases |xs|
  {
    hide Next, Enabled;
    if xs != [] {
      RunTrace(ys[1..], xs[1..]);
    }
  }

  /** Up to the first detection, which has its mirror under test. */
  lemma FirstDetection(e: Env)
    ensures var y1 := Next(START, Manage(AddMirrorStep(Some("h"), 1, 0)));
            var y2 := Next(y1, Manage(NetworkStep(true, e)));
            var y3 := Next(y2, Manage(SetModeStep(Auto, e)));
            && y3.detection == 1 && y3.tests == {Test(1, 0)} && y3.queue == [] && y3.outcomes == []
            && y3.s.mode == Auto && y3.s.running && !y3.s.simulateLoss && |y3.s.mirrors| == 1
  {
    var y1 := Next(START, Manage(AddMirrorStep(Some("h"), 1, 0)));
    var y2 := Next(y1, Manage(NetworkStep(true, e)));
    assert y2.s.core.reachable && y2.s.mode == Disable && !y2.s.running && |y2.s.mirrors| == 1;
  }

  /** The network goes and comes back while a failure is queued. */
  lemma SecondDetection(y: System, e: Env)
    requires y.s.mode == Auto && y.s.running && |y.s.mirrors| == 1 && y.tests == {}
    ensures var y1 := Next(y, Manage(NetworkStep(false, e)));
            var y2 := Next(y1, Manage(NetworkStep(true, e)));
            && y2.detection == y.detection + 1 && y2.tests == {Test(y.detection + 1, 0)} && y2.queue == y.queue
            && y2.outcomes == y.outcomes && y2.consumed == [] && y2.s.running && y2.s.cursor == At(0)
            && y2.s.mirrors == y.s.mirrors && y2.s.simulateLoss == y.s.simulateLoss
  {
    hide StopTask, BeginTask, StopClient;
    var s1 := y.s.(core := y.s.core.(reachable := false));
    TaskFrame(s1.(running := false), e);
    ApplyFrame(Untunnelize(StopDetection(s1)), e);
    var y1 := Next(y, Manage(NetworkStep(false, e)));
    assert y1.s.mode == Auto && y1.tests == {} && y1.s.mirrors == y.s.mirrors;
    TaskFrame(y1.s.(core := y1.s.core.(reachable := true)).(cursor := At(0)), e);
  }

  lemma ReportQueues(y: System, t: Test, haveUdp: bool)
    requires y.tests == {t}
    ensures Enabled(y, Report(t, haveUdp))
    ensures Next(y, Report(t, haveUdp)) == y.(tests := {}, queue := y.queue + [Result(t, haveUdp)])
  {
    assert y.tests - {t} == {};
  }

  lemma LastMirrorFails(y: System, e: Env)
    requires y.queue != [] && !y.queue[0].haveUdp
    requires y.s.running && y.s.cursor == At(0) && |y.s.mirrors| == 1
    ensures Enabled(y, HandleResult(e))
    ensures var z := Next(y, HandleResult(e));
            var log := y.consumed + [Consumed(y.queue[0].test, true)];
            && z.outcomes == y.outcomes + [Outcome(y.detection, log, On, 1)] && z.queue == y.queue[1..]
            && z.s.target == On && !z.s.running
  {
    hide Handle, ApplyState, StopTask;
    HandleIsProcess(y.s, false, e);
    HandleFrame(y.s, UdpMirrorEvent(false), e);
  }

  /** The second detection sets the target On, although the only test it made found UDP. */
  lemma LeftoverDecides(e: Env)
    ensures Feasible(START, OverLeftover(e))
    ensures var z := Run(START, OverLeftover(e));
            && z.outcomes == [Outcome(2, [Consumed(Test(1, 0), true)], On, 1)] && !OwnVerdict(z.outcomes[0])
            && z.queue == [Result(Test(2, 0), true)] && z.s.target == On && !z.s.running
  {
    hide Next, Feasible, Run;
    var xs := OverLeftover(e);
    var y1 := Next(START, xs[0]);
    var y2 := Next(y1, xs[1]);
    var y3 := Next(y2, xs[2]);
    FirstDetection(e);
    var y4 := Next(y3, xs[3]);
    ReportQueues(y3, Test(1, 0), false);
    var y5 := Next(y4, xs[4]);
    var y6 := Next(y5, xs[5]);
    SecondDetection(y4, e);
    var y7 := Next(y6, xs[6]);
    ReportQueues(y6, Test(2, 0), true);
    assert y7.queue == [Result(Test(1, 0), false), Result(Test(2, 0), true)];
    var y8 := Next(y7, xs[7]);
    LastMirrorFails(y7, e);
    assert y7.consumed + [Consumed(Test(1, 0), true)] == [Consumed(Test(1, 0), true)];
    RunTrace([START, y1, y2, y3, y4, y5, y6, y7, y8], xs);
  }
}
