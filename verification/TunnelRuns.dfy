/** What holds of the tunnel manager in every reachable state, and how a detection ends. */
module TunnelRuns {
  import opened Bytes
  import opened TunnelState

  // ---- The manager's invariant -----------------------------------------------------------------------

  /** The mode decides the target, and only the automatic mode lets detection run. */
  predicate ModeOk(s: State) {
    && (s.running ==> s.mode == Auto && s.core.reachable)
    && (s.mode == Enable ==> s.target == On)
    && (s.mode == Disable ==> s.target == Off)
  }

  predicate ClientRuns(s: State) { s.client.Some? && s.client.value.started }

  /** Tunnelled means wanted, with a running client and factories; otherwise none. No client runs unreachable. */
  predicate TunnelOk(s: State) {
    HalfTunnelOk(s) && (s.state == On ==> s.target == On)
  }

  /** The tasks begun are those ended, in order, and then the one held; a held task belongs to a detection. */
  predicate TaskOk(s: State) {
    && s.core.begun == s.core.ended + (if s.taskId != 0 then [s.taskId] else [])
    && (s.taskId != 0 ==> s.running)
  }

  predicate Inv(s: State) {
    ModeOk(s) && TunnelOk(s) && TaskOk(s)
  }

  /** As `TunnelOk`, before the target is caught up with. */
  predicate HalfTunnelOk(s: State) {
    && (s.state == On ==> s.core.reachable && ClientRuns(s) && s.core.factories)
    && (s.state == Off ==> !s.core.factories)
    && (ClientRuns(s) ==> s.core.reachable)
  }

  /** Catching up with the target touches only the state, the client and the factories. */
  lemma ApplyStateOk(s: State, e: Env)
    requires HalfTunnelOk(s)
    ensures TunnelOk(ApplyState(s, e))
    ensures var t := ApplyState(s, e);
            t == s.(state := t.state, client := t.client, core := s.core.(factories := t.core.factories))
  {
  }

  /** Task and detection flags move together. */
  lemma DetectionOk(s: State, e: Env)
    requires TaskOk(s)
    ensures var t := StopDetection(s);
            && TaskOk(t) && !t.running
            && t == s.(running := false, taskId := t.taskId, core := s.core.(ended := t.core.ended))
    ensures var t := StartDetection(s, e);
            TaskOk(t) && t == s.(running := t.running, cursor := t.cursor, taskId := t.taskId,
                                 core := s.core.(begun := t.core.begun))
    ensures var t := StopTask(s.(running := false));
            TaskOk(t) && t == s.(running := false, taskId := 0, core := s.core.(ended := t.core.ended))
  {
  }

  lemma SetModeOk(s: State, m: Mode, e: Env)
    requires Inv(s)
    ensures Inv(SetMode(s, m, e))
  {
    hide ApplyState, StopDetection, StartDetection, StopTask;
    var s1 := s.(mode := m);
    DetectionOk(s1, e);
    if m != Auto {
      ApplyStateOk(StopDetection(s1).(target := if m == Enable then On else Off), e);
    }
  }

  lemma MirrorEventOk(s: State, haveUdp: bool, e: Env)
    requires Inv(s) && CursorInv(s)
    ensures Inv(ProcessUdpMirrorEvent(s, haveUdp, e))
  {
    hide ApplyState, StopTask;
    ApplyStateOk(s.(cursor := End, target := On), e);
    ApplyStateOk(s.(target := Off), e);
    DetectionOk(ApplyState(s.(cursor := End, target := On), e), e);
    DetectionOk(ApplyState(s.(target := Off), e), e);
  }

  lemma NetworkOk(s: State, reachable: bool, e: Env)
    requires Inv(s)
    ensures Inv(NetworkReachable(s, reachable, e))
  {
    hide ApplyState, StopDetection, StartDetection;
    var s1 := s.(core := s.core.(reachable := reachable));
    DetectionOk(s1, e);
    if reachable { ApplyStateOk(s1, e); }
  }

  lemma CleanServersOk(s: State)
    requires Inv(s)
    ensures Inv(CleanServers(s))
  {
  }

  lemma NextKeepsInv(s: State, step: Step)
    requires Inv(s) && Defined(s, step)
    ensures Inv(Next(s, step))
  {
    hide ApplyState, SetMode, NetworkReachable, ProcessUdpMirrorEvent, CleanServers;
    match step
    case SetModeStep(m, e) => SetModeOk(s, m, e);
    case NetworkStep(r, e) => NetworkOk(s, r, e);
    case HandleStep(ev, e) =>
      ApplyStateOk(s, e);
      if ev.UdpMirrorEvent? && s.running { MirrorEventOk(s, ev.haveUdp, e); }
      if ev.UdpMirrorEvent? && !s.running { StaleEvent(s, ev.haveUdp, e); }
    case CleanServersStep => CleanServersOk(s);
    case AddServerStep(_, _) =>
    case AddServerPairStep(_, _, _, _) =>
    case AddMirrorStep(_, _, _) =>
    case SimulateLossStep(_) =>
    case EnableDualStep(_) =>
  }

  /** A mirror event after its detection was cancelled does nothing. */
  lemma StaleEvent(s: State, haveUdp: bool, e: Env)
    requires !s.running
    ensures ProcessUdpMirrorEvent(s, haveUdp, e) == s
  {
  }

  lemma {:induction false} RunKeepsInv(s: State, steps: seq<Step>)
    requires Inv(s) && AllDefined(s, steps)
    ensures Inv(Run(s, steps))
    decreases |steps|
  {
    if steps != [] {
      NextKeepsInv(s, steps[0]);
      RunKeepsInv(Next(s, steps[0]), steps[1..]);
    }
  }

  /**
   * In every reachable state: detection runs only in automatic mode, the tunnel is on only when wanted,
   * reachable, with a running client and with factories installed, off means factories removed, no client runs
   * unreachable, and a background task is held only while detection runs.
   */
  lemma ReachableStateOk(steps: seq<Step>)
    requires AllDefined(NEW, steps)
    ensures var s := Run(NEW, steps); ModeOk(s) && TunnelOk(s) && (s.taskId != 0 ==> s.running)
  {
    RunKeepsInv(NEW, steps);
  }

  /**
   * The tasks ended are always those begun, in order, but for the one held; and whenever the manager is destroyed,
   * each one begun has been ended exactly once.
   */
  lemma TasksBalanced(steps: seq<Step>, e: Env)
    requires AllDefined(NEW, steps)
    ensures var s := Run(NEW, steps);
            && s.core.begun == s.core.ended + (if s.taskId != 0 then [s.taskId] else [])
            && s.core.ended <= s.core.begun && |s.core.begun| <= |s.core.ended| + 1
            && Destroy(s, e).core.ended == Destroy(s, e).core.begun == s.core.begun
            && Destroy(s, e).taskId == 0
  {
    RunKeepsInv(NEW, steps);
  }

  lemma ModeKept(s: State, step: Step)
    requires Defined(s, step) && !step.SetModeStep?
    ensures Next(s, step).mode == s.mode
  {
    hide ApplyState, StopTask, BeginTask, StopClient;
    match step
    case NetworkStep(r, e) =>
      var s1 := s.(core := s.core.(reachable := r));
      TaskFrame(s1.(running := false), e);
      TaskFrame(s1.(cursor := At(0)), e);
      ApplyFrame(s1, e);
      ApplyFrame(Untunnelize(StopDetection(s1)), e);
    case HandleStep(ev, e) =>
      ApplyFrame(s, e);
      ApplyFrame(s.(cursor := End, target := On), e);
      ApplyFrame(s.(target := Off), e);
      TaskFrame(ApplyState(s.(cursor := End, target := On), e).(running := false), e);
      TaskFrame(ApplyState(s.(target := Off), e).(running := false), e);
    case CleanServersStep => TaskFrame(s, Env(false, 0, false));
    case AddServerStep(_, _) =>
    case AddServerPairStep(_, _, _, _) =>
    case AddMirrorStep(_, _, _) =>
    case SimulateLossStep(_) =>
    case EnableDualStep(_) =>
  }

  predicate NoModeChange(steps: seq<Step>) {
    forall step <- steps :: !step.SetModeStep?
  }

  /**
   * Until the next change of mode, no event, stale or not, and no change of network or servers can move
   * the target away from On under Enable or from Off under Disable.
   */
  lemma {:induction false} TargetFixedUnderMode(s: State, steps: seq<Step>)
    requires Inv(s) && s.mode != Auto && AllDefined(s, steps) && NoModeChange(steps)
    ensures var t := Run(s, steps);
            t.mode == s.mode && !t.running && t.target == (if s.mode == Enable then On else Off)
    decreases |steps|
  {
    hide TunnelOk, TaskOk, Next;
    if steps != [] {
      NextKeepsInv(s, steps[0]);
      var t := Next(s, steps[0]);
      assert !steps[0].SetModeStep?;
      ModeKept(s, steps[0]);
      TargetFixedUnderMode(t, steps[1..]);
    }
  }

  // ---- The mirror cursor ---------------------------------------------------------------------------

  predicate CursorInv(s: State) {
    s.running ==> CursorOk(s)
  }

  /** Two states with the same mode and detection. */
  predicate SameDetection(s: State, t: State) {
    && t.mode == s.mode && t.running == s.running && t.mirrors == s.mirrors && t.cursor == s.cursor
    && t.simulateLoss == s.simulateLoss
  }

  lemma ApplyFrame(s: State, e: Env)
    ensures SameDetection(s, ApplyState(s, e)) && ApplyState(s, e).target == s.target
    ensures SameDetection(s, StopClient(s, e))
  {
  }

  lemma TaskFrame(s: State, e: Env)
    ensures SameDetection(s, StopTask(s)) && StopTask(s).target == s.target
    ensures SameDetection(s, BeginTask(s, e)) && BeginTask(s, e).target == s.target
  {
  }

  lemma ModeFrame(s: State, m: Mode, e: Env)
    requires CursorInv(s)
    ensures CursorInv(SetMode(s, m, e))
  {
    hide ApplyState, StopTask, BeginTask;
    var s1 := s.(mode := m);
    TaskFrame(s1.(running := false), e);
    TaskFrame(s1.(cursor := At(0)), e);
    ApplyFrame(StopDetection(s1).(target := On), e);
    ApplyFrame(StopDetection(s1).(target := Off), e);
  }

  lemma NetworkFrame(s: State, reachable: bool, e: Env)
    requires CursorInv(s)
    ensures CursorInv(NetworkReachable(s, reachable, e))
  {
    hide ApplyState, StopTask, BeginTask, StopClient;
    var s1 := s.(core := s.core.(reachable := reachable));
    TaskFrame(s1.(running := false), e);
    TaskFrame(s1.(cursor := At(0)), e);
    ApplyFrame(s1, e);
    ApplyFrame(Untunnelize(StopDetection(s1)), e);
  }

  /** What handling an event does to a detection. */
  lemma HandleFrame(s: State, ev: Event, e: Env)
    requires CursorInv(s)
    ensures var t := Handle(s, ev, e);
            && t.mirrors == s.mirrors && t.simulateLoss == s.simulateLoss && CursorInv(t)
            && (ev.TunnelEvent? || !s.running ==> SameDetection(s, t) && t.target == s.target)
            && (ev.UdpMirrorEvent? && s.running ==>
                  var left := |s.mirrors| - s.cursor.index;
                  if !(s.simulateLoss || !ev.haveUdp) then !t.running && t.target == Off
                  else if left == 1 then !t.running && t.target == On
                  else t.running && t.target == s.target && t.cursor == At(s.cursor.index + 1))
  {
    hide ApplyState, StopTask;
    ApplyFrame(s, e);
    ApplyFrame(s.(cursor := End, target := On), e);
    ApplyFrame(s.(target := Off), e);
    TaskFrame(ApplyState(s.(cursor := End, target := On), e).(running := false), e);
    TaskFrame(ApplyState(s.(target := Off), e).(running := false), e);
  }

  /** A step keeps the cursor valid during detection, unless it cleans the servers of a running detection. */
  lemma CursorKeptIff(s: State, step: Step)
    requires CursorInv(s)
    ensures Defined(s, step)
    ensures CursorInv(Next(s, step)) <==> !(step.CleanServersStep? && s.running)
  {
    hide ApplyState, StopTask, BeginTask, StopClient;
    match step
    case SetModeStep(m, e) => ModeFrame(s, m, e);
    case NetworkStep(r, e) => NetworkFrame(s, r, e);
    case HandleStep(ev, e) => HandleFrame(s, ev, e);
    case CleanServersStep => TaskFrame(s, Env(false, 0, false));
    case AddServerStep(_, _) =>
    case AddServerPairStep(_, _, _, _) =>
    case AddMirrorStep(_, _, _) =>
    case SimulateLossStep(_) =>
    case EnableDualStep(_) =>
  }

  /** Servers are only cleaned while no detection runs. */
  predicate CleansIdle(s: State, steps: seq<Step>)
    requires AllDefined(s, steps)
    decreases |steps|
  {
    steps == [] || (!(steps[0].CleanServersStep? && s.running) && CleansIdle(Next(s, steps[0]), steps[1..]))
  }

  /** Under that discipline every sequence of steps is defined and the cursor is always readable. */
  lemma {:induction false} CursorValid(s: State, steps: seq<Step>)
    requires CursorInv(s)
    requires forall i | 0 <= i < |steps| && steps[i].CleanServersStep? ::
               AllDefined(s, steps[..i]) ==> !Run(s, steps[..i]).running
    ensures AllDefined(s, steps) && CleansIdle(s, steps) && CursorInv(Run(s, steps))
    decreases |steps|
  {
    if steps != [] {
      var step := steps[0];
      assert steps[..0] == [];
      assert Defined(s, step);
      CursorKeptIff(s, step);
      var t := Next(s, step);
      forall i | 0 <= i < |steps[1..]| && steps[1..][i].CleanServersStep?
        ensures AllDefined(t, steps[1..][..i]) ==> !Run(t, steps[1..][..i]).running
      {
        assert steps[..i + 1][0] == step && steps[..i + 1][1..] == steps[1..][..i];
        assert steps[i + 1].CleanServersStep?;
      }
      CursorValid(t, steps[1..]);
    }
  }

  /** The failing run: removing the servers of a running detection leaves the next mirror event undefined. */
  lemma CleanDuringDetectionIsUndefined(e: Env)
    ensures var steps := [AddMirrorStep(Some("h"), 1, 0), NetworkStep(true, e), SetModeStep(Auto, e), CleanServersStep];
            && AllDefined(NEW, steps)
            && Run(NEW, steps).running && !CursorOk(Run(NEW, steps))
            && !Defined(Run(NEW, steps), HandleStep(UdpMirrorEvent(false), e))
  {
    var s1 := Next(NEW, AddMirrorStep(Some("h"), 1, 0));
    var s2 := Next(s1, NetworkStep(true, e));
    var s3 := Next(s2, SetModeStep(Auto, e));
    var s4 := Next(s3, CleanServersStep);
    assert s3.running && s3.cursor == At(0);
    assert Run(s4, []) == s4;
    assert Run(s3, [CleanServersStep]) == s4;
    assert Run(s2, [SetModeStep(Auto, e), CleanServersStep]) == s4;
    assert Run(s1, [NetworkStep(true, e), SetModeStep(Auto, e), CleanServersStep]) == s4;
  }

  // ---- How a detection ends ---------------------------------------------------------------------------

  /** Steps that neither restart nor cancel a detection nor change the mirrors. */
  predicate Quiet(step: Step) {
    step.HandleStep? || step.SimulateLossStep? || step.AddServerStep? || step.AddServerPairStep? || step.EnableDualStep?
  }

  predicate IsMirrorEvent(step: Step) { step.HandleStep? && step.ev.UdpMirrorEvent? }

  /** Only a mirror event moves a detection. */
  lemma QuietStep(s: State, step: Step)
    requires CursorInv(s) && Quiet(step)
    ensures Defined(s, step)
    ensures var t := Next(s, step);
            && t.mirrors == s.mirrors && CursorInv(t)
            && t.simulateLoss == (if step.SimulateLossStep? then step.enabled else s.simulateLoss)
            && (!IsMirrorEvent(step) || !s.running ==>
                  t.running == s.running && t.target == s.target && t.cursor == s.cursor)
            && (IsMirrorEvent(step) && s.running ==>
                  if !(s.simulateLoss || !step.ev.haveUdp) then !t.running && t.target == Off
                  else if |s.mirrors| - s.cursor.index == 1 then !t.running && t.target == On
                  else t.running && t.target == s.target && t.cursor == At(s.cursor.index + 1))
  {
    hide Handle;
    if step.HandleStep? { HandleFrame(s, step.ev, step.env); }
  }

  /** For each mirror event in turn, whether it counts as a failure at the time it is handled. */
  function Failures(loss: bool, steps: seq<Step>): seq<bool>
    requires forall step <- steps :: Quiet(step)
    decreases |steps|
  {
    if steps == [] then []
    else
      assert Quiet(steps[0]);
      if steps[0].SimulateLossStep? then Failures(steps[0].enabled, steps[1..])
      else if IsMirrorEvent(steps[0]) then [loss || !steps[0].ev.haveUdp] + Failures(loss, steps[1..])
      else Failures(loss, steps[1..])
  }

  /** The outcome reached with `n` mirrors left: On when all `n` failed, Off at the first success before that. */
  function Verdict(failures: seq<bool>, n: nat): (v: Option<Switch>)
    ensures v == Some(On) <==> |failures| >= n && forall i | 0 <= i < n :: failures[i]
    ensures v == Some(Off) <==> exists i :: 0 <= i < n && i < |failures| && !failures[i]
    decreases n
  {
    if n == 0 then Some(On)
    else if failures == [] then None
    else if !failures[0] then Some(Off)
    else
      var rest := failures[1..];
      assert forall i | 0 <= i < |rest| :: rest[i] == failures[i + 1];
      var v := Verdict(rest, n - 1);
      assert v == Some(On) ==> forall i | 0 <= i < n :: i == 0 || failures[i] == rest[i - 1];
      assert (exists i :: 0 <= i < n && i < |failures| && !failures[i])
             ==> (exists j :: 0 <= j < n - 1 && j < |rest| && !rest[j]) by {
        if i :| 0 <= i < n && i < |failures| && !failures[i] { assert !rest[i - 1]; }
      }
      assert (exists j :: 0 <= j < n - 1 && j < |rest| && !rest[j])
             ==> (exists i :: 0 <= i < n && i < |failures| && !failures[i]) by {
        if j :| 0 <= j < n - 1 && j < |rest| && !rest[j] { assert !failures[j + 1]; }
      }
      v
  }

  /** Once detection is over, mirror events are stale: the target stays. */
  lemma {:induction false} StaleEventsIgnored(s: State, steps: seq<Step>)
    requires !s.running && forall step <- steps :: Quiet(step)
    ensures AllDefined(s, steps) && !Run(s, steps).running && Run(s, steps).target == s.target
    decreases |steps|
  {
    hide Next;
    if steps != [] {
      assert Quiet(steps[0]);
      QuietStep(s, steps[0]);
      StaleEventsIgnored(Next(s, steps[0]), steps[1..]);
    }
  }

  /**
   * A running detection ends after at most as many mirror events as mirrors remain. It sets the target On
   * exactly when every mirror event it consumed was a failure or a simulated loss, and otherwise Off at the
   * first success; until then it goes on and the target stays.
   */
  lemma {:induction false} DetectionVerdict(s: State, steps: seq<Step>)
    requires s.running && CursorOk(s) && forall step <- steps :: Quiet(step)
    ensures AllDefined(s, steps)
    ensures var t := Run(s, steps);
            match Verdict(Failures(s.simulateLoss, steps), |s.mirrors| - s.cursor.index)
            case None => t.running && t.target == s.target && CursorOk(t) && t.mirrors == s.mirrors
                         && t.cursor.index == s.cursor.index + |Failures(s.simulateLoss, steps)|
            case Some(v) => !t.running && t.target == v
    decreases |steps|
  {
    hide Next;
    if steps != [] {
      var step := steps[0];
      assert Quiet(step);
      var t := Next(s, step);
      QuietStep(s, step);
      if t.running {
        DetectionVerdict(t, steps[1..]);
      } else {
        StaleEventsIgnored(t, steps[1..]);
      }
    }
  }

  /** The bound on its own: with as many mirror events as mirrors remain, detection is over. */
  lemma DetectionEnds(s: State, steps: seq<Step>)
    requires s.running && CursorOk(s) && forall step <- steps :: Quiet(step)
    requires |Failures(s.simulateLoss, steps)| >= |s.mirrors| - s.cursor.index
    ensures AllDefined(s, steps) && !Run(s, steps).running
  {
    DetectionVerdict(s, steps);
    var fs, n := Failures(s.simulateLoss, steps), |s.mirrors| - s.cursor.index;
    if Verdict(fs, n) != Some(On) {
      var i :| 0 <= i < n && !fs[i];
    }
  }
}
