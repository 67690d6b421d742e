/**
 * When the tunnel is on: what each operation of the manager (coreapi/TunnelManager.cc) does to the state, the
 * factories and the client, as conditions on the fields before it.
 */
module TunnelSwitching {
  import opened Bytes
  import opened TunnelState
  import opened TunnelRuns

  /** The servers a client started now would be given. */
  predicate HoldsServers(s: State) {
    && s.client.Some?
    && s.client.value.servers == (if s.dual then [] else s.servers)
    && s.client.value.pairs == (if s.dual then s.pairs else [])
  }

  /**
   * Catching up turns the tunnel on exactly when it was off, wanted and reachable, and the client is ready; it turns
   * it off exactly when it was on, unwanted and reachable.
   */
  lemma ApplyStateIff(s: State, e: Env)
    ensures var t := ApplyState(s, e);
            && (t.state == On <==>
                  || (s.state == On && !(s.core.reachable && s.target == Off))
                  || (s.state == Off && s.core.reachable && s.target == On && e.ready))
            && (t.core.factories <==>
                  || (s.core.factories && !(s.core.reachable && s.target == Off && s.state == On))
                  || (s.state == Off && s.core.reachable && s.target == On && e.ready))
  {
  }

  /** A wanted tunnel has its client started with the manager's servers, ready or not, unless it runs already. */
  lemma ApplyStateClient(s: State, e: Env)
    ensures var t := ApplyState(s, e);
            && (s.core.reachable && s.target == On && s.state == Off ==>
                  ClientRuns(t) && (if ClientRuns(s) then t.client == s.client else HoldsServers(t)))
            && (s.core.reachable && s.target == Off && s.state == On ==> StoppedFrom(s, t, e))
            && (!s.core.reachable || s.target == s.state ==> t == s)
  {
  }

  /** The client is gone, or, with a call running, stopped and otherwise as it was. */
  predicate StoppedFrom(s: State, t: State, e: Env) {
    t.client == if s.client.Some? && e.callRunning then Some(s.client.value.(started := false)) else None
  }

  // ---- Enable -----------------------------------------------------------------------------------------

  /** The steps at which an enabled manager looks whether its client is ready. */
  predicate Looks(s: State, step: Step) {
    || (step.HandleStep? && step.ev == TunnelEvent(true))
    || (step.NetworkStep? && step.reachable)
    || (step.SetModeStep? && step.mode != s.mode)
  }

  /** How an enabled manager looks: on if it was or the client is ready, the client running either way. */
  predicate IsOnWhenReady(s: State, t: State, e: Env) {
    && (t.state == On <==> s.state == On || e.ready)
    && (t.core.factories <==> t.state == On) && ClientRuns(t)
    && (!ClientRuns(s) ==> HoldsServers(t))
  }

  lemma CatchingUp(s: State, e: Env)
    requires HalfTunnelOk(s) && s.target == On && s.core.reachable
    ensures IsOnWhenReady(s, ApplyState(s, e), e)
  {
    hide ApplyState;
    ApplyStateIff(s, e);
    ApplyStateClient(s, e);
    ApplyStateOk(s, e);
  }

  lemma EnablingStep(s: State, e: Env)
    requires Inv(s) && s.mode != Enable && s.core.reachable
    ensures IsOnWhenReady(s, SetMode(s, Enable, e), e)
  {
    hide ApplyState, StopDetection, IsOnWhenReady;
    var s1 := s.(mode := Enable);
    DetectionOk(s1, e);
    var s2 := StopDetection(s1).(target := On);
    CatchingUp(s2, e);
    assert SetMode(s, Enable, e) == ApplyState(s2, e);
    SameLook(s, s2, ApplyState(s2, e), e);
  }

  lemma ReachedStep(s: State, e: Env)
    requires Inv(s) && s.mode == Enable
    ensures IsOnWhenReady(s, NetworkReachable(s, true, e), e)
  {
    hide ApplyState, StartDetection, IsOnWhenReady;
    var s1 := s.(core := s.core.(reachable := true));
    CatchingUp(s1, e);
    assert NetworkReachable(s, true, e) == ApplyState(s1, e);
    SameLook(s, s1, ApplyState(s1, e), e);
  }

  /** Only the state, the client and the factories before matter. */
  lemma SameLook(s: State, s1: State, t: State, e: Env)
    requires s1.state == s.state && s1.client == s.client && IsOnWhenReady(s1, t, e)
    ensures IsOnWhenReady(s, t, e)
  {
  }

  lemma EnabledStep(s: State, step: Step)
    requires Inv(s) && Looks(s, step) && Defined(s, step)
    requires var t := Next(s, step); t.mode == Enable && t.core.reachable
    ensures IsOnWhenReady(s, Next(s, step), step.env)
  {
    hide ApplyState, SetMode, NetworkReachable, IsOnWhenReady;
    match step
    case HandleStep(ev, e) =>
      ApplyFrame(s, e);
      ApplyStateOk(s, e);
      CatchingUp(s, e);
    case NetworkStep(r, e) =>
      ModeKept(s, step);
      ReachedStep(s, e);
    case SetModeStep(m, e) =>
      SetModeKeepsMode(s, m, e);
      SetModeKeepsReach(s, m, e);
      EnablingStep(s, e);
  }

  lemma SetModeKeepsReach(s: State, m: Mode, e: Env)
    requires Inv(s)
    ensures SetMode(s, m, e).core.reachable == s.core.reachable
  {
    hide ApplyState, StopDetection, StartDetection;
    var s1 := s.(mode := m);
    DetectionOk(s1, e);
    ApplyStateOk(StopDetection(s1).(target := On), e);
    ApplyStateOk(StopDetection(s1).(target := Off), e);
  }

  lemma SetModeKeepsMode(s: State, m: Mode, e: Env)
    ensures SetMode(s, m, e).mode == m
  {
    hide ApplyState, StopTask, BeginTask;
    var s1 := s.(mode := m);
    TaskFrame(s1.(running := false), e);
    TaskFrame(s1.(cursor := At(0)), e);
    ApplyFrame(StopDetection(s1).(target := On), e);
    ApplyFrame(StopDetection(s1).(target := Off), e);
  }

  /**
   * After any run, when an enabled manager on a reachable network handles a connection, is told the network is
   * back or has just been enabled, its client runs, a new one with the manager's servers, and the tunnel is on, with
   * its factories, if and only if it was on or the client is ready.
   */
  lemma EnabledIsOnWhenReady(steps: seq<Step>, step: Step)
    requires AllDefined(NEW, steps)
    requires var s := Run(NEW, steps);
             Looks(s, step) && Defined(s, step) && Next(s, step).mode == Enable && Next(s, step).core.reachable
    ensures var s := Run(NEW, steps);
            var t := Next(s, step);
            && (t.state == On <==> s.state == On || step.env.ready)
            && (t.core.factories <==> t.state == On) && ClientRuns(t)
            && (!ClientRuns(s) ==> HoldsServers(t))
  {
    hide Run, Next, AllDefined, Inv, HoldsServers;
    assert Inv(NEW) by { NewInv(); }
    RunKeepsInv(NEW, steps);
    EnabledStep(Run(NEW, steps), step);
  }

  lemma NewInv()
    ensures Inv(NEW)
  {
  }

  // ---- Disable and loss of network -----------------------------------------------------------------------

  lemma DisabledStep(s: State, e: Env)
    requires Inv(s) && s.mode != Disable
    ensures var t := SetMode(s, Disable, e);
            && t.state == Off && !t.core.factories && t.target == Off && !t.running
            && (s.state == On ==> StoppedFrom(s, t, e)) && (s.state == Off ==> t.client == s.client)
  {
    hide ApplyState, StopTask, BeginTask;
    var s1 := s.(mode := Disable);
    DetectionOk(s1, e);
    var s2 := StopDetection(s1).(target := Off);
    ApplyStateIff(s2, e);
    ApplyStateClient(s2, e);
    ApplyFrame(s2, e);
    ApplyStateOk(s2, e);
  }

  /**
   * Disabling turns the tunnel off in every reachable state, and leaves no client running if and only if the tunnel
   * was on or no client ran: a client still waiting to be ready is left running.
   */
  lemma DisableStopsClientIff(steps: seq<Step>, e: Env)
    requires AllDefined(NEW, steps) && Run(NEW, steps).mode != Disable
    ensures var s := Run(NEW, steps);
            var t := SetMode(s, Disable, e);
            && t.state == Off && !t.core.factories && !t.running
            && (!ClientRuns(t) <==> s.state == On || !ClientRuns(s))
  {
    hide Run, Next, AllDefined, Inv, SetMode;
    assert Inv(NEW) by { NewInv(); }
    RunKeepsInv(NEW, steps);
    DisabledStep(Run(NEW, steps), e);
  }

  /** The failing run: enabled and disabled again before the client was ready. */
  lemma DisableLeavesClientRunning(e: Env)
    requires !e.ready
    ensures var steps := [NetworkStep(true, e), SetModeStep(Enable, e), SetModeStep(Disable, e)];
            && AllDefined(NEW, steps)
            && Run(NEW, steps).mode == Disable && ClientRuns(Run(NEW, steps))
  {
    var s1 := Next(NEW, NetworkStep(true, e));
    var s2 := Next(s1, SetModeStep(Enable, e));
    var s3 := Next(s2, SetModeStep(Disable, e));
    assert ClientRuns(s2) && s2.state == Off && s2.mode == Enable;
    var xs := [NetworkStep(true, e), SetModeStep(Enable, e), SetModeStep(Disable, e)];
    assert xs[1..] == [SetModeStep(Enable, e), SetModeStep(Disable, e)] && xs[1..][1..] == [SetModeStep(Disable, e)];
    assert AllDefined(s2, [SetModeStep(Disable, e)]) && Run(s2, [SetModeStep(Disable, e)]) == s3;
    assert AllDefined(s1, xs[1..]) && Run(s1, xs[1..]) == s3;
  }

  /** Losing the network turns everything off, whatever the mode. */
  lemma NetworkLost(s: State, e: Env)
    requires TaskOk(s)
    ensures var t := NetworkReachable(s, false, e);
            && t.state == Off && !t.core.factories && !t.running && StoppedFrom(s, t, e)
            && t.mode == s.mode && t.target == s.target
  {
    hide StopTask, BeginTask;
    DetectionOk(s.(core := s.core.(reachable := false)), e);
  }

  // ---- Detection ----------------------------------------------------------------------------------------

  /** A detection that ends catches up at once: On when all failed and the client is ready, Off at a success. */
  lemma VerdictSwitches(s: State, haveUdp: bool, e: Env)
    requires Inv(s) && s.running && CursorOk(s)
    ensures var t := ProcessUdpMirrorEvent(s, haveUdp, e);
            && (t.running ==> t.state == s.state && t.client == s.client)
            && (!t.running && t.target == On ==> ClientRuns(t) && (t.state == On <==> s.state == On || e.ready))
            && (!t.running && t.target == Off ==> t.state == Off && (s.state == On ==> StoppedFrom(s, t, e)))
  {
    hide ApplyState, StopTask;
    var on, off := s.(cursor := End, target := On), s.(target := Off);
    ApplyStateIff(on, e);
    ApplyStateClient(on, e);
    ApplyStateOk(on, e);
    ApplyStateIff(off, e);
    ApplyStateClient(off, e);
    ApplyStateOk(off, e);
    ApplyFrame(on, e);
    ApplyFrame(off, e);
    TaskFields(ApplyState(on, e).(running := false));
    TaskFields(ApplyState(off, e).(running := false));
  }

  lemma TaskFields(s: State)
    ensures var t := StopTask(s);
            t.state == s.state && t.client == s.client && t.target == s.target && t.running == s.running
  {
  }

  /** A started detection holds a background task, the one it had or a new one if the system grants it. */
  lemma StartHoldsTask(s: State, e: Env)
    requires s.mirrors != []
    ensures StartDetection(s, e).taskId == (if s.taskId != 0 then s.taskId else e.newTask)
    ensures StartDetection(s, e).core.begun
            == s.core.begun + (if s.taskId == 0 && e.newTask != 0 then [e.newTask] else [])
  {
  }

  /** The destructor stops the client, and deletes it unless a call is running. */
  lemma DestroyStops(s: State, e: Env)
    ensures StoppedFrom(s, Destroy(s, e), e)
  {
    hide StopTask;
    TaskFields(s);
  }
}
