/** The class `TunnelManager` of coreapi/TunnelManager.cc, field by field and method by method. */
module TunnelManagerClass {
  import opened Bytes
  import opened TunnelState
  import opened TunnelRuns

  /** Events in handling order, each with the answers of the world during it. */
  function HandleAll(s: State, evs: seq<Event>, env: nat -> Env): (t: State)
    requires CursorInv(s)
    ensures CursorInv(t)
    decreases |evs|
  {
    if evs == [] then s
    else
      var n := |evs| - 1;
      var t := HandleAll(s, evs[..n], env);
      HandleFrame(t, evs[n], env(n));
      Handle(t, evs[n], env(n))
  }

  function Flatten(xs: seq<seq<Event>>): seq<Event> {
    if xs == [] then [] else Flatten(xs[..|xs| - 1]) + xs[|xs| - 1]
  }

  function Min(a: nat, b: nat): nat { if a < b then a else b }

  lemma DrainStart(s: State, env: nat -> Env)
    requires CursorInv(s)
    ensures HandleAll(s, [], env) == s && Flatten([]) == []
  {
  }

  lemma HandleAllStep(s: State, evs: seq<Event>, ev: Event, env: nat -> Env)
    requires CursorInv(s)
    ensures HandleAll(s, evs + [ev], env) == Handle(HandleAll(s, evs, env), ev, env(|evs|))
  {
    hide Handle;
    assert (evs + [ev])[..|evs|] == evs;
  }

  /** Handling the head while arrivals[|h|] is posted keeps handled plus queued equal to all posted so far. */
  lemma DrainStep(h: seq<Event>, q: seq<Event>, base: seq<Event>, arrivals: seq<seq<Event>>)
    requires q != [] && h + q == base + Flatten(arrivals[..Min(|h|, |arrivals|)])
    ensures var late := if |h| < |arrivals| then arrivals[|h|] else [];
            (h + [q[0]]) + (q[1..] + late) == base + Flatten(arrivals[..Min(|h| + 1, |arrivals|)])
  {
    var n := |h|;
    assert h + [q[0]] + q[1..] == h + q;
    if n < |arrivals| {
      assert arrivals[..n + 1][..n] == arrivals[..n];
      assert (h + [q[0]]) + (q[1..] + arrivals[n]) == (h + q) + arrivals[n];
    } else {
      assert q[1..] + [] == q[1..];
    }
  }

  class TunnelManager {
    var mode: Mode
    var targetState: Switch
    var state: Switch
    var client: Option<Client>
    var autodetectionRunning: bool
    var udpMirrorClients: seq<Mirror>
    var currentUdpMirrorClient: Cursor
    var longRunningTaskId: nat
    var simulateUdpLoss: bool
    var useDualClient: bool
    var serverAddrs: seq<ServerAddr>
    var dualServerAddrs: seq<DualServerAddr>
    var core: Core
    var evq: seq<Event>

    ghost function S(): State
      reads this
    {
      State(mode, targetState, state, client, autodetectionRunning, udpMirrorClients, currentUdpMirrorClient,
            longRunningTaskId, simulateUdpLoss, useDualClient, serverAddrs, dualServerAddrs, core)
    }

    constructor ()
      ensures S() == NEW && evq == []
    {
      mode, targetState, state := Disable, Off, Off;
      client, autodetectionRunning := None, false;
      udpMirrorClients, currentUdpMirrorClient, longRunningTaskId := [], End, 0;
      simulateUdpLoss, useDualClient := false, false;
      serverAddrs, dualServerAddrs := [], [];
      core := Core(false, false, [], []);
      evq := [];
    }

    method StartClient()
      modifies this
      ensures S() == TunnelState.StartClient(old(S())) && evq == old(evq)
    {
      if client.None? { client := Some(Client(useDualClient, false, [], [])); }
      client := Some(client.value.(servers := [], pairs := []));
      var kind := client.value.dual;
      if useDualClient {
        var addrs := dualServerAddrs;
        for i := 0 to |addrs|
          invariant client.Some? && client.value.dual == kind
          invariant client.value.pairs == addrs[..i] && client.value.servers == []
          invariant S() == old(S()).(client := client) && evq == old(evq)
        {
          client := Some(client.value.(pairs := client.value.pairs + [addrs[i]]));
        }
        assert addrs[..|addrs|] == addrs;
      } else {
        var addrs := serverAddrs;
        for i := 0 to |addrs|
          invariant client.Some? && client.value.dual == kind
          invariant client.value.servers == addrs[..i] && client.value.pairs == []
          invariant S() == old(S()).(client := client) && evq == old(evq)
        {
          client := Some(client.value.(servers := client.value.servers + [addrs[i]]));
        }
        assert addrs[..|addrs|] == addrs;
      }
      client := Some(client.value.(started := true));
    }

    method StopClient(e: Env)
      modifies this
      ensures S() == TunnelState.StopClient(old(S()), e) && evq == old(evq)
    {
      if client.Some? {
        client := Some(client.value.(started := false));
        if !e.callRunning { client := None; }
      }
    }

    method TunnelizeLiblinphone()
      modifies this
      ensures S() == Tunnelize(old(S())) && evq == old(evq)
    {
      state := On;
      core := core.(factories := true);
    }

    method UntunnelizeLiblinphone()
      modifies this
      ensures S() == Untunnelize(old(S())) && evq == old(evq)
    {
      state := Off;
      core := core.(factories := false);
    }

    method ApplyState(e: Env)
      modifies this
      ensures S() == TunnelState.ApplyState(old(S()), e) && evq == old(evq)
    {
      if !core.reachable { return; }
      if targetState == On && state == Off {
        if client.None? || !client.value.started { StartClient(); }
        if e.ready { TunnelizeLiblinphone(); }
      } else if targetState == Off && state == On {
        UntunnelizeLiblinphone();
        StopClient(e);
      }
    }

    method SetState(t: Switch, e: Env)
      modifies this
      ensures S() == TunnelState.SetState(old(S()), t, e) && evq == old(evq)
    {
      targetState := t;
      ApplyState(e);
    }

    method StopLongRunningTask()
      modifies this
      ensures S() == StopTask(old(S())) && evq == old(evq)
    {
      if longRunningTaskId != 0 {
        core := core.(ended := core.ended + [longRunningTaskId]);
        longRunningTaskId := 0;
      }
    }

    method StopAutoDetection()
      modifies this
      ensures S() == StopDetection(old(S())) && evq == old(evq)
    {
      if autodetectionRunning {
        autodetectionRunning := false;
        StopLongRunningTask();
      }
    }

    method StartAutoDetection(e: Env) returns (ok: bool)
      modifies this
      ensures S() == StartDetection(old(S()), e) && evq == old(evq)
      ensures ok <==> old(udpMirrorClients) != []
    {
      if udpMirrorClients == [] { return false; }
      currentUdpMirrorClient := At(0);
      if longRunningTaskId == 0 {
        longRunningTaskId := e.newTask;
        if e.newTask != 0 { core := core.(begun := core.begun + [e.newTask]); }
      }
      autodetectionRunning := true;
      return true;
    }

    method ApplyMode(e: Env)
      modifies this
      ensures S() == TunnelState.ApplyMode(old(S()), e) && evq == old(evq)
    {
      match mode
      case Enable =>
        StopAutoDetection();
        SetState(On, e);
      case Disable =>
        StopAutoDetection();
        SetState(Off, e);
      case Auto =>
        if core.reachable { var _ := StartAutoDetection(e); }
    }

    /** The mode's promise: after the call the manager is in that mode, with every invariant kept. */
    method SetMode(m: Mode, e: Env)
      modifies this
      ensures S() == TunnelState.SetMode(old(S()), m, e) && evq == old(evq)
      ensures old(Inv(S())) ==> Inv(S())
    {
      hide Inv;
      if Inv(S()) { SetModeOk(S(), m, e); }
      if mode != m {
        mode := m;
        ApplyMode(e);
      }
    }

    method ProcessTunnelEvent(connected: bool, e: Env)
      modifies this
      ensures S() == TunnelState.ProcessTunnelEvent(old(S()), connected, e) && evq == old(evq)
    {
      if connected { ApplyState(e); }
    }

    /** Reads the current mirror, so the cursor must be on one while detection runs. */
    method ProcessUdpMirrorEvent(haveUdp: bool, e: Env)
      requires CursorInv(S())
      modifies this
      ensures S() == TunnelState.ProcessUdpMirrorEvent(old(S()), haveUdp, e) && evq == old(evq)
    {
      if !autodetectionRunning { return; }
      if simulateUdpLoss || !haveUdp {
        var next := currentUdpMirrorClient.index + 1;
        if next < |udpMirrorClients| {
          currentUdpMirrorClient := At(next);
          return;
        }
        currentUdpMirrorClient := End;
        SetState(On, e);
      } else {
        SetState(Off, e);
      }
      autodetectionRunning := false;
      StopLongRunningTask();
    }

    method PostEvent(ev: Event)
      modifies this`evq
      ensures evq == old(evq) + [ev]
    {
      evq := evq + [ev];
    }

    method PostAll(evs: seq<Event>)
      modifies this`evq
      ensures evq == old(evq) + evs
    {
      for k := 0 to |evs|
        invariant evq == old(evq) + evs[..k]
      {
        PostEvent(evs[k]);
      }
    }

    /**
     * Drains the queue. While event number i is handled the mutex is free, and the events of arrivals[i]
     * are posted by other threads. Events are handled in the order posted, none lost and none twice.
     */
    method OnIterate(env: nat -> Env, arrivals: seq<seq<Event>>) returns (handled: seq<Event>)
      requires CursorInv(S())
      modifies this
      ensures evq == []
      ensures handled == old(evq) + Flatten(arrivals[..Min(|handled|, |arrivals|)])
      ensures CursorInv(old(S())) && S() == HandleAll(old(S()), handled, env)
    {
      hide Handle, HandleAll, Flatten, CursorInv;
      assert CursorInv(S()) && HandleAll(S(), [], env) == S() && Flatten([]) == [] by { DrainStart(S(), env); }
      handled := [];
      while evq != []
        invariant handled + evq == old(evq) + Flatten(arrivals[..Min(|handled|, |arrivals|)])
        invariant CursorInv(S()) && S() == HandleAll(old(S()), handled, env)
        decreases |arrivals| - Min(|handled|, |arrivals|), |evq|
      {
        DrainStep(handled, evq, old(evq), arrivals);
        HandleAllStep(old(S()), handled, evq[0], env);
        var ev := evq[0];
        evq := evq[1..];
        var n := |handled|;
        Dispatch(ev, env(n));
        handled := handled + [ev];
        if n < |arrivals| {
          PostAll(arrivals[n]);
        } else {
          assert evq + [] == evq;
        }
      }
    }

    method Dispatch(ev: Event, e: Env)
      requires CursorInv(S())
      modifies this
      ensures S() == Handle(old(S()), ev, e) && evq == old(evq)
    {
      match ev
      case TunnelEvent(connected) => ProcessTunnelEvent(connected, e);
      case UdpMirrorEvent(haveUdp) => ProcessUdpMirrorEvent(haveUdp, e);
    }

    /** The core's reachability changes and the manager is called back. */
    method NetworkReachableCb(reachable: bool, e: Env)
      modifies this
      ensures S() == NetworkReachable(old(S()), reachable, e) && evq == old(evq)
      ensures old(Inv(S())) ==> Inv(S())
    {
      hide Inv;
      if Inv(S()) { NetworkOk(S(), reachable, e); }
      core := core.(reachable := reachable);
      if reachable {
        if mode == Auto { var _ := StartAutoDetection(e); } else { ApplyState(e); }
      } else {
        StopAutoDetection();
        UntunnelizeLiblinphone();
        StopClient(e);
      }
    }

    method AddServer(ip: Option<string>, port: int)
      modifies this
      ensures S() == TunnelState.AddServer(old(S()), ip, port) && evq == old(evq)
    {
      if ip.None? { return; }
      if useDualClient { return; }
      serverAddrs := serverAddrs + [ServerAddr(ip.value, port)];
      if client.Some? && !client.value.dual {
        client := Some(client.value.(servers := client.value.servers + [ServerAddr(ip.value, port)]));
      }
    }

    method AddServerWithMirror(ip: Option<string>, port: int, udpMirrorPort: int, delay: int)
      modifies this
      ensures S() == AddMirror(TunnelState.AddServer(old(S()), ip, port), ip, udpMirrorPort, delay) && evq == old(evq)
    {
      if ip.None? { return; }
      AddServer(ip, port);
      udpMirrorClients := udpMirrorClients + [Mirror(ServerAddr(ip.value, udpMirrorPort), delay)];
    }

    method AddServerPair(ip1: Option<string>, port1: int, ip2: Option<string>, port2: int)
      modifies this
      ensures S() == TunnelState.AddServerPair(old(S()), ip1, port1, ip2, port2) && evq == old(evq)
    {
      if ip1.None? || ip2.None? { return; }
      if !useDualClient { return; }
      var a := DualServerAddr(ip1.value, port1, ip2.value, port2);
      dualServerAddrs := dualServerAddrs + [a];
      if client.Some? && client.value.dual {
        client := Some(client.value.(pairs := client.value.pairs + [a]));
      }
    }

    method AddServerPairWithMirror(ip1: Option<string>, port1: int, ip2: Option<string>, port2: int,
                                   udpMirrorPort: int, delay: int)
      modifies this
      ensures S() == (if ip2.None? then old(S())
                      else AddMirror(TunnelState.AddServerPair(old(S()), ip1, port1, ip2, port2),
                                     ip1, udpMirrorPort, delay))
      ensures evq == old(evq)
    {
      if ip1.None? || ip2.None? { return; }
      AddServerPair(ip1, port1, ip2, port2);
      udpMirrorClients := udpMirrorClients + [Mirror(ServerAddr(ip1.value, udpMirrorPort), delay)];
    }

    method CleanServers()
      modifies this
      ensures S() == TunnelState.CleanServers(old(S())) && evq == old(evq)
    {
      hide StopTask;
      StopLongRunningTask();
      serverAddrs, dualServerAddrs, udpMirrorClients := [], [], [];
      currentUdpMirrorClient := End;
      if client.Some? { client := Some(client.value.(servers := [], pairs := [])); }
    }

    /** The destructor: after it no background task is left open. */
    method Destroy(e: Env)
      requires TaskOk(S())
      modifies this
      ensures S() == TunnelState.Destroy(old(S()), e)
      ensures core.begun == core.ended
    {
      if longRunningTaskId > 0 {
        core := core.(ended := core.ended + [longRunningTaskId]);
        longRunningTaskId := 0;
      }
      StopClient(e);
    }
  }
}
