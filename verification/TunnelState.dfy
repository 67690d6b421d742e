/**
 * What each operation of the tunnel manager (coreapi/TunnelManager.cc) does to its state, as functions.
 * The network, the calls in progress and the foreign tunnel client answer through an `Env`.
 */
module TunnelState {
  import opened Bytes

  datatype Mode = Disable | Enable | Auto
  datatype Switch = Off | On
  datatype ServerAddr = ServerAddr(ip: string, port: int)
  datatype DualServerAddr = DualServerAddr(ip1: string, port1: int, ip2: string, port2: int)
  datatype Mirror = Mirror(addr: ServerAddr, delay: int)

  /** The foreign client as far as the manager drives it. */
  datatype Client = Client(dual: bool, started: bool, servers: seq<ServerAddr>, pairs: seq<DualServerAddr>)

  /** The core: reachability, whether tunnel RTP factories are installed, and background tasks begun and ended. */
  datatype Core = Core(reachable: bool, factories: bool, begun: seq<nat>, ended: seq<nat>)

  /** A position in the mirror list, or its end. */
  datatype Cursor = End | At(index: nat)

  datatype Event = TunnelEvent(connected: bool) | UdpMirrorEvent(haveUdp: bool)

  datatype State = State(
    mode: Mode, target: Switch, state: Switch, client: Option<Client>,
    running: bool, mirrors: seq<Mirror>, cursor: Cursor, taskId: nat,
    simulateLoss: bool, dual: bool, servers: seq<ServerAddr>, pairs: seq<DualServerAddr>,
    core: Core)

  /** The world's answers: is a call running, the id a new background task gets (0: none), is the client ready. */
  datatype Env = Env(callRunning: bool, newTask: nat, ready: bool)

  const NEW: State :=
    State(Disable, Off, Off, None, false, [], End, 0, false, false, [], [], Core(false, false, [], []))

  // ---- Client -------------------------------------------------------------------------------------

  function StartClient(s: State): State {
    var kept := if s.client.Some? then s.client.value else Client(s.dual, false, [], []);
    s.(client := Some(Client(kept.dual, true, if s.dual then [] else s.servers, if s.dual then s.pairs else [])))
  }

  /** The client is only deleted when no call is running. */
  function StopClient(s: State, e: Env): State {
    if s.client.None? then s
    else if e.callRunning then s.(client := Some(s.client.value.(started := false)))
    else s.(client := None)
  }

  function Tunnelize(s: State): State {
    s.(state := On, core := s.core.(factories := true))
  }

  function Untunnelize(s: State): State {
    s.(state := Off, core := s.core.(factories := false))
  }

  // ---- State and mode -----------------------------------------------------------------------------

  function ApplyState(s: State, e: Env): State {
    if !s.core.reachable then s
    else if s.target == On && s.state == Off then
      var s1 := if s.client.None? || !s.client.value.started then StartClient(s) else s;
      if e.ready then Tunnelize(s1) else s1
    else if s.target == Off && s.state == On then StopClient(Untunnelize(s), e)
    else s
  }

  function SetState(s: State, t: Switch, e: Env): State {
    ApplyState(s.(target := t), e)
  }

  function StopTask(s: State): State {
    if s.taskId != 0 then s.(taskId := 0, core := s.core.(ended := s.core.ended + [s.taskId])) else s
  }

  function StopDetection(s: State): State {
    if s.running then StopTask(s.(running := false)) else s
  }

  function BeginTask(s: State, e: Env): State {
    if s.taskId == 0 && e.newTask != 0
    then s.(taskId := e.newTask, core := s.core.(begun := s.core.begun + [e.newTask]))
    else s
  }

  /** Without mirrors nothing happens; otherwise detection (re)starts at the first one. */
  function StartDetection(s: State, e: Env): State {
    if s.mirrors == [] then s else BeginTask(s.(cursor := At(0)), e).(running := true)
  }

  function ApplyMode(s: State, e: Env): State {
    match s.mode
    case Enable => SetState(StopDetection(s), On, e)
    case Disable => SetState(StopDetection(s), Off, e)
    case Auto => if s.core.reachable then StartDetection(s, e) else s
  }

  function SetMode(s: State, m: Mode, e: Env): State {
    if s.mode == m then s else ApplyMode(s.(mode := m), e)
  }

  // ---- Events -------------------------------------------------------------------------------------

  /** The list element the cursor designates may be read. */
  predicate CursorOk(s: State) {
    s.cursor.At? && s.cursor.index < |s.mirrors|
  }

  function ProcessTunnelEvent(s: State, connected: bool, e: Env): State {
    if connected then ApplyState(s, e) else s
  }

  /** A mirror event when detection was cancelled is ignored; otherwise the current mirror is read. */
  function ProcessUdpMirrorEvent(s: State, haveUdp: bool, e: Env): State
    requires s.running ==> CursorOk(s)
  {
    if !s.running then s
    else if s.simulateLoss || !haveUdp then
      var next := s.cursor.index + 1;
      if next < |s.mirrors| then s.(cursor := At(next))
      else StopTask(SetState(s.(cursor := End), On, e).(running := false))
    else StopTask(SetState(s, Off, e).(running := false))
  }

  function Handle(s: State, ev: Event, e: Env): State
    requires s.running && ev.UdpMirrorEvent? ==> CursorOk(s)
  {
    match ev
    case TunnelEvent(connected) => ProcessTunnelEvent(s, connected, e)
    case UdpMirrorEvent(haveUdp) => ProcessUdpMirrorEvent(s, haveUdp, e)
  }

  /** A reachability change of the core together with its callback. */
  function NetworkReachable(s: State, reachable: bool, e: Env): State {
    var s1 := s.(core := s.core.(reachable := reachable));
    if reachable then
      if s1.mode == Auto then StartDetection(s1, e) else ApplyState(s1, e)
    else StopClient(Untunnelize(StopDetection(s1)), e)
  }

  // ---- Servers ------------------------------------------------------------------------------------

  function AddServer(s: State, ip: Option<string>, port: int): State {
    if ip.None? || s.dual then s
    else
      var a := ServerAddr(ip.value, port);
      var s1 := s.(servers := s.servers + [a]);
      if s.client.Some? && !s.client.value.dual
      then s1.(client := Some(s.client.value.(servers := s.client.value.servers + [a]))) else s1
  }

  function AddServerPair(s: State, ip1: Option<string>, port1: int, ip2: Option<string>, port2: int): State {
    if ip1.None? || ip2.None? || !s.dual then s
    else
      var a := DualServerAddr(ip1.value, port1, ip2.value, port2);
      var s1 := s.(pairs := s.pairs + [a]);
      if s.client.Some? && s.client.value.dual
      then s1.(client := Some(s.client.value.(pairs := s.client.value.pairs + [a]))) else s1
  }

  /** The mirror is recorded even when the server itself was refused for being of the other kind. */
  function AddMirror(s: State, ip: Option<string>, port: int, delay: int): State {
    if ip.None? then s else s.(mirrors := s.mirrors + [Mirror(ServerAddr(ip.value, port), delay)])
  }

  function CleanServers(s: State): State {
    var s1 := StopTask(s).(servers := [], pairs := [], mirrors := [], cursor := End);
    if s1.client.Some? then s1.(client := Some(s1.client.value.(servers := [], pairs := []))) else s1
  }

  /** What the destructor leaves behind. */
  function Destroy(s: State, e: Env): State {
    StopClient(StopTask(s), e)
  }

  // ---- Steps and runs -----------------------------------------------------------------------------

  datatype Step =
    | SetModeStep(mode: Mode, env: Env)
    | NetworkStep(reachable: bool, env: Env)
    | HandleStep(ev: Event, env: Env)
    | AddServerStep(ip: Option<string>, port: int)
    | AddServerPairStep(ip1: Option<string>, port1: int, ip2: Option<string>, port2: int)
    | AddMirrorStep(ip: Option<string>, mirrorPort: int, delay: int)
    | CleanServersStep
    | SimulateLossStep(enabled: bool)
    | EnableDualStep(enabled: bool)

  /** The only undefined step: a mirror event handled while detection runs on no mirror. */
  predicate Defined(s: State, step: Step) {
    step.HandleStep? && step.ev.UdpMirrorEvent? && s.running ==> CursorOk(s)
  }

  function Next(s: State, step: Step): State
    requires Defined(s, step)
  {
    match step
    case SetModeStep(m, e) => SetMode(s, m, e)
    case NetworkStep(r, e) => NetworkReachable(s, r, e)
    case HandleStep(ev, e) => Handle(s, ev, e)
    case AddServerStep(ip, port) => AddServer(s, ip, port)
    case AddServerPairStep(ip1, port1, ip2, port2) => AddServerPair(s, ip1, port1, ip2, port2)
    case AddMirrorStep(ip, port, delay) => AddMirror(s, ip, port, delay)
    case CleanServersStep => CleanServers(s)
    case SimulateLossStep(b) => s.(simulateLoss := b)
    case EnableDualStep(b) => s.(dual := b)
  }

  /** Steps that avoid the undefined one as they go. */
  predicate AllDefined(s: State, steps: seq<Step>)
    decreases |steps|
  {
    steps == [] || (Defined(s, steps[0]) && AllDefined(Next(s, steps[0]), steps[1..]))
  }

  function Run(s: State, steps: seq<Step>): State
    requires AllDefined(s, steps)
    decreases |steps|
  {
    if steps == [] then s else Run(Next(s, steps[0]), steps[1..])
  }
}
