/**
 * The server list of a tunnel (coreapi/linphone_tunnel.cc:214-330): a list of configurations, its saved
 * text, and the mirror of it that the tunnel manager keeps as server, server-pair and UDP-mirror lists.
 */
module LinphoneTunnelClass {
  import opened Bytes
  import opened TunnelText
  import opened TunnelState
  import TunnelRuns
  import opened TunnelManagerClass

  /** A configuration object: its address, by which it is found again, and its (immutable) contents. */
  datatype Entry = Entry(id: nat, config: Config)

  function Unsigned(n: int): int { n % 0x1_0000_0000 }

  // ---- What the manager should hold -------------------------------------------------------------------

  function ServersOf(es: seq<Entry>, dual: bool): seq<ServerAddr> {
    if es == [] then []
    else
      var n, c := |es| - 1, es[|es| - 1].config;
      ServersOf(es[..n], dual)
      + if !dual && c.host.Some? && c.host2.None? then [ServerAddr(c.host.value, c.port)] else []
  }

  function PairsOf(es: seq<Entry>, dual: bool): seq<DualServerAddr> {
    if es == [] then []
    else
      var n, c := |es| - 1, es[|es| - 1].config;
      PairsOf(es[..n], dual)
      + if dual && c.host.Some? && c.host2.Some?
        then [DualServerAddr(c.host.value, c.port, c.host2.value, c.port2)] else []
  }

  /** A mirror for every configuration with a host and a mirror port, of either kind. */
  function MirrorsOf(es: seq<Entry>): seq<Mirror> {
    if es == [] then []
    else
      var n, c := |es| - 1, es[|es| - 1].config;
      MirrorsOf(es[..n])
      + if c.host.Some? && c.mirrorPort != -1
        then [Mirror(ServerAddr(c.host.value, c.mirrorPort), Unsigned(c.delay))] else []
  }

  /** The client, if there is one, is of the configured kind and holds the manager's servers of that kind. */
  predicate ClientInStep(s: State) {
    s.client.Some? ==>
      && s.client.value.dual == s.dual
      && s.client.value.servers == (if s.dual then [] else s.servers)
      && s.client.value.pairs == (if s.dual then s.pairs else [])
  }

  /** The manager's lists are the ordered projections of the configuration list. */
  predicate InStep(s: State, es: seq<Entry>) {
    && s.servers == ServersOf(es, s.dual)
    && s.pairs == PairsOf(es, s.dual)
    && s.mirrors == MirrorsOf(es)
    && ClientInStep(s)
  }

  // ---- What the operations do -------------------------------------------------------------------------

  /** `linphone_tunnel_add_server_intern` on the manager. */
  function AddConfig(s: State, c: Config): State {
    if c.mirrorPort != -1 then
      if c.host2.Some?
      then AddMirror(AddServerPair(s, c.host, c.port, c.host2, c.port2), c.host, c.mirrorPort, Unsigned(c.delay))
      else AddMirror(AddServer(s, c.host, c.port), c.host, c.mirrorPort, Unsigned(c.delay))
    else if c.host2.Some? then AddServerPair(s, c.host, c.port, c.host2, c.port2)
    else AddServer(s, c.host, c.port)
  }

  function AddAll(s: State, es: seq<Entry>): State {
    if es == [] then s else AddConfig(AddAll(s, es[..|es| - 1]), es[|es| - 1].config)
  }

  lemma AddServerEffect(s: State, ip: Option<string>, port: int)
    requires ClientInStep(s)
    ensures var t := AddServer(s, ip, port);
            && t.servers == s.servers + (if ip.Some? && !s.dual then [ServerAddr(ip.value, port)] else [])
            && t.pairs == s.pairs && t.mirrors == s.mirrors && t.dual == s.dual && ClientInStep(t)
  {
  }

  lemma AddServerPairEffect(s: State, ip1: Option<string>, port1: int, ip2: Option<string>, port2: int)
    requires ClientInStep(s)
    ensures var t := AddServerPair(s, ip1, port1, ip2, port2);
            && t.pairs == s.pairs + (if ip1.Some? && ip2.Some? && s.dual
                                     then [DualServerAddr(ip1.value, port1, ip2.value, port2)] else [])
            && t.servers == s.servers && t.mirrors == s.mirrors && t.dual == s.dual && ClientInStep(t)
  {
  }

  lemma ProjectionsSnoc(es: seq<Entry>, e: Entry, dual: bool)
    ensures var c := e.config;
            && ServersOf(es + [e], dual) == ServersOf(es, dual)
               + (if !dual && c.host.Some? && c.host2.None? then [ServerAddr(c.host.value, c.port)] else [])
            && PairsOf(es + [e], dual) == PairsOf(es, dual)
               + (if dual && c.host.Some? && c.host2.Some?
                  then [DualServerAddr(c.host.value, c.port, c.host2.value, c.port2)] else [])
            && MirrorsOf(es + [e]) == MirrorsOf(es)
               + (if c.host.Some? && c.mirrorPort != -1
                  then [Mirror(ServerAddr(c.host.value, c.mirrorPort), Unsigned(c.delay))] else [])
  {
    assert (es + [e])[..|es|] == es;
  }

  lemma AddConfigInStep(s: State, es: seq<Entry>, e: Entry)
    requires InStep(s, es)
    ensures InStep(AddConfig(s, e.config), es + [e]) && AddConfig(s, e.config).dual == s.dual
  {
    hide AddServer, AddServerPair, ServersOf, PairsOf, MirrorsOf, Unsigned;
    var c := e.config;
    ProjectionsSnoc(es, e, s.dual);
    AddServerEffect(s, c.host, c.port);
    AddServerPairEffect(s, c.host, c.port, c.host2, c.port2);
  }

  lemma CleanInStep(s: State)
    ensures InStep(CleanServers(s), []) || (s.client.Some? && s.client.value.dual != s.dual)
    ensures CleanServers(s).dual == s.dual
  {
  }

  lemma {:induction false} AddAllInStep(s: State, es: seq<Entry>)
    requires InStep(s, [])
    ensures InStep(AddAll(s, es), es) && AddAll(s, es).dual == s.dual
  {
    if es != [] {
      var n := |es| - 1;
      AddAllInStep(s, es[..n]);
      AddConfigInStep(AddAll(s, es[..n]), es[..n], es[n]);
      assert es == es[..n] + [es[n]];
    }
  }

  /** `list` without its first element of that identity. */
  function Without(es: seq<Entry>, id: nat): seq<Entry> {
    if es == [] then [] else if es[0].id == id then es[1..] else [es[0]] + Without(es[1..], id)
  }

  /** Where an identity first occurs. */
  predicate FirstAt(es: seq<Entry>, id: nat, i: nat) {
    i < |es| && es[i].id == id && forall j | 0 <= j < i :: es[j].id != id
  }

  /** Exactly the first occurrence goes; what comes before and after stays, in order. */
  lemma {:induction false} WithoutIsRemoval(es: seq<Entry>, id: nat)
    ensures forall i: nat | FirstAt(es, id, i) :: Without(es, id) == es[..i] + es[i + 1..]
    ensures (forall e <- es :: e.id != id) ==> Without(es, id) == es
  {
    if es != [] {
      WithoutIsRemoval(es[1..], id);
      forall i: nat | FirstAt(es, id, i) ensures Without(es, id) == es[..i] + es[i + 1..] {
        if i > 0 {
          assert es[i] == es[1..][i - 1] && forall j | 0 <= j < i - 1 :: es[1..][j] == es[j + 1];
          assert FirstAt(es[1..], id, i - 1);
          assert es[..i] + es[i + 1..] == [es[0]] + (es[1..][..i - 1] + es[1..][i..]);
        }
      }
    }
  }

  // ---- Runs ---------------------------------------------------------------------------------------

  datatype Tunnel = Tunnel(s: State, list: seq<Entry>, stored: Option<string>)

  /** Editing the list, or any step of the manager that neither edits servers nor changes the dual mode. */
  datatype TunnelStep = AddEntry(e: Entry) | RemoveEntry(id: nat) | CleanEntries | ManagerStep(step: Step)

  predicate Allowed(t: Tunnel, x: TunnelStep) {
    x.ManagerStep? ==>
      && (x.step.SetModeStep? || x.step.NetworkStep? || x.step.HandleStep? || x.step.SimulateLossStep?)
      && Defined(t.s, x.step)
  }

  function Configs(es: seq<Entry>): seq<Config> { seq(|es|, i requires 0 <= i < |es| => es[i].config) }

  function Next(t: Tunnel, x: TunnelStep): Tunnel
    requires Allowed(t, x)
  {
    match x
    case AddEntry(e) => Tunnel(AddConfig(t.s, e.config), t.list + [e], Saved(Configs(t.list + [e])))
    case RemoveEntry(id) =>
      var list := Without(t.list, id);
      if |list| == |t.list| then t
      else Tunnel(AddAll(CleanServers(t.s), list), list, Saved(Configs(list)))
    case CleanEntries => Tunnel(CleanServers(t.s), [], None)
    case ManagerStep(step) => t.(s := TunnelState.Next(t.s, step))
  }

  predicate SameLists(s: State, t: State) {
    t.servers == s.servers && t.pairs == s.pairs && t.mirrors == s.mirrors && t.dual == s.dual
  }

  lemma ClientStartStop(s: State, e: Env)
    requires ClientInStep(s)
    ensures SameLists(s, StartClient(s)) && ClientInStep(StartClient(s))
    ensures SameLists(s, StopClient(s, e)) && ClientInStep(StopClient(s, e))
  {
  }

  /** Starting and stopping the client keep its lists in step. */
  lemma ApplyStateInStep(s: State, e: Env)
    requires ClientInStep(s)
    ensures SameLists(s, ApplyState(s, e)) && ClientInStep(ApplyState(s, e))
  {
    hide StartClient, StopClient;
    ClientStartStop(s, e);
    ClientStartStop(Untunnelize(s), e);
  }

  lemma TaskInStep(s: State, e: Env)
    ensures SameLists(s, StopTask(s)) && StopTask(s).client == s.client
    ensures SameLists(s, BeginTask(s, e)) && BeginTask(s, e).client == s.client
  {
  }

  lemma DetectionInStep(s: State, e: Env)
    requires ClientInStep(s)
    ensures SameLists(s, StopDetection(s)) && ClientInStep(StopDetection(s))
    ensures SameLists(s, StartDetection(s, e)) && ClientInStep(StartDetection(s, e))
  {
    hide StopTask, BeginTask;
    TaskInStep(s.(running := false), e);
    TaskInStep(s.(cursor := At(0)), e);
  }

  lemma SetModeInStep(s: State, m: Mode, e: Env)
    requires ClientInStep(s)
    ensures SameLists(s, SetMode(s, m, e)) && ClientInStep(SetMode(s, m, e))
  {
    hide ApplyState, StopDetection, StartDetection;
    var s1 := s.(mode := m);
    DetectionInStep(s1, e);
    ApplyStateInStep(StopDetection(s1).(target := On), e);
    ApplyStateInStep(StopDetection(s1).(target := Off), e);
  }

  lemma NetworkInStep(s: State, r: bool, e: Env)
    requires ClientInStep(s)
    ensures SameLists(s, NetworkReachable(s, r, e)) && ClientInStep(NetworkReachable(s, r, e))
  {
    hide ApplyState, StopDetection, StartDetection, StopClient;
    var s1 := s.(core := s.core.(reachable := r));
    DetectionInStep(s1, e);
    ApplyStateInStep(s1, e);
    ClientStartStop(Untunnelize(StopDetection(s1)), e);
  }

  lemma HandleInStep(s: State, ev: Event, e: Env)
    requires ClientInStep(s) && (s.running && ev.UdpMirrorEvent? ==> CursorOk(s))
    ensures SameLists(s, Handle(s, ev, e)) && ClientInStep(Handle(s, ev, e))
  {
    hide ApplyState, StopTask;
    ApplyStateInStep(s, e);
    ApplyStateInStep(s.(cursor := End, target := On), e);
    ApplyStateInStep(s.(target := Off), e);
    TaskInStep(ApplyState(s.(cursor := End, target := On), e).(running := false), e);
    TaskInStep(ApplyState(s.(target := Off), e).(running := false), e);
  }

  lemma ManagerKeepsInStep(s: State, step: Step)
    requires Allowed(Tunnel(s, [], None), ManagerStep(step)) && ClientInStep(s)
    ensures SameLists(s, TunnelState.Next(s, step)) && ClientInStep(TunnelState.Next(s, step))
  {
    hide SetMode, NetworkReachable, Handle;
    match step
    case SetModeStep(m, e) => SetModeInStep(s, m, e);
    case NetworkStep(r, e) => NetworkInStep(s, r, e);
    case HandleStep(ev, e) => HandleInStep(s, ev, e);
    case SimulateLossStep(_) =>
  }

  predicate Inv(t: Tunnel) {
    InStep(t.s, t.list) && t.stored == Saved(Configs(t.list))
  }

  lemma NextKeepsInv(t: Tunnel, x: TunnelStep)
    requires Inv(t) && Allowed(t, x)
    ensures Inv(Next(t, x)) && Next(t, x).s.dual == t.s.dual
  {
    hide AddConfig, CleanServers, TunnelState.Next;
    match x
    case AddEntry(e) => AddConfigInStep(t.s, t.list, e);
    case RemoveEntry(id) =>
      CleanInStep(t.s);
      AddAllInStep(CleanServers(t.s), Without(t.list, id));
    case CleanEntries =>
      CleanInStep(t.s);
      assert Configs([]) == [];
    case ManagerStep(step) => ManagerKeepsInStep(t.s, step);
  }

  predicate Feasible(t: Tunnel, xs: seq<TunnelStep>)
    decreases |xs|
  {
    xs == [] || (Allowed(t, xs[0]) && Feasible(Next(t, xs[0]), xs[1..]))
  }

  function Run(t: Tunnel, xs: seq<TunnelStep>): Tunnel
    requires Feasible(t, xs)
    decreases |xs|
  {
    if xs == [] then t else Run(Next(t, xs[0]), xs[1..])
  }

  /**
   * With the dual mode fixed, after any sequence of adding, removing and cleaning, interleaved with any
   * modes, network changes and events, the manager's lists and those of a live client are the projections
   * of the configuration list, and the saved text is that of the list.
   */
  lemma {:induction false} ManagerMirrorsList(t: Tunnel, xs: seq<TunnelStep>)
    requires Inv(t) && Feasible(t, xs)
    ensures Inv(Run(t, xs)) && Run(t, xs).s.dual == t.s.dual
    decreases |xs|
  {
    hide Next;
    if xs != [] {
      NextKeepsInv(t, xs[0]);
      ManagerMirrorsList(Next(t, xs[0]), xs[1..]);
    }
  }

  // What the list holds after a run, read off the edits alone

  /** No edit of the run takes the entry away. */
  predicate Untouched(xs: seq<TunnelStep>, id: nat) {
    forall x <- xs :: !x.CleanEntries? && x != RemoveEntry(id)
  }

  /** The entry was added at step `k` and nothing took it away since. */
  predicate AddedAt(xs: seq<TunnelStep>, e: Entry, k: nat) {
    k < |xs| && xs[k] == AddEntry(e) && Untouched(xs[k + 1..], e.id)
  }

  /** Each object is added once: no identity twice, nor one of those listed. */
  predicate AddsOnce(es: seq<Entry>, xs: seq<TunnelStep>) {
    && DistinctIds(es)
    && (forall k, e <- es | 0 <= k < |xs| && xs[k].AddEntry? :: xs[k].e.id != e.id)
    && (forall k, l | 0 <= k < l < |xs| && xs[k].AddEntry? && xs[l].AddEntry? :: xs[k].e.id != xs[l].e.id)
  }

  predicate DistinctIds(es: seq<Entry>) { forall i, j | 0 <= i < j < |es| :: es[i].id != es[j].id }

  lemma CutMembers(es: seq<Entry>, i: nat, e: Entry)
    requires DistinctIds(es) && i < |es|
    ensures e in es[..i] + es[i + 1..] <==> e in es && e.id != es[i].id
  {
    var rest := es[..i] + es[i + 1..];
    if e in rest {
      var k :| 0 <= k < |rest| && rest[k] == e;
      var j := if k < i then k else k + 1;
      assert es[j] == e;
    }
    if e in es && e.id != es[i].id {
      var j :| 0 <= j < |es| && es[j] == e;
      assert rest[if j < i then j else j - 1] == e;
    }
  }

  lemma CutDistinct(es: seq<Entry>, i: nat)
    requires DistinctIds(es) && i < |es|
    ensures DistinctIds(es[..i] + es[i + 1..])
  {
  }

  lemma WithoutMembers(es: seq<Entry>, id: nat)
    requires DistinctIds(es)
    ensures DistinctIds(Without(es, id))
    ensures forall e :: e in Without(es, id) <==> e in es && e.id != id
  {
    hide Without, DistinctIds;
    WithoutIsRemoval(es, id);
    if i: nat :| FirstAt(es, id, i) {
      CutDistinct(es, i);
      forall e ensures e in Without(es, id) <==> e in es && e.id != id { CutMembers(es, i, e); }
    } else {
      NoFirst(es, id);
    }
  }

  lemma NextList(t: Tunnel, x: TunnelStep)
    requires Allowed(t, x) && DistinctIds(t.list)
    requires x.AddEntry? ==> forall e <- t.list :: e.id != x.e.id
    ensures var es := Next(t, x).list;
            && DistinctIds(es)
            && forall e ::
                 e in es <==> x == AddEntry(e) || (e in t.list && !x.CleanEntries? && x != RemoveEntry(e.id))
  {
    hide AddAll, AddConfig, CleanServers, TunnelState.Next, Saved, Without;
    if x.RemoveEntry? {
      WithoutMembers(t.list, x.id);
      WithoutIsRemoval(t.list, x.id);
      SameLengthSame(t.list, x.id);
    }
  }

  lemma SameLengthSame(es: seq<Entry>, id: nat)
    ensures |Without(es, id)| == |es| ==> Without(es, id) == es
  {
    WithoutIsRemoval(es, id);
    if i: nat :| FirstAt(es, id, i) {
    } else {
      NoFirst(es, id);
    }
  }

  lemma NoFirst(es: seq<Entry>, id: nat)
    requires !exists i: nat :: FirstAt(es, id, i)
    ensures forall e <- es :: e.id != id
  {
    if es != [] {
      var n := |es| - 1;
      if i: nat :| FirstAt(es[..n], id, i) { assert FirstAt(es, id, i); }
      NoFirst(es[..n], id);
      assert es == es[..n] + [es[n]];
      assert !FirstAt(es, id, n);
    }
  }

  lemma {:induction false} ListAfter(t: Tunnel, xs: seq<TunnelStep>, e: Entry)
    requires Feasible(t, xs) && AddsOnce(t.list, xs)
    ensures e in Run(t, xs).list <==> (e in t.list && Untouched(xs, e.id)) || exists k: nat :: AddedAt(xs, e, k)
    decreases |xs|
  {
    hide Next;
    if xs != [] {
      var x, rest := xs[0], xs[1..];
      var t' := Next(t, x);
      NextList(t, x);
      AddsOnceTail(t.list, t'.list, xs);
      ListAfter(t', rest, e);
      assert xs == [x] + rest;
      assert Untouched(xs, e.id) <==> !x.CleanEntries? && x != RemoveEntry(e.id) && Untouched(rest, e.id);
      if k: nat :| AddedAt(rest, e, k) { assert xs[k + 1 + 1..] == rest[k + 1..] && AddedAt(xs, e, k + 1); }
      if x == AddEntry(e) && Untouched(rest, e.id) { assert AddedAt(xs, e, 0); }
      if k: nat :| AddedAt(xs, e, k) {
        if k > 0 { assert xs[k + 1..] == rest[k..] && AddedAt(rest, e, k - 1); }
      }
    }
  }

  lemma AddsOnceTail(es: seq<Entry>, es': seq<Entry>, xs: seq<TunnelStep>)
    requires xs != [] && AddsOnce(es, xs)
    requires DistinctIds(es')
    requires forall e <- es' :: xs[0] == AddEntry(e) || e in es
    ensures AddsOnce(es', xs[1..])
  {
    var rest := xs[1..];
    forall k, e <- es' | 0 <= k < |rest| && rest[k].AddEntry? ensures rest[k].e.id != e.id {
      assert rest[k] == xs[k + 1];
    }
  }

  /**
   * After any run of a new tunnel in which each object is added once, the list holds exactly the entries added and
   * neither removed nor cleaned away since.
   */
  lemma ListHoldsWhatWasAdded(dual: bool, xs: seq<TunnelStep>, e: Entry)
    requires Feasible(Tunnel(NEW.(dual := dual), [], None), xs) && AddsOnce([], xs)
    ensures e in Run(Tunnel(NEW.(dual := dual), [], None), xs).list <==> exists k: nat :: AddedAt(xs, e, k)
  {
    hide Next;
    ListAfter(Tunnel(NEW.(dual := dual), [], None), xs, e);
  }

  // The list in order, for any edits at all

  /** The list after the edits, each removal taking out one position. */
  ghost predicate Edited(es: seq<Entry>, xs: seq<TunnelStep>, es': seq<Entry>)
    decreases |xs|
  {
    if xs == [] then es' == es
    else
      match xs[0]
      case AddEntry(e) => Edited(es + [e], xs[1..], es')
      case CleanEntries => Edited([], xs[1..], es')
      case ManagerStep(_) => Edited(es, xs[1..], es')
      case RemoveEntry(id) =>
        if exists e <- es :: e.id == id
        then exists i: nat :: FirstAt(es, id, i) && Edited(es[..i] + es[i + 1..], xs[1..], es')
        else Edited(es, xs[1..], es')
  }

  /**
   * After any run the list is the entries added since the last clean, in order, less the first occurrence of each
   * one removed.
   */
  lemma {:induction false} ListIsEdited(t: Tunnel, xs: seq<TunnelStep>)
    requires Feasible(t, xs)
    ensures Edited(t.list, xs, Run(t, xs).list)
    decreases |xs|
  {
    hide AddAll, AddConfig, CleanServers, TunnelState.Next, Saved, Without;
    if xs != [] {
      ListIsEdited(Next(t, xs[0]), xs[1..]);
      if xs[0].RemoveEntry? {
        var id := xs[0].id;
        WithoutIsRemoval(t.list, id);
        if exists e <- t.list :: e.id == id {
          if !exists i: nat :: FirstAt(t.list, id, i) { NoFirst(t.list, id); }
          var i: nat :| FirstAt(t.list, id, i);
          assert |Without(t.list, id)| < |t.list|;
        }
      }
    }
  }

  /** A new tunnel of either kind is where such runs start. */
  lemma FreshTunnelInv(dual: bool)
    ensures Inv(Tunnel(NEW.(dual := dual), [], None))
  {
    assert Configs([]) == [];
  }

  /** After any such run, restarting from the saved text gives back the list, its hostless members apart. */
  lemma RestartRestoresList(dual: bool, xs: seq<TunnelStep>)
    requires Feasible(Tunnel(NEW.(dual := dual), [], None), xs)
    requires var t := Run(Tunnel(NEW.(dual := dual), [], None), xs);
             forall e <- t.list | e.config.host.Some? :: Clean(e.config)
    ensures var t := Run(Tunnel(NEW.(dual := dual), [], None), xs);
            Loaded(t.stored) == Kept(Configs(t.list))
  {
    hide Next, Loaded, Kept, Saved, InStep;
    FreshTunnelInv(dual);
    var t0 := Tunnel(NEW.(dual := dual), [], None);
    ManagerMirrorsList(t0, xs);
    var t := Run(t0, xs);
    ListRoundTrip(Configs(t.list));
  }

  // ---- The object ---------------------------------------------------------------------------------

  class LinphoneTunnel {
    const manager: TunnelManager
    var configList: seq<Entry>
    var stored: Option<string>
    var nextId: nat

    constructor (manager: TunnelManager, stored: Option<string>)
      ensures this.manager == manager && configList == [] && this.stored == stored && nextId == 0
    {
      this.manager, configList, this.stored, nextId := manager, [], stored, 0;
    }

    method AddServerIntern(e: Entry)
      modifies this`configList, manager
      ensures configList == old(configList) + [e]
      ensures manager.S() == AddConfig(old(manager.S()), e.config) && manager.evq == old(manager.evq)
    {
      var c := e.config;
      if c.mirrorPort != -1 {
        if c.host2.Some? {
          manager.AddServerPairWithMirror(c.host, c.port, c.host2, c.port2, c.mirrorPort, Unsigned(c.delay));
        } else {
          manager.AddServerWithMirror(c.host, c.port, c.mirrorPort, Unsigned(c.delay));
        }
      } else if c.host2.Some? {
        manager.AddServerPair(c.host, c.port, c.host2, c.port2);
      } else {
        manager.AddServer(c.host, c.port);
      }
      configList := configList + [e];
    }

    method Save()
      modifies this`stored
      ensures stored == Saved(Configs(configList))
    {
      stored := SaveConfig(Configs(configList));
    }

    method AddServer(e: Entry)
      modifies this`configList, this`stored, manager
      ensures configList == old(configList) + [e] && stored == Saved(Configs(configList))
      ensures manager.S() == AddConfig(old(manager.S()), e.config)
      ensures old(InStep(manager.S(), configList)) ==> InStep(manager.S(), configList)
    {
      hide AddConfig, InStep;
      if InStep(manager.S(), configList) { AddConfigInStep(manager.S(), configList, e); }
      AddServerIntern(e);
      Save();
    }

    /** Rebuilds the manager's lists from the configurations. */
    method RefreshConfig()
      modifies this`configList, manager
      ensures configList == old(configList)
      ensures manager.S() == AddAll(TunnelState.CleanServers(old(manager.S())), configList)
    {
      hide AddConfig, TunnelState.CleanServers;
      var oldList := configList;
      configList := [];
      manager.CleanServers();
      for i := 0 to |oldList|
        invariant configList == oldList[..i]
        invariant manager.S() == AddAll(TunnelState.CleanServers(old(manager.S())), oldList[..i])
      {
        assert oldList[..i + 1][..i] == oldList[..i];
        AddServerIntern(oldList[i]);
      }
      assert oldList[..|oldList|] == oldList;
    }

    method RemoveServer(id: nat)
      modifies this`configList, this`stored, manager
      ensures configList == Without(old(configList), id)
      ensures forall i: nat | FirstAt(old(configList), id, i) ::
                configList == old(configList)[..i] + old(configList)[i + 1..]
      ensures (forall e <- old(configList) :: e.id != id) ==> configList == old(configList)
      ensures if exists e <- old(configList) :: e.id == id
              then manager.S() == AddAll(TunnelState.CleanServers(old(manager.S())), configList)
                   && stored == Saved(Configs(configList))
              else manager.S() == old(manager.S()) && stored == old(stored)
    {
      hide AddAll, TunnelState.CleanServers, Saved, Without;
      WithoutIsRemoval(configList, id);
      var i := 0;
      while i < |configList| && configList[i].id != id
        invariant i <= |configList| && forall j | 0 <= j < i :: configList[j].id != id
      {
        i := i + 1;
      }
      if i < |configList| {
        assert FirstAt(configList, id, i) && configList[i] in configList;
        configList := configList[..i] + configList[i + 1..];
        RefreshConfig();
        Save();
      }
    }

    method CleanServers()
      modifies this`configList, this`stored, manager
      ensures configList == [] && stored == None
      ensures manager.S() == TunnelState.CleanServers(old(manager.S()))
    {
      manager.CleanServers();
      configList := [];
      Save();
      assert Configs([]) == [];
    }

    /** Appends a new configuration object for each one read from the stored text. */
    method Load()
      modifies this`configList, this`nextId, manager
      ensures |configList| == |old(configList)| + |Loaded(stored)|
      ensures configList[..|old(configList)|] == old(configList)
      ensures Configs(configList[|old(configList)|..]) == Loaded(stored)
      ensures manager.S() == AddAll(old(manager.S()), configList[|old(configList)|..])
    {
      hide AddConfig, Loaded;
      var cs := LoadConfig(stored);
      ghost var n := |configList|;
      ghost var added: seq<Entry> := [];
      for i := 0 to |cs|
        invariant |added| == i && configList == old(configList) + added
        invariant Configs(added) == cs[..i]
        invariant manager.S() == AddAll(old(manager.S()), added)
      {
        var e := Entry(nextId, cs[i]);
        nextId := nextId + 1;
        assert (added + [e])[..i] == added;
        AddServerIntern(e);
        added := added + [e];
      }
      assert configList[n..] == added && cs[..|cs|] == cs;
    }
  }
}
