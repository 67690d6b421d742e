/**
 * The remote conference of coreapi/conference.cc (class `RemoteConference` and its base `Conference`): it
 * calls a focus, then transfers every participant's call to it. Calls are named by numbers; their states
 * and the results of REFER requests come from the core.
 */
module ConferenceState {
  import opened Bytes

  type CallId = nat

  /** The call states the conference distinguishes; `Other` is any further one. */
  datatype CallState = Other | Connected | StreamsRunning | Paused | Error | End

  datatype ConfState = Stopped | Starting | Running | StartingFailed

  datatype Participant = Participant(uri: string, call: Option<CallId>)

  /** Whether the answer to a request to transfer was looked at, and then what it was. */
  datatype Request = Checked(accepted: bool) | Unchecked

  /** A REFER sent for a call, with the contact it named. */
  datatype Attempt = Attempt(call: CallId, contact: Option<string>, request: Request)

  datatype Conf = Conf(
    state: ConfState, focusAddr: Option<string>, focusContact: Option<string>, focusCall: Option<CallId>,
    participants: seq<Participant>, pending: seq<CallId>, transferring: seq<CallId>,
    calls: map<CallId, CallState>,        // the core's view of each call
    callbacks: seq<ConfState>,            // what the state callback was told
    attempts: seq<Attempt>,               // every transfer attempted
    terminations: seq<CallId>,            // calls asked to terminate
    added: set<CallId>)                   // every call ever added

  function New(focusAddr: string): Conf {
    Conf(Stopped, Some(focusAddr), None, None, [], [], [], map[], [], [], [], {})
  }

  // ---- Base class -----------------------------------------------------------------------------------

  function SetState(c: Conf, s: ConfState): Conf {
    if c.state == s then c else c.(state := s, callbacks := c.callbacks + [s])
  }

  function CallStateOf(c: Conf, x: CallId): CallState {
    if x in c.calls then c.calls[x] else Other
  }

  predicate Ready(s: CallState) { s == StreamsRunning || s == Paused }

  /** The first participant that satisfies a test. */
  function FirstHolder(ps: seq<Participant>, x: CallId): (r: Option<nat>)
    ensures r.Some? ==> r.value < |ps| && ps[r.value].call == Some(x)
    ensures r.None? ==> forall p <- ps :: p.call != Some(x)
  {
    if ps == [] then None
    else if ps[0].call == Some(x) then Some(0)
    else var r := FirstHolder(ps[1..], x); if r.None? then None else Some(r.value + 1)
  }

  function FirstAt(ps: seq<Participant>, uri: string): (r: Option<nat>)
    ensures r.Some? ==> r.value < |ps| && ps[r.value].uri == uri
    ensures r.None? ==> forall p <- ps :: p.uri != uri
  {
    if ps == [] then None
    else if ps[0].uri == uri then Some(0)
    else var r := FirstAt(ps[1..], uri); if r.None? then None else Some(r.value + 1)
  }

  function RemoveAt(ps: seq<Participant>, i: Option<nat>): seq<Participant>
    requires i.Some? ==> i.value < |ps|
  {
    if i.None? then ps else ps[..i.value] + ps[i.value + 1..]
  }

  /** `list::remove`: every occurrence goes. */
  function Remove(xs: seq<CallId>, x: CallId): seq<CallId> {
    if xs == [] then []
    else
      var n := |xs| - 1;
      Remove(xs[..n], x) + if xs[n] == x then [] else [xs[n]]
  }

  // ---- Transfers ------------------------------------------------------------------------------------

  predicate FocusIsReady(c: Conf) {
    c.focusCall.Some? && Ready(CallStateOf(c, c.focusCall.value))
  }

  function TransferToFocus(c: Conf, x: CallId, ok: bool): Conf {
    c.(attempts := c.attempts + [Attempt(x, c.focusContact, Checked(ok))],
       transferring := if ok then c.transferring + [x] else c.transferring)
  }

  /** The pending calls that are not ready yet, in order. */
  function StillPending(c: Conf, xs: seq<CallId>): seq<CallId> {
    if xs == [] then []
    else
      var n := |xs| - 1;
      StillPending(c, xs[..n]) + if Ready(CallStateOf(c, xs[n])) then [] else [xs[n]]
  }

  /** The conference after the ready ones among `xs` were transferred, in order. */
  function TransferReady(c: Conf, xs: seq<CallId>, ok: CallId -> bool): Conf {
    if xs == [] then c
    else
      var n := |xs| - 1;
      var d := TransferReady(c, xs[..n], ok);
      if Ready(CallStateOf(c, xs[n])) then TransferToFocus(d, xs[n], ok(xs[n])) else d
  }

  function Reset(c: Conf): Conf {
    c.(focusAddr := None, focusContact := None, focusCall := None, pending := [], transferring := [])
  }

  function Terminate(c: Conf): Conf {
    if (c.state == Running || c.state == Starting) && c.focusCall.Some?
    then c.(terminations := c.terminations + [c.focusCall.value]) else c
  }

  function TerminateIfEmpty(c: Conf): Conf {
    if |c.participants| + |c.pending| + |c.transferring| == 0 then Terminate(c) else c
  }

  // ---- Operations -----------------------------------------------------------------------------------

  /** `parses` is whether the focus address is one; `focus` is the call the invitation creates. */
  function AddParticipant(c: Conf, x: CallId, uri: string, focus: CallId, parses: bool, ok: bool): (Conf, int) {
    var d := c.(participants := c.participants + [Participant(uri, Some(x))], added := c.added + {x});
    match c.state
    case Stopped | StartingFailed =>
      if c.focusAddr.None? || !parses then (d, -1)
      else
        var e := d.(focusCall := Some(focus), calls := d.calls[focus := Other], pending := d.pending + [x]);
        (SetState(e, Starting), 0)
    case Starting =>
      (if FocusIsReady(d) then TransferToFocus(d, x, ok) else d.(pending := d.pending + [x]), 0)
    case Running => (TransferToFocus(d, x, ok), 0)
  }

  function RemoveParticipant(c: Conf, uri: string, referOk: bool): (Conf, int) {
    if c.state != Running || FirstAt(c.participants, uri).None? || !referOk then (c, -1)
    else (c.(participants := RemoveAt(c.participants, FirstAt(c.participants, uri))), 0)
  }

  function OnFocusCallStateChanged(c: Conf, s: CallState, contact: string, ok: CallId -> bool): Conf {
    match s
    case Connected =>
      var d := c.(focusContact := Some(contact));
      SetState(TransferReady(d, c.pending, ok).(pending := StillPending(d, c.pending)), Running)
    case Error => SetState(Reset(c).(participants := []), StartingFailed)
    case End => SetState(Reset(c).(participants := []), Stopped)
    case _ => c
  }

  /** Here the call counts as transferring whatever the request returned. */
  function OnPendingCallStateChanged(c: Conf, x: CallId, s: CallState): Conf {
    match s
    case StreamsRunning | Paused =>
      if c.state == Running
      then c.(pending := Remove(c.pending, x), transferring := c.transferring + [x],
              attempts := c.attempts + [Attempt(x, c.focusContact, Unchecked)])
      else c
    case Error | End =>
      TerminateIfEmpty(c.(pending := Remove(c.pending, x),
                          participants := RemoveAt(c.participants, FirstHolder(c.participants, x))))
    case _ => c
  }

  /** The core changed the state of a call and tells the conference. */
  function CallStateChanged(c: Conf, x: CallId, s: CallState, contact: string, ok: CallId -> bool): Conf {
    var d := c.(calls := c.calls[x := s]);
    if d.focusCall == Some(x) then OnFocusCallStateChanged(d, s, contact, ok)
    else if x in d.pending then OnPendingCallStateChanged(d, x, s)
    else d
  }

  /** The transfer of a call connected: its participant is dereferenced, so there must be one. */
  predicate TransferDefined(c: Conf, x: CallId, s: CallState) {
    x in c.transferring && s == Connected ==> FirstHolder(c.participants, x).Some?
  }

  function TransferStateChanged(c: Conf, x: CallId, s: CallState): Conf
    requires TransferDefined(c, x, s)
  {
    if x !in c.transferring then c
    else
      match s
      case Connected =>
        var i := FirstHolder(c.participants, x).value;
        c.(transferring := c.transferring + [x], participants := c.participants[i := c.participants[i].(call := None)])
      case Error =>
        TerminateIfEmpty(c.(transferring := Remove(c.transferring, x),
                            participants := RemoveAt(c.participants, FirstHolder(c.participants, x))))
      case _ => c
  }

  // ---- Steps and runs -------------------------------------------------------------------------------

  datatype Step =
    | Add(x: CallId, uri: string, focus: CallId, parses: bool, ok: bool)
    | RemoveUri(uri: string, referOk: bool)
    | CallChanged(x: CallId, s: CallState, contact: string, oks: CallId -> bool)
    | TransferChanged(x: CallId, s: CallState)
    | TerminateRequest

  predicate Defined(c: Conf, step: Step) {
    step.TransferChanged? ==> TransferDefined(c, step.x, step.s)
  }

  function Next(c: Conf, step: Step): Conf
    requires Defined(c, step)
  {
    match step
    case Add(x, uri, focus, parses, ok) => AddParticipant(c, x, uri, focus, parses, ok).0
    case RemoveUri(uri, referOk) => RemoveParticipant(c, uri, referOk).0
    case CallChanged(x, s, contact, oks) => CallStateChanged(c, x, s, contact, oks)
    case TransferChanged(x, s) => TransferStateChanged(c, x, s)
    case TerminateRequest => Terminate(c)
  }
}
