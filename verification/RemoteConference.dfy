/** The class `RemoteConference` of coreapi/conference.cc with the parts of its base it uses. */
module RemoteConferenceClass {
  import opened Bytes
  import opened ConferenceState
  import opened ConferenceRuns

  class RemoteConference {
    // Base class
    var state: ConfState
    var participants: seq<Participant>
    // The focus and the calls on their way to it
    var focusAddr: Option<string>
    var focusContact: Option<string>
    var focusCall: Option<CallId>
    var pendingCalls: seq<CallId>
    var transferingCalls: seq<CallId>
    // What the rest of the core sees of it
    var calls: map<CallId, CallState>
    var callbacks: seq<ConfState>
    var attempts: seq<Attempt>
    var terminations: seq<CallId>
    ghost var added: set<CallId>

    ghost function C(): Conf
      reads this
    {
      Conf(state, focusAddr, focusContact, focusCall, participants, pendingCalls, transferingCalls,
           calls, callbacks, attempts, terminations, added)
    }

    constructor (addr: string)
      ensures C() == New(addr)
    {
      state, participants := Stopped, [];
      focusAddr, focusContact, focusCall := Some(addr), None, None;
      pendingCalls, transferingCalls := [], [];
      calls, callbacks, attempts, terminations, added := map[], [], [], [], {};
    }

    method SetState(s: ConfState)
      modifies this
      ensures C() == ConferenceState.SetState(old(C()), s)
    {
      if state != s {
        state := s;
        callbacks := callbacks + [s];
      }
    }

    /** `findParticipant` by call. */
    method FindByCall(x: CallId) returns (r: Option<nat>)
      ensures r == FirstHolder(participants, x)
    {
      var i := 0;
      while i < |participants|
        invariant i <= |participants|
        invariant FirstHolder(participants, x)
                  == var t := FirstHolder(participants[i..], x); if t.None? then None else Some(t.value + i)
      {
        if participants[i].call == Some(x) { return Some(i); }
        assert participants[i..][1..] == participants[i + 1..];
        i := i + 1;
      }
      return None;
    }

    method FindByUri(uri: string) returns (r: Option<nat>)
      ensures r == FirstAt(participants, uri)
    {
      var i := 0;
      while i < |participants|
        invariant i <= |participants|
        invariant FirstAt(participants, uri)
                  == var t := FirstAt(participants[i..], uri); if t.None? then None else Some(t.value + i)
      {
        if participants[i].uri == uri { return Some(i); }
        assert participants[i..][1..] == participants[i + 1..];
        i := i + 1;
      }
      return None;
    }

    /** The base class's removal by call; -1 when nobody holds it. */
    method RemoveHolder(x: CallId) returns (r: int)
      modifies this`participants
      ensures participants == RemoveAt(old(participants), FirstHolder(old(participants), x))
      ensures r == if FirstHolder(old(participants), x).None? then -1 else 0
    {
      var i := FindByCall(x);
      if i.None? { return -1; }
      participants := participants[..i.value] + participants[i.value + 1..];
      return 0;
    }

    method TransferToFocus(x: CallId, ok: bool) returns (done: bool)
      modifies this
      ensures C() == ConferenceState.TransferToFocus(old(C()), x, ok) && done == ok
    {
      attempts := attempts + [Attempt(x, focusContact, Checked(ok))];
      if ok { transferingCalls := transferingCalls + [x]; }
      return ok;
    }

    method Terminate()
      modifies this
      ensures C() == ConferenceState.Terminate(old(C()))
    {
      if (state == Running || state == Starting) && focusCall.Some? {
        terminations := terminations + [focusCall.value];
      }
    }

    method Reset()
      modifies this
      ensures C() == ConferenceState.Reset(old(C()))
    {
      focusAddr, focusContact, focusCall := None, None, None;
      pendingCalls, transferingCalls := [], [];
    }

    method AddParticipant(x: CallId, uri: string, focus: CallId, parses: bool, ok: bool) returns (r: int)
      modifies this
      ensures (C(), r) == ConferenceState.AddParticipant(old(C()), x, uri, focus, parses, ok)
    {
      participants := participants + [Participant(uri, Some(x))];
      added := added + {x};
      match state
      case Stopped | StartingFailed =>
        if focusAddr.None? || !parses { return -1; }
        focusCall := Some(focus);
        calls := calls[focus := Other];
        pendingCalls := pendingCalls + [x];
        SetState(Starting);
        return 0;
      case Starting =>
        if focusCall.Some? && Ready(if focusCall.value in calls then calls[focusCall.value] else Other) {
          var _ := TransferToFocus(x, ok);
        } else {
          pendingCalls := pendingCalls + [x];
        }
        return 0;
      case Running =>
        var _ := TransferToFocus(x, ok);
        return 0;
    }

    /** `referOk` is whether the REFER with method BYE was accepted. */
    method RemoveParticipant(uri: string, referOk: bool) returns (r: int)
      modifies this
      ensures (C(), r) == ConferenceState.RemoveParticipant(old(C()), uri, referOk)
    {
      if state != Running { return -1; }
      var i := FindByUri(uri);
      if i.None? || !referOk { return -1; }
      participants := participants[..i.value] + participants[i.value + 1..];
      return 0;
    }

    /** The loop that erases ready calls from the pending list and transfers them. */
    method TransferPending(ok: CallId -> bool)
      modifies this
      ensures C() == TransferReady(old(C()), old(pendingCalls), ok)
                     .(pending := StillPending(old(C()), old(pendingCalls)))
    {
      hide StillPending, TransferReady, Ready, ConferenceState.TransferToFocus;
      ghost var c0, t, todo := C(), C(), pendingCalls;
      TransferBase(c0, ok);
      assert todo[..0] == [];
      var it := 0;
      ghost var i := 0;
      while it < |pendingCalls|
        invariant i <= |todo| && it <= |pendingCalls|
        invariant pendingCalls[..it] == StillPending(c0, todo[..i]) && pendingCalls[it..] == todo[i..]
        invariant t == TransferReady(c0, todo[..i], ok) && C() == t.(pending := pendingCalls) && t.calls == c0.calls
        decreases |todo| - i
      {
        var x := pendingCalls[it];
        assert x == todo[i..][0] == todo[i];
        TransferStep(c0, todo, i, ok);
        if Ready(if x in calls then calls[x] else Other) {
          Erase(it);
          TransferKeepsPending(t, pendingCalls, x, ok(x));
          t := ConferenceState.TransferToFocus(t, x, ok(x));
          var _ := TransferToFocus(x, ok(x));
        } else {
          assert pendingCalls[..it + 1] == pendingCalls[..it] + [x];
          assert pendingCalls[it + 1..] == pendingCalls[it..][1..];
          it := it + 1;
        }
        assert todo[i + 1..] == todo[i..][1..];
        i := i + 1;
      }
      assert i == |todo| && todo[..i] == todo && pendingCalls[..it] == pendingCalls;
    }

    /** `list::erase` at a position. */
    method Erase(it: nat)
      requires it < |pendingCalls|
      modifies this`pendingCalls
      ensures |pendingCalls| == |old(pendingCalls)| - 1
      ensures pendingCalls[..it] == old(pendingCalls)[..it] && pendingCalls[it..] == old(pendingCalls)[it..][1..]
    {
      pendingCalls := pendingCalls[..it] + pendingCalls[it + 1..];
    }

    method OnFocusCallStateChanged(s: CallState, contact: string, ok: CallId -> bool)
      modifies this
      ensures C() == ConferenceState.OnFocusCallStateChanged(old(C()), s, contact, ok)
    {
      match s
      case Connected =>
        focusContact := Some(contact);
        TransferPending(ok);
        SetState(Running);
      case Error =>
        Reset();
        participants := [];
        SetState(StartingFailed);
      case End =>
        Reset();
        participants := [];
        SetState(Stopped);
      case _ =>
    }

    /** `list::remove` on the pending calls. */
    method RemovePending(x: CallId)
      modifies this`pendingCalls
      ensures pendingCalls == Remove(old(pendingCalls), x)
    {
      var xs, kept := pendingCalls, [];
      for i := 0 to |xs|
        invariant kept == Remove(xs[..i], x)
      {
        assert xs[..i + 1][..i] == xs[..i];
        if xs[i] != x { kept := kept + [xs[i]]; }
      }
      assert xs[..|xs|] == xs;
      pendingCalls := kept;
    }

    method RemoveTransfering(x: CallId)
      modifies this`transferingCalls
      ensures transferingCalls == Remove(old(transferingCalls), x)
    {
      var xs, kept := transferingCalls, [];
      for i := 0 to |xs|
        invariant kept == Remove(xs[..i], x)
      {
        assert xs[..i + 1][..i] == xs[..i];
        if xs[i] != x { kept := kept + [xs[i]]; }
      }
      assert xs[..|xs|] == xs;
      transferingCalls := kept;
    }

    method OnPendingCallStateChanged(x: CallId, s: CallState)
      modifies this
      ensures C() == ConferenceState.OnPendingCallStateChanged(old(C()), x, s)
    {
      hide Remove, RemoveAt, FirstHolder;
      match s
      case StreamsRunning | Paused =>
        if state == Running {
          RemovePending(x);
          transferingCalls := transferingCalls + [x];
          attempts := attempts + [Attempt(x, focusContact, Unchecked)];
        }
      case Error | End =>
        RemovePending(x);
        var _ := RemoveHolder(x);
        if |participants| + |pendingCalls| + |transferingCalls| == 0 { Terminate(); }
      case _ =>
    }

    method OnTransferingCallStateChanged(x: CallId, s: CallState)
      requires x in transferingCalls && TransferDefined(C(), x, s)
      modifies this
      ensures old(TransferDefined(C(), x, s)) && C() == ConferenceState.TransferStateChanged(old(C()), x, s)
    {
      hide Remove, RemoveAt, FirstHolder;
      match s
      case Connected =>
        transferingCalls := transferingCalls + [x];
        var i := FindByCall(x);
        participants := participants[i.value := participants[i.value].(call := None)];
      case Error =>
        RemoveTransfering(x);
        var _ := RemoveHolder(x);
        if |participants| + |pendingCalls| + |transferingCalls| == 0 { Terminate(); }
      case _ =>
    }

    /** The core's call-state callback; every invariant of the conference is kept under its assumption. */
    method CallStateChangedCb(x: CallId, s: CallState, contact: string, ok: CallId -> bool)
      modifies this
      ensures C() == CallStateChanged(old(C()), x, s, contact, ok)
      ensures old(Inv(C()) && Fair(C(), CallChanged(x, s, contact, ok))) ==> Inv(C())
    {
      hide Inv, ConferenceState.OnFocusCallStateChanged, ConferenceState.OnPendingCallStateChanged;
      if Inv(C()) && Fair(C(), CallChanged(x, s, contact, ok)) { CallChangedKeepsInv(C(), x, s, contact, ok); }
      calls := calls[x := s];
      if focusCall == Some(x) {
        OnFocusCallStateChanged(s, contact, ok);
      } else if x in pendingCalls {
        OnPendingCallStateChanged(x, s);
      }
    }

    method TransferStateChangedCb(x: CallId, s: CallState)
      requires TransferDefined(C(), x, s)
      modifies this
      ensures old(TransferDefined(C(), x, s)) && C() == TransferStateChanged(old(C()), x, s)
    {
      if x in transferingCalls { OnTransferingCallStateChanged(x, s); }
    }
  }

  lemma TransferBase(c: Conf, ok: CallId -> bool)
    ensures StillPending(c, []) == [] && TransferReady(c, [], ok) == c
  {
  }

  /** A transfer does not look at the pending list. */
  lemma TransferKeepsPending(c: Conf, pending: seq<CallId>, x: CallId, ok: bool)
    ensures var d := ConferenceState.TransferToFocus(c, x, ok);
            && d.calls == c.calls
            && ConferenceState.TransferToFocus(c.(pending := pending), x, ok) == d.(pending := pending)
  {
  }

  lemma TransferStep(c: Conf, xs: seq<CallId>, i: nat, ok: CallId -> bool)
    requires i < |xs|
    ensures StillPending(c, xs[..i + 1])
            == StillPending(c, xs[..i]) + if Ready(CallStateOf(c, xs[i])) then [] else [xs[i]]
    ensures TransferReady(c, xs[..i + 1], ok)
            == if Ready(CallStateOf(c, xs[i]))
               then ConferenceState.TransferToFocus(TransferReady(c, xs[..i], ok), xs[i], ok(xs[i]))
               else TransferReady(c, xs[..i], ok)
    ensures var d := TransferReady(c, xs[..i], ok); d == c.(attempts := d.attempts, transferring := d.transferring)
  {
    assert xs[..i + 1][..i] == xs[..i];
    TransferReadyFrame(c, xs[..i], ok);
  }
}
