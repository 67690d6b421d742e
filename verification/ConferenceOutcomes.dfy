/**
 * What becomes of each call of a remote conference (coreapi/conference.cc): which transfers are under way, which
 * participants lose their call or leave, when the focus is asked to end, and what the operations answer.
 */
module ConferenceOutcomes {
  import opened Bytes
  import opened ConferenceState
  import opened ConferenceRuns

  // ---- Transfers under way ----------------------------------------------------------------------------

  /** A request was made for the call, and either accepted or not looked at. */
  predicate Taken(attempts: seq<Attempt>, x: CallId) {
    exists i :: 0 <= i < |attempts| && attempts[i].call == x && attempts[i].request != Checked(false)
  }

  /** The call whose transfer is reported failed, once a request was made for it. */
  function FailedBy(c: Conf, step: Step): set<CallId> {
    if step.TransferChanged? && step.s == Error && step.x in Attempted(c.attempts) then {step.x} else {}
  }

  /** Transferring are exactly the calls whose request was taken and that have not failed since. */
  predicate Tracked(c: Conf, failed: set<CallId>) {
    && failed <= Attempted(c.attempts)
    && (c.focusAddr.Some? && !Active(c.state) ==> c.attempts == [])
    && (Active(c.state) ==>
          && (forall x <- c.transferring :: x !in failed && Taken(c.attempts, x))
          && (forall x <- Attempted(c.attempts) :: x !in failed && Taken(c.attempts, x) ==> x in c.transferring))
  }

  lemma TakenSnoc(attempts: seq<Attempt>, a: Attempt, x: CallId)
    ensures Taken(attempts + [a], x) <==> Taken(attempts, x) || (a.call == x && a.request != Checked(false))
  {
    var xs := attempts + [a];
    if Taken(attempts, x) {
      var i :| 0 <= i < |attempts| && attempts[i].call == x && attempts[i].request != Checked(false);
      assert xs[i] == attempts[i];
    }
    assert xs[|attempts|] == a;
  }

  lemma TakenAttempted(attempts: seq<Attempt>, x: CallId)
    requires Taken(attempts, x)
    ensures x in Attempted(attempts)
  {
    var i :| 0 <= i < |attempts| && attempts[i].call == x && attempts[i].request != Checked(false);
    assert attempts[i] in attempts;
  }

  /** Going through the pending calls takes up exactly the ready ones whose request is accepted. */
  lemma {:induction false} TransferReadyTakes(c: Conf, xs: seq<CallId>, ok: CallId -> bool, y: CallId)
    ensures var d := TransferReady(c, xs, ok);
            && (y in d.transferring <==> y in c.transferring || (y in xs && Ready(CallStateOf(c, y)) && ok(y)))
            && (Taken(d.attempts, y) <==> Taken(c.attempts, y) || (y in xs && Ready(CallStateOf(c, y)) && ok(y)))
            && (y in Attempted(d.attempts) <==> y in Attempted(c.attempts) || (y in xs && Ready(CallStateOf(c, y))))
  {
    hide Taken, Attempted, CallStateOf;
    if xs != [] {
      var n := |xs| - 1;
      TransferReadyTakes(c, xs[..n], ok, y);
      TransferReadyFrame(c, xs[..n], ok);
      assert xs == xs[..n] + [xs[n]];
      var d := TransferReady(c, xs[..n], ok);
      var a := Attempt(xs[n], d.focusContact, Checked(ok(xs[n])));
      TakenSnoc(d.attempts, a, y);
      AttemptedSnoc(d.attempts, a);
    }
  }

  /**
   * When the focus connects, the calls that begin to be transferred are exactly those pending, streaming or paused,
   * and accepted; those still pending are exactly the ones neither streaming nor paused.
   */
  lemma FocusConnectsTakes(c: Conf, contact: string, ok: CallId -> bool, y: CallId)
    ensures var d := OnFocusCallStateChanged(c, Connected, contact, ok);
            var ready := CallStateOf(c, y) == StreamsRunning || CallStateOf(c, y) == Paused;
            && d.state == Running && d.focusContact == Some(contact)
            && (y in d.transferring <==> y in c.transferring || (y in c.pending && ready && ok(y)))
            && (y in d.pending <==> y in c.pending && !ready)
            && d.participants == c.participants
  {
    hide TransferReady, StillPending;
    var d := c.(focusContact := Some(contact));
    TransferReadyFrame(d, c.pending, ok);
    TransferReadyTakes(d, c.pending, ok, y);
    StillPendingEffect(d, c.pending);
    SameCalls(c, d, y);
  }

  lemma FocusTracks(c: Conf, failed: set<CallId>, s: CallState, contact: string, ok: CallId -> bool)
    requires Tracked(c, failed) && Active(c.state) && NoneFailed(c.pending, failed)
    ensures Tracked(OnFocusCallStateChanged(c, s, contact, ok), failed)
  {
    hide TransferReady, StillPending, Taken, Attempted, CallStateOf;
    var d := c.(focusContact := Some(contact));
    TransferReadyFrame(d, c.pending, ok);
    forall y: CallId
      ensures var e := TransferReady(d, c.pending, ok);
              && (y in e.transferring <==> y in c.transferring || (y in c.pending && Ready(CallStateOf(d, y)) && ok(y)))
              && (Taken(e.attempts, y) <==>
                    Taken(c.attempts, y) || (y in c.pending && Ready(CallStateOf(d, y)) && ok(y)))
              && (y in Attempted(c.attempts) ==> y in Attempted(e.attempts))
    {
      TransferReadyTakes(d, c.pending, ok, y);
    }
    forall y: CallId | Taken(c.attempts, y) ensures y in Attempted(c.attempts) { TakenAttempted(c.attempts, y); }
  }

  /** A pending call had no request yet, so it cannot have failed. */
  predicate NoneFailed(pending: seq<CallId>, failed: set<CallId>) { forall x <- pending :: x !in failed }

  lemma AddTracks(c: Conf, failed: set<CallId>, x: CallId, uri: string, focus: CallId, parses: bool, ok: bool)
    requires Tracked(c, failed) && Life(c) && x !in Attempted(c.attempts)
    ensures Tracked(AddParticipant(c, x, uri, focus, parses, ok).0, failed)
  {
    hide Taken, Attempted, FocusIsReady;
    var a := Attempt(x, c.focusContact, Checked(ok));
    AttemptedSnoc(c.attempts, a);
    forall y: CallId ensures Taken(c.attempts + [a], y) <==> Taken(c.attempts, y) || (x == y && ok) {
      TakenSnoc(c.attempts, a, y);
    }
    forall y: CallId | Taken(c.attempts, y) ensures y in Attempted(c.attempts) { TakenAttempted(c.attempts, y); }
    NothingAttempted();
  }

  lemma NothingAttempted()
    ensures Attempted([]) == {}
  {
  }

  lemma PendingTracks(c: Conf, failed: set<CallId>, x: CallId, s: CallState)
    requires Tracked(c, failed) && x in c.pending && x !in failed
    ensures Tracked(OnPendingCallStateChanged(c, x, s), failed)
  {
    hide Taken, Attempted, Remove, RemoveAt;
    var a := Attempt(x, c.focusContact, Unchecked);
    AttemptedSnoc(c.attempts, a);
    forall y: CallId ensures Taken(c.attempts + [a], y) <==> Taken(c.attempts, y) || x == y {
      TakenSnoc(c.attempts, a, y);
    }
  }

  lemma TransferTracks(c: Conf, failed: set<CallId>, x: CallId, s: CallState)
    requires Tracked(c, failed) && Life(c) && TransferDefined(c, x, s)
    ensures Tracked(TransferStateChanged(c, x, s), failed + FailedBy(c, TransferChanged(x, s)))
  {
    hide Taken, Attempted, Remove, RemoveAt, FirstHolder;
    RemoveEffect(c.transferring, x);
    if x in c.transferring { TakenAttempted(c.attempts, x); }
  }

  lemma NextTracks(c: Conf, failed: set<CallId>, step: Step)
    requires Inv(c) && Tracked(c, failed) && Fair(c, step) && Defined(c, step)
    ensures Tracked(Next(c, step), failed + FailedBy(c, step))
  {
    hide AddParticipant, RemoveParticipant, OnFocusCallStateChanged, OnPendingCallStateChanged, TransferStateChanged,
         Attempted, Taken, Inv, Tracked, Life;
    InvLife(c);
    PendingNotFailed(c, failed);
    assert failed + {} == failed;
    match step
    case Add(x, uri, focus, parses, ok) =>
      NewCallUnknown(c, x);
      AddTracks(c, failed, x, uri, focus, parses, ok);
    case CallChanged(x, s, contact, oks) =>
      var d := c.(calls := c.calls[x := s]);
      SameTracked(c, d, failed);
      ActiveFocus(c);
      if c.focusCall == Some(x) { FocusTracks(d, failed, s, contact, oks); }
      else if x in c.pending { PendingTracks(d, failed, x, s); }
    case TransferChanged(x, s) => TransferTracks(c, failed, x, s);
    case RemoveUri(uri, referOk) => RemoveTracks(c, failed, uri, referOk);
    case TerminateRequest => SameTracked(c, Terminate(c), failed);
  }

  lemma SameTracked(c: Conf, d: Conf, failed: set<CallId>)
    requires Tracked(c, failed)
    requires d.attempts == c.attempts && d.transferring == c.transferring
    requires d.state == c.state && d.focusAddr == c.focusAddr
    ensures Tracked(d, failed)
  {
    hide Attempted, Taken;
  }

  lemma RemoveTracks(c: Conf, failed: set<CallId>, uri: string, referOk: bool)
    requires Tracked(c, failed)
    ensures Tracked(RemoveParticipant(c, uri, referOk).0, failed)
  {
    hide Attempted, Taken, RemoveAt, Tracked;
    SameTracked(c, RemoveParticipant(c, uri, referOk).0, failed);
  }

  lemma PendingNotFailed(c: Conf, failed: set<CallId>)
    requires Inv(c) && Tracked(c, failed)
    ensures NoneFailed(c.pending, failed)
  {
    hide Taken;
    InvParts(c);
  }

  /** The calls that failed over a run. */
  function FailedIn(c: Conf, failed: set<CallId>, steps: seq<Step>): set<CallId>
    requires AllDefined(c, steps)
    decreases |steps|
  {
    if steps == [] then failed else FailedIn(Next(c, steps[0]), failed + FailedBy(c, steps[0]), steps[1..])
  }

  lemma {:induction false} RunTracks(c: Conf, failed: set<CallId>, steps: seq<Step>)
    requires Inv(c) && Tracked(c, failed) && AllDefined(c, steps) && AllFair(c, steps)
    ensures Tracked(Run(c, steps), FailedIn(c, failed, steps))
    decreases |steps|
  {
    hide Next, Inv, Fair, Tracked, FailedBy;
    if steps != [] {
      NextTracks(c, failed, steps[0]);
      NextKeepsInv(c, steps[0]);
      RunTracks(Next(c, steps[0]), failed + FailedBy(c, steps[0]), steps[1..]);
    }
  }

  /**
   * Over every fair run, while the conference lives, a call is being transferred if and only if a request for it was
   * accepted, or made without looking at the answer, and its transfer has not failed since.
   */
  lemma TransferringIff(addr: string, steps: seq<Step>, x: CallId)
    requires AllDefined(New(addr), steps) && AllFair(New(addr), steps) && Active(Run(New(addr), steps).state)
    ensures var c := Run(New(addr), steps);
            x in c.transferring <==> Taken(c.attempts, x) && x !in FailedIn(New(addr), {}, steps)
  {
    hide Next, Taken, Attempted;
    FreshInv(addr);
    RunTracks(New(addr), {}, steps);
    var c := Run(New(addr), steps);
    if Taken(c.attempts, x) { TakenAttempted(c.attempts, x); }
  }

  // ---- Participants -----------------------------------------------------------------------------------

  /** A transfer that connects detaches the call from its participant, and from no other. */
  lemma ConnectedDetaches(c: Conf, x: CallId, i: nat)
    requires Inv(c) && x in c.transferring && i < |c.participants| && c.participants[i].call == Some(x)
    ensures TransferDefined(c, x, Connected)
    ensures var d := TransferStateChanged(c, x, Connected);
            && d.participants == c.participants[i := Participant(c.participants[i].uri, None)]
            && d.transferring == c.transferring + [x] && d.pending == c.pending && d.state == c.state
  {
    hide FirstHolder, Attempted, Life;
    OnlyHolder(c, x, i);
  }

  /** Each call has one participant, so the search finds that one. */
  lemma OnlyHolder(c: Conf, x: CallId, i: nat)
    requires Inv(c) && i < |c.participants| && c.participants[i].call == Some(x)
    ensures FirstHolder(c.participants, x) == Some(i)
  {
    hide FirstHolder, Attempted, Life;
    assert c.participants[i] in c.participants;
    var f := FirstHolder(c.participants, x);
    assert f.Some? && f.value < |c.participants| && c.participants[f.value].call == Some(x);
  }

  /** A transfer that fails, or a pending call that ends, takes out its participant, and no other. */
  lemma FailureDrops(c: Conf, x: CallId, s: CallState, i: nat)
    requires Inv(c) && i < |c.participants| && c.participants[i].call == Some(x)
    ensures x in c.transferring ==>
              var d := TransferStateChanged(c, x, Error);
              && d.participants == c.participants[..i] + c.participants[i + 1..]
              && x !in d.transferring && d.pending == c.pending
              && (forall y <- c.transferring | y != x :: y in d.transferring)
    ensures x in c.pending && (s == Error || s == End) ==>
              var d := OnPendingCallStateChanged(c, x, s);
              && d.participants == c.participants[..i] + c.participants[i + 1..]
              && x !in d.pending && d.transferring == c.transferring
              && (forall y <- c.pending | y != x :: y in d.pending)
  {
    hide FirstHolder, Attempted, Life, Remove;
    OnlyHolder(c, x, i);
    RemoveEffect(c.transferring, x);
    RemoveEffect(c.pending, x);
  }

  // ---- Asking the focus to end ---------------------------------------------------------------------------

  predicate Empty(c: Conf) { c.participants == [] && c.pending == [] && c.transferring == [] }

  /** The user asks, or the last call on its way ends or fails and leaves nobody. */
  predicate AsksEnd(c: Conf, d: Conf, step: Step) {
    Active(c.state) &&
    match step
    case TerminateRequest => true
    case CallChanged(x, s, _, _) => c.focusCall != Some(x) && x in c.pending && (s == Error || s == End) && Empty(d)
    case TransferChanged(x, s) => x in c.transferring && s == Error && Empty(d)
    case _ => false
  }

  /** The focus call is asked to end exactly then, once per event, and no other call ever is. */
  lemma EndAskedIff(c: Conf, step: Step)
    requires Life(c) && Defined(c, step)
    ensures var d := Next(c, step);
            d.terminations == c.terminations + (if AsksEnd(c, d, step) then [c.focusCall.value] else [])
  {
    hide AddParticipant, RemoveParticipant, OnFocusCallStateChanged, OnPendingCallStateChanged, TransferStateChanged;
    match step
    case Add(x, uri, focus, parses, ok) => AddAsksNothing(c, x, uri, focus, parses, ok);
    case CallChanged(x, s, contact, oks) =>
      var d := c.(calls := c.calls[x := s]);
      if c.focusCall == Some(x) { FocusAsksNothing(d, s, contact, oks); }
      else if x in c.pending { PendingAsks(d, x, s); }
    case TransferChanged(x, s) => TransferAsks(c, x, s);
    case RemoveUri(uri, referOk) => RemoveAsksNothing(c, uri, referOk);
    case TerminateRequest =>
  }

  lemma AddAsksNothing(c: Conf, x: CallId, uri: string, focus: CallId, parses: bool, ok: bool)
    ensures AddParticipant(c, x, uri, focus, parses, ok).0.terminations == c.terminations
  {
    hide FocusIsReady;
  }

  lemma RemoveAsksNothing(c: Conf, uri: string, referOk: bool)
    ensures RemoveParticipant(c, uri, referOk).0.terminations == c.terminations
  {
    hide RemoveAt;
  }

  lemma FocusAsksNothing(c: Conf, s: CallState, contact: string, ok: CallId -> bool)
    ensures OnFocusCallStateChanged(c, s, contact, ok).terminations == c.terminations
  {
    hide TransferReady, StillPending;
    TransferReadyFrame(c.(focusContact := Some(contact)), c.pending, ok);
  }

  lemma PendingAsks(c: Conf, x: CallId, s: CallState)
    requires c.focusCall.Some? <==> Active(c.state)
    ensures var d := OnPendingCallStateChanged(c, x, s);
            d.terminations == c.terminations
              + (if Active(c.state) && (s == Error || s == End) && Empty(d) then [c.focusCall.value] else [])
  {
    hide Remove, RemoveAt;
  }

  lemma TransferAsks(c: Conf, x: CallId, s: CallState)
    requires (c.focusCall.Some? <==> Active(c.state)) && TransferDefined(c, x, s)
    ensures var d := TransferStateChanged(c, x, s);
            d.terminations == c.terminations
              + (if Active(c.state) && x in c.transferring && s == Error && Empty(d) then [c.focusCall.value] else [])
  {
    hide Remove, RemoveAt;
  }

  // ---- Contacts and answers -----------------------------------------------------------------------------

  /** The contact is the one the focus last reported, and every transfer goes to the contact of the moment. */
  lemma TransfersGoToContact(c: Conf, step: Step)
    requires Defined(c, step)
    ensures var d := Next(c, step);
            && c.attempts <= d.attempts
            && (forall i | |c.attempts| <= i < |d.attempts| :: d.attempts[i].contact == d.focusContact)
            && d.focusContact == (if step.CallChanged? && c.focusCall == Some(step.x)
                                  then if step.s == Connected then Some(step.contact)
                                       else if step.s == Error || step.s == End then None else c.focusContact
                                  else c.focusContact)
  {
    hide AddParticipant, RemoveParticipant, OnFocusCallStateChanged, OnPendingCallStateChanged, TransferStateChanged;
    match step
    case Add(x, uri, focus, parses, ok) => AddGoesToContact(c, x, uri, focus, parses, ok);
    case CallChanged(x, s, contact, oks) =>
      var d := c.(calls := c.calls[x := s]);
      if c.focusCall == Some(x) { FocusGoesToContact(d, s, contact, oks); }
      else if x in c.pending { PendingGoesToContact(d, x, s); }
    case TransferChanged(_, _) => OtherContacts(c, step);
    case RemoveUri(_, _) => OtherContacts(c, step);
    case TerminateRequest => OtherContacts(c, step);
  }

  lemma AddGoesToContact(c: Conf, x: CallId, uri: string, focus: CallId, parses: bool, ok: bool)
    ensures var d := AddParticipant(c, x, uri, focus, parses, ok).0;
            && d.focusContact == c.focusContact && c.attempts <= d.attempts
            && forall i | |c.attempts| <= i < |d.attempts| :: d.attempts[i].contact == d.focusContact
  {
    hide FocusIsReady;
  }

  lemma {:induction false} ReadyGoToContact(c: Conf, xs: seq<CallId>, ok: CallId -> bool)
    ensures var d := TransferReady(c, xs, ok);
            && c.attempts <= d.attempts
            && forall i | |c.attempts| <= i < |d.attempts| :: d.attempts[i].contact == c.focusContact
  {
    if xs != [] {
      ReadyGoToContact(c, xs[..|xs| - 1], ok);
      TransferReadyFrame(c, xs[..|xs| - 1], ok);
    }
  }

  lemma FocusGoesToContact(c: Conf, s: CallState, contact: string, ok: CallId -> bool)
    ensures var d := OnFocusCallStateChanged(c, s, contact, ok);
            && c.attempts <= d.attempts
            && (forall i | |c.attempts| <= i < |d.attempts| :: d.attempts[i].contact == d.focusContact)
            && d.focusContact == if s == Connected then Some(contact) else if s == Error || s == End then None
                                 else c.focusContact
  {
    hide TransferReady, StillPending;
    var d := c.(focusContact := Some(contact));
    TransferReadyFrame(d, c.pending, ok);
    ReadyGoToContact(d, c.pending, ok);
  }

  lemma PendingGoesToContact(c: Conf, x: CallId, s: CallState)
    ensures var d := OnPendingCallStateChanged(c, x, s);
            && d.focusContact == c.focusContact && c.attempts <= d.attempts
            && forall i | |c.attempts| <= i < |d.attempts| :: d.attempts[i].contact == d.focusContact
  {
    hide Remove, RemoveAt;
  }

  /** An add always records the participant, and fails exactly when the conference must start and has no address. */
  lemma AddAnswers(c: Conf, x: CallId, uri: string, focus: CallId, parses: bool, ok: bool)
    ensures var (d, r) := AddParticipant(c, x, uri, focus, parses, ok);
            && (r == -1 <==> !Active(c.state) && (c.focusAddr.None? || !parses)) && (r == 0 || r == -1)
            && d.participants == c.participants + [Participant(uri, Some(x))]
            && d.state == (if r == -1 || c.state == Running then c.state else Starting)
            && (r == 0 && !Active(c.state) ==> d.focusCall == Some(focus) && d.pending == c.pending + [x])
            && (c.state == Starting && !FocusIsReady(c) ==> d.pending == c.pending + [x] && d.attempts == c.attempts)
            && (c.state == Running ==> d.pending == c.pending && |d.attempts| == |c.attempts| + 1)
  {
    hide CallStateOf;
    SameFocus(c, c.(participants := c.participants + [Participant(uri, Some(x))], added := c.added + {x}));
  }

  /** A removal succeeds exactly while running, for a URI that is there, with the request accepted. */
  lemma RemoveAnswers(c: Conf, uri: string, referOk: bool)
    ensures var (d, r) := RemoveParticipant(c, uri, referOk);
            && (r == 0 <==> c.state == Running && referOk && exists p <- c.participants :: p.uri == uri)
            && (r == 0 || (r == -1 && d == c))
            && (r == 0 ==> exists i :: 0 <= i < |c.participants| && c.participants[i].uri == uri
                             && (forall j | 0 <= j < i :: c.participants[j].uri != uri)
                             && d == c.(participants := c.participants[..i] + c.participants[i + 1..]))
  {
    hide FirstAt;
    var f := FirstAt(c.participants, uri);
    FirstAtIsFirst(c.participants, uri);
    if f.Some? { assert c.participants[f.value] in c.participants; }
  }

  lemma {:induction false} FirstAtIsFirst(ps: seq<Participant>, uri: string)
    ensures var f := FirstAt(ps, uri); f.Some? ==> forall j | 0 <= j < f.value :: ps[j].uri != uri
  {
    if ps != [] {
      FirstAtIsFirst(ps[1..], uri);
      assert forall j | 1 <= j < |ps| :: ps[j] == ps[1..][j - 1];
    }
  }
}
