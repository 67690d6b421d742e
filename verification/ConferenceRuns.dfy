/** What holds of the remote conference over every run. */
module ConferenceRuns {
  import opened Bytes
  import opened ConferenceState

  // ---- The life of a conference: no assumption on the events -----------------------------------------

  predicate Active(s: ConfState) { s == Starting || s == Running }

  /** The state callback has seen a path Stopped, Starting, Running, end, or one that skips Running. */
  predicate PathOk(c: Conf) {
    if c.focusAddr.Some? then
      || (c.state == Stopped && c.callbacks == [])
      || (c.state == Starting && c.callbacks == [Starting])
      || (c.state == Running && c.callbacks == [Starting, Running])
    else
      !Active(c.state) && (c.callbacks == [Starting, c.state] || c.callbacks == [Starting, Running, c.state])
  }

  /** The focus call is set exactly while starting or running; otherwise nothing is pending or transferring. */
  predicate Life(c: Conf) {
    && (c.focusCall.Some? <==> Active(c.state))
    && (!Active(c.state) ==> c.pending == [] && c.transferring == [])
    && PathOk(c)
  }

  lemma {:induction false} TransferReadyFrame(c: Conf, xs: seq<CallId>, ok: CallId -> bool)
    ensures var d := TransferReady(c, xs, ok); d == c.(attempts := d.attempts, transferring := d.transferring)
  {
    if xs != [] { TransferReadyFrame(c, xs[..|xs| - 1], ok); }
  }

  lemma FocusKeepsLife(c: Conf, s: CallState, contact: string, ok: CallId -> bool)
    requires Life(c) && c.focusCall.Some?
    ensures Life(OnFocusCallStateChanged(c, s, contact, ok))
  {
    hide TransferReady, StillPending;
    TransferReadyFrame(c.(focusContact := Some(contact)), c.pending, ok);
  }

  lemma PendingKeepsLife(c: Conf, x: CallId, s: CallState)
    requires Life(c) && x in c.pending
    ensures Life(OnPendingCallStateChanged(c, x, s))
  {
    hide Remove, RemoveAt;
  }

  lemma TransferKeepsLife(c: Conf, x: CallId, s: CallState)
    requires Life(c) && TransferDefined(c, x, s)
    ensures Life(TransferStateChanged(c, x, s))
  {
    hide Remove, RemoveAt;
  }

  lemma AddKeepsLife(c: Conf, x: CallId, uri: string, focus: CallId, parses: bool, ok: bool)
    requires Life(c)
    ensures Life(AddParticipant(c, x, uri, focus, parses, ok).0)
  {
    hide FocusIsReady;
  }

  lemma NextKeepsLife(c: Conf, step: Step)
    requires Life(c) && Defined(c, step)
    ensures Life(Next(c, step))
  {
    hide AddParticipant, OnFocusCallStateChanged, OnPendingCallStateChanged, TransferStateChanged, RemoveAt;
    match step
    case Add(x, uri, focus, parses, ok) => AddKeepsLife(c, x, uri, focus, parses, ok);
    case CallChanged(x, s, contact, oks) =>
      var d := c.(calls := c.calls[x := s]);
      if d.focusCall == Some(x) { FocusKeepsLife(d, s, contact, oks); }
      else if x in d.pending { PendingKeepsLife(d, x, s); }
    case TransferChanged(x, s) => TransferKeepsLife(c, x, s);
    case RemoveUri(_, _) =>
    case TerminateRequest =>
  }

  predicate AllDefined(c: Conf, steps: seq<Step>)
    decreases |steps|
  {
    steps == [] || (Defined(c, steps[0]) && AllDefined(Next(c, steps[0]), steps[1..]))
  }

  function Run(c: Conf, steps: seq<Step>): Conf
    requires AllDefined(c, steps)
    decreases |steps|
  {
    if steps == [] then c else Run(Next(c, steps[0]), steps[1..])
  }

  lemma {:induction false} RunKeepsLife(c: Conf, steps: seq<Step>)
    requires Life(c) && AllDefined(c, steps)
    ensures Life(Run(c, steps))
    decreases |steps|
  {
    hide Next, Life;
    if steps != [] {
      NextKeepsLife(c, steps[0]);
      RunKeepsLife(Next(c, steps[0]), steps[1..]);
    }
  }

  /**
   * Over the whole life of a conference object, whatever happens to its calls: the focus call is set exactly
   * in Starting and Running, and the state callback sees Starting, then possibly Running, then one end,
   * and nothing after that.
   */
  lemma CallbackPath(addr: string, steps: seq<Step>)
    requires AllDefined(New(addr), steps)
    ensures var c := Run(New(addr), steps);
            && (c.focusCall.Some? <==> Active(c.state))
            && (c.callbacks <= [Starting, Running, Stopped] || c.callbacks <= [Starting, Running, StartingFailed]
                || c.callbacks == [Starting, Stopped] || c.callbacks == [Starting, StartingFailed])
            && (c.callbacks != [] ==> c.callbacks[|c.callbacks| - 1] == c.state)
  {
    hide Next;
    RunKeepsLife(New(addr), steps);
  }

  /** When the focus call ends, in any run, nothing is left: no participant, no pending and no transferring call. */
  lemma FocusEndLeavesNothing(addr: string, steps: seq<Step>, step: Step)
    requires AllDefined(New(addr), steps) && step.CallChanged? && (step.s == Error || step.s == End)
    requires Run(New(addr), steps).focusCall == Some(step.x)
    ensures var c := Next(Run(New(addr), steps), step);
            && c.participants == [] && c.pending == [] && c.transferring == [] && c.focusCall == None
            && c.state == (if step.s == End then Stopped else StartingFailed)
            && |c.callbacks| == |Run(New(addr), steps).callbacks| + 1
  {
    RunKeepsLife(New(addr), steps);
  }

  /** After the end the focus address is gone: an add fails, and leaves a participant nobody will transfer. */
  lemma AddAfterEndFails(c: Conf, x: CallId, uri: string, focus: CallId, parses: bool, ok: bool)
    requires Life(c) && c.focusAddr.None?
    ensures var (d, r) := AddParticipant(c, x, uri, focus, parses, ok);
            && r == -1 && d.state == c.state && d.pending == [] && d.attempts == c.attempts
            && |d.participants| == |c.participants| + 1 && d.participants[|c.participants|].call == Some(x)
  {
  }

  // ---- Transfers: each call added once, the focus connected before it streams ------------------------

  /** Calls are added once and are not the focus; the address parses; Connected comes before a ready focus. */
  predicate Fair(c: Conf, step: Step) {
    && (step.Add? ==> step.x !in c.added && c.focusCall != Some(step.x)
                      && step.focus !in c.added && step.focus != step.x && step.parses)
    && (step.CallChanged? && c.focusCall == Some(step.x) && Ready(step.s) ==> c.state == Running)
  }

  function Attempted(attempts: seq<Attempt>): set<CallId> { set a <- attempts :: a.call }

  lemma AttemptedSnoc(attempts: seq<Attempt>, a: Attempt)
    ensures Attempted(attempts + [a]) == Attempted(attempts) + {a.call}
  {
    var xs := attempts + [a];
    forall x ensures x in Attempted(xs) <==> x in Attempted(attempts) + {a.call} {
      if x in Attempted(attempts) { var b :| b in attempts && b.call == x; assert b in xs; }
      if x == a.call { assert a in xs; }
    }
  }

  /** Each attempt named a contact, was for an added call, and no call has two. */
  predicate AttemptsOk(attempts: seq<Attempt>, added: set<CallId>) {
    && (forall a <- attempts :: a.contact.Some? && a.call in added)
    && (forall i, j | 0 <= i < j < |attempts| :: attempts[i].call != attempts[j].call)
  }

  predicate PendingOk(pending: seq<CallId>, attempts: seq<Attempt>, added: set<CallId>) {
    NoDup(pending) && forall x <- pending :: x in added && x !in Attempted(attempts)
  }

  predicate HoldersOk(ps: seq<Participant>, added: set<CallId>) {
    && (forall p <- ps | p.call.Some? :: p.call.value in added)
    && (forall i, j | 0 <= i < j < |ps| && ps[i].call.Some? :: ps[i].call != ps[j].call)
  }

  /** A participant still holding a call is pending or had its attempt. */
  predicate Accounted(ps: seq<Participant>, pending: seq<CallId>, attempts: seq<Attempt>) {
    forall p <- ps | p.call.Some? :: p.call.value in pending || p.call.value in Attempted(attempts)
  }

  predicate NoneReady(c: Conf, xs: seq<CallId>) { forall x <- xs :: !Ready(CallStateOf(c, x)) }

  predicate FocusOk(c: Conf) {
    && (c.focusCall.Some? ==> c.focusCall.value !in c.added)
    && (c.state == Starting ==> !FocusIsReady(c))
    && (c.state == Running ==> c.focusContact.Some?)
    && (c.state == Stopped && c.focusAddr.Some? ==> c.participants == [])
  }

  predicate Inv(c: Conf) {
    && Life(c) && FocusOk(c)
    && AttemptsOk(c.attempts, c.added)
    && PendingOk(c.pending, c.attempts, c.added)
    && HoldersOk(c.participants, c.added)
    && (Active(c.state) ==> Accounted(c.participants, c.pending, c.attempts))
    && (c.state == Running ==> NoneReady(c, c.pending))
  }

  // Lists

  lemma {:induction false} RemoveEffect(xs: seq<CallId>, x: CallId)
    ensures forall y :: y in Remove(xs, x) <==> y in xs && y != x
    ensures NoDup(xs) ==> NoDup(Remove(xs, x))
    decreases |xs|
  {
    if xs != [] {
      var n := |xs| - 1;
      RemoveEffect(xs[..n], x);
      assert xs == xs[..n] + [xs[n]];
      if NoDup(xs) { assert xs[n] !in xs[..n]; }
    }
  }

  lemma {:induction false} StillPendingEffect(c: Conf, xs: seq<CallId>)
    ensures forall y :: y in StillPending(c, xs) <==> y in xs && !Ready(CallStateOf(c, y))
    ensures NoDup(xs) ==> NoDup(StillPending(c, xs))
    decreases |xs|
  {
    if xs != [] {
      var n := |xs| - 1;
      StillPendingEffect(c, xs[..n]);
      assert xs == xs[..n] + [xs[n]];
      if NoDup(xs) { assert xs[n] !in xs[..n]; }
    }
  }

  lemma AppendAttempt(attempts: seq<Attempt>, a: Attempt, added: set<CallId>)
    requires AttemptsOk(attempts, added) && a.contact.Some? && a.call in added && a.call !in Attempted(attempts)
    ensures AttemptsOk(attempts + [a], added) && Attempted(attempts + [a]) == Attempted(attempts) + {a.call}
  {
    AttemptedSnoc(attempts, a);
    forall i | 0 <= i < |attempts| ensures attempts[i].call != a.call {
      assert attempts[i] in attempts;
    }
  }

  /** Transferring the ready ones attempts exactly these, each once. */
  lemma {:induction false} TransferReadyEffect(c: Conf, xs: seq<CallId>, ok: CallId -> bool)
    requires c.focusContact.Some? && AttemptsOk(c.attempts, c.added)
    requires NoDup(xs) && forall x <- xs :: x in c.added && x !in Attempted(c.attempts)
    ensures var d := TransferReady(c, xs, ok);
            && AttemptsOk(d.attempts, c.added)
            && (forall y :: y in Attempted(d.attempts)
                            <==> y in Attempted(c.attempts) || (y in xs && Ready(CallStateOf(c, y))))
    decreases |xs|
  {
    hide Attempted;
    if xs != [] {
      var n := |xs| - 1;
      var x := xs[n];
      assert xs == xs[..n] + [x] && x !in xs[..n];
      TransferReadyEffect(c, xs[..n], ok);
      TransferReadyFrame(c, xs[..n], ok);
      if Ready(CallStateOf(c, x)) {
        AppendAttempt(TransferReady(c, xs[..n], ok).attempts, Attempt(x, c.focusContact, Checked(ok(x))), c.added);
      }
    }
  }

  /** Dropping a participant keeps the rest accounted for. */
  lemma DropParticipant(ps: seq<Participant>, i: Option<nat>, added: set<CallId>)
    requires (i.Some? ==> i.value < |ps|) && HoldersOk(ps, added)
    ensures HoldersOk(RemoveAt(ps, i), added)
    ensures forall p <- RemoveAt(ps, i) :: p in ps
    ensures i.Some? && ps[i.value].call.Some? ==> forall p <- RemoveAt(ps, i) :: p.call != ps[i.value].call
  {
    if i.Some? {
      var qs := RemoveAt(ps, i);
      assert forall k | 0 <= k < |qs| :: qs[k] == if k < i.value then ps[k] else ps[k + 1];
    }
  }

  // Operations

  lemma FocusConnectedKeepsInv(c: Conf, contact: string, ok: CallId -> bool)
    requires Inv(c) && c.focusCall.Some?
    ensures Inv(OnFocusCallStateChanged(c, Connected, contact, ok))
  {
    hide TransferReady, StillPending, Attempted, Life, HoldersOk, CallStateOf;
    assert Life(c) && Active(c.state) by { ActiveFocus(c); }
    var d := c.(focusContact := Some(contact));
    TransferReadyFrame(d, c.pending, ok);
    TransferReadyEffect(d, c.pending, ok);
    StillPendingEffect(d, c.pending);
    FocusKeepsLife(c, Connected, contact, ok);
    var e := OnFocusCallStateChanged(c, Connected, contact, ok);
    assert e.pending == StillPending(d, c.pending) && e.state == Running;
    forall x <- e.pending ensures !Ready(CallStateOf(e, x)) { SameCalls(d, e, x); }
  }

  lemma SameCalls(c: Conf, d: Conf, x: CallId)
    requires c.calls == d.calls
    ensures CallStateOf(c, x) == CallStateOf(d, x)
  {
  }

  lemma ActiveFocus(c: Conf)
    requires Life(c)
    ensures c.focusCall.Some? <==> Active(c.state)
  {
  }

  lemma FocusEndedKeepsInv(c: Conf, s: CallState, contact: string, ok: CallId -> bool)
    requires Inv(c) && c.focusCall.Some? && s != Connected
    ensures Inv(OnFocusCallStateChanged(c, s, contact, ok))
  {
    hide Attempted;
    FocusKeepsLife(c, s, contact, ok);
  }

  lemma PendingReadyKeepsInv(c: Conf, x: CallId, s: CallState)
    requires Inv(c) && x in c.pending && Ready(s)
    ensures Inv(OnPendingCallStateChanged(c, x, s))
  {
    hide Remove, Attempted, Life, CallStateOf;
    PendingKeepsLife(c, x, s);
    RemoveEffect(c.pending, x);
    if c.state == Running {
      var a := Attempt(x, c.focusContact, Unchecked);
      AppendAttempt(c.attempts, a, c.added);
      var d := OnPendingCallStateChanged(c, x, s);
      assert d.calls == c.calls && d.pending == Remove(c.pending, x);
      forall y <- d.pending ensures !Ready(CallStateOf(d, y)) { SameCalls(c, d, y); }
    }
  }

  /** A participant list, a pending list and a state that only lost members keep the invariant. */
  lemma LosingKeepsInv(c: Conf, d: Conf, x: CallId)
    requires Inv(c) && Life(d)
    requires d == c.(participants := d.participants, pending := d.pending, transferring := d.transferring,
                     terminations := d.terminations)
    requires d.participants == RemoveAt(c.participants, FirstHolder(c.participants, x))
    requires d.pending == c.pending || d.pending == Remove(c.pending, x)
    ensures Inv(d)
  {
    hide Remove, Attempted, Life, RemoveAt, FirstHolder;
    RemoveEffect(c.pending, x);
    DropParticipant(c.participants, FirstHolder(c.participants, x), c.added);
    if d.participants != [] { assert d.participants[0] in c.participants; }
    forall p <- d.participants | p.call.Some? && Active(c.state)
      ensures p.call.value in d.pending || p.call.value in Attempted(d.attempts)
    {
      assert p in c.participants;
      assert p.call != Some(x);
    }
  }

  lemma PendingEndedKeepsInv(c: Conf, x: CallId, s: CallState)
    requires Inv(c) && x in c.pending && !Ready(s)
    ensures Inv(OnPendingCallStateChanged(c, x, s))
  {
    hide Remove, RemoveAt, Inv;
    assert Life(c) by { InvLife(c); }
    PendingKeepsLife(c, x, s);
    if s == Error || s == End {
      LosingKeepsInv(c, OnPendingCallStateChanged(c, x, s), x);
    }
  }

  lemma InvLife(c: Conf)
    requires Inv(c)
    ensures Life(c)
  {
  }

  lemma TransferKeepsInv(c: Conf, x: CallId, s: CallState)
    requires Inv(c) && TransferDefined(c, x, s)
    ensures Inv(TransferStateChanged(c, x, s))
  {
    hide Remove, RemoveAt, Attempted, Life;
    TransferKeepsLife(c, x, s);
    if x in c.transferring {
      if s == Error {
        LosingKeepsInv(c, TransferStateChanged(c, x, s), x);
      } else if s == Connected {
        var i := FirstHolder(c.participants, x).value;
        var d := TransferStateChanged(c, x, s);
        forall p <- d.participants | p.call.Some? ensures p in c.participants {
          var k :| 0 <= k < |d.participants| && d.participants[k] == p;
          assert k != i;
        }
      }
    }
  }

  lemma AddKeepsInv(c: Conf, x: CallId, uri: string, focus: CallId, ok: bool)
    requires Inv(c) && Fair(c, Add(x, uri, focus, true, ok))
    ensures Inv(AddParticipant(c, x, uri, focus, true, ok).0)
  {
    hide Attempted, Life;
    AddKeepsLife(c, x, uri, focus, true, ok);
    ActiveFocus(c);
    var d := AddParticipant(c, x, uri, focus, true, ok).0;
    NewCallUnknown(c, x);
    assert HoldersOk(d.participants, d.added);
    match c.state
    case Stopped =>
      StoppedPending(c);
    case StartingFailed =>
      StoppedPending(c);
    case Starting =>
    case Running =>
      AppendAttempt(c.attempts, Attempt(x, c.focusContact, Checked(ok)), c.added + {x});
  }

  lemma StoppedPending(c: Conf)
    requires Life(c) && !Active(c.state)
    ensures c.pending == [] && (c.focusAddr.Some? ==> c.state == Stopped)
  {
  }

  lemma NewCallUnknown(c: Conf, x: CallId)
    requires Inv(c) && x !in c.added
    ensures x !in c.pending && x !in Attempted(c.attempts) && forall p <- c.participants :: p.call != Some(x)
  {
  }

  lemma CallChangeKeepsInv(c: Conf, x: CallId, s: CallState)
    requires Inv(c) && (c.focusCall == Some(x) && Ready(s) ==> c.state == Running)
    requires c.state == Running && Ready(s) ==> x !in c.pending
    ensures Inv(c.(calls := c.calls[x := s]))
  {
    hide Attempted, HoldersOk, Accounted;
  }

  lemma NextKeepsInv(c: Conf, step: Step)
    requires Inv(c) && Defined(c, step) && Fair(c, step)
    ensures Inv(Next(c, step))
  {
    hide AddParticipant, OnFocusCallStateChanged, OnPendingCallStateChanged, TransferStateChanged;
    match step
    case Add(x, uri, focus, parses, ok) => AddKeepsInv(c, x, uri, focus, ok);
    case CallChanged(x, s, contact, oks) => CallChangedKeepsInv(c, x, s, contact, oks);
    case TransferChanged(x, s) => TransferKeepsInv(c, x, s);
    case RemoveUri(uri, referOk) => RemoveKeepsInv(c, uri, referOk);
    case TerminateRequest => TerminateKeepsInv(c);
  }

  lemma TerminateKeepsInv(c: Conf)
    requires Inv(c)
    ensures Inv(Terminate(c))
  {
    hide Attempted, HoldersOk, Accounted, AttemptsOk, PendingOk;
  }

  lemma RemoveKeepsInv(c: Conf, uri: string, referOk: bool)
    requires Inv(c)
    ensures Inv(RemoveParticipant(c, uri, referOk).0)
  {
    hide Attempted, RemoveAt, AttemptsOk, PendingOk;
    DropParticipant(c.participants, FirstAt(c.participants, uri), c.added);
  }

  /** A pending call that becomes ready while running is out of step until the handler has run. */
  lemma PendingReadyRunning(c: Conf, x: CallId, s: CallState)
    requires Inv(c) && x in c.pending && Ready(s) && c.state == Running
    ensures Inv(OnPendingCallStateChanged(c.(calls := c.calls[x := s]), x, s))
  {
    hide OnPendingCallStateChanged, Inv;
    PendingReadyKeepsInv(c, x, s);
    var e := OnPendingCallStateChanged(c, x, s);
    PendingReadyCalls(c, x, s);
    CallChangeAfter(c, e, x, s);
  }

  /** The handler does not look at call states, so changing the state before or after it is the same. */
  lemma PendingReadyCalls(c: Conf, x: CallId, s: CallState)
    requires Ready(s) && c.state == Running
    ensures var e := OnPendingCallStateChanged(c, x, s);
            && e.calls == c.calls && e.state == Running && e.focusCall == c.focusCall && x !in e.pending
            && OnPendingCallStateChanged(c.(calls := c.calls[x := s]), x, s) == e.(calls := c.calls[x := s])
  {
    hide Remove;
    RemoveEffect(c.pending, x);
  }

  lemma CallChangeAfter(c: Conf, e: Conf, x: CallId, s: CallState)
    requires Inv(e) && e.calls == c.calls && x !in e.pending && e.state == Running
    ensures Inv(e.(calls := c.calls[x := s]))
  {
    hide Inv;
    CallChangeKeepsInv(e, x, s);
  }

  lemma CallChangedKeepsInv(c: Conf, x: CallId, s: CallState, contact: string, ok: CallId -> bool)
    requires Inv(c) && (c.focusCall == Some(x) && Ready(s) ==> c.state == Running)
    ensures Inv(CallStateChanged(c, x, s, contact, ok))
  {
    hide OnFocusCallStateChanged, OnPendingCallStateChanged, Inv;
    var d := c.(calls := c.calls[x := s]);
    FocusNotPending(c);
    if c.focusCall == Some(x) {
      CallChangeKeepsInv(c, x, s);
      if s == Connected { FocusConnectedKeepsInv(d, contact, ok); } else { FocusEndedKeepsInv(d, s, contact, ok); }
    } else if x in c.pending {
      if Ready(s) && c.state == Running {
        PendingReadyRunning(c, x, s);
      } else {
        CallChangeKeepsInv(c, x, s);
        if Ready(s) { PendingReadyKeepsInv(d, x, s); } else { PendingEndedKeepsInv(d, x, s); }
      }
    } else {
      CallChangeKeepsInv(c, x, s);
    }
  }

  lemma FocusNotPending(c: Conf)
    requires Inv(c)
    ensures c.focusCall.Some? ==> c.focusCall.value !in c.pending
  {
  }

  // Runs

  predicate AllFair(c: Conf, steps: seq<Step>)
    requires AllDefined(c, steps)
    decreases |steps|
  {
    steps == [] || (Fair(c, steps[0]) && AllFair(Next(c, steps[0]), steps[1..]))
  }

  lemma {:induction false} RunKeepsInv(c: Conf, steps: seq<Step>)
    requires Inv(c) && AllDefined(c, steps) && AllFair(c, steps)
    ensures Inv(Run(c, steps))
    decreases |steps|
  {
    hide Next, Inv, Fair;
    if steps != [] {
      NextKeepsInv(c, steps[0]);
      RunKeepsInv(Next(c, steps[0]), steps[1..]);
    }
  }

  /**
   * If each call is added once and the focus reports Connected before it streams, then over every run no
   * call is transferred before the focus contact is known, each is transferred at most once, and, while the
   * conference lives, every participant still holding a call is pending or had exactly one attempt, not
   * both; once it is Running no ready call stays pending.
   */
  lemma TransfersAreRight(addr: string, steps: seq<Step>)
    requires AllDefined(New(addr), steps) && AllFair(New(addr), steps)
    ensures var c := Run(New(addr), steps);
            && (forall a <- c.attempts :: a.contact.Some?)
            && (forall i, j | 0 <= i < j < |c.attempts| :: c.attempts[i].call != c.attempts[j].call)
            && (Active(c.state) ==>
                  forall p <- c.participants | p.call.Some? ::
                    (p.call.value in c.pending) != (p.call.value in Attempted(c.attempts)))
            && (c.state == Running ==> forall x <- c.pending :: !Ready(CallStateOf(c, x)))
  {
    hide Next, Life;
    FreshInv(addr);
    RunKeepsInv(New(addr), steps);
  }

  lemma FreshInv(addr: string)
    ensures Inv(New(addr))
  {
  }

  // ---- The contact, without assumption on the focus ----------------------------------------------------

  predicate AllContacted(attempts: seq<Attempt>) { forall a <- attempts :: a.contact.Some? }

  /** Every attempt named a contact, and there is one while running. */
  predicate Contacted(c: Conf) {
    AllContacted(c.attempts) && (c.state == Running ==> c.focusContact.Some?)
  }

  /** A call is added while the focus streams but has not been reported connected. */
  predicate AddsEarly(c: Conf, step: Step) {
    step.Add? && c.state == Starting && FocusIsReady(c) && c.focusContact.None?
  }

  lemma {:induction false} TransferReadyContacts(c: Conf, xs: seq<CallId>, ok: CallId -> bool)
    ensures var d := TransferReady(c, xs, ok);
            c.attempts <= d.attempts && (c.focusContact.Some? && AllContacted(c.attempts) ==> AllContacted(d.attempts))
  {
    if xs != [] {
      TransferReadyContacts(c, xs[..|xs| - 1], ok);
      TransferReadyFrame(c, xs[..|xs| - 1], ok);
    }
  }

  lemma FocusContacts(c: Conf, s: CallState, contact: string, ok: CallId -> bool)
    ensures var d := OnFocusCallStateChanged(c, s, contact, ok);
            c.attempts <= d.attempts && (Contacted(c) ==> Contacted(d))
  {
    hide TransferReady, StillPending;
    var d := c.(focusContact := Some(contact));
    TransferReadyFrame(d, c.pending, ok);
    TransferReadyContacts(d, c.pending, ok);
  }

  lemma AddContacts(c: Conf, step: Step)
    requires step.Add?
    ensures var d := Next(c, step);
            && c.attempts <= d.attempts
            && (Contacted(c) ==> (Contacted(d) <==> !AddsEarly(c, step)))
            && (Contacted(c) ==> (AllContacted(d.attempts) <==> !AddsEarly(c, step)))
  {
    hide FocusIsReady, CallStateOf;
    var e := c.(participants := c.participants + [Participant(step.uri, Some(step.x))], added := c.added + {step.x});
    assert FocusIsReady(e) == FocusIsReady(c) by { SameFocus(c, e); }
    var a := Attempt(step.x, c.focusContact, Checked(step.ok));
    assert a in c.attempts + [a];
  }

  lemma SameFocus(c: Conf, d: Conf)
    requires c.calls == d.calls && c.focusCall == d.focusCall
    ensures FocusIsReady(c) == FocusIsReady(d)
  {
  }

  lemma PendingContacts(c: Conf, x: CallId, s: CallState)
    ensures var d := OnPendingCallStateChanged(c, x, s);
            c.attempts <= d.attempts && (Contacted(c) ==> Contacted(d))
  {
    hide Remove, RemoveAt;
  }

  lemma OtherContacts(c: Conf, step: Step)
    requires Defined(c, step) && !step.Add? && !step.CallChanged?
    ensures var d := Next(c, step); d.attempts == c.attempts && d.focusContact == c.focusContact && d.state == c.state
  {
    hide Remove, RemoveAt;
  }

  /** An event keeps every attempt contacted if and only if it is not such an early addition. */
  lemma ContactedIff(c: Conf, step: Step)
    requires Contacted(c) && Defined(c, step)
    ensures var d := Next(c, step);
            (Contacted(d) <==> !AddsEarly(c, step)) && (AllContacted(d.attempts) <==> !AddsEarly(c, step))
  {
    hide OnFocusCallStateChanged, OnPendingCallStateChanged, AddParticipant, TransferStateChanged, RemoveParticipant;
    match step
    case Add(_, _, _, _, _) => AddContacts(c, step);
    case CallChanged(x, s, contact, oks) =>
      var d := c.(calls := c.calls[x := s]);
      FocusContacts(d, s, contact, oks);
      PendingContacts(d, x, s);
    case TransferChanged(_, _) => OtherContacts(c, step);
    case RemoveUri(_, _) => OtherContacts(c, step);
    case TerminateRequest => OtherContacts(c, step);
  }

  predicate NoneEarly(c: Conf, steps: seq<Step>)
    requires AllDefined(c, steps)
    decreases |steps|
  {
    steps == [] || (!AddsEarly(c, steps[0]) && NoneEarly(Next(c, steps[0]), steps[1..]))
  }

  lemma AttemptsGrow(c: Conf, step: Step)
    requires Defined(c, step)
    ensures c.attempts <= Next(c, step).attempts
  {
    hide OnFocusCallStateChanged, OnPendingCallStateChanged, AddParticipant, TransferStateChanged, RemoveParticipant;
    match step
    case Add(_, _, _, _, _) => AddContacts(c, step);
    case CallChanged(x, s, contact, oks) =>
      var d := c.(calls := c.calls[x := s]);
      FocusContacts(d, s, contact, oks);
      PendingContacts(d, x, s);
    case TransferChanged(_, _) => OtherContacts(c, step);
    case RemoveUri(_, _) => OtherContacts(c, step);
    case TerminateRequest => OtherContacts(c, step);
  }

  /** What was attempted without a contact stays on record. */
  lemma {:induction false} UncontactedStays(c: Conf, steps: seq<Step>)
    requires AllDefined(c, steps) && !AllContacted(c.attempts)
    ensures !AllContacted(Run(c, steps).attempts)
    decreases |steps|
  {
    hide Next, Defined;
    if steps != [] {
      AttemptsGrow(c, steps[0]);
      var a :| a in c.attempts && a.contact.None?;
      assert a in Next(c, steps[0]).attempts;
      UncontactedStays(Next(c, steps[0]), steps[1..]);
    }
  }

  lemma {:induction false} RunContactedIff(c: Conf, steps: seq<Step>)
    requires AllDefined(c, steps) && Contacted(c)
    ensures AllContacted(Run(c, steps).attempts) <==> NoneEarly(c, steps)
    decreases |steps|
  {
    hide Next, Defined, AllContacted, AddsEarly;
    if steps != [] {
      ContactedIff(c, steps[0]);
      if AddsEarly(c, steps[0]) {
        UncontactedStays(Next(c, steps[0]), steps[1..]);
      } else {
        RunContactedIff(Next(c, steps[0]), steps[1..]);
      }
    }
  }

  /**
   * Whatever happens to the calls, no call is transferred before the focus contact is known if and only if none is
   * added while the focus streams without having been reported connected.
   */
  lemma ContactKnownIff(addr: string, steps: seq<Step>)
    requires AllDefined(New(addr), steps)
    ensures (forall a <- Run(New(addr), steps).attempts :: a.contact.Some?) <==> NoneEarly(New(addr), steps)
  {
    hide Next;
    RunContactedIff(New(addr), steps);
  }

  /** The failing run: the focus streams without having been reported connected, and a second call is added. */
  lemma EarlyAddFails(addr: string)
    ensures var steps := [ADD, CallChanged(2, StreamsRunning, "", _ => true), Add(3, "v", 4, true, true)];
            AllDefined(New(addr), steps) && Run(New(addr), steps).attempts == [Attempt(3, None, Checked(true))]
  {
    var streams, second := CallChanged(2, StreamsRunning, "", _ => true), Add(3, "v", 4, true, true);
    var c1 := Next(New(addr), ADD);
    var c2 := Next(c1, streams);
    assert c2.state == Starting && c2.focusCall == Some(2) && FocusIsReady(c2) && c2.attempts == [];
    var c3 := Next(c2, second);
    assert [ADD, streams, second][1..] == [streams, second];
    assert [streams, second][1..] == [second] && [second][1..] == [];
    assert Run(c2, [second]) == c3;
    assert Run(c1, [streams, second]) == c3;
  }

  // ---- The undefined event ---------------------------------------------------------------------------

  predicate Holds(ps: seq<Participant>, x: CallId) { exists i :: 0 <= i < |ps| && ps[i].call == Some(x) }

  /**
   * The call that loses its participant by a step and stays on its way all the same: its transfer connects, or
   * the first participant of a URI is removed, the REFER having been accepted.
   */
  function LostBy(c: Conf, step: Step): set<CallId> {
    match step
    case TransferChanged(x, Connected) => if x in c.transferring then {x} else {}
    case RemoveUri(uri, referOk) =>
      var i := FirstAt(c.participants, uri);
      if c.state == Running && referOk && i.Some? && c.participants[i.value].call.Some?
      then {c.participants[i.value].call.value} else {}
    case _ => {}
  }

  /** The event that fails: a transfer connects although its call has lost its participant. */
  predicate Hits(c: Conf, lost: set<CallId>, step: Step) {
    step.TransferChanged? && step.s == Connected && step.x in c.transferring && step.x in lost
  }

  /** Of the calls on their way, exactly the lost ones have no participant. */
  predicate Held(c: Conf, lost: set<CallId>) {
    && lost <= c.added
    && (forall x <- c.pending :: x in lost <==> !Holds(c.participants, x))
    && (forall x <- c.transferring :: x in lost <==> !Holds(c.participants, x))
    && (forall x <- c.transferring :: x in Attempted(c.attempts))
  }

  /** One event is undefined exactly when it hits a lost call. */
  lemma DefinedIff(c: Conf, lost: set<CallId>, step: Step)
    requires Held(c, lost)
    ensures Defined(c, step) <==> !Hits(c, lost, step)
  {
    hide Attempted;
    if step.TransferChanged? && step.x in c.transferring { HolderFound(c.participants, step.x); }
  }

  lemma HolderFound(ps: seq<Participant>, x: CallId)
    ensures FirstHolder(ps, x).Some? <==> Holds(ps, x)
  {
    hide FirstHolder;
    var r := FirstHolder(ps, x);
    if Holds(ps, x) {
      var i :| 0 <= i < |ps| && ps[i].call == Some(x);
      assert ps[i] in ps;
    }
  }

  /** Losing one participant, or its call, only concerns the call it held. */
  lemma HoldersKept(ps: seq<Participant>, i: nat, y: CallId)
    requires i < |ps| && ps[i].call != Some(y)
    ensures Holds(RemoveAt(ps, Some(i)), y) <==> Holds(ps, y)
    ensures Holds(ps[i := ps[i].(call := None)], y) <==> Holds(ps, y)
  {
    var rest, cleared := RemoveAt(ps, Some(i)), ps[i := ps[i].(call := None)];
    if Holds(ps, y) {
      var k :| 0 <= k < |ps| && ps[k].call == Some(y);
      assert rest[if k < i then k else k - 1] == ps[k];
      assert cleared[k] == ps[k];
    }
    if Holds(rest, y) {
      var k :| 0 <= k < |rest| && rest[k].call == Some(y);
      assert ps[if k < i then k else k + 1] == rest[k];
    }
    if Holds(cleared, y) {
      var k :| 0 <= k < |cleared| && cleared[k].call == Some(y);
      assert k != i && ps[k] == cleared[k];
    }
  }

  /** Each call has one participant, so without it there is none. */
  lemma HolderGone(ps: seq<Participant>, i: nat, added: set<CallId>)
    requires i < |ps| && HoldersOk(ps, added) && ps[i].call.Some?
    ensures !Holds(RemoveAt(ps, Some(i)), ps[i].call.value)
    ensures !Holds(ps[i := ps[i].(call := None)], ps[i].call.value)
    ensures ps[i].call.value in added
  {
    var rest := RemoveAt(ps, Some(i));
    assert forall k | 0 <= k < |rest| :: rest[k] == ps[if k < i then k else k + 1];
    assert ps[i] in ps;
  }

  lemma HoldersGrow(ps: seq<Participant>, p: Participant, y: CallId)
    ensures Holds(ps + [p], y) <==> Holds(ps, y) || p.call == Some(y)
  {
    if Holds(ps, y) {
      var k :| 0 <= k < |ps| && ps[k].call == Some(y);
      assert (ps + [p])[k] == ps[k];
    }
    assert (ps + [p])[|ps|] == p;
  }

  lemma {:induction false} TransferReadyMoves(c: Conf, xs: seq<CallId>, ok: CallId -> bool)
    ensures var d := TransferReady(c, xs, ok);
            && (forall y <- d.transferring :: y in c.transferring || (y in xs && y in Attempted(d.attempts)))
            && Attempted(c.attempts) <= Attempted(d.attempts)
  {
    hide Attempted;
    if xs != [] {
      var n := |xs| - 1;
      TransferReadyMoves(c, xs[..n], ok);
      var d := TransferReady(c, xs[..n], ok);
      AttemptedSnoc(d.attempts, Attempt(xs[n], d.focusContact, Checked(ok(xs[n]))));
      assert xs == xs[..n] + [xs[n]];
    }
  }

  lemma AddKeepsHeld(c: Conf, lost: set<CallId>, x: CallId, uri: string, focus: CallId, ok: bool)
    requires Held(c, lost) && x !in c.added
    ensures Held(AddParticipant(c, x, uri, focus, true, ok).0, lost)
  {
    hide Attempted, FocusIsReady, Holds;
    forall y ensures Holds(c.participants + [Participant(uri, Some(x))], y) <==> Holds(c.participants, y) || y == x {
      HoldersGrow(c.participants, Participant(uri, Some(x)), y);
    }
    AttemptedSnoc(c.attempts, Attempt(x, c.focusContact, Checked(ok)));
  }

  lemma FocusKeepsHeld(c: Conf, lost: set<CallId>, s: CallState, contact: string, ok: CallId -> bool)
    requires Held(c, lost)
    ensures Held(OnFocusCallStateChanged(c, s, contact, ok), lost)
  {
    hide Attempted, TransferReady, StillPending, Holds;
    var d := c.(focusContact := Some(contact));
    TransferReadyFrame(d, c.pending, ok);
    TransferReadyMoves(d, c.pending, ok);
    StillPendingEffect(d, c.pending);
  }

  /** The call whose participant goes is on neither list any more. */
  lemma LosingKeepsHeld(c: Conf, d: Conf, lost: set<CallId>, x: CallId)
    requires Held(c, lost) && d.attempts == c.attempts && d.added == c.added
    requires d.participants == RemoveAt(c.participants, FirstHolder(c.participants, x))
    requires forall y <- d.pending :: y in c.pending && y != x
    requires forall y <- d.transferring :: y in c.transferring && y != x
    ensures Held(d, lost)
  {
    hide Attempted, RemoveAt, Holds;
    var i := FirstHolder(c.participants, x);
    RemoveNone(c.participants);
    forall y: CallId | y != x ensures Holds(d.participants, y) <==> Holds(c.participants, y) {
      if i.Some? { HoldersKept(c.participants, i.value, y); }
    }
  }

  lemma RemoveNone(ps: seq<Participant>)
    ensures RemoveAt(ps, None) == ps
  {
  }

  lemma PendingKeepsHeld(c: Conf, lost: set<CallId>, x: CallId, s: CallState)
    requires Held(c, lost) && x in c.pending && x !in Attempted(c.attempts)
    ensures Held(OnPendingCallStateChanged(c, x, s), lost)
  {
    hide Attempted, Remove, Holds, RemoveAt;
    RemoveEffect(c.pending, x);
    AttemptedSnoc(c.attempts, Attempt(x, c.focusContact, Unchecked));
    if s == Error || s == End { LosingKeepsHeld(c, OnPendingCallStateChanged(c, x, s), lost, x); }
  }

  lemma TransferKeepsHeld(c: Conf, lost: set<CallId>, x: CallId, s: CallState)
    requires Held(c, lost) && TransferDefined(c, x, s) && HoldersOk(c.participants, c.added)
    requires forall y <- c.pending :: y !in Attempted(c.attempts)
    ensures Held(TransferStateChanged(c, x, s), lost + LostBy(c, TransferChanged(x, s)))
  {
    hide Attempted, Remove, Holds, RemoveAt, HoldersOk;
    RemoveEffect(c.transferring, x);
    if x in c.transferring {
      var d := TransferStateChanged(c, x, s);
      if s == Error { LosingKeepsHeld(c, d, lost, x); }
      if s == Connected {
        var i := FirstHolder(c.participants, x).value;
        HolderGone(c.participants, i, c.added);
        forall y: CallId | y != x ensures Holds(d.participants, y) <==> Holds(c.participants, y) {
          HoldersKept(c.participants, i, y);
        }
      }
    }
  }

  lemma RemoveKeepsHeld(c: Conf, lost: set<CallId>, uri: string, referOk: bool)
    requires Held(c, lost) && HoldersOk(c.participants, c.added)
    ensures Held(RemoveParticipant(c, uri, referOk).0, lost + LostBy(c, RemoveUri(uri, referOk)))
  {
    hide Attempted, Holds, RemoveAt, HoldersOk;
    var f := FirstAt(c.participants, uri);
    if f.Some? {
      var p := c.participants[f.value];
      if p.call.Some? { HolderGone(c.participants, f.value, c.added); }
      forall y: CallId | p.call != Some(y) ensures Holds(RemoveAt(c.participants, f), y) <==> Holds(c.participants, y) {
        HoldersKept(c.participants, f.value, y);
      }
    }
  }

  /** What the invariant adds: a pending call had no attempt yet, and each call has one participant. */
  lemma InvParts(c: Conf)
    requires Inv(c)
    ensures HoldersOk(c.participants, c.added) && forall y <- c.pending :: y !in Attempted(c.attempts)
  {
  }

  lemma NextKeepsHeld(c: Conf, lost: set<CallId>, step: Step)
    requires Inv(c) && Held(c, lost) && Fair(c, step) && Defined(c, step)
    ensures Held(Next(c, step), lost + LostBy(c, step))
  {
    hide AddParticipant, RemoveParticipant, OnFocusCallStateChanged, OnPendingCallStateChanged, TransferStateChanged,
         Attempted, Holds, Inv, HoldersOk;
    InvParts(c);
    match step
    case Add(x, uri, focus, parses, ok) => AddKeepsHeld(c, lost, x, uri, focus, ok);
    case CallChanged(x, s, contact, oks) =>
      var d := c.(calls := c.calls[x := s]);
      assert Held(d, lost);
      if c.focusCall == Some(x) { FocusKeepsHeld(d, lost, s, contact, oks); }
      else if x in c.pending { PendingKeepsHeld(d, lost, x, s); }
    case TransferChanged(x, s) => TransferKeepsHeld(c, lost, x, s);
    case RemoveUri(uri, referOk) => RemoveKeepsHeld(c, lost, uri, referOk);
    case TerminateRequest =>
  }

  /** The events are fair as long as the run goes on. */
  predicate FairWhileDefined(c: Conf, steps: seq<Step>)
    decreases |steps|
  {
    steps == []
    || (Fair(c, steps[0]) && (Defined(c, steps[0]) ==> FairWhileDefined(Next(c, steps[0]), steps[1..])))
  }

  /** No event hits a lost call; `lost` is read off the events and the lists as the run goes on. */
  predicate Spares(c: Conf, lost: set<CallId>, steps: seq<Step>)
    decreases |steps|
  {
    steps == []
    || (!Hits(c, lost, steps[0])
        && (Defined(c, steps[0]) ==> Spares(Next(c, steps[0]), lost + LostBy(c, steps[0]), steps[1..])))
  }

  lemma {:induction false} RunDefinedIff(c: Conf, lost: set<CallId>, steps: seq<Step>)
    requires Inv(c) && Held(c, lost) && FairWhileDefined(c, steps)
    ensures AllDefined(c, steps) <==> Spares(c, lost, steps)
    ensures AllDefined(c, steps) ==> AllFair(c, steps)
    decreases |steps|
  {
    hide Next, Inv, Fair, Held, LostBy, Hits, Defined;
    if steps != [] {
      DefinedIff(c, lost, steps[0]);
      if Defined(c, steps[0]) {
        NextKeepsInv(c, steps[0]);
        NextKeepsHeld(c, lost, steps[0]);
        RunDefinedIff(Next(c, steps[0]), lost + LostBy(c, steps[0]), steps[1..]);
      }
    }
  }

  /**
   * A run with fair events never dereferences a missing participant if and only if no transfer connects for a
   * transferring call that lost its participant, by connecting before or by an accepted removal of the first
   * participant of its URI. Such a run is fair throughout, so what was proved of fair runs holds of it.
   */
  lemma DefinedIffSpared(addr: string, steps: seq<Step>)
    requires FairWhileDefined(New(addr), steps)
    ensures AllDefined(New(addr), steps) <==> Spares(New(addr), {}, steps)
    ensures AllDefined(New(addr), steps) ==> AllFair(New(addr), steps)
  {
    FreshInv(addr);
    RunDefinedIff(New(addr), {}, steps);
  }

  /** Any transfer that connects a second time is such an event. */
  lemma SecondConnectedIsUndefined(c: Conf, x: CallId)
    requires Inv(c) && x in c.transferring && TransferDefined(c, x, Connected)
    ensures var d := TransferStateChanged(c, x, Connected);
            x in d.transferring && !TransferDefined(d, x, Connected)
  {
    hide Holds, HoldersOk, FirstHolder, Attempted;
    var i := FirstHolder(c.participants, x).value;
    InvParts(c);
    HolderGone(c.participants, i, c.added);
    HolderFound(TransferStateChanged(c, x, Connected).participants, x);
  }

  // Call 1 of participant "u" is added, the focus call 2 connects, and call 1 streams: its transfer is under way.

  const ADD: Step := Add(1, "u", 2, true, true)
  const FOCUS_CONNECTS: Step := CallChanged(2, Connected, "f", _ => true)
  const STREAMS: Step := CallChanged(1, StreamsRunning, "", _ => true)
  const UNDER_WAY: seq<Step> := [ADD, FOCUS_CONNECTS, STREAMS]

  lemma {:induction false} RunAppend(c: Conf, steps: seq<Step>, step: Step)
    requires AllDefined(c, steps) && AllFair(c, steps) && Defined(Run(c, steps), step) && Fair(Run(c, steps), step)
    ensures AllDefined(c, steps + [step]) && AllFair(c, steps + [step])
    ensures Run(c, steps + [step]) == Next(Run(c, steps), step)
    decreases |steps|
  {
    hide Next, Defined, Fair;
    if steps == [] {
      assert steps + [step] == [step] && [step][1..] == [];
    } else {
      assert (steps + [step])[1..] == steps[1..] + [step];
      RunAppend(Next(c, steps[0]), steps[1..], step);
    }
  }

  lemma Added(addr: string)
    ensures Fair(New(addr), ADD)
    ensures var c := Next(New(addr), ADD);
            && c.state == Starting && c.focusCall == Some(2) && c.pending == [1] && c.transferring == []
            && c.participants == [Participant("u", Some(1))] && CallStateOf(c, 1) == Other
  {
  }

  lemma FocusConnected(c: Conf)
    requires c.state == Starting && c.focusCall == Some(2) && c.pending == [1] && CallStateOf(c, 1) == Other
    ensures Fair(c, FOCUS_CONNECTS)
    ensures var d := Next(c, FOCUS_CONNECTS);
            && d.state == Running && d.focusCall == Some(2) && d.pending == [1] && d.transferring == c.transferring
            && d.participants == c.participants
  {
    hide TransferReady, StillPending;
    var e := c.(calls := c.calls[2 := Connected]).(focusContact := Some("f"));
    OneNotReady(e, 1, FOCUS_CONNECTS.oks);
  }

  lemma OneNotReady(c: Conf, x: CallId, ok: CallId -> bool)
    requires !Ready(CallStateOf(c, x))
    ensures StillPending(c, [x]) == [x] && TransferReady(c, [x], ok) == c
  {
    assert [x][..0] == [];
  }

  lemma Streams(c: Conf)
    requires c.state == Running && c.focusCall == Some(2) && c.pending == [1] && c.transferring == []
    ensures Fair(c, STREAMS)
    ensures var d := Next(c, STREAMS);
            d.state == Running && d.participants == c.participants && d.transferring == [1]
  {
    hide Remove;
  }

  lemma UnderWayReached(addr: string)
    ensures AllDefined(New(addr), UNDER_WAY) && AllFair(New(addr), UNDER_WAY)
    ensures var c := Run(New(addr), UNDER_WAY);
            c.state == Running && c.participants == [Participant("u", Some(1))] && c.transferring == [1]
  {
    hide Next, Fair;
    var c1 := Next(New(addr), ADD);
    var c2 := Next(c1, FOCUS_CONNECTS);
    Added(addr);
    FocusConnected(c1);
    Streams(c2);
    assert UNDER_WAY[1..] == [FOCUS_CONNECTS, STREAMS];
    assert [FOCUS_CONNECTS, STREAMS][1..] == [STREAMS] && [STREAMS][1..] == [];
    assert AllDefined(c2, [STREAMS]) && AllFair(c2, [STREAMS]) && Run(c2, [STREAMS]) == Next(c2, STREAMS);
    assert AllDefined(c1, [FOCUS_CONNECTS, STREAMS]) && AllFair(c1, [FOCUS_CONNECTS, STREAMS]);
    assert Run(c1, [FOCUS_CONNECTS, STREAMS]) == Next(c2, STREAMS);
  }

  /** The first failing run: the transfer of a call connects twice. */
  lemma ConnectedTwiceFails(addr: string)
    ensures var steps := UNDER_WAY + [TransferChanged(1, Connected)];
            && AllDefined(New(addr), steps) && AllFair(New(addr), steps)
            && !Defined(Run(New(addr), steps), TransferChanged(1, Connected))
  {
    hide Run, AllDefined, AllFair;
    UnderWayReached(addr);
    var c := Run(New(addr), UNDER_WAY);
    assert c.participants[0].call == Some(1);
    RunAppend(New(addr), UNDER_WAY, TransferChanged(1, Connected));
  }

  /** The second: the participant was removed by its URI, and then the transfer connects for the first time. */
  lemma ConnectedAfterRemovalFails(addr: string)
    ensures var steps := UNDER_WAY + [RemoveUri("u", true)];
            && AllDefined(New(addr), steps) && AllFair(New(addr), steps)
            && !Defined(Run(New(addr), steps), TransferChanged(1, Connected))
  {
    hide Run, AllDefined, AllFair;
    UnderWayReached(addr);
    var c := Run(New(addr), UNDER_WAY);
    assert c.participants[0].uri == "u";
    RunAppend(New(addr), UNDER_WAY, RemoveUri("u", true));
    assert Next(c, RemoveUri("u", true)).participants == [];
  }
}
