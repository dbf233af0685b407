/**
 * What every event does to a call, told as a protocol: which events end it and how it is logged, the state it goes on
 * in, what is sent, what is heard, and what the user interface is told.
 */
module CallOutcomes {
  import opened CallMachine
  import opened Text

  // ---- how a call ends ----

  /** The event is about this dialog: its call id is the record's, or the record has none yet. */
  predicate Names(rec: Record, cid: int) {
    rec.cid == -1 || rec.cid == cid
  }

  /** The events that end a live call. A challenge (401 or 407) does not. */
  predicate Ends(cfg: Settings, rec: Record, e: Event) {
    match e
    case Terminate => true
    case Tick(expired, disconnected) =>
      (rec.dir.Incoming? && rec.state.Ringing? && expired) || (rec.state.Running? && disconnected)
    case Answered(cid, _, _, negotiates) => Names(rec, cid) && !rec.state.Running? && cfg.offerInAck && !negotiates
    case Closed(cid) => cid == rec.cid
    case Failure(cid, code) => cid == rec.cid && code !in {401, 407}
    case Released(cid) => cid == rec.cid
    case Redirected(code, _, _, _) => code in {302, 380}
    case _ => false
  }

  /** How an ended call is logged: answered, missed when it rang here, given up otherwise. */
  function LoggedAs(rec: Record): Status {
    if rec.state.Running? then Success else if rec.state.Ringing? && rec.dir.Incoming? then Missed else Aborted
  }

  predicate SameCallGoesOn(c: Core, d: Core)
    requires c.call.Live?
  {
    d.call.Live? && d.call.rec.id == c.call.rec.id
  }

  lemma DropLogs(c: Core)
    requires c.call.Live?
    ensures var d := Drop(c);
            && d.call.Empty? && d.states == c.states && d.ring == c.ring && d.started == c.started &&
              d.created == c.created
            && d.history == c.history + [LogEntry(c.call.rec.id, c.call.rec.dir, LoggedAs(c.call.rec))]
            && d.missed == c.missed + (if LoggedAs(c.call.rec).Missed? then 1 else 0)
            && d.sent == c.sent && d.notes == c.notes
  {
  }

  lemma NewStateIs(c: Core, g: GState)
    requires GroupOf(g).Calls?
    ensures var d := NewState(c, g);
            && d.(states := c.states, notes := c.notes) == c
            && d.states == c.states.(call := if g.CallEnd? || g.CallError? then CallIdle else g)
            && d.notes != [] && d.notes[|d.notes| - 1] == d.states.call
  {
  }

  /** One entry for the call, and the counter of missed calls with it. */
  predicate LoggedOnce(c: Core, d: Core)
    requires c.call.Live?
  {
    && |d.history| > |c.history| && d.history[..|c.history|] == c.history
    && d.history[|c.history|] == LogEntry(c.call.rec.id, c.call.rec.dir, LoggedAs(c.call.rec))
    && (|d.history| == |c.history| + 1 ==> d.missed == c.missed + if LoggedAs(c.call.rec).Missed? then 1 else 0)
  }

  lemma TerminateLogs(c: Core)
    requires c.call.Live?
    ensures var d := TerminateCall(c);
            && d.call.Stale? && LoggedOnce(c, d) && |d.history| == |c.history| + 1
            && d.states == c.states.(call := CallIdle) && !d.ring && !d.started
            && d.sent == c.sent + [Bye(c.call.rec.cid, c.call.rec.did)]
            && d.notes != [] && d.notes[|d.notes| - 1] == CallIdle
  {
    hide NewState;
    NewStateIs(Quiet(c.(sent := c.sent + [Bye(c.call.rec.cid, c.call.rec.did)])), CallEnd);
  }

  lemma {:induction false} InviteLogs(cfg: Settings, c: Core, urlOk: bool, buildOk: bool, sendResult: int)
    requires c.call.Empty?
    ensures var d := InviteCall(cfg, c, urlOk, buildOk, sendResult);
            && c.history <= d.history && d.sent == c.sent && (d.call.Live? ==> d.call.rec.id == c.created)
            && !d.call.Stale?
            && (d.call.Live? ==>
                  && urlOk && buildOk && sendResult >= 0
                  && d.call.rec == Record(c.created, Outgoing, sendResult, -1, -1, Init))
            && (urlOk && buildOk && sendResult >= 0 ==> d.call.Live? && d.history == c.history && d.missed == c.missed)
            && (|d.history| == |c.history| ==> d.missed == c.missed)
            && d.states == c.states.(call := if d.call.Live? then CallOutInvite else CallIdle)
            && d.notes != [] && d.notes[|d.notes| - 1] == d.states.call
  {
    hide NewState, Drop;
    var c1 := NewState(c, CallOutInvite);
    NewStateIs(c, CallOutInvite);
    NewStateIs(c1, CallError);
    var rec := Record(c1.created, Outgoing, sendResult, -1, -1, Init);
    var c2 := c1.(call := Live(rec), created := c1.created + 1, started := if cfg.offerInAck then c1.started
      else false);
    DropLogs(c2);
    NewStateIs(Drop(c2).(started := false), CallError);
  }

  // ---- the handlers, one by one, on a live call ----

  lemma AcceptIs(cfg: Settings, c: Core, buildOk: bool, offering: bool)
    requires c.call.Live?
    ensures var d := AcceptPending(cfg, c, buildOk, offering);
            if c.call.rec.state.Running? then d == c
            else if !buildOk then d == c.(ring := false)
            else
              && d == c.(call := Live(c.call.rec.(state := if offering then c.call.rec.state else Running)),
                         states := c.states.(call := CallInConnected), ring := false,
                         started := if offering then false else c.started || CanStream(cfg),
                         sent := c.sent + [Answer(c.call.rec.tid, 200)], notes := d.notes)
              && d.notes != [] && d.notes[|d.notes| - 1] == CallInConnected
  {
    hide NewState;
    var c0 := c.(ring := false, started := if offering then false else c.started);
    NewStateIs(SendAnswer(c0, c.call.rec.tid, 200), CallInConnected);
  }

  lemma NoteIs(c: Core, cid: int, did: int, tid: int)
    requires c.call.Live?
    ensures NoteDialog(c, cid, did, tid) ==
            if Names(c.call.rec, cid) then c.(call := Live(c.call.rec.(cid := cid, did := did, tid := tid)))
            else c.(sent := c.sent + [Bye(cid, did)])
  {
  }

  lemma {:induction false} AnsweredIs(cfg: Settings, c: Core, cid: int, did: int, tid: int, negotiates: bool)
    requires c.call.Live?
    ensures var d := CallAnswered(cfg, c, cid, did, tid, negotiates);
            var noted := c.call.rec.(cid := cid, did := did, tid := tid);
            if !Names(c.call.rec, cid) then d == c.(sent := c.sent + [Bye(cid, did)])
            else if c.call.rec.state.Running? then d == c.(call := Live(noted))
            else if cfg.offerInAck && !negotiates then d == TerminateCall(c.(call := Live(noted)))
            else
              && d == c.(call := Live(noted.(state := Running)), states := c.states.(call := CallOutConnected),
                         ring := false, started := CanStream(cfg), notes := d.notes)
              && d.notes != [] && d.notes[|d.notes| - 1] == CallOutConnected
  {
    hide NewState, TerminateCall;
    NewStateIs(NoteDialog(c, cid, did, tid), CallOutConnected);
  }

  lemma {:induction false} RingingIs(cfg: Settings, c: Core, cid: int, did: int, tid: int, sdp: bool)
    requires c.call.Live?
    ensures var n := NoteDialog(c, cid, did, tid);
            var d := CallRinging(cfg, c, cid, did, tid, sdp);
            n.call.Live? &&
            if (if sdp then c.started else c.ring) then d == n
            else if !sdp then d == n.(ring := cfg.playCard, call := Live(n.call.rec.(state := Ringing)))
            else
              && d == n.(call := Live(n.call.rec.(state := Ringing)), states := n.states.(call := CallOutConnected),
                         ring := false, started := CanStream(cfg), notes := d.notes)
              && d.notes != [] && d.notes[|d.notes| - 1] == CallOutConnected
  {
    hide NewState;
    NewStateIs(NoteDialog(c, cid, did, tid), CallOutConnected);
  }

  lemma ReinviteIs(cfg: Settings, c: Core, tid: int, sdp: bool, status: int, buildOk: bool)
    requires c.call.Live?
    ensures HandleReinvite(cfg, c, tid, sdp, status, buildOk) ==
            if !sdp then c.(sent := c.sent + [Answer(tid, 603)])
            else if status != 200 then c.(sent := c.sent + [Answer(tid, status)])
            else if !buildOk then c.(started := false)
            else c.(sent := c.sent + [Answer(tid, 200)], started := CanStream(cfg),
              call := Live(c.call.rec.(state := Running)))
  {
  }

  lemma ConnectIs(cfg: Settings, c: Core)
    requires c.call.Live?
    ensures Connect(cfg, c) == c.(ring := false, started := CanStream(cfg), call := Live(c.call.rec.(state := Running)))
  {
  }

  lemma {:induction false} CloseIs(c: Core, cid: int)
    requires !c.call.Stale?
    ensures var d := CloseCall(c, cid);
            if c.call.Live? && c.call.rec.cid != cid then d == c
            else
              && d == c.(call := Empty, states := c.states.(call := CallIdle), ring := false, started := false,
                         history := d.history, missed := d.missed, logs := d.logs, notes := d.notes)
              && (c.call.Live? ==> LoggedOnce(c, d) && |d.history| == |c.history| + 1)
              && d.notes != [] && d.notes[|d.notes| - 1] == CallIdle
  {
    hide NewState, Drop;
    NewStateIs(Quiet(c), CallEnd);
    DropIs(NewState(Quiet(c), CallEnd));
  }

  lemma DropIs(c: Core)
    requires !c.call.Stale?
    ensures var d := Drop(c);
            && d == c.(call := Empty, history := d.history, missed := d.missed, logs := d.logs)
            && (c.call.Live? ==> LoggedOnce(c, d) && |d.history| == |c.history| + 1)
            && (c.call.Empty? ==> d == c)
  {
  }

  lemma {:induction false} FailIs(c: Core, cid: int, code: int)
    requires !c.call.Stale?
    ensures var d := FailCall(c, cid, code);
            if (c.call.Live? && c.call.rec.cid != cid) || code in {401, 407} then d == c
            else if c.call.Empty? then d == c.(ring := false, started := false)
            else
              && d == c.(call := Empty, states := c.states.(call := CallIdle), ring := false, started := false,
                         history := d.history, missed := d.missed, logs := d.logs, notes := d.notes)
              && LoggedOnce(c, d) && |d.history| == |c.history| + 1
              && d.notes != [] && d.notes[|d.notes| - 1] == CallIdle
  {
    hide NewState, Drop;
    DropIs(Quiet(c));
    NewStateIs(Drop(Quiet(c)), CallError);
  }

  lemma {:induction false} ReleaseIs(c: Core, cid: int)
    requires !c.call.Stale?
    ensures var d := ReleaseCall(c, cid);
            if !c.call.Live? || c.call.rec.cid != cid then d == c
            else
              && d == c.(call := Empty, states := c.states.(call := CallIdle), history := d.history, missed := d.missed,
                         logs := d.logs, notes := d.notes)
              && LoggedOnce(c, d) && |d.history| == |c.history| + 1
              && d.notes != [] && d.notes[|d.notes| - 1] == CallIdle
  {
    hide NewState, Drop;
    DropIs(c);
    NewStateIs(Drop(c), CallError);
  }

  lemma {:induction false} RedirectLogs(cfg: Settings, c: Core, code: int, urlOk: bool, buildOk: bool, sendResult: int)
    requires c.call.Live? && code in {302, 380}
    ensures var d := CallRedirected(cfg, c, code, urlOk, buildOk, sendResult);
            && LoggedOnce(c, d) && !d.call.Stale? && d.sent == c.sent
            && (d.call.Live? <==> code == 302 && urlOk && buildOk && sendResult >= 0)
            && (d.call.Live? ==> d.call.rec.id == c.created)
            && d.states == (if code == 380 then c.states
                            else c.states.(call := if d.call.Live? then CallOutInvite else CallIdle))
            && (code == 380 ==> d.notes == c.notes)
            && (code == 302 ==> d.notes != [] && d.notes[|d.notes| - 1] == d.states.call)
  {
    hide Drop, InviteCall;
    DropIs(c);
    InviteLogs(cfg, Drop(c), urlOk, buildOk, sendResult);
    var d := CallRedirected(cfg, c, code, urlOk, buildOk, sendResult);
    assert Drop(c).history <= d.history;
    assert d.history[..|c.history|] == Drop(c).history[..|c.history|];
  }

  // ---- when a call ends ----

  /**
   * A live call goes on exactly when the event does not end it; when it ends, it is logged, once, as it stood; and when
   * it goes on, nothing is logged.
   */
  lemma {:induction false} CallEndsIff(cfg: Settings, c: Core, e: Event)
    requires Enabled(c, e) && c.call.Live? && Books(c)
    ensures var d := Step(cfg, c, e);
            && (SameCallGoesOn(c, d) <==> !Ends(cfg, c.call.rec, e))
            && (Ends(cfg, c.call.rec, e) ==> LoggedOnce(c, d))
            && (!Ends(cfg, c.call.rec, e) ==>
                  d.history == c.history && d.missed == c.missed && d.call.rec.dir == c.call.rec.dir)
  {
    hide Books, TerminateCall, InviteCall, CallAnswered, IncomingCall, CallRinging, AcceptPending, CloseCall, FailCall;
    hide ReleaseCall, CallRedirected, NoteDialog, HandleReinvite, Connect;
    BooksNumber(c);
    Handled(cfg, c, e);
  }

  /** All that the lemmas below say about what the handler of this event makes of a live call. */
  predicate HandledRight(cfg: Settings, c: Core, e: Event, d: Core)
    requires c.call.Live?
  {
    && (Ends(cfg, c.call.rec, e) ==>
          && LoggedOnce(c, d) && !(d.call.Live? && d.call.rec.id != c.created)
          && (d.call.Stale? <==> e.Terminate? || e.Tick? || e.Answered?)
          && (d.call.Live? <==> e.Redirected? && e.code == 302 && e.urlOk && e.buildOk && e.sendResult >= 0)
          && d.states == c.states.(call := if e.Redirected? && e.code == 380 then c.states.call
                                           else if d.call.Live? then CallOutInvite else CallIdle)
          && (!e.Redirected? && !e.Released? ==> !d.ring && !d.started))
    && (!Ends(cfg, c.call.rec, e) ==> GoesOn(cfg, c, e, d))
    && d.sent == c.sent + Sends(cfg, c, e)
    && (Told(c) ==> Told(d))
  }

  lemma {:induction false} Handled(cfg: Settings, c: Core, e: Event)
    requires Enabled(c, e) && c.call.Live?
    ensures HandledRight(cfg, c, e, Step(cfg, c, e))
  {
    hide HandledRight, TerminateCall, InviteCall, CallAnswered, IncomingCall, CallRinging, AcceptPending, CloseCall,
      FailCall;
    hide ReleaseCall, CallRedirected, NoteDialog, HandleReinvite, Connect;
    match e
    case Invite(u, b, r) => InviteHandled(cfg, c, u, b, r);
    case AcceptCall(b, offering) => AcceptHandled(cfg, c, b, offering);
    case Terminate => TerminateHandled(cfg, c, e);
    case Tick(_, _) => if TimesOut(c, e) { TerminateHandled(cfg, c, e); } else { NothingHandled(cfg, c, e); }
    case Answered(cid, did, tid, n) => AnsweredHandled(cfg, c, cid, did, tid, n);
    case Closed(cid) => CloseHandled(cfg, c, cid);
    case Failure(cid, code) => FailHandled(cfg, c, cid, code);
    case NewInvite(cid, did, tid, offer) => BusyHandled(cfg, c, cid, did, tid, offer);
    case Redirected(code, u, b, r) => RedirectHandled(cfg, c, code, u, b, r);
    case Proceeding(cid, did, tid) => NoteHandled(cfg, c, cid, did, tid);
    case RingingEvent(cid, did, tid, sdp) => RingingHandled(cfg, c, cid, did, tid, sdp);
    case Released(cid) => ReleaseHandled(cfg, c, cid);
    case Reinvite(tid, sdp, status, b) => ReinviteHandled(cfg, c, tid, sdp, status, b);
    case Ack(sdp) => if sdp { ConnectHandled(cfg, c); } else { NothingHandled(cfg, c, e); }
  }

  lemma NothingHandled(cfg: Settings, c: Core, e: Event)
    requires c.call.Live? && ((e.Tick? && !TimesOut(c, e)) || e == Ack(false))
    ensures HandledRight(cfg, c, e, c)
  {
  }

  lemma {:induction false} InviteHandled(cfg: Settings, c: Core, urlOk: bool, buildOk: bool, sendResult: int)
    requires c.call.Live?
    ensures HandledRight(cfg, c, Invite(urlOk, buildOk, sendResult), InviteCall(cfg, c, urlOk, buildOk, sendResult))
  {
    hide InviteCall;
    InviteRefused(cfg, c, urlOk, buildOk, sendResult);
  }

  lemma {:induction false} AcceptHandled(cfg: Settings, c: Core, buildOk: bool, offering: bool)
    requires c.call.Live?
    ensures HandledRight(cfg, c, AcceptCall(buildOk, offering), AcceptPending(cfg, c, buildOk, offering))
  {
    hide AcceptPending;
    AcceptIs(cfg, c, buildOk, offering);
  }

  lemma {:induction false} TerminateHandled(cfg: Settings, c: Core, e: Event)
    requires c.call.Live? && (e.Terminate? || (e.Tick? && TimesOut(c, e)))
    ensures HandledRight(cfg, c, e, TerminateCall(c))
  {
    hide TerminateCall, LoggedOnce;
    TerminateLogs(c);
  }

  lemma {:induction false} CloseHandled(cfg: Settings, c: Core, cid: int)
    requires c.call.Live?
    ensures HandledRight(cfg, c, Closed(cid), CloseCall(c, cid))
  {
    hide CloseCall, LoggedOnce;
    CloseIs(c, cid);
  }

  lemma {:induction false} FailHandled(cfg: Settings, c: Core, cid: int, code: int)
    requires c.call.Live?
    ensures HandledRight(cfg, c, Failure(cid, code), FailCall(c, cid, code))
  {
    hide FailCall, LoggedOnce;
    FailIs(c, cid, code);
  }

  lemma {:induction false} BusyHandled(cfg: Settings, c: Core, cid: int, did: int, tid: int, offer: Option<bool>)
    requires c.call.Live?
    ensures HandledRight(cfg, c, NewInvite(cid, did, tid, offer), IncomingCall(cfg, c, cid, did, tid, offer))
  {
    hide IncomingCall, InviteCode;
    BusyIs(cfg, c, cid, did, tid, offer);
  }

  lemma {:induction false} RedirectHandled(
    cfg: Settings, c: Core, code: int, urlOk: bool, buildOk: bool, sendResult: int)
    requires c.call.Live?
    ensures HandledRight(cfg, c, Redirected(code, urlOk, buildOk, sendResult),
                         CallRedirected(cfg, c, code, urlOk, buildOk, sendResult))
  {
    hide CallRedirected, LoggedOnce;
    if code in {302, 380} {
      RedirectLogs(cfg, c, code, urlOk, buildOk, sendResult);
    } else {
      RedirectIgnored(cfg, c, code, urlOk, buildOk, sendResult);
    }
  }

  lemma {:induction false} NoteHandled(cfg: Settings, c: Core, cid: int, did: int, tid: int)
    requires c.call.Live?
    ensures HandledRight(cfg, c, Proceeding(cid, did, tid), NoteDialog(c, cid, did, tid))
  {
    hide NoteDialog;
    NoteIs(c, cid, did, tid);
  }

  lemma {:induction false} RingingHandled(cfg: Settings, c: Core, cid: int, did: int, tid: int, sdp: bool)
    requires c.call.Live?
    ensures HandledRight(cfg, c, RingingEvent(cid, did, tid, sdp), CallRinging(cfg, c, cid, did, tid, sdp))
  {
    hide NoteDialog, CallRinging;
    NoteIs(c, cid, did, tid);
    RingingIs(cfg, c, cid, did, tid, sdp);
  }

  lemma {:induction false} ReleaseHandled(cfg: Settings, c: Core, cid: int)
    requires c.call.Live?
    ensures HandledRight(cfg, c, Released(cid), ReleaseCall(c, cid))
  {
    hide ReleaseCall, LoggedOnce;
    ReleaseIs(c, cid);
  }

  lemma {:induction false} ReinviteHandled(cfg: Settings, c: Core, tid: int, sdp: bool, status: int, buildOk: bool)
    requires c.call.Live?
    ensures HandledRight(cfg, c, Reinvite(tid, sdp, status, buildOk), HandleReinvite(cfg, c, tid, sdp, status, buildOk))
  {
    hide HandleReinvite;
    ReinviteIs(cfg, c, tid, sdp, status, buildOk);
  }

  lemma {:induction false} ConnectHandled(cfg: Settings, c: Core)
    requires c.call.Live?
    ensures HandledRight(cfg, c, Ack(true), Connect(cfg, c))
  {
    hide Connect;
    ConnectIs(cfg, c);
  }

  lemma BusyIs(cfg: Settings, c: Core, cid: int, did: int, tid: int, offer: Option<bool>)
    requires c.call.Live?
    ensures IncomingCall(cfg, c, cid, did, tid, offer) == c.(sent := c.sent + [Answer(tid, InviteCode(cfg, c, offer))])
  {
  }

  lemma RedirectIgnored(cfg: Settings, c: Core, code: int, urlOk: bool, buildOk: bool, sendResult: int)
    requires code !in {302, 380}
    ensures CallRedirected(cfg, c, code, urlOk, buildOk, sendResult) == c
  {
  }

  lemma {:induction false} AnsweredHandled(cfg: Settings, c: Core, cid: int, did: int, tid: int, negotiates: bool)
    requires c.call.Live?
    ensures HandledRight(cfg, c, Answered(cid, did, tid, negotiates), CallAnswered(cfg, c, cid, did, tid, negotiates))
  {
    hide TerminateCall, CallAnswered;
    AnsweredIs(cfg, c, cid, did, tid, negotiates);
    TerminateLogs(c.(call := Live(c.call.rec.(cid := cid, did := did, tid := tid))));
  }

  lemma BooksNumber(c: Core)
    requires Books(c) && c.call.Live?
    ensures c.created == c.call.rec.id + 1
  {
  }

  /** What is left when a call has ended: nothing, a new call after a 302, or a reference after a termination. */
  lemma {:induction false} LeftBehind(cfg: Settings, c: Core, e: Event)
    requires Enabled(c, e) && c.call.Live? && Ends(cfg, c.call.rec, e)
    ensures var d := Step(cfg, c, e);
            && (d.call.Stale? <==> e.Terminate? || e.Tick? || e.Answered?)
            && (d.call.Live? <==> e.Redirected? && e.code == 302 && e.urlOk && e.buildOk && e.sendResult >= 0)
            && d.states.power == c.states.power && d.states.reg == c.states.reg
            && d.states.call == (if e.Redirected? && e.code == 380 then c.states.call
                                 else if d.call.Live? then CallOutInvite else CallIdle)
            && (!e.Redirected? && !e.Released? ==> !d.ring && !d.started)
  {
    hide Step, Ends;
    Handled(cfg, c, e);
  }

  /** A challenge leaves everything as it is: the library repeats the request with the credentials. */
  lemma ChallengeKeepsCall(cfg: Settings, c: Core, cid: int, code: int)
    requires !c.call.Stale? && code in {401, 407}
    ensures Step(cfg, c, Failure(cid, code)) == c
  {
  }

  // ---- how a call goes on ----

  /** The sound cards or files are there that streams need. */
  predicate CanStream(cfg: Settings) {
    cfg.useFiles || (cfg.playCard && cfg.captureCard)
  }

  /** The state in which a call goes on. */
  function NextState(c: Core, e: Event): CallState
    requires c.call.Live?
  {
    var rec := c.call.rec;
    match e
    case AcceptCall(buildOk, offering) => if buildOk && !offering then Running else rec.state
    case Answered(cid, _, _, _) => if Names(rec, cid) then Running else rec.state
    case RingingEvent(_, _, _, sdp) => if (if sdp then c.started else c.ring) then rec.state else Ringing
    case Reinvite(_, sdp, status, buildOk) => if sdp && status == 200 && buildOk then Running else rec.state
    case Ack(sdp) => if sdp then Running else rec.state
    case _ => rec.state
  }

  /** The dialog a call goes on in: the first one that names it, and from then on the latest of that call id. */
  function NextDialog(rec: Record, e: Event): (int, int, int) {
    match e
    case Answered(cid, did, tid, _) => if Names(rec, cid) then (cid, did, tid) else (rec.cid, rec.did, rec.tid)
    case Proceeding(cid, did, tid) => if Names(rec, cid) then (cid, did, tid) else (rec.cid, rec.did, rec.tid)
    case RingingEvent(cid, did, tid, _) => if Names(rec, cid) then (cid, did, tid) else (rec.cid, rec.did, rec.tid)
    case _ => (rec.cid, rec.did, rec.tid)
  }

  /** The general state of a call that goes on. */
  function NextGeneral(c: Core, e: Event): GState
    requires c.call.Live?
  {
    match e
    case AcceptCall(buildOk, _) => if buildOk && !c.call.rec.state.Running? then CallInConnected else c.states.call
    case Answered(cid, _, _, _) =>
      if Names(c.call.rec, cid) && !c.call.rec.state.Running? then CallOutConnected else c.states.call
    case RingingEvent(_, _, _, sdp) => if sdp && !c.started then CallOutConnected else c.states.call
    case _ => c.states.call
  }

  /**
   * The ring, after an event of a call that goes on: silenced when the call is taken up, started when the peer rings.
   */
  function NextRing(cfg: Settings, c: Core, e: Event): bool
    requires c.call.Live?
  {
    match e
    case AcceptCall(_, _) => c.ring && c.call.rec.state.Running?
    case Answered(cid, _, _, _) => c.ring && !(Names(c.call.rec, cid) && !c.call.rec.state.Running?)
    case RingingEvent(_, _, _, sdp) => if sdp then c.ring && c.started else c.ring || cfg.playCard
    case Ack(sdp) => c.ring && !sdp
    case _ => c.ring
  }

  /** The streams, after an event of a call that goes on: they run from the moment both sides have agreed. */
  function NextStreams(cfg: Settings, c: Core, e: Event): bool
    requires c.call.Live?
  {
    match e
    case AcceptCall(buildOk, offering) =>
      if c.call.rec.state.Running? || !buildOk then c.started
      else if offering then false else c.started || CanStream(cfg)
    case Answered(cid, _, _, _) =>
      if Names(c.call.rec, cid) && !c.call.rec.state.Running? then CanStream(cfg) else c.started
    case RingingEvent(_, _, _, sdp) => c.started || (sdp && CanStream(cfg))
    case Reinvite(_, sdp, status, buildOk) =>
      if sdp && status == 200 then buildOk && CanStream(cfg) else c.started
    case Ack(sdp) => if sdp then CanStream(cfg) else c.started
    case _ => c.started
  }

  /** All of it: the call, its dialog, the general state and what is heard; nothing is logged. */
  predicate GoesOn(cfg: Settings, c: Core, e: Event, d: Core)
    requires c.call.Live?
  {
    && d.call.Live? && d.call.rec.id == c.call.rec.id && d.call.rec.dir == c.call.rec.dir
    && d.call.rec.state == NextState(c, e)
    && (d.call.rec.cid, d.call.rec.did, d.call.rec.tid) == NextDialog(c.call.rec, e)
    && d.states == c.states.(call := NextGeneral(c, e))
    && d.ring == NextRing(cfg, c, e) && d.started == NextStreams(cfg, c, e)
    && d.history == c.history && d.missed == c.missed && d.logs == c.logs && d.created == c.created
  }

  /** How a live call goes on, event by event. */
  lemma {:induction false} CallGoesOn(cfg: Settings, c: Core, e: Event)
    requires Enabled(c, e) && c.call.Live? && !Ends(cfg, c.call.rec, e)
    ensures GoesOn(cfg, c, e, Step(cfg, c, e))
  {
    hide Step, Ends, GoesOn;
    Handled(cfg, c, e);
  }

  // ---- how a call begins ----

  /** A call is placed exactly when there is none and the request goes out; it is then numbered by the library. */
  lemma {:induction false} CallIsPlaced(cfg: Settings, c: Core, urlOk: bool, buildOk: bool, sendResult: int)
    requires c.call.Empty?
    ensures var d := Step(cfg, c, Invite(urlOk, buildOk, sendResult));
            if urlOk && buildOk && sendResult >= 0 then
              && d.call == Live(Record(c.created, Outgoing, sendResult, -1, -1, Init))
              && d.states == c.states.(call := CallOutInvite) && d.history == c.history
            else
              d.call.Empty? && d.states == c.states.(call := CallIdle)
  {
    hide InviteCall;
    InviteLogs(cfg, c, urlOk, buildOk, sendResult);
  }

  /**
   * An INVITE becomes the call, and rings, exactly when the phone is online, free, and the offer, if any, negotiates.
   */
  lemma {:induction false} CallIsTaken(cfg: Settings, c: Core, cid: int, did: int, tid: int, offer: Option<bool>)
    requires c.call.Empty?
    ensures var d := Step(cfg, c, NewInvite(cid, did, tid, offer));
            if cfg.presence.Online? && offer != Some(false) then
              && d.call == Live(Record(c.created, Incoming, cid, did, tid, Ringing))
              && d.states == c.states.(call := CallInInvite) && d.history == c.history
              && d.ring == (c.ring || cfg.ringCard) && d.started == (c.started && offer.None?)
            else
              && d.call.Empty? && d.states == c.states && d.ring == c.ring
              && (cfg.presence.Online? ==> d.history == c.history + [LogEntry(c.created, Incoming, Aborted)])
              && (!cfg.presence.Online? ==> d.history == c.history)
  {
    hide NewState, Drop;
    var c1 := c.(call := Live(Record(c.created, Incoming, cid, did, tid, Init)), created := c.created + 1);
    NewStateIs(c1.(started := if offer.Some? then false else c1.started), CallInInvite);
    DropLogs(SendAnswer(c1, tid, 415));
  }

  /** The codes by presence: 480 for those away, 302 and 380 for those with another contact, 486 for all others. */
  lemma PresenceCodes(cfg: Settings)
    ensures PresenceCode(cfg) in {302, 380, 480, 486}
    ensures PresenceCode(cfg) == 480 <==>
            cfg.presence in {Away, BeRightBack, OnThePhone, OutToLunch, Offline, DoNotDisturb}
    ensures PresenceCode(cfg) == 302 <==> cfg.presence == Moved && cfg.altContact
    ensures PresenceCode(cfg) == 380 <==> cfg.presence == AltService && cfg.altContact
  {
  }

  /** Without a call, a redirect to another address is an invite, and the other events change next to nothing. */
  lemma {:induction false} IdleStays(cfg: Settings, c: Core, e: Event)
    requires Enabled(c, e) && c.call.Empty? && !e.Invite? && !e.NewInvite?
    ensures e.Redirected? && e.code == 302 ==> Step(cfg, c, e) == Step(cfg, c, Invite(e.urlOk, e.buildOk, e.sendResult))
    ensures !(e.Redirected? && e.code == 302) ==>
              var d := Step(cfg, c, e);
              var quiet := e.Closed? || (e.Failure? && e.code !in {401, 407});
              && d.call.Empty? && d.history == c.history && d.missed == c.missed && d.created == c.created
              && d.states == (if e.Closed? then c.states.(call := CallIdle) else c.states)
              && d.ring == (c.ring && !quiet) && d.started == (c.started && !quiet)
  {
    hide InviteCall, NewState;
    if e.Closed? {
      NewStateIs(Quiet(c), CallEnd);
      DropIs(NewState(Quiet(c), CallEnd));
    }
    if e.Redirected? { DropIs(c); }
  }

  // ---- what is sent ----

  /** What each event makes the phone send: exactly one answer to a request, and a BYE for a dialog it gives up. */
  function Sends(cfg: Settings, c: Core, e: Event): seq<Sent> {
    match e
    case AcceptCall(buildOk, _) =>
      if c.call.Live? && !c.call.rec.state.Running? && buildOk then [Answer(c.call.rec.tid, 200)] else []
    case Terminate => if c.call.Live? then [Bye(c.call.rec.cid, c.call.rec.did)] else []
    case Tick(_, _) =>
      if c.call.Live? && Ends(cfg, c.call.rec, e) then [Bye(c.call.rec.cid, c.call.rec.did)] else []
    case Answered(cid, did, _, _) =>
      if c.call.Live? && (!Names(c.call.rec, cid) || Ends(cfg, c.call.rec, e)) then [Bye(cid, did)] else []
    case NewInvite(_, _, tid, offer) => [Answer(tid, InviteCode(cfg, c, offer))]
    case Proceeding(cid, did, _) => if c.call.Live? && Names(c.call.rec, cid) then [] else [Bye(cid, did)]
    case RingingEvent(cid, did, _, _) => if c.call.Live? && Names(c.call.rec, cid) then [] else [Bye(cid, did)]
    case Reinvite(tid, sdp, status, buildOk) =>
      if !sdp then [Answer(tid, 603)] else if status == 200 && !buildOk then [] else [Answer(tid, status)]
    case _ => []
  }

  lemma {:induction false} SentExactly(cfg: Settings, c: Core, e: Event)
    requires Enabled(c, e)
    ensures Step(cfg, c, e).sent == c.sent + Sends(cfg, c, e)
  {
    hide Step, Sends;
    if c.call.Live? { Handled(cfg, c, e); } else { HandledWithoutCall(cfg, c, e); }
  }

  /** The same when no call is live. */
  lemma {:induction false} HandledWithoutCall(cfg: Settings, c: Core, e: Event)
    requires Enabled(c, e) && !c.call.Live?
    ensures var d := Step(cfg, c, e); d.sent == c.sent + Sends(cfg, c, e) && (Told(c) ==> Told(d))
  {
    hide TerminateCall, InviteCall, IncomingCall, CloseCall, FailCall, InviteCode, CallRedirected, Drop, NewState;
    match e
    case Invite(u, b, r) => if c.call.Empty? { InviteLogs(cfg, c, u, b, r); } else { InviteRefused(cfg, c, u, b, r); }
    case Terminate => TerminateNothing(c);
    case Closed(cid) => CloseIs(c, cid);
    case Failure(cid, code) => FailIs(c, cid, code);
    case NewInvite(cid, did, tid, offer) =>
      EveryInviteIsAnswered(cfg, c, cid, did, tid, offer);
      if Told(c) { IncomingTells(cfg, c, cid, did, tid, offer); }
    case Redirected(code, u, b, r) =>
      if code in {302, 380} { RedirectWithoutCall(cfg, c, code, u, b, r); }
        else { RedirectIgnored(cfg, c, code, u, b, r); }
    case _ =>
  }

  lemma {:induction false} IncomingTells(cfg: Settings, c: Core, cid: int, did: int, tid: int, offer: Option<bool>)
    requires Told(c)
    ensures Told(IncomingCall(cfg, c, cid, did, tid, offer))
  {
    hide NewState, Drop;
    var c1 := c.(call := Live(Record(c.created, Incoming, cid, did, tid, Init)), created := c.created + 1);
    NewStateIs(c1.(started := if offer.Some? then false else c1.started), CallInInvite);
    DropIs(SendAnswer(c1, tid, 415));
  }

  lemma {:induction false} RedirectWithoutCall(
    cfg: Settings, c: Core, code: int, urlOk: bool, buildOk: bool, sendResult: int)
    requires c.call.Empty? && code in {302, 380}
    ensures var d := CallRedirected(cfg, c, code, urlOk, buildOk, sendResult);
            d.sent == c.sent && (Told(c) ==> Told(d))
  {
    hide Drop, InviteCall;
    DropIs(c);
    InviteLogs(cfg, c, urlOk, buildOk, sendResult);
  }

  lemma InviteRefused(cfg: Settings, c: Core, urlOk: bool, buildOk: bool, sendResult: int)
    requires !c.call.Empty?
    ensures InviteCall(cfg, c, urlOk, buildOk, sendResult) == c
  {
  }

  lemma TerminateNothing(c: Core)
    requires !c.call.Live?
    ensures TerminateCall(c) == c
  {
  }

  // ---- what the user interface is told ----

  /** The last state it was told is the state the call is in. */
  predicate Told(c: Core) {
    if c.notes == [] then c.states.call.CallIdle? else c.notes[|c.notes| - 1] == c.states.call
  }

  lemma {:induction false} StepTells(cfg: Settings, c: Core, e: Event)
    requires Enabled(c, e) && Told(c)
    ensures Told(Step(cfg, c, e))
  {
    hide Step, Told;
    if c.call.Live? { Handled(cfg, c, e); } else { HandledWithoutCall(cfg, c, e); }
  }

  /** Over every run from start-up, the user interface knows the state the call is in. */
  lemma {:induction false} RunTells(cfg: Settings, c: Core, es: seq<Event>)
    requires Runnable(cfg, c, es) && Told(c)
    ensures Told(Run(cfg, c, es))
    decreases |es|
  {
    if es == [] {
    } else {
      hide Step, Told;
      StepTells(cfg, c, es[0]);
      RunTells(cfg, Step(cfg, c, es[0]), es[1..]);
    }
  }

  /** The log shows the last fifteen calls, all of them as long as there are no more. */
  lemma LogIsLastFifteen(c: Core)
    requires Books(c)
    ensures |c.logs| <= 15 && (|c.history| <= 15 ==> c.logs == c.history)
    ensures |c.history| >= 15 ==> c.logs == c.history[|c.history| - 15..]
  {
  }
}
