/** The phone core object: the event handlers as methods that change it step by step. */
module PhoneCore {
  import opened Text
  import opened CallMachine
  import opened CallOutcomes

  class Phone {
    const cfg: Settings
    var call: Slot
    var gstatePower: GState
    var gstateReg: GState
    var gstateCall: GState
    var ring: bool
    var started: bool
    var logs: seq<LogEntry>
    var missed: nat
    var created: nat
    ghost var history: seq<LogEntry>
    var sent: seq<Sent>
    var notes: seq<GState>

    ghost function Abs(): Core
      reads this
    {
      Core(call, States(gstatePower, gstateReg, gstateCall), ring, started, logs, missed, created, history, sent, notes)
    }

    /** The books are kept: see Books(). */
    ghost predicate Valid()
      reads this
    {
      Books(Abs())
    }

    /** gstate_initialize(). */
    constructor (cfg: Settings)
      ensures Valid() && this.cfg == cfg && Abs() == InitialCore()
    {
      this.cfg := cfg;
      call, ring, started, logs, missed, created := Empty, false, false, [], 0, 0;
      gstatePower, gstateReg, gstateCall := PowerOff, RegNone, CallIdle;
      history, sent, notes := [], [], [];
    }

    /** linphone_core_set_state(): the state of the group is overwritten. */
    method SetGState(g: GState)
      modifies this`gstatePower, this`gstateReg, this`gstateCall
      ensures States(gstatePower, gstateReg, gstateCall) == SetState(old(States(gstatePower, gstateReg, gstateCall)), g)
    {
      match GroupOf(g) {
        case Power => gstatePower := g;
        case Registration => gstateReg := g;
        case Calls => gstateCall := g;
      }
    }

    /** gstate_new_state(): it calls itself once to leave END and ERROR. */
    method NewGState(g: GState)
      modifies this`gstatePower, this`gstateReg, this`gstateCall, this`notes
      ensures Abs() == NewState(old(Abs()), g)
      decreases if Passing(g) then 1 else 0
    {
      hide SetState;
      SetGState(g);
      notes := notes + [g];
      if g == CallEnd || g == CallError { NewGState(CallIdle); }
    }

    /** linphone_call_destroy() with linphone_call_log_completed(). */
    method DestroyCall()
      requires call.Live?
      modifies this`call, this`logs, this`missed, this`history
      ensures Abs() == Destroy(old(Abs()))
    {
      var rec := call.rec;
      var status := Aborted;
      match rec.state {
        case Init => status := Aborted;
        case Ringing =>
          if rec.dir.Incoming? {
            status := Missed;
            missed := missed + 1;
          }
        case Running => status := Success;
      }
      logs := logs + [LogEntry(rec.id, rec.dir, status)];
      history := history + [LogEntry(rec.id, rec.dir, status)];
      if |logs| > MAX_CALL_LOGS { logs := logs[1..]; }
      call := Stale(rec);
    }

    /** linphone_core_start_media_streams(). */
    method StartMedia()
      requires call.Live?
      modifies this`call, this`started
      ensures Abs() == StartStreams(cfg, old(Abs()))
    {
      if cfg.useFiles || (cfg.playCard && cfg.captureCard) { started := true; }
      call := Live(call.rec.(state := Running));
    }

    /** linphone_connect_incoming(). */
    method ConnectIncoming()
      requires call.Live?
      modifies this`call, this`started, this`ring
      ensures Abs() == Connect(cfg, old(Abs()))
    {
      call := Live(call.rec.(state := Running));
      ring := false;
      if started { started := false; }
      StartMedia();
    }

    /** linphone_core_invite(). */
    method InviteUrl(urlOk: bool, buildOk: bool, sendResult: int)
      requires Valid()
      modifies this
      ensures Valid()
      ensures Abs() == InviteCall(cfg, old(Abs()), urlOk, buildOk, sendResult)
    {
      hide NewState, LogCompleted, Books;
      InviteKeepsBooks(cfg, Abs(), urlOk, buildOk, sendResult);
      if !call.Empty? { return; }
      NewGState(CallOutInvite);
      if !urlOk || !buildOk {
        NewGState(CallError);
        return;
      }
      DialOut(sendResult);
    }

    /** The part of linphone_core_invite() after the request is built: create the call and send. */
    method DialOut(sendResult: int)
      requires call.Empty?
      modifies this
      ensures var c := old(Abs());
              var c2 := c.(call := Live(Record(c.created, Outgoing, sendResult, -1, -1, Init)),
                created := c.created + 1,
                           started := if cfg.offerInAck then c.started else false);
              Abs() == if sendResult < 0 then NewState(Drop(c2).(started := false), CallError) else c2
    {
      hide NewState, LogCompleted;
      call := Live(Record(created, Outgoing, -1, -1, -1, Init));
      created := created + 1;
      if !cfg.offerInAck { started := false; }
      call := Live(call.rec.(cid := sendResult));
      if sendResult < 0 {
        DestroyCall();
        call := Empty;
        started := false;
        NewGState(CallError);
      }
    }

    /** linphone_core_accept_call(). */
    method Accept(buildOk: bool, offering: bool)
      requires Valid()
      requires !call.Stale?
      modifies this
      ensures Valid()
      ensures Abs() == AcceptPending(cfg, old(Abs()), buildOk, offering)
    {
      hide NewState, Books, StartStreams;
      AcceptKeepsBooks(cfg, Abs(), buildOk, offering);
      AcceptKeepsBooks(cfg, Abs(), buildOk, offering);
      if !call.Live? || call.rec.state.Running? { return; }
      ring := false;
      if buildOk { SendAccept(offering); }
    }

    /** The part of linphone_core_accept_call() once the 200 is built. */
    method SendAccept(offering: bool)
      requires call.Live?
      modifies this
      ensures var c0 := old(Abs()).(started := if offering then false else old(started));
              var c1 := NewState(SendAnswer(c0, old(call.rec.tid), 200), CallInConnected);
              c1.call.Live? && Abs() == if offering then c1 else StartStreams(cfg, c1)
    {
      hide NewState, StartStreams;
      NewStateSameBooks(SendAnswer(Abs().(started := if offering then false else started), call.rec.tid, 200),
        CallInConnected);
      if offering { started := false; }
      sent := sent + [Answer(call.rec.tid, 200)];
      NewGState(CallInConnected);
      if !offering { StartMedia(); }
    }

    /** linphone_core_terminate_call(): the reference is not cleared. */
    method TerminateNow()
      requires Valid()
      requires !call.Stale?
      modifies this
      ensures Valid()
      ensures Abs() == TerminateCall(old(Abs()))
    {
      TerminateKeepsBooks(Abs());
      if !call.Live? { return; }
      sent := sent + [Bye(call.rec.cid, call.rec.did)];
      ring := false;
      started := false;
      NewGState(CallEnd);
      DestroyCall();
    }

    /** The call part of linphone_core_iterate(). */
    method Iterate(expired: bool, disconnected: bool)
      requires Valid()
      requires !call.Stale?
      modifies this
      ensures Valid()
      ensures Abs() == Step(cfg, old(Abs()), Tick(expired, disconnected))
    {
      var lost := false;
      if call.Live? {
        if call.rec.dir.Incoming? && call.rec.state.Ringing? {
          if expired { TerminateNow(); }
        } else if call.rec.state.Running? {
          lost := disconnected;
        }
      }
      if lost { TerminateNow(); }
    }

    /** linphone_call_proceeding(). */
    method CallProceeding(cid: int, did: int, tid: int)
      requires Valid()
      requires !call.Stale?
      modifies this`call, this`sent
      ensures Valid()
      ensures Abs() == NoteDialog(old(Abs()), cid, did, tid)
    {
      NoteKeepsBooks(Abs(), cid, did, tid);
      if !call.Live? || (call.rec.cid != -1 && call.rec.cid != cid) {
        sent := sent + [Bye(cid, did)];
        return;
      }
      call := Live(call.rec.(cid := cid, did := did, tid := tid));
    }

    /** linphone_call_accepted(). */
    method CallAccepted(cid: int, did: int, tid: int, negotiates: bool)
      requires Valid()
      requires !call.Stale?
      modifies this
      ensures Valid()
      ensures Abs() == CallAnswered(cfg, old(Abs()), cid, did, tid, negotiates)
    {
      hide NewState, LogCompleted, Books;
      AnsweredKeepsBooks(cfg, Abs(), cid, did, tid, negotiates);
      if !call.Live? { return; }
      CallProceeding(cid, did, tid);
      if call.rec.cid != cid { return; }
      if call.rec.state.Running? { return; }
      var err := if cfg.offerInAck && !negotiates then -1 else 0;
      if err == 0 {
        NewGState(CallOutConnected);
        ConnectIncoming();
      } else {
        TerminateNow();
      }
    }

    /** linphone_call_terminated(). */
    method CallTerminated(cid: int)
      requires Valid()
      requires !call.Stale?
      modifies this
      ensures Valid()
      ensures Abs() == CloseCall(old(Abs()), cid)
    {
      hide NewState, LogCompleted, Books;
      CloseKeepsBooks(Abs(), cid);
      if call.Live? {
        if call.rec.cid != cid { return; }
      }
      ring := false;
      started := false;
      NewGState(CallEnd);
      if call.Live? {
        DestroyCall();
        call := Empty;
      }
    }

    /** linphone_call_failure(). */
    method CallFailed(cid: int, code: int)
      requires Valid()
      requires !call.Stale?
      modifies this
      ensures Valid()
      ensures Abs() == FailCall(old(Abs()), cid, code)
      ensures old(call.Live? && call.rec.cid == cid) ==> (call.Live? <==> code in {401, 407})
      ensures code in {401, 407} ==> Abs() == old(Abs())
    {
      hide SetState, LogCompleted, Books;
      FailKeepsBooks(Abs(), cid, code);
      if call.Live? {
        if call.rec.cid != cid { return; }
      }
      if code == 401 || code == 407 { return; }
      ring := false;
      started := false;
      if call.Live? {
        DestroyCall();
        NewGState(CallError);
        call := Empty;
      }
    }

    /** linphone_inc_new_call(). */
    method IncNewCall(cid: int, did: int, tid: int, offer: Option<bool>)
      requires Valid()
      modifies this
      ensures Valid()
      ensures Abs() == IncomingCall(cfg, old(Abs()), cid, did, tid, offer)
      ensures sent == old(sent) + [Answer(tid, old(InviteCode(cfg, Abs(), offer)))]
    {
      hide TakeIncoming, Books;
      IncomingKeepsBooks(cfg, Abs(), cid, did, tid, offer);
      EveryInviteIsAnswered(cfg, Abs(), cid, did, tid, offer);
      if !cfg.presence.Online? {
        sent := sent + [Answer(tid, PresenceCode(cfg))];
        return;
      }
      if !call.Empty? {
        sent := sent + [Answer(tid, 486)];
        return;
      }
      NewIncoming(cid, did, tid, offer);
    }

    /** The part of linphone_inc_new_call() after its checks. */
    method NewIncoming(cid: int, did: int, tid: int, offer: Option<bool>)
      requires call.Empty?
      modifies this
      ensures Abs() == TakeIncoming(cfg, old(Abs()), cid, did, tid, offer)
    {
      hide NewState, LogCompleted, RingLocally;
      call := Live(Record(created, Incoming, cid, did, tid, Init));
      created := created + 1;
      var err := if offer == Some(false) then -1 else 0;
      if err == 0 {
        RingIncoming(tid, offer.Some?);
      } else {
        sent := sent + [Answer(tid, 415)];
        DestroyCall();
        call := Empty;
      }
    }

    /** The successful part of linphone_inc_new_call(). */
    method RingIncoming(tid: int, offered: bool)
      requires call.Live?
      modifies this
      ensures Abs() == RingLocally(cfg, old(Abs()), tid, offered)
    {
      hide NewState;
      NewStateSameBooks(Abs().(started := if offered then false else Abs().started), CallInInvite);
      if offered { started := false; }
      NewGState(CallInInvite);
      if cfg.ringCard { ring := true; }
      call := Live(call.rec.(state := Ringing));
      sent := sent + [Answer(tid, 180)];
    }

    /** linphone_call_redirected() and linphone_do_automatic_redirect(). */
    method Redirect(code: int, urlOk: bool, buildOk: bool, sendResult: int)
      requires Valid()
      requires code == 302 || code == 380 ==> !call.Stale?
      modifies this
      ensures Valid()
      ensures Abs() == CallRedirected(cfg, old(Abs()), code, urlOk, buildOk, sendResult)
    {
      DropKeepsBooks(Abs());
      if code == 380 || code == 302 {
        if call.Live? { DestroyCall(); }
        call := Empty;
        if code == 302 { InviteUrl(urlOk, buildOk, sendResult); }
      }
    }

    /** linphone_call_ringing(). */
    method Ring(cid: int, did: int, tid: int, sdp: bool)
      requires Valid()
      requires !call.Stale?
      modifies this
      ensures Valid()
      ensures Abs() == CallRinging(cfg, old(Abs()), cid, did, tid, sdp)
    {
      hide NewState, Books;
      RingingKeepsBooks(cfg, Abs(), cid, did, tid, sdp);
      CallProceeding(cid, did, tid);
      if !call.Live? { return; }
      if !sdp {
        if ring { return; }
        if cfg.playCard { ring := true; }
      } else {
        if started { return; }
        NewStateSameBooks(Abs(), CallOutConnected);
        NewGState(CallOutConnected);
        ring := false;
        StartMedia();
      }
      call := Live(call.rec.(state := Ringing));
    }

    /** linphone_call_released(). */
    method CallReleased(cid: int)
      requires Valid()
      requires !call.Stale?
      modifies this
      ensures Valid()
      ensures Abs() == ReleaseCall(old(Abs()), cid)
    {
      hide NewState, LogCompleted, Books;
      ReleaseKeepsBooks(Abs(), cid);
      if call.Live? && call.rec.cid == cid {
        DestroyCall();
        call := Empty;
        NewGState(CallError);
      }
    }

    /** linphone_handle_reinvite(). */
    method CallReinvited(tid: int, sdp: bool, status: int, buildOk: bool)
      requires Valid()
      requires sdp ==> call.Live?
      modifies this
      ensures Valid()
      ensures Abs() == HandleReinvite(cfg, old(Abs()), tid, sdp, status, buildOk)
    {
      ReinviteKeepsBooks(cfg, Abs(), tid, sdp, status, buildOk);
      if !sdp {
        sent := sent + [Answer(tid, 603)];
        return;
      }
      if status == 200 {
        started := false;
        if !buildOk { return; }
        sent := sent + [Answer(tid, 200)];
        StartMedia();
      } else {
        sent := sent + [Answer(tid, status)];
      }
    }

    /**
     * linphone_core_process_event() and the calls of the user interface: one handler per event. From a resting state
     * the phone comes to rest again exactly when the event is not one of the two ways out; an event of another call
     * leaves the current call alone; and the call ends, goes on, answers and is reported as told in CallOutcomes.
     */
    method ProcessEvent(e: Event)
      requires Valid() && Enabled(Abs(), e)
      modifies this
      ensures Valid()
      ensures Abs() == Step(cfg, old(Abs()), e)
      ensures old(Resting(Abs())) ==> (Resting(Abs()) <==> !old(Breaks(cfg, Abs(), e)))
      ensures old(Foreign(Abs(), e)) ==> SameCall(Abs(), old(Abs()))
      ensures old(call.Live?) ==> HandledRight(cfg, old(Abs()), e, Abs())
      ensures sent == old(sent) + old(Sends(cfg, Abs(), e))
      ensures old(Told(Abs())) ==> Told(Abs())
    {
      hide Books, Step, Resting, Breaks, Foreign, SameCall, HandledRight, Sends, Told;
      EventFacts(cfg, Abs(), e);
      Dispatch(e);
    }

    /** Hands an event to its handler. */
    method Dispatch(e: Event)
      requires Valid() && Enabled(Abs(), e)
      modifies this
      ensures Abs() == Step(cfg, old(Abs()), e)
    {
      hide Books, InviteCall, TerminateCall, CallAnswered, IncomingCall, CallRinging, AcceptPending, CloseCall,
        FailCall;
      hide ReleaseCall, CallRedirected, NoteDialog, HandleReinvite, Connect;
      match e
      case Invite(urlOk, buildOk, result) => InviteUrl(urlOk, buildOk, result);
      case AcceptCall(buildOk, offering) => Accept(buildOk, offering);
      case Terminate => TerminateNow();
      case Tick(expired, disconnected) => Iterate(expired, disconnected);
      case Answered(cid, did, tid, negotiates) => CallAccepted(cid, did, tid, negotiates);
      case Closed(cid) => CallTerminated(cid);
      case Failure(cid, code) => CallFailed(cid, code);
      case NewInvite(cid, did, tid, offer) => IncNewCall(cid, did, tid, offer);
      case Redirected(code, urlOk, buildOk, result) => Redirect(code, urlOk, buildOk, result);
      case Proceeding(cid, did, tid) => CallProceeding(cid, did, tid);
      case RingingEvent(cid, did, tid, sdp) => Ring(cid, did, tid, sdp);
      case Released(cid) => CallReleased(cid);
      case Reinvite(tid, sdp, status, buildOk) => CallReinvited(tid, sdp, status, buildOk);
      case Ack(sdp) => if sdp { ConnectIncoming(); }
    }

    /**
     * A whole run, event by event. The books are kept; without the two ways out the phone comes to rest; once a hang-up
     * has left its reference behind, nothing changes the call any more.
     */
    method ProcessAll(es: seq<Event>)
      requires Valid() && Runnable(cfg, Abs(), es)
      modifies this
      ensures Valid()
      ensures old(Runnable(cfg, Abs(), es)) && Abs() == Run(cfg, old(Abs()), es)
      ensures old(Resting(Abs()) && NeverBreaks(cfg, Abs(), es)) ==> Resting(Abs())
      ensures old(call.Stale?) ==> SameCall(Abs(), old(Abs()))
    {
      hide Step, Books, Resting, Breaks, SameCall;
      ghost var start := Abs();
      if NeverBreaks(cfg, start, es) && Resting(start) { RunRests(cfg, start, es); }
      if call.Stale? { HangUpIsFinal(cfg, start, es); }
      var i := 0;
      while i < |es|
        invariant 0 <= i <= |es| && Valid()
        invariant Runnable(cfg, Abs(), es[i..]) && Run(cfg, Abs(), es[i..]) == Run(cfg, start, es)
      {
        assert es[i..][1..] == es[i + 1..];
        ProcessEvent(es[i]);
        i := i + 1;
      }
    }
  }

  lemma EventFacts(cfg: Settings, c: Core, e: Event)
    requires Books(c) && Enabled(c, e)
    ensures Books(Step(cfg, c, e))
    ensures Resting(c) ==> (Resting(Step(cfg, c, e)) <==> !Breaks(cfg, c, e))
    ensures Foreign(c, e) ==> SameCall(Step(cfg, c, e), c)
    ensures c.call.Live? ==> HandledRight(cfg, c, e, Step(cfg, c, e))
    ensures Step(cfg, c, e).sent == c.sent + Sends(cfg, c, e)
    ensures Told(c) ==> Told(Step(cfg, c, e))
  {
    hide Books, Step, Resting, Breaks, Foreign, SameCall, HandledRight, Sends, Told;
    SentExactly(cfg, c, e);
    if c.call.Live? { Handled(cfg, c, e); }
    if Told(c) { StepTells(cfg, c, e); }
    StepKeepsBooks(cfg, c, e);
    if Resting(c) { StepRestsIff(cfg, c, e); }
    if Foreign(c, e) { ForeignEventsAreIsolated(cfg, c, e); }
  }
}
