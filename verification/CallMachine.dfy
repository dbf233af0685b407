/** The call-control state machine of Events.cpp, LinphoneCore.cpp and GeneralState.cpp, as one step per event. */
module CallMachine {
  import opened Text

  // ---- the general state ----

  datatype GState =
    | PowerOff | PowerStartup | PowerOn | PowerShutdown
    | RegNone | RegOk | RegFailed
    | CallIdle | CallOutInvite | CallOutConnected | CallInInvite | CallInConnected | CallEnd | CallError

  datatype Group = Power | Registration | Calls

  function GroupOf(g: GState): Group {
    if g.PowerOff? || g.PowerStartup? || g.PowerOn? || g.PowerShutdown? then Power
    else if g.RegNone? || g.RegOk? || g.RegFailed? then Registration
    else Calls
  }

  datatype States = States(power: GState, reg: GState, call: GState)

  function SetState(st: States, g: GState): States {
    match GroupOf(g)
    case Power => st.(power := g)
    case Registration => st.(reg := g)
    case Calls => st.(call := g)
  }

  /** END and ERROR are left for IDLE at once. */
  predicate Passing(g: GState) {
    g.CallEnd? || g.CallError?
  }

  // ---- the core ----

  datatype Dir = Outgoing | Incoming

  datatype CallState = Init | Ringing | Running

  /** A call record; `id` counts the calls created. */
  datatype Record = Record(id: nat, dir: Dir, cid: int, did: int, tid: int, state: CallState)

  /** lc->call: no call, a live record, or a reference left on a record that is already destroyed. */
  datatype Slot = Empty | Live(rec: Record) | Stale(rec: Record)

  datatype Status = Success | Aborted | Missed

  datatype LogEntry = LogEntry(id: nat, dir: Dir, status: Status)

  /** What the core sends: an answer to a transaction, or the end of a dialog. */
  datatype Sent = Answer(tid: int, code: int) | Bye(cid: int, did: int)

  /** The settings that the handlers read. */
  datatype Settings = Settings(playCard: bool, captureCard: bool, ringCard: bool, useFiles: bool, offerInAck: bool,
    presence: Presence, altContact: bool)

  datatype Presence =
    | Online | Busy | Away | BeRightBack | OnThePhone | OutToLunch | Offline | DoNotDisturb
    | Moved | AltService | OtherPresence

  const MAX_CALL_LOGS: nat := 15

  /** The core; `history` keeps what the log would hold without its limit, `notes` what the user interface is told. */
  datatype Core = Core(
    call: Slot, states: States, ring: bool, started: bool, logs: seq<LogEntry>, missed: nat,
    created: nat, history: seq<LogEntry>, sent: seq<Sent>, notes: seq<GState>)

  datatype Event =
    | Invite(urlOk: bool, buildOk: bool, sendResult: int)
    | AcceptCall(buildOk: bool, offering: bool)
    | Terminate
    | Tick(expired: bool, disconnected: bool)
    | Answered(cid: int, did: int, tid: int, negotiates: bool)
    | Closed(cid: int)
    | Failure(cid: int, code: int)
    | NewInvite(cid: int, did: int, tid: int, offer: Option<bool>)
    | Redirected(code: int, urlOk: bool, buildOk: bool, sendResult: int)
    | Proceeding(cid: int, did: int, tid: int)
    | RingingEvent(cid: int, did: int, tid: int, sdp: bool)
    | Released(cid: int)
    | Reinvite(tid: int, sdp: bool, status: int, buildOk: bool)
    | Ack(sdp: bool)

  // ---- the parts of a step ----

  /** gstate_new_state(). */
  function NewState(c: Core, g: GState): Core {
    var c1 := c.(states := SetState(c.states, g), notes := c.notes + [g]);
    if Passing(g) then c1.(states := SetState(c1.states, CallIdle), notes := c1.notes + [CallIdle]) else c1
  }

  function StatusFor(r: Record): Status {
    match r.state
    case Init => Aborted
    case Ringing => if r.dir.Incoming? then Missed else Aborted
    case Running => Success
  }

  /** linphone_call_log_completed(): append, and drop the oldest entry beyond the limit. */
  function LogCompleted(c: Core, r: Record): Core {
    var entry := LogEntry(r.id, r.dir, StatusFor(r));
    var logs := c.logs + [entry];
    c.(history := c.history + [entry],
       missed := c.missed + if entry.status.Missed? then 1 else 0,
       logs := if |logs| > MAX_CALL_LOGS then logs[1..] else logs)
  }

  /** linphone_call_destroy(): the reference in the core is left as it is. */
  function Destroy(c: Core): Core
    requires c.call.Live?
  {
    LogCompleted(c, c.call.rec).(call := Stale(c.call.rec))
  }

  /** Destroying and forgetting, where the handler does both. */
  function Drop(c: Core): Core {
    if c.call.Live? then Destroy(c).(call := Empty) else c
  }

  function Quiet(c: Core): Core {
    c.(ring := false, started := false)
  }

  /** linphone_core_start_media_streams(): without sound cards nothing starts, but the call counts as running. */
  function StartStreams(cfg: Settings, c: Core): Core
    requires c.call.Live?
  {
    c.(started := c.started || cfg.useFiles || (cfg.playCard && cfg.captureCard),
       call := Live(c.call.rec.(state := Running)))
  }

  /** linphone_connect_incoming(): streams of early media are restarted. */
  function Connect(cfg: Settings, c: Core): Core
    requires c.call.Live?
  {
    StartStreams(cfg, c.(ring := false, started := false))
  }

  /** linphone_core_terminate_call(): the record is destroyed, and the reference to it stays. */
  function TerminateCall(c: Core): Core {
    if !c.call.Live? then c
    else Destroy(NewState(Quiet(c.(sent := c.sent + [Bye(c.call.rec.cid, c.call.rec.did)])), CallEnd))
  }

  /** linphone_core_invite(). */
  function InviteCall(cfg: Settings, c: Core, urlOk: bool, buildOk: bool, sendResult: int): Core {
    if !c.call.Empty? then c
    else
      var c1 := NewState(c, CallOutInvite);
      if !urlOk || !buildOk then NewState(c1, CallError)
      else
        var rec := Record(c1.created, Outgoing, sendResult, -1, -1, Init);
        var c2 := c1.(call := Live(rec), created := c1.created + 1, started := if cfg.offerInAck then c1.started
          else false);
        if sendResult < 0 then NewState(Drop(c2).(started := false), CallError) else c2
  }

  /** linphone_call_proceeding(). */
  function NoteDialog(c: Core, cid: int, did: int, tid: int): Core {
    if !c.call.Live? || (c.call.rec.cid != -1 && c.call.rec.cid != cid) then c.(sent := c.sent + [Bye(cid, did)])
    else c.(call := Live(c.call.rec.(cid := cid, did := did, tid := tid)))
  }

  /** The final answer to an INVITE that the presence forbids. */
  function PresenceCode(cfg: Settings): int {
    match cfg.presence
    case Busy => 486
    case Away | BeRightBack | OnThePhone | OutToLunch | Offline | DoNotDisturb => 480
    case Moved => if cfg.altContact then 302 else 486
    case AltService => if cfg.altContact then 380 else 486
    case _ => 486
  }

  function SendAnswer(c: Core, tid: int, code: int): Core {
    c.(sent := c.sent + [Answer(tid, code)])
  }

  /** The part of linphone_inc_new_call() after its checks: create the call, negotiate, and ring or refuse. */
  function TakeIncoming(cfg: Settings, c: Core, cid: int, did: int, tid: int, sdp: Option<bool>): Core {
    var c1 := c.(call := Live(Record(c.created, Incoming, cid, did, tid, Init)), created := c.created + 1);
    if sdp == Some(false) then Drop(SendAnswer(c1, tid, 415)) else RingLocally(cfg, c1, tid, sdp.Some?)
  }

  /** The local ring, and the 180 that reports it. */
  function RingLocally(cfg: Settings, c: Core, tid: int, offered: bool): Core
    requires c.call.Live?
  {
    var c2 := NewState(c.(started := if offered then false else c.started), CallInInvite);
    SendAnswer(c2.(ring := c2.ring || cfg.ringCard, call := Live(c.call.rec.(state := Ringing))), tid, 180)
  }

  /** linphone_inc_new_call(). */
  function IncomingCall(cfg: Settings, c: Core, cid: int, did: int, tid: int, sdp: Option<bool>): Core {
    if !cfg.presence.Online? then SendAnswer(c, tid, PresenceCode(cfg))
    else if !c.call.Empty? then SendAnswer(c, tid, 486)
    else TakeIncoming(cfg, c, cid, did, tid, sdp)
  }

  /** linphone_call_accepted(). */
  function CallAnswered(cfg: Settings, c: Core, cid: int, did: int, tid: int, negotiates: bool): Core {
    if !c.call.Live? then c
    else
      var c1 := NoteDialog(c, cid, did, tid);
      if c1.call.rec.cid != cid || c1.call.rec.state.Running? then c1
      else if cfg.offerInAck && !negotiates then TerminateCall(c1)
      else Connect(cfg, NewState(c1, CallOutConnected))
  }

  /** linphone_call_ringing(), which goes on after a mismatch of the call id. */
  function CallRinging(cfg: Settings, c: Core, cid: int, did: int, tid: int, sdp: bool): Core {
    var c1 := NoteDialog(c, cid, did, tid);
    if !c1.call.Live? then c1
    else if !sdp then
      if c1.ring then c1
      else c1.(ring := cfg.playCard, call := Live(c1.call.rec.(state := Ringing)))
    else if c1.started then c1
    else
      var c2 := StartStreams(cfg, NewState(c1, CallOutConnected).(ring := false));
      c2.(call := Live(c2.call.rec.(state := Ringing)))
  }

  /** linphone_call_redirected(). */
  function CallRedirected(cfg: Settings, c: Core, code: int, urlOk: bool, buildOk: bool, sendResult: int): Core {
    if code == 380 then Drop(c)
    else if code == 302 then InviteCall(cfg, Drop(c), urlOk, buildOk, sendResult)
    else c
  }

  /** linphone_core_accept_call(). */
  function AcceptPending(cfg: Settings, c: Core, buildOk: bool, offering: bool): Core {
    if !c.call.Live? || c.call.rec.state.Running? then c
    else if !buildOk then c.(ring := false)
    else
      var c0 := c.(ring := false, started := if offering then false else c.started);
      var c1 := NewState(SendAnswer(c0, c.call.rec.tid, 200), CallInConnected);
      if offering then c1 else StartStreams(cfg, c1)
  }

  /** linphone_call_terminated(). */
  function CloseCall(c: Core, cid: int): Core {
    if c.call.Live? && c.call.rec.cid != cid then c else Drop(NewState(Quiet(c), CallEnd))
  }

  /** linphone_call_failure(). */
  function FailCall(c: Core, cid: int, code: int): Core {
    if (c.call.Live? && c.call.rec.cid != cid) || code == 401 || code == 407 then c
    else if c.call.Live? then NewState(Drop(Quiet(c)), CallError)
    else Quiet(c)
  }

  /** linphone_call_released(). */
  function ReleaseCall(c: Core, cid: int): Core {
    if c.call.Live? && c.call.rec.cid == cid then NewState(Drop(c), CallError) else c
  }

  /** linphone_handle_reinvite(). */
  function HandleReinvite(cfg: Settings, c: Core, tid: int, sdp: bool, status: int, buildOk: bool): Core
    requires sdp ==> c.call.Live?
  {
    if !sdp then SendAnswer(c, tid, 603)
    else if status != 200 then SendAnswer(c, tid, status)
    else if !buildOk then c.(started := false)
    else StartStreams(cfg, SendAnswer(c.(started := false), tid, 200))
  }

  /** The handler looks into the call record, not only at the reference to it. */
  predicate ReadsRecord(e: Event) {
    match e
    case Invite(_, _, _) => false
    case NewInvite(_, _, _, _) => false
    case Redirected(code, _, _, _) => code == 302 || code == 380
    case Reinvite(_, sdp, _, _) => sdp
    case Ack(sdp) => sdp
    case _ => true
  }

  /** The events the handlers can take: none reads a destroyed record, and a re-INVITE or ACK with SDP finds a call. */
  predicate Enabled(c: Core, e: Event) {
    && (ReadsRecord(e) ==> !c.call.Stale?)
    && (e.Reinvite? && e.sdp ==> c.call.Live?)
    && (e.Ack? && e.sdp ==> c.call.Live?)
  }

  function Step(cfg: Settings, c: Core, e: Event): Core
    requires Enabled(c, e)
  {
    match e
    case Invite(urlOk, buildOk, result) => InviteCall(cfg, c, urlOk, buildOk, result)
    case AcceptCall(buildOk, offering) => AcceptPending(cfg, c, buildOk, offering)
    case Terminate => TerminateCall(c)
    case Tick(expired, disconnected) =>
      if TimesOut(c, e) then TerminateCall(c) else c
    case Answered(cid, did, tid, negotiates) => CallAnswered(cfg, c, cid, did, tid, negotiates)
    case Closed(cid) => CloseCall(c, cid)
    case Failure(cid, code) => FailCall(c, cid, code)
    case NewInvite(cid, did, tid, sdp) => IncomingCall(cfg, c, cid, did, tid, sdp)
    case Redirected(code, urlOk, buildOk, result) => CallRedirected(cfg, c, code, urlOk, buildOk, result)
    case Proceeding(cid, did, tid) => NoteDialog(c, cid, did, tid)
    case RingingEvent(cid, did, tid, sdp) => CallRinging(cfg, c, cid, did, tid, sdp)
    case Released(cid) => ReleaseCall(c, cid)
    case Reinvite(tid, sdp, status, buildOk) => HandleReinvite(cfg, c, tid, sdp, status, buildOk)
    case Ack(sdp) => if sdp then Connect(cfg, c) else c
  }

  /** linphone_core_iterate() ends a call that rang too long, or whose audio went silent while running. */
  predicate TimesOut(c: Core, e: Event) {
    && e.Tick? && c.call.Live?
    && ((c.call.rec.dir.Incoming? && c.call.rec.state.Ringing? && e.expired) ||
        (!(c.call.rec.dir.Incoming? && c.call.rec.state.Ringing?) && c.call.rec.state.Running? && e.disconnected))
  }

  // ---- the books: every call is logged once ----

  function MissedCount(h: seq<LogEntry>): nat {
    if h == [] then 0 else MissedCount(h[..|h| - 1]) + if h[|h| - 1].status.Missed? then 1 else 0
  }

  function Last(h: seq<LogEntry>, n: nat): seq<LogEntry> {
    if |h| <= n then h else h[|h| - n..]
  }

  /**
   * Calls are completed in the order they were created, each exactly once; the log holds the last entries up to its
   * limit; the missed counter counts the missed entries; at most one call is live.
   */
  predicate Books(c: Core) {
    && (forall k | 0 <= k < |c.history| :: c.history[k].id == k)
    && c.created == |c.history| + (if c.call.Live? then 1 else 0)
    && (c.call.Live? ==> c.call.rec.id == |c.history|)
    && c.logs == Last(c.history, MAX_CALL_LOGS)
    && c.missed == MissedCount(c.history)
  }

  lemma DestroyKeepsBooks(c: Core)
    requires c.call.Live? && Books(c)
    ensures Books(Destroy(c))
  {
    var r := Destroy(c);
    assert r.history[..|c.history|] == c.history;
    assert r.logs == Last(r.history, MAX_CALL_LOGS);
  }

  /** Two cores that agree on the call's identity, the log and the counters. */
  predicate SameBooks(a: Core, b: Core) {
    && a.call.Live? == b.call.Live? && (a.call.Live? ==> a.call.rec.id == b.call.rec.id)
    && a.logs == b.logs && a.missed == b.missed && a.created == b.created && a.history == b.history
  }

  lemma BooksCarry(a: Core, b: Core)
    requires Books(a) && SameBooks(a, b)
    ensures Books(b)
  {
  }

  lemma NewStateSameBooks(c: Core, g: GState)
    ensures SameBooks(c, NewState(c, g)) && NewState(c, g).call == c.call
    ensures NewState(c, g).states == SetState(c.states, if Passing(g) then CallIdle else g)
  {
  }

  lemma DropKeepsBooks(c: Core)
    requires Books(c)
    ensures Books(Drop(c)) && !Drop(c).call.Live?
  {
    hide Books, LogCompleted;
    if c.call.Live? {
      DestroyKeepsBooks(c);
      BooksCarry(Destroy(c), Drop(c));
    }
  }

  lemma TerminateKeepsBooks(c: Core)
    requires Books(c)
    ensures Books(TerminateCall(c))
  {
    hide Books, NewState, LogCompleted;
    if c.call.Live? {
      var c1 := Quiet(c.(sent := c.sent + [Bye(c.call.rec.cid, c.call.rec.did)]));
      NewStateSameBooks(c1, CallEnd);
      BooksCarry(c, NewState(c1, CallEnd));
      DestroyKeepsBooks(NewState(c1, CallEnd));
    }
  }

  /** A new call takes the next number. */
  lemma CreateKeepsBooks(c: Core, rec: Record, next: Core)
    requires Books(c) && !c.call.Live? && rec.id == c.created
    requires SameBooks(next, c.(call := Live(rec), created := c.created + 1))
    ensures Books(next)
  {
  }

  lemma {:induction false} InviteKeepsBooks(cfg: Settings, c: Core, urlOk: bool, buildOk: bool, sendResult: int)
    requires Books(c)
    ensures Books(InviteCall(cfg, c, urlOk, buildOk, sendResult))
  {
    hide Books, NewState, Drop;
    var c1 := NewState(c, CallOutInvite);
    NewStateSameBooks(c, CallOutInvite);
    BooksCarry(c, c1);
    NewStateSameBooks(c1, CallError);
    BooksCarry(c1, NewState(c1, CallError));
    if c.call.Empty? {
      var rec := Record(c1.created, Outgoing, sendResult, -1, -1, Init);
      var c2 := c1.(call := Live(rec), created := c1.created + 1, started := if cfg.offerInAck then c1.started
        else false);
      CreateKeepsBooks(c1, rec, c2);
      DropKeepsBooks(c2);
      BooksCarry(Drop(c2), Drop(c2).(started := false));
      NewStateSameBooks(Drop(c2).(started := false), CallError);
      BooksCarry(Drop(c2).(started := false), NewState(Drop(c2).(started := false), CallError));
    }
  }

  lemma {:induction false} IncomingKeepsBooks(cfg: Settings, c: Core, cid: int, did: int, tid: int, offer: Option<bool>)
    requires Books(c)
    ensures Books(IncomingCall(cfg, c, cid, did, tid, offer))
  {
    hide Books, NewState, Drop;
    BooksCarry(c, SendAnswer(c, tid, 486));
    BooksCarry(c, SendAnswer(c, tid, PresenceCode(cfg)));
    if c.call.Empty? {
      var rec := Record(c.created, Incoming, cid, did, tid, Init);
      var c1 := c.(call := Live(rec), created := c.created + 1);
      CreateKeepsBooks(c, rec, SendAnswer(c1, tid, 415));
      DropKeepsBooks(SendAnswer(c1, tid, 415));
      NewStateSameBooks(c1.(started := if offer.Some? then false else c1.started), CallInInvite);
      if cfg.presence.Online? && offer != Some(false) {
        CreateKeepsBooks(c, rec, IncomingCall(cfg, c, cid, did, tid, offer));
      }
    }
  }

  lemma {:induction false} AnsweredKeepsBooks(cfg: Settings, c: Core, cid: int, did: int, tid: int, negotiates: bool)
    requires Books(c)
    ensures Books(CallAnswered(cfg, c, cid, did, tid, negotiates))
  {
    hide Books, NewState, TerminateCall;
    var c1 := NoteDialog(c, cid, did, tid);
    BooksCarry(c, c1);
    TerminateKeepsBooks(c1);
    NewStateSameBooks(c1, CallOutConnected);
    if c1.call.Live? { BooksCarry(c1, Connect(cfg, NewState(c1, CallOutConnected))); }
  }

  lemma RingingKeepsBooks(cfg: Settings, c: Core, cid: int, did: int, tid: int, sdp: bool)
    requires Books(c)
    ensures Books(CallRinging(cfg, c, cid, did, tid, sdp))
  {
    hide Books, NewState;
    var c1 := NoteDialog(c, cid, did, tid);
    BooksCarry(c, c1);
    NewStateSameBooks(c1, CallOutConnected);
    BooksCarry(c1, CallRinging(cfg, c, cid, did, tid, sdp));
  }

  lemma AcceptKeepsBooks(cfg: Settings, c: Core, buildOk: bool, offering: bool)
    requires Books(c)
    ensures Books(AcceptPending(cfg, c, buildOk, offering))
  {
    hide Books, NewState;
    if c.call.Live? {
      var c0 := SendAnswer(c.(ring := false, started := if offering then false else c.started), c.call.rec.tid, 200);
      NewStateSameBooks(c0, CallInConnected);
    }
    BooksCarry(c, AcceptPending(cfg, c, buildOk, offering));
  }

  lemma CloseKeepsBooks(c: Core, cid: int)
    requires Books(c)
    ensures Books(CloseCall(c, cid))
  {
    hide Books, NewState, Drop;
    BooksCarry(c, Quiet(c));
    NewStateSameBooks(Quiet(c), CallEnd);
    BooksCarry(Quiet(c), NewState(Quiet(c), CallEnd));
    DropKeepsBooks(NewState(Quiet(c), CallEnd));
  }

  lemma FailKeepsBooks(c: Core, cid: int, code: int)
    requires Books(c)
    ensures Books(FailCall(c, cid, code))
  {
    hide Books, NewState, Drop;
    BooksCarry(c, Quiet(c));
    DropKeepsBooks(Quiet(c));
    NewStateSameBooks(Drop(Quiet(c)), CallError);
    BooksCarry(Drop(Quiet(c)), NewState(Drop(Quiet(c)), CallError));
  }

  lemma ReleaseKeepsBooks(c: Core, cid: int)
    requires Books(c)
    ensures Books(ReleaseCall(c, cid))
  {
    hide Books, NewState, Drop;
    DropKeepsBooks(c);
    NewStateSameBooks(Drop(c), CallError);
    BooksCarry(Drop(c), NewState(Drop(c), CallError));
  }

  lemma RedirectKeepsBooks(cfg: Settings, c: Core, code: int, urlOk: bool, buildOk: bool, sendResult: int)
    requires Books(c)
    ensures Books(CallRedirected(cfg, c, code, urlOk, buildOk, sendResult))
  {
    hide Books, Drop, InviteCall;
    DropKeepsBooks(c);
    InviteKeepsBooks(cfg, Drop(c), urlOk, buildOk, sendResult);
  }

  lemma NoteKeepsBooks(c: Core, cid: int, did: int, tid: int)
    requires Books(c)
    ensures Books(NoteDialog(c, cid, did, tid))
  {
    hide Books;
    BooksCarry(c, NoteDialog(c, cid, did, tid));
  }

  lemma ReinviteKeepsBooks(cfg: Settings, c: Core, tid: int, sdp: bool, status: int, buildOk: bool)
    requires Books(c) && (sdp ==> c.call.Live?)
    ensures Books(HandleReinvite(cfg, c, tid, sdp, status, buildOk))
  {
    hide Books;
    BooksCarry(c, HandleReinvite(cfg, c, tid, sdp, status, buildOk));
  }

  lemma ConnectKeepsBooks(cfg: Settings, c: Core)
    requires Books(c) && c.call.Live?
    ensures Books(Connect(cfg, c))
  {
    hide Books;
    BooksCarry(c, Connect(cfg, c));
  }

  /** Every event keeps the books, redirects and terminations included. */
  lemma {:induction false} StepKeepsBooks(cfg: Settings, c: Core, e: Event)
    requires Enabled(c, e) && Books(c)
    ensures Books(Step(cfg, c, e))
  {
    hide Books, InviteCall, TerminateCall, CallAnswered, IncomingCall, CallRinging, AcceptPending, CloseCall, FailCall;
    hide ReleaseCall, CallRedirected, NoteDialog, HandleReinvite, Connect;
    match e
    case Invite(u, b, r) => InviteKeepsBooks(cfg, c, u, b, r);
    case AcceptCall(b, offering) => AcceptKeepsBooks(cfg, c, b, offering);
    case Terminate => TerminateKeepsBooks(c);
    case Tick(_, _) => TerminateKeepsBooks(c);
    case Answered(cid, did, tid, n) => AnsweredKeepsBooks(cfg, c, cid, did, tid, n);
    case Closed(cid) => CloseKeepsBooks(c, cid);
    case Failure(cid, code) => FailKeepsBooks(c, cid, code);
    case NewInvite(cid, did, tid, offer) => IncomingKeepsBooks(cfg, c, cid, did, tid, offer);
    case Redirected(code, u, b, r) => RedirectKeepsBooks(cfg, c, code, u, b, r);
    case Proceeding(cid, did, tid) => NoteKeepsBooks(c, cid, did, tid);
    case RingingEvent(cid, did, tid, sdp) => RingingKeepsBooks(cfg, c, cid, did, tid, sdp);
    case Released(cid) => ReleaseKeepsBooks(c, cid);
    case Reinvite(tid, sdp, status, b) => ReinviteKeepsBooks(cfg, c, tid, sdp, status, b);
    case Ack(sdp) => if sdp { ConnectKeepsBooks(cfg, c); }
  }

  // ---- the resting states ----

  /** Between events: the call state is idle exactly when there is no call, and no destroyed record is pointed at. */
  predicate Resting(c: Core) {
    && !c.call.Stale?
    && (c.call.Empty? <==> c.states.call.CallIdle?)
    && GroupOf(c.states.call).Calls? && !Passing(c.states.call)
  }

  /**
   * The two ways out: a 380 redirect drops the call without telling the state, and terminating a call (by the user, a
   * timeout, or an answer that does not negotiate) leaves the reference on the destroyed record.
   */
  predicate Breaks(cfg: Settings, c: Core, e: Event) {
    c.call.Live? &&
    match e
    case Terminate => true
    case Tick(_, _) => TimesOut(c, e)
    case Answered(cid, _, _, negotiates) =>
      (c.call.rec.cid == -1 || c.call.rec.cid == cid) && !c.call.rec.state.Running? && cfg.offerInAck && !negotiates
    case Redirected(code, _, _, _) => code == 380
    case _ => false
  }

  lemma DropForgets(c: Core)
    requires !c.call.Stale?
    ensures Drop(c).states == c.states && Drop(c).call.Empty?
  {
  }

  lemma InviteRests(cfg: Settings, c: Core, urlOk: bool, buildOk: bool, sendResult: int)
    requires !c.call.Stale? && (c.call.Live? ==> Resting(c))
    ensures Resting(InviteCall(cfg, c, urlOk, buildOk, sendResult))
  {
  }

  lemma AnsweredRests(cfg: Settings, c: Core, cid: int, did: int, tid: int, negotiates: bool)
    requires Resting(c)
    ensures Resting(CallAnswered(cfg, c, cid, did, tid, negotiates)) <==>
            !Breaks(cfg, c, Answered(cid, did, tid, negotiates))
  {
  }

  lemma EndingRests(cfg: Settings, c: Core, e: Event)
    requires (e.Closed? || e.Failure? || e.Released?) && Resting(c)
    ensures Resting(Step(cfg, c, e))
  {
    hide Drop;
    DropForgets(c);
    DropForgets(Quiet(c));
    DropForgets(NewState(Quiet(c), CallEnd));
  }

  lemma IncomingRests(cfg: Settings, c: Core, cid: int, did: int, tid: int, offer: Option<bool>)
    requires Resting(c)
    ensures Resting(IncomingCall(cfg, c, cid, did, tid, offer))
  {
    hide Drop;
    DropForgets(SendAnswer(c.(call := Live(Record(c.created, Incoming, cid, did, tid, Init)),
      created := c.created + 1), tid, 415));
  }

  lemma RedirectRests(cfg: Settings, c: Core, code: int, urlOk: bool, buildOk: bool, sendResult: int)
    requires Resting(c)
    ensures Resting(CallRedirected(cfg, c, code, urlOk, buildOk, sendResult)) <==> !(code == 380 && c.call.Live?)
  {
    hide Drop, InviteCall;
    DropForgets(c);
    InviteRests(cfg, Drop(c), urlOk, buildOk, sendResult);
    if code == 380 && !c.call.Live? { assert Drop(c) == c by { DropNothing(c); } }
  }

  lemma DropNothing(c: Core)
    requires !c.call.Live?
    ensures Drop(c) == c
  {
  }

  lemma TerminateRests(c: Core)
    requires Resting(c)
    ensures Resting(TerminateCall(c)) <==> !c.call.Live?
  {
  }

  /** Events that answer, follow or renew the dialog of the call. */
  lemma {:induction false} DialogRests(cfg: Settings, c: Core, e: Event)
    requires (e.AcceptCall? || e.Proceeding? || e.Reinvite? || e.Ack?) && Enabled(c, e) && Resting(c)
    ensures Resting(Step(cfg, c, e))
  {
  }

  lemma RingingRests(cfg: Settings, c: Core, cid: int, did: int, tid: int, sdp: bool)
    requires Resting(c)
    ensures Resting(CallRinging(cfg, c, cid, did, tid, sdp))
  {
  }

  /** From a resting state, every event leads to a resting state, exactly when it is not one of the two ways out. */
  lemma {:induction false} StepRestsIff(cfg: Settings, c: Core, e: Event)
    requires Enabled(c, e) && Resting(c)
    ensures Resting(Step(cfg, c, e)) <==> !Breaks(cfg, c, e)
  {
    hide Resting, InviteCall, CallRedirected, CallAnswered, IncomingCall, CallRinging, TerminateCall;
    assert !c.call.Stale? by { RestingMeans(c); }
    if {
      case e.Invite? => InviteRests(cfg, c, e.urlOk, e.buildOk, e.sendResult);
      case e.Redirected? => RedirectRests(cfg, c, e.code, e.urlOk, e.buildOk, e.sendResult);
      case e.Answered? => AnsweredRests(cfg, c, e.cid, e.did, e.tid, e.negotiates);
      case e.NewInvite? => IncomingRests(cfg, c, e.cid, e.did, e.tid, e.offer);
      case e.RingingEvent? => RingingRests(cfg, c, e.cid, e.did, e.tid, e.sdp);
      case e.Terminate? || e.Tick? => TerminateRests(c);
      case e.Closed? || e.Failure? || e.Released? =>
        hide Step;
        EndingRests(cfg, c, e);
      case e.AcceptCall? || e.Proceeding? || e.Reinvite? || e.Ack? =>
        hide Step;
        DialogRests(cfg, c, e);
    }
  }

  lemma RestingMeans(c: Core)
    requires Resting(c)
    ensures !c.call.Stale?
  {
  }

  // ---- whole runs ----

  /** After gstate_initialize(): no call was ever made. */
  function InitialCore(): Core {
    Core(Empty, States(PowerOff, RegNone, CallIdle), false, false, [], 0, 0, [], [], [])
  }

  /** The events can be taken one after the other. */
  predicate Runnable(cfg: Settings, c: Core, es: seq<Event>)
    decreases |es|
  {
    es != [] ==> Enabled(c, es[0]) && Runnable(cfg, Step(cfg, c, es[0]), es[1..])
  }

  function Run(cfg: Settings, c: Core, es: seq<Event>): Core
    requires Runnable(cfg, c, es)
    decreases |es|
  {
    if es == [] then c else Run(cfg, Step(cfg, c, es[0]), es[1..])
  }

  /** No event of the run is one of the two ways out of the resting states. */
  predicate NeverBreaks(cfg: Settings, c: Core, es: seq<Event>)
    requires Runnable(cfg, c, es)
    decreases |es|
  {
    es != [] ==> !Breaks(cfg, c, es[0]) && NeverBreaks(cfg, Step(cfg, c, es[0]), es[1..])
  }

  /** Over every run: each call created is logged once when it ends, and at most one call is live. */
  lemma {:induction false} RunKeepsBooks(cfg: Settings, c: Core, es: seq<Event>)
    requires Runnable(cfg, c, es) && Books(c)
    ensures Books(Run(cfg, c, es))
    decreases |es|
  {
    hide Books, Step;
    if es == [] {
    } else {
      StepKeepsBooks(cfg, c, es[0]);
      RunKeepsBooks(cfg, Step(cfg, c, es[0]), es[1..]);
    }
  }

  lemma {:induction false} RunRests(cfg: Settings, c: Core, es: seq<Event>)
    requires Runnable(cfg, c, es) && NeverBreaks(cfg, c, es) && Resting(c)
    ensures Resting(Run(cfg, c, es))
    decreases |es|
  {
    hide Resting, Step, Breaks;
    if es == [] {
    } else {
      StepRestsIff(cfg, c, es[0]);
      RunRests(cfg, Step(cfg, c, es[0]), es[1..]);
    }
  }

  /**
   * From start-up, over every run without the two ways out: the books are kept, the call state is idle exactly when
   * there is no call, and it never rests in END or ERROR.
   */
  lemma CallInvariant(cfg: Settings, es: seq<Event>)
    requires Runnable(cfg, InitialCore(), es) && NeverBreaks(cfg, InitialCore(), es)
    ensures var c := Run(cfg, InitialCore(), es);
            && Resting(c) && Books(c)
            && c.created == |c.history| + (if c.states.call.CallIdle? then 0 else 1)
  {
    RunRests(cfg, InitialCore(), es);
    RunKeepsBooks(cfg, InitialCore(), es);
  }

  /**
   * A call that never rang or answered, then a 380: the state stays OUT_INVITE with no call, so the invariant needs its
   * condition.
   */
  lemma RedirectLeavesStateBehind(cfg: Settings)
    ensures var es := [Invite(true, true, 7), Redirected(380, true, true, 0)];
            && Runnable(cfg, InitialCore(), es)
            && Run(cfg, InitialCore(), es).call.Empty?
            && Run(cfg, InitialCore(), es).states.call.CallOutInvite?
  {
    var e1, e2 := Invite(true, true, 7), Redirected(380, true, true, 0);
    var c1 := Step(cfg, InitialCore(), e1);
    var c2 := Step(cfg, c1, e2);
    assert [e1, e2][1..] == [e2] && [e2][1..] == [];
    assert Runnable(cfg, c2, []) && Run(cfg, c2, []) == c2;
    assert Runnable(cfg, c1, [e2]) && Run(cfg, c1, [e2]) == c2;
  }

  /** A call that the user hangs up: the state is idle, but the reference stays on the destroyed record. */
  lemma TerminateLeavesReference(cfg: Settings)
    ensures var es := [Invite(true, true, 7), Terminate];
            && Runnable(cfg, InitialCore(), es)
            && Run(cfg, InitialCore(), es).call.Stale?
            && Run(cfg, InitialCore(), es).states.call.CallIdle?
  {
    var e1, e2 := Invite(true, true, 7), Terminate;
    var c1 := Step(cfg, InitialCore(), e1);
    var c2 := Step(cfg, c1, e2);
    assert [e1, e2][1..] == [e2] && [e2][1..] == [];
    assert Runnable(cfg, c2, []) && Run(cfg, c2, []) == c2;
    assert Runnable(cfg, c1, [e2]) && Run(cfg, c1, [e2]) == c2;
  }

  /** What follows a hang-up: no call can be placed, and every INVITE to an online phone is answered with 486. */
  lemma AfterHangUp(cfg: Settings, c: Core, e: Event)
    requires c.call.Live? && Enabled(TerminateCall(c), e)
    ensures var t := TerminateCall(c);
            match e
            case Invite(_, _, _) => Step(cfg, t, e) == t
            case NewInvite(_, _, tid, _) => cfg.presence.Online? ==> Step(cfg, t, e) == SendAnswer(t, tid, 486)
            case _ => Step(cfg, t, e).call == t.call
  {
    hide NewState, LogCompleted;
  }

  /** And so it stays: over every run, the phone makes and takes no call any more. */
  lemma {:induction false} HangUpIsFinal(cfg: Settings, c: Core, es: seq<Event>)
    requires c.call.Stale? && Runnable(cfg, c, es)
    ensures SameCall(Run(cfg, c, es), c)
    decreases |es|
  {
    if es == [] {
    } else {
      hide Step;
      StaleStep(cfg, c, es[0]);
      HangUpIsFinal(cfg, Step(cfg, c, es[0]), es[1..]);
    }
  }

  lemma StaleStep(cfg: Settings, c: Core, e: Event)
    requires c.call.Stale? && Enabled(c, e)
    ensures SameCall(Step(cfg, c, e), c)
  {
  }

  // ---- isolation ----

  predicate SameCall(a: Core, b: Core) {
    a.call == b.call && a.states == b.states && a.history == b.history && a.logs == b.logs && a.missed == b.missed &&
      a.created == b.created
  }

  /** An event that names another call; -1 is the call id that matches everything. */
  predicate Foreign(c: Core, e: Event) {
    && c.call.Live? && c.call.rec.cid != -1
    && match e
       case Answered(cid, _, _, _) => cid != c.call.rec.cid
       case Proceeding(cid, _, _) => cid != c.call.rec.cid
       case Closed(cid) => cid != c.call.rec.cid
       case Failure(cid, _) => cid != c.call.rec.cid
       case Released(cid) => cid != c.call.rec.cid
       case NewInvite(_, _, _, _) => true
       case _ => false
  }

  /** Events of other calls leave the current call, its state, the general state and the log alone. */
  lemma ForeignEventsAreIsolated(cfg: Settings, c: Core, e: Event)
    requires Foreign(c, e)
    ensures Enabled(c, e) && SameCall(Step(cfg, c, e), c)
  {
  }

  /** A ringing event of another call leaves the call alone exactly when there is nothing left for it to change. */
  lemma ForeignRingingIff(cfg: Settings, c: Core, cid: int, did: int, tid: int, sdp: bool)
    requires c.call.Live? && c.call.rec.cid != -1 && c.call.rec.cid != cid
    ensures SameCall(CallRinging(cfg, c, cid, did, tid, sdp), c) <==>
            if sdp then c.started || (c.call.rec.state.Ringing? && c.states.call.CallOutConnected?)
            else c.ring || c.call.rec.state.Ringing?
  {
  }

  /** The code a new INVITE is answered with. */
  function InviteCode(cfg: Settings, c: Core, offer: Option<bool>): int {
    if !cfg.presence.Online? then PresenceCode(cfg)
    else if !c.call.Empty? then 486
    else if offer == Some(false) then 415
    else 180
  }

  /**
   * Every new INVITE is answered exactly once, at once: by presence, 486 while there is a call or a reference to one,
   * 415 when the offer does not negotiate, and 180 exactly when it becomes the call.
   */
  lemma {:induction false} EveryInviteIsAnswered(cfg: Settings, c: Core, cid: int, did: int, tid: int,
    offer: Option<bool>)
    ensures var r := IncomingCall(cfg, c, cid, did, tid, offer);
            && r.sent == c.sent + [Answer(tid, InviteCode(cfg, c, offer))]
            && InviteCode(cfg, c, offer) in {180, 302, 380, 415, 480, 486}
            && (InviteCode(cfg, c, offer) == 180 <==> c.call.Empty? && r.call.Live?)
  {
    hide NewState, LogCompleted;
    if c.call.Empty? {
      var c1 := c.(call := Live(Record(c.created, Incoming, cid, did, tid, Init)), created := c.created + 1);
      NewStateSends(c1.(started := if offer.Some? then false else c1.started), CallInInvite);
      LogSends(SendAnswer(c1, tid, 415));
    }
  }

  lemma NewStateSends(c: Core, g: GState)
    ensures NewState(c, g).sent == c.sent
  {
  }

  lemma LogSends(c: Core)
    requires c.call.Live?
    ensures LogCompleted(c, c.call.rec).sent == c.sent
  {
  }
}
