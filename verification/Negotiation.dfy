/**
 * The phone's own callbacks at work: one live stream per medium, a call profile that covers the answer, and two
 * endpoints that end up agreeing.
 */
module Negotiation {
  import opened Text
  import opened Bandwidth
  import opened Rtp
  import opened Codecs
  import opened Sdp
  import opened Answers

  lemma LinphoneEchoes()
    ensures Echoes(Linphone())
  {
    forall s, m, p
      ensures (Linphone().accept)(s, m, p).payload.pt == p.pt && (Linphone().accept)(s, m, p).payload.rtpmap == p.rtpmap
    {
      AcceptSettles(s, m, p);
    }
  }

  lemma {:induction false} SameCodecsTransitive(a: Profile, b: Profile, c: Profile)
    requires SameCodecs(a, b) && SameCodecs(b, c)
    ensures SameCodecs(a, c)
  {
    forall i | i in a ensures a[i].(bitrate := 0) == c[i].(bitrate := 0) {
      assert i in b;
    }
  }

  lemma SameSettingsTransitive(a: Core, b: Core, c: Core)
    requires SameSettings(a, b) && SameSettings(b, c)
    ensures SameSettings(a, c)
  {
    hide SameCodecs;
    SameCodecsTransitive(a.local, b.local, c.local);
  }

  /** The phone sets both accept callbacks. */
  lemma PhoneAsks(s: Session, m: Medium, msg: Message, i: nat)
    requires i < |msg.lines|
    ensures ScanLine(Linphone(), s, m, msg, i) == Scan(Linphone(), s, m, msg, i, |msg.lines[i].payloads|)
  {
    hide Scan;
  }

  // ---- one live stream per medium ----

  /** No payload kept so far announces a port. */
  predicate Silent(kept: seq<Payload>) {
    forall k | 0 <= k < |kept| :: kept[k].localport == 0
  }

  /**
   * How a scan of line i may have changed the stream: not at all, and then it announces no port; or by settling it on
   * this line, and then the only payload that announces a port is the one it was settled on.
   */
  predicate ScanSettles(core: Core, m: Medium, before: Stream, after: Stream, kept: seq<Payload>, line: Payload) {
    if before.initialized || !after.initialized then
      after == before && Silent(kept)
    else
      && after == Settle(core, m, before, line.(pt := after.pt))
      && after.pt in Numbers(kept)
      && (forall k | 0 <= k < |kept| && kept[k].localport != 0 ::
            kept[k].pt == after.pt && kept[k].localport == AnnouncedPort(core, m, before))
  }

  lemma SettleSettings(a: Core, b: Core, m: Medium, st: Stream, p: Payload)
    requires SameSettings(a, b)
    ensures Settle(a, m, st, p) == Settle(b, m, st, p) && AnnouncedPort(a, m, st) == AnnouncedPort(b, m, st)
  {
  }

  lemma {:induction false} ScanKeepsSettings(s: Session, m: Medium, msg: Message, i: nat, n: nat)
    requires i < |msg.lines| && n <= |msg.lines[i].payloads|
    ensures var r := Scan(Linphone(), s, m, msg, i, n);
            SameSettings(s.core, r.session.core) && StreamOf(r.session, OtherMedium(m)) == StreamOf(s, OtherMedium(m))
  {
    hide Accept, SameSettings, SettlesOn;
    if n == 0 {
      SameSettingsReflexive(s.core);
    } else {
      var prev := Scan(Linphone(), s, m, msg, i, n - 1);
      ScanKeepsSettings(s, m, msg, i, n - 1);
      AcceptSettles(prev.session, m, PayloadAt(msg, i, n - 1));
      SameSettingsTransitive(s.core, prev.session.core, Scan(Linphone(), s, m, msg, i, n).session.core);
    }
  }

  /** One more callback keeps the account of the stream. */
  lemma {:induction false} SettleStep(
    core: Core, m: Medium, before: Stream, mid: Stream, after: Stream, kept: seq<Payload>, line: Payload, p: Payload,
    r: Outcome<Session>)
    requires ScanSettles(core, m, before, mid, kept, line)
    requires p == line.(pt := p.pt, rtpmap := p.rtpmap, fmtp := p.fmtp) && p.localport == 0 && r.payload.pt == p.pt
    requires SettlesOn(core, mid, after, m, p, r)
    ensures ScanSettles(core, m, before, after, if r.ok then kept + [r.payload] else kept, line)
  {
    hide Numbers;
    NumbersSnoc(kept, r.payload);
  }

  lemma SettlesOnSettings(a: Core, b: Core, before: Stream, after: Stream, m: Medium, p: Payload, r: Outcome<Session>)
    requires SameSettings(a, b) && SettlesOn(b, before, after, m, p, r)
    ensures SettlesOn(a, before, after, m, p, r)
  {
    SettleSettings(a, b, m, before, p);
  }

  lemma NothingSettled(core: Core, m: Medium, st: Stream, line: Payload)
    ensures ScanSettles(core, m, st, st, [], line)
  {
  }

  lemma {:induction false} ScanSettlesOnce(s: Session, m: Medium, msg: Message, i: nat, n: nat)
    requires i < |msg.lines| && n <= |msg.lines[i].payloads|
    ensures var r := Scan(Linphone(), s, m, msg, i, n);
            ScanSettles(s.core, m, StreamOf(s, m), StreamOf(r.session, m), r.kept, LinePayload(msg, i))
  {
    hide Accept, SameSettings, LinePayload, ScanSettles, SettlesOn, AttrValue;
    if n == 0 {
      NothingSettled(s.core, m, StreamOf(s, m), LinePayload(msg, i));
    } else {
      var prev := Scan(Linphone(), s, m, msg, i, n - 1);
      var p := PayloadAt(msg, i, n - 1);
      var r := Accept(prev.session, m, p);
      ScanSettlesOnce(s, m, msg, i, n - 1);
      ScanKeepsSettings(s, m, msg, i, n - 1);
      AcceptSettles(prev.session, m, p);
      SettlesOnSettings(s.core, prev.session.core, StreamOf(prev.session, m), StreamOf(r.session, m), m, p, r);
      PayloadAtIsSilent(msg, i, n - 1);
      SettleStep(s.core, m, StreamOf(s, m), StreamOf(prev.session, m), StreamOf(r.session, m), prev.kept,
                 LinePayload(msg, i), p, r);
    }
  }

  lemma PayloadAtIsSilent(msg: Message, i: nat, j: nat)
    requires i < |msg.lines| && j < |msg.lines[i].payloads|
    ensures PayloadAt(msg, i, j).localport == 0
  {
  }

  /** The same for the scan of line i within the whole pass; the phone sets both callbacks. */
  lemma LineSettles(s: Session, msg: Message, i: nat, m: Medium)
    requires i < |msg.lines| && MediaLines(msg, i + 1) == i + 1
    requires SameSettings(s.core, AnswerTo(Linphone(), s, msg, i).session.core)
    ensures var before := AnswerTo(Linphone(), s, msg, i).session;
            var sc := ScanOf(Linphone(), s, msg, i);
            && SameSettings(s.core, sc.session.core)
            && (if MediumOf(msg.lines[i].mtype) == Some(m)
                then ScanSettles(s.core, m, StreamOf(before, m), StreamOf(sc.session, m), sc.kept, LinePayload(msg, i))
                else StreamOf(sc.session, m) == StreamOf(before, m))
  {
    hide SameSettings, AnswerTo, LinePayload, Settle, AnnouncedPort;
    var before := AnswerTo(Linphone(), s, msg, i).session;
    var lm := MediumOf(msg.lines[i].mtype).value;
    var n := |msg.lines[i].payloads|;
    var sc := ScanOf(Linphone(), s, msg, i);
    assert sc == Scan(Linphone(), before, lm, msg, i, n);
    ScanKeepsSettings(before, lm, msg, i, n);
    SameSettingsTransitive(s.core, before.core, sc.session.core);
    ScanSettlesOnce(before, lm, msg, i, n);
    SettleSettings(s.core, before.core, lm, StreamOf(before, lm),
      LinePayload(msg, i).(pt := StreamOf(sc.session, lm).pt));
  }

  /**
   * The live stream of a medium after the first n lines: nothing settled and no line of that medium has a port; or
   * settled on one line, which lists the stream's number, and then any line of that medium with a port is that line,
   * starts with that number and announces our port.
   */
  predicate OneLive(core: Core, m: Medium, before: Stream, after: Stream, msg: Message, lines: seq<Media>)
    requires |lines| <= |msg.lines|
  {
    if before.initialized || !after.initialized then
      && after == before
      && (forall i | 0 <= i < |lines| && MediumOf(msg.lines[i].mtype) == Some(m) :: lines[i].port == 0)
    else
      && 0 <= after.line < |lines|
      && MediumOf(msg.lines[after.line].mtype) == Some(m)
      && after == Settle(core, m, before, LinePayload(msg, after.line).(pt := after.pt))
      && after.pt in lines[after.line].payloads
      && (forall i | 0 <= i < |lines| && MediumOf(msg.lines[i].mtype) == Some(m) && lines[i].port != 0 ::
            && i == after.line && lines[i].port == AnnouncedPort(core, m, before)
            && lines[i].payloads != [] && lines[i].payloads[0] == after.pt)
  }

  lemma OneLiveStep(core: Core, m: Medium, before: Stream, mid: Stream, after: Stream, msg: Message, lines: seq<Media>,
    kept: seq<Payload>)
    requires |lines| < |msg.lines|
    requires OneLive(core, m, before, mid, msg, lines)
    requires if MediumOf(msg.lines[|lines|].mtype) == Some(m)
             then ScanSettles(core, m, mid, after, kept, LinePayload(msg, |lines|)) else after == mid
    ensures OneLive(core, m, before, after, msg, lines + [AnswerLine(msg.lines[|lines|], kept, true)])
  {
    hide AnswerLine, AnnouncedPort;
    var n := |lines|;
    var line := AnswerLine(msg.lines[n], kept, true);
    var all := lines + [line];
    AnswerLineHeader(msg.lines[n], kept);
    assert forall i | 0 <= i < n :: all[i] == lines[i];
    assert all[n] == line;
    assert LinePayload(msg, n).line == n;
  }

  lemma {:induction false} AnswerSettles(s: Session, msg: Message, n: nat, m: Medium)
    requires n <= |msg.lines| && MediaLines(msg, n) == n
    ensures var r := AnswerTo(Linphone(), s, msg, n);
            && |r.lines| == n && SameSettings(s.core, r.session.core)
            && OneLive(s.core, m, StreamOf(s, m), StreamOf(r.session, m), msg, r.lines)
  {
    if n == 0 {
      SameSettingsReflexive(s.core);
    } else {
      hide SameSettings, ScanSettles, OneLive, AnswerTo, ScanOf, AnswerLine;
      assert MediaLines(msg, n - 1) == n - 1 && MediumOf(msg.lines[n - 1].mtype).Some?;
      hide MediaLines;
      AnswerSettles(s, msg, n - 1, m);
      AnswerStep(Linphone(), s, msg, n - 1);
      LineSettles(s, msg, n - 1, m);
      var prev := AnswerTo(Linphone(), s, msg, n - 1);
      var sc := ScanOf(Linphone(), s, msg, n - 1);
      OneLiveStep(s.core, m, StreamOf(s, m), StreamOf(prev.session, m), StreamOf(sc.session, m), msg, prev.lines,
        sc.kept);
    }
  }

  /** Over a whole negotiation at most one line per medium is live, and it is the one the stream was settled on. */
  lemma OneLiveStream(s: Session, msg: Message, m: Medium)
    requires AllMedia(msg)
    ensures var r := AnswerTo(Linphone(), s, msg, |msg.lines|);
            && |r.lines| == |msg.lines|
            && OneLive(s.core, m, StreamOf(s, m), StreamOf(r.session, m), msg, r.lines)
  {
    assert MediaLines(msg, |msg.lines|) == |msg.lines|;
    AnswerSettles(s, msg, |msg.lines|, m);
  }

  // ---- the call profile covers the answer ----

  /** The codec fits what the line's last b=AS says, and our upload share. */
  predicate FitForLine(c: Codec, bws: seq<Bw>, core: Core) {
    && (forall k | 0 <= k < |bws| && IsLastAs(bws, k) :: FitFor(c, bws[k].value, core))
    && ((forall k | 0 <= k < |bws| :: !SameIgnoringCase(bws[k].kind, "AS")) ==> FitFor(c, 0, core))
  }

  lemma FitsItsLine(c: Codec, bws: seq<Bw>, core: Core)
    requires FitFor(c, AsLimit(bws), core)
    ensures FitForLine(c, bws, core)
  {
    hide FitFor, AsLimit, SameIgnoringCase;
    AsLimitIsLastAs(bws);
  }

  /** The j-th callback of a scan was given this number, and the codec fits the line and the shares of that moment. */
  predicate PutIn(s: Session, m: Medium, msg: Message, i: nat, j: nat, pt: int, c: Codec)
    requires i < |msg.lines| && j < |msg.lines[i].payloads|
  {
    && msg.lines[i].payloads[j] == pt
    && FitForLine(c, msg.lines[i].bws, Scan(Linphone(), s, m, msg, i, j).session.core)
    && OursFor(c, PayloadAt(msg, i, j), Scan(Linphone(), s, m, msg, i, j).session.core)
  }

  /** One of the first n callbacks of the line put this codec at this number. */
  ghost predicate PutWithin(s: Session, m: Medium, msg: Message, i: nat, n: nat, pt: int, c: Codec)
    requires i < |msg.lines| && n <= |msg.lines[i].payloads|
  {
    exists j :: 0 <= j < n && PutIn(s, m, msg, i, j, pt, c)
  }

  /** Every entry of the later profile was there before, or was put there by one of the first n callbacks. */
  ghost predicate ScanPuts(s: Session, m: Medium, msg: Message, i: nat, n: nat, after: Profile)
    requires i < |msg.lines| && n <= |msg.lines[i].payloads|
  {
    && (forall pt | pt in s.profile :: pt in after)
    && (forall pt | pt in after ::
          (pt in s.profile && after[pt] == s.profile[pt]) || PutWithin(s, m, msg, i, n, pt, after[pt]))
  }

  /** An accepted number that must have an entry: one of the table, not on a video line offered with port 0. */
  predicate NeedsEntry(media: Media, m: Medium, oks: seq<bool>, j: int)
    requires |oks| <= |media.payloads|
  {
    0 <= j < |oks| && oks[j] && 0 <= media.payloads[j] < SLOTS && !(m.VideoLine? && media.port == 0)
  }

  ghost predicate ScanCovered(s: Session, m: Medium, msg: Message, i: nat, oks: seq<bool>, after: Profile)
    requires i < |msg.lines| && |oks| <= |msg.lines[i].payloads|
  {
    forall j | NeedsEntry(msg.lines[i], m, oks, j) ::
      var pt := msg.lines[i].payloads[j];
      pt in after && PutWithin(s, m, msg, i, |oks|, pt, after[pt])
  }

  lemma PutWithinGrows(s: Session, m: Medium, msg: Message, i: nat, n: nat, pt: int, c: Codec)
    requires i < |msg.lines| && n < |msg.lines[i].payloads| && PutWithin(s, m, msg, i, n, pt, c)
    ensures PutWithin(s, m, msg, i, n + 1, pt, c)
  {
    hide PutIn;
  }

  /** The entry after one more callback: the one before it, or one put there by that callback. */
  lemma EntryStep(s: Session, m: Medium, msg: Message, i: nat, n: nat, mid: Profile, after: Profile, pt: int)
    requires i < |msg.lines| && n < |msg.lines[i].payloads| && pt in after
    requires InsertsAt(mid, after, PayloadAt(msg, i, n), Scan(Linphone(), s, m, msg, i, n).session.core)
    ensures (pt in mid && after[pt] == mid[pt]) || PutIn(s, m, msg, i, n, pt, after[pt])
  {
    hide Scan, FitFor, FitForLine, OursFor;
    if !(pt in mid && after[pt] == mid[pt]) {
      FitsItsLine(after[pt], msg.lines[i].bws, Scan(Linphone(), s, m, msg, i, n).session.core);
    }
  }

  lemma ScanPutsStep(s: Session, m: Medium, msg: Message, i: nat, n: nat, mid: Profile, after: Profile)
    requires i < |msg.lines| && n < |msg.lines[i].payloads|
    requires ScanPuts(s, m, msg, i, n, mid)
    requires InsertsAt(mid, after, PayloadAt(msg, i, n), Scan(Linphone(), s, m, msg, i, n).session.core)
    ensures ScanPuts(s, m, msg, i, n + 1, after)
  {
    hide Scan, FitFor, FitForLine, OursFor, PutIn, PutWithin;
    forall pt | pt in after && !(pt in s.profile && after[pt] == s.profile[pt])
      ensures PutWithin(s, m, msg, i, n + 1, pt, after[pt])
    {
      EntryStep(s, m, msg, i, n, mid, after, pt);
      if PutIn(s, m, msg, i, n, pt, after[pt]) {
        PutLast(s, m, msg, i, n, pt, after[pt]);
      } else {
        PutWithinGrows(s, m, msg, i, n, pt, mid[pt]);
      }
    }
  }

  lemma PutLast(s: Session, m: Medium, msg: Message, i: nat, n: nat, pt: int, c: Codec)
    requires i < |msg.lines| && n < |msg.lines[i].payloads| && PutIn(s, m, msg, i, n, pt, c)
    ensures PutWithin(s, m, msg, i, n + 1, pt, c)
  {
    hide PutIn;
  }

  lemma ScanCoveredStep(s: Session, m: Medium, msg: Message, i: nat, oks: seq<bool>, ok: bool, mid: Profile,
    after: Profile)
    requires i < |msg.lines| && |oks| < |msg.lines[i].payloads|
    requires ScanCovered(s, m, msg, i, oks, mid)
    requires var p, core := PayloadAt(msg, i, |oks|), Scan(Linphone(), s, m, msg, i, |oks|).session.core;
             && InsertsAt(mid, after, p, core)
             && (ok && 0 <= p.pt < SLOTS && !(m.VideoLine? && p.remoteport == 0) ==> HoldsCodec(after, p, core))
    ensures ScanCovered(s, m, msg, i, oks + [ok], after)
  {
    hide Scan, FitFor, FitForLine, OursFor, PutIn, PutWithin;
    var n := |oks|;
    forall j | NeedsEntry(msg.lines[i], m, oks + [ok], j)
      ensures var pt := msg.lines[i].payloads[j]; pt in after && PutWithin(s, m, msg, i, n + 1, pt, after[pt])
    {
      var pt := msg.lines[i].payloads[j];
      if j < n {
        assert NeedsEntry(msg.lines[i], m, oks, j);
        EntryStep(s, m, msg, i, n, mid, after, pt);
        if PutIn(s, m, msg, i, n, pt, after[pt]) {
          PutLast(s, m, msg, i, n, pt, after[pt]);
        } else {
          PutWithinGrows(s, m, msg, i, n, pt, mid[pt]);
        }
      } else {
        PutByLast(s, m, msg, i, n, after);
        PutLast(s, m, msg, i, n, pt, after[pt]);
      }
    }
  }

  lemma PutByLast(s: Session, m: Medium, msg: Message, i: nat, n: nat, after: Profile)
    requires i < |msg.lines| && n < |msg.lines[i].payloads|
    requires HoldsCodec(after, PayloadAt(msg, i, n), Scan(Linphone(), s, m, msg, i, n).session.core)
    ensures var pt := msg.lines[i].payloads[n]; PutIn(s, m, msg, i, n, pt, after[pt])
  {
    hide Scan, FitFor, FitForLine, OursFor;
    FitsItsLine(after[msg.lines[i].payloads[n]], msg.lines[i].bws, Scan(Linphone(), s, m, msg, i, n).session.core);
  }

  lemma {:induction false} ScanCovers(s: Session, m: Medium, msg: Message, i: nat, n: nat)
    requires s.core.inCall && i < |msg.lines| && n <= |msg.lines[i].payloads|
    ensures var r := Scan(Linphone(), s, m, msg, i, n);
            && ScanPuts(s, m, msg, i, n, r.session.profile)
            && ScanCovered(s, m, msg, i, r.oks, r.session.profile)
  {
    hide Accept, SameCodecs, InsertsAt, HoldsCodec, ScanPuts, ScanCovered;
    if n == 0 {
      NothingPut(s, m, msg, i);
    } else {
      var prev, next := Scan(Linphone(), s, m, msg, i, n - 1), Scan(Linphone(), s, m, msg, i, n);
      var p := PayloadAt(msg, i, n - 1);
      ScanCovers(s, m, msg, i, n - 1);
      ScanKeepsSettings(s, m, msg, i, n - 1);
      AcceptInserts(prev.session, m, p);
      ScanPutsStep(s, m, msg, i, n - 1, prev.session.profile, next.session.profile);
      ScanCoveredStep(s, m, msg, i, prev.oks, Accept(prev.session, m, p).ok, prev.session.profile,
        next.session.profile);
    }
  }

  lemma NothingPut(s: Session, m: Medium, msg: Message, i: nat)
    requires i < |msg.lines|
    ensures ScanPuts(s, m, msg, i, 0, s.profile) && ScanCovered(s, m, msg, i, [], s.profile)
  {
    hide PutWithin;
  }

  /** The same over a whole pass: the callback of line k and payload j put the codec there. */
  predicate PutAt(s: Session, msg: Message, k: nat, j: nat, pt: int, c: Codec) {
    && k < |msg.lines| && MediumOf(msg.lines[k].mtype).Some? && j < |msg.lines[k].payloads|
    && PutIn(AnswerTo(Linphone(), s, msg, k).session, MediumOf(msg.lines[k].mtype).value, msg, k, j, pt, c)
  }

  ghost predicate PutDuring(s: Session, msg: Message, pt: int, c: Codec) {
    exists k: nat, j: nat :: PutAt(s, msg, k, j, pt, c)
  }

  /** Every entry of the later profile was there before the negotiation, or was put there by one of its callbacks. */
  ghost predicate AnswerPuts(s: Session, msg: Message, after: Profile) {
    forall pt | pt in after :: (pt in s.profile && after[pt] == s.profile[pt]) || PutDuring(s, msg, pt, after[pt])
  }

  /** The callback accepted a number that must have an entry. */
  predicate EntryDue(s: Session, msg: Message, i: nat, j: nat) {
    && i < |msg.lines| && MediumOf(msg.lines[i].mtype).Some? && j < |msg.lines[i].payloads|
    && AcceptedAt(Linphone(), s, msg, i, j) && 0 <= msg.lines[i].payloads[j] < SLOTS
    && !(MediumOf(msg.lines[i].mtype).value.VideoLine? && msg.lines[i].port == 0)
  }

  /** Every number due among the first n lines has an entry that a callback put there. */
  ghost predicate AnswerCovers(s: Session, msg: Message, n: nat, after: Profile) {
    forall i: nat, j: nat | i < n && EntryDue(s, msg, i, j) ::
      var pt := msg.lines[i].payloads[j]; pt in after && PutDuring(s, msg, pt, after[pt])
  }

  /** What line i left in the profile is what one of its callbacks put there. */
  lemma PutDuringLine(s: Session, msg: Message, i: nat, pt: int, c: Codec)
    requires i < |msg.lines| && MediumOf(msg.lines[i].mtype).Some?
    requires PutWithin(AnswerTo(Linphone(), s, msg, i).session, MediumOf(msg.lines[i].mtype).value, msg, i,
                       |msg.lines[i].payloads|, pt, c)
    ensures PutDuring(s, msg, pt, c)
  {
    hide AnswerTo, PutIn;
    var before := AnswerTo(Linphone(), s, msg, i).session;
    var m := MediumOf(msg.lines[i].mtype).value;
    var j :| 0 <= j < |msg.lines[i].payloads| && PutIn(before, m, msg, i, j, pt, c);
    assert PutAt(s, msg, i, j, pt, c);
  }

  lemma {:induction false} PutsStep(s: Session, msg: Message, i: nat, mid: Profile, after: Profile)
    requires i < |msg.lines| && MediumOf(msg.lines[i].mtype).Some?
    requires AnswerPuts(s, msg, mid) && AnswerCovers(s, msg, i, mid)
    requires AnswerTo(Linphone(), s, msg, i).session.profile == mid
    requires ScanPuts(AnswerTo(Linphone(), s, msg, i).session, MediumOf(msg.lines[i].mtype).value, msg, i,
                      |msg.lines[i].payloads|, after)
    ensures AnswerPuts(s, msg, after) && AnswerCovers(s, msg, i, after)
  {
    hide AnswerTo, PutWithin, PutDuring, EntryDue;
    forall pt | pt in after && !(pt in mid && after[pt] == mid[pt]) ensures PutDuring(s, msg, pt, after[pt]) {
      PutDuringLine(s, msg, i, pt, after[pt]);
    }
    forall k: nat, j: nat | k < i && EntryDue(s, msg, k, j)
      ensures k < |msg.lines| && j < |msg.lines[k].payloads|
      ensures var pt := msg.lines[k].payloads[j]; pt in after && PutDuring(s, msg, pt, after[pt])
    {
      EntryDueIndices(s, msg, k, j);
    }
  }

  lemma EntryDueIndices(s: Session, msg: Message, i: nat, j: nat)
    requires EntryDue(s, msg, i, j)
    ensures i < |msg.lines| && j < |msg.lines[i].payloads| && MediumOf(msg.lines[i].mtype).Some?
  {
  }

  lemma {:induction false} CoversLine(s: Session, msg: Message, i: nat, after: Profile)
    requires i < |msg.lines| && MediumOf(msg.lines[i].mtype).Some?
    requires AnswerCovers(s, msg, i, after)
    requires ScanCovered(AnswerTo(Linphone(), s, msg, i).session, MediumOf(msg.lines[i].mtype).value, msg, i,
                         ScanOf(Linphone(), s, msg, i).oks, after)
    ensures AnswerCovers(s, msg, i + 1, after)
  {
    hide AnswerTo, Accept, PutWithin, PutDuring;
    var before := AnswerTo(Linphone(), s, msg, i).session;
    var m := MediumOf(msg.lines[i].mtype).value;
    var n := |msg.lines[i].payloads|;
    forall j: nat | EntryDue(s, msg, i, j)
      ensures var pt := msg.lines[i].payloads[j]; pt in after && PutDuring(s, msg, pt, after[pt])
    {
      ScanVerdicts(Linphone(), before, m, msg, i, n, j);
      assert NeedsEntry(msg.lines[i], m, ScanOf(Linphone(), s, msg, i).oks, j);
      PutDuringLine(s, msg, i, msg.lines[i].payloads[j], after[msg.lines[i].payloads[j]]);
    }
  }

  lemma {:induction false} AnswerProfile(s: Session, msg: Message, n: nat)
    requires s.core.inCall && n <= |msg.lines|
    ensures var r := AnswerTo(Linphone(), s, msg, n);
            && SameSettings(s.core, r.session.core)
            && AnswerPuts(s, msg, r.session.profile) && AnswerCovers(s, msg, n, r.session.profile)
  {
    hide SameCodecs, EntryDue, PutDuring, ScanLine, ScanPuts, ScanCovered;
    if n == 0 {
      SameSettingsReflexive(s.core);
    } else {
      hide AnswerPuts, AnswerCovers, SameSettings;
      var i := n - 1;
      AnswerProfile(s, msg, i);
      if MediumOf(msg.lines[i].mtype).Some? {
        ProfileLine(s, msg, i);
      } else {
        SkippedLineCovers(s, msg, i, AnswerTo(Linphone(), s, msg, i).session.profile);
      }
    }
  }

  lemma NothingDue(s: Session, msg: Message, i: nat, j: nat)
    requires i < |msg.lines| && MediumOf(msg.lines[i].mtype).None?
    ensures !EntryDue(s, msg, i, j)
  {
    hide AnswerTo, Scan;
  }

  /** A line of another medium leaves nothing to cover. */
  lemma SkippedLineCovers(s: Session, msg: Message, i: nat, prof: Profile)
    requires i < |msg.lines| && MediumOf(msg.lines[i].mtype).None? && AnswerCovers(s, msg, i, prof)
    ensures AnswerCovers(s, msg, i + 1, prof)
  {
    hide EntryDue, PutDuring, AnswerTo, MediumOf;
    forall k: nat, j: nat | k < i + 1 && EntryDue(s, msg, k, j)
      ensures k < |msg.lines| && j < |msg.lines[k].payloads|
      ensures var pt := msg.lines[k].payloads[j]; pt in prof && PutDuring(s, msg, pt, prof[pt])
    {
      EntryDueIndices(s, msg, k, j);
      if k == i { NothingDue(s, msg, i, j); }
    }
  }

  lemma {:induction false} ProfileLine(s: Session, msg: Message, i: nat)
    requires s.core.inCall && i < |msg.lines| && MediumOf(msg.lines[i].mtype).Some?
    requires var r := AnswerTo(Linphone(), s, msg, i);
             && SameSettings(s.core, r.session.core)
             && AnswerPuts(s, msg, r.session.profile) && AnswerCovers(s, msg, i, r.session.profile)
    ensures var after := ScanOf(Linphone(), s, msg, i).session;
            && SameSettings(s.core, after.core)
            && AnswerPuts(s, msg, after.profile) && AnswerCovers(s, msg, i + 1, after.profile)
  {
    hide SameCodecs, AnswerTo, EntryDue, PutDuring, AnswerPuts, AnswerCovers, ScanPuts, ScanCovered;
    var before := AnswerTo(Linphone(), s, msg, i).session;
    var m := MediumOf(msg.lines[i].mtype).value;
    var n := |msg.lines[i].payloads|;
    var sc := ScanOf(Linphone(), s, msg, i);
    assert sc == Scan(Linphone(), before, m, msg, i, n);
    ScanKeepsSettings(before, m, msg, i, n);
    SameSettingsTransitive(s.core, before.core, sc.session.core);
    ScanCovers(before, m, msg, i, n);
    PutsStep(s, msg, i, before.profile, sc.session.profile);
    CoversLine(s, msg, i, sc.session.profile);
  }

  /**
   * Whatever the call profile holds before, as on a re-INVITE, and whatever the other lines are: every accepted payload
   * number of the table has an entry afterwards (video lines offered with port 0 aside), put there by a callback of
   * this negotiation for that number, within the peer's limit for that line and the upload share in force at that
   * callback. Every other entry is as it was.
   */
  lemma {:induction false} ProfileCoversAnswer(s: Session, msg: Message)
    requires s.core.inCall
    ensures var prof := AnswerTo(Linphone(), s, msg, |msg.lines|).session.profile;
            && (forall i: nat, j: nat | EntryDue(s, msg, i, j) ::
                  var pt := msg.lines[i].payloads[j]; pt in prof && PutDuring(s, msg, pt, prof[pt]))
            && (forall pt | pt in prof ::
                  (pt in s.profile && prof[pt] == s.profile[pt]) || PutDuring(s, msg, pt, prof[pt]))
  {
    hide AnswerTo, PutDuring, EntryDue, SameSettings;
    AnswerProfile(s, msg, |msg.lines|);
    var prof := AnswerTo(Linphone(), s, msg, |msg.lines|).session.profile;
    forall i: nat, j: nat | EntryDue(s, msg, i, j)
      ensures i < |msg.lines| && j < |msg.lines[i].payloads|
      ensures var pt := msg.lines[i].payloads[j]; pt in prof && PutDuring(s, msg, pt, prof[pt])
    {
      EntryDueIndices(s, msg, i, j);
    }
  }

  // ---- the upload setting is respected ----

  /** A core in a call whose shares are those of its settings, with codecs of sensible bitrates. */
  predicate Sound(core: Core) {
    && core.inCall && Allocated(core) && core.audioBw > 0
    && forall i | i in core.local :: core.local[i].bitrate >= 0
  }

  lemma {:induction false} UsabilitySound(core: Core, slot: int)
    requires Sound(core) && slot in core.local
    ensures Sound(CheckUsability(core, slot).core)
  {
    hide AudioFits, Allocated;
    var c := CheckUsability(core, slot).core;
    SameShares(core, c);
  }

  lemma SameShares(a: Core, b: Core)
    requires a.down == b.down && a.up == b.up && a.download == b.download && a.upload == b.upload &&
             a.audioBw == b.audioBw
    ensures Allocated(a) == Allocated(b)
  {
  }

  lemma {:induction false} AcceptSound(s: Session, m: Medium, p: Payload)
    requires Sound(s.core)
    ensures Sound(Accept(s, m, p).session.core)
  {
    hide CheckUsability, LocalSlot, AllocateAudio, CallCodec, SetSlot, Sound;
    var slot := LocalSlot(s.core, p);
    if slot in s.core.local { UsabilitySound(s.core, slot); }
    var r := CheckSupport(s, p, true);
    if r.level.SupportedAndValid? {
      UsabilityKeeps(s.core, slot);
      AllocationSound(r.session.core, slot);
    }
  }

  lemma AllocationSound(core: Core, slot: int)
    requires Sound(core) && slot in core.local
    ensures Sound(AllocateAudio(core, core.local[slot].bitrate))
  {
    hide AudioBandwidth, Split;
    AllocationShares(core, core.local[slot].bitrate);
  }

  lemma {:induction false} ScanSound(s: Session, m: Medium, msg: Message, i: nat, n: nat)
    requires i < |msg.lines| && n <= |msg.lines[i].payloads| && Sound(s.core)
    ensures Sound(Scan(Linphone(), s, m, msg, i, n).session.core)
  {
    hide Accept, Sound;
    if n == 0 {
    } else {
      ScanSound(s, m, msg, i, n - 1);
      AcceptSound(Scan(Linphone(), s, m, msg, i, n - 1).session, m, PayloadAt(msg, i, n - 1));
    }
  }

  lemma {:induction false} AnswerSound(s: Session, msg: Message, n: nat)
    requires n <= |msg.lines| && Sound(s.core)
    ensures Sound(AnswerTo(Linphone(), s, msg, n).session.core)
  {
    hide ScanLine, AnswerLine, Sound;
    if n == 0 {
    } else {
      AnswerSound(s, msg, n - 1);
      var medium := MediumOf(msg.lines[n - 1].mtype);
      if medium.Some? {
        PhoneAsks(AnswerTo(Linphone(), s, msg, n - 1).session, medium.value, msg, n - 1);
        ScanSound(AnswerTo(Linphone(), s, msg, n - 1).session, medium.value, msg, n - 1, |msg.lines[n - 1].payloads|);
      }
    }
  }

  /** The upload setting bounds it; a telephone-event slot of a video kind never sees the usability test. */
  predicate WithinUpload(c: Codec, upload: int) {
    c.bitrate <= 1000 * upload || (c.kind.Video? && c.mime == TELEPHONE_EVENT)
  }

  lemma FitsTheSetting(c: Codec, bws: seq<Bw>, core: Core)
    requires Sound(core) && core.upload > 0 && FitForLine(c, bws, core)
    ensures WithinUpload(c, core.upload)
  {
    hide AsLimit, SameIgnoringCase, FitFor, Sound;
    AsLimitIsLastAs(bws);
    if k :| 0 <= k < |bws| && IsLastAs(bws, k) {
      FitWithinSetting(c, bws[k].value, core);
    } else {
      FitWithinSetting(c, 0, core);
    }
  }

  lemma FitWithinSetting(c: Codec, remoteLimit: int, core: Core)
    requires Sound(core) && core.upload > 0 && FitFor(c, remoteLimit, core)
    ensures WithinUpload(c, core.upload)
  {
    assert ShareOf(core.up, core.upload, core.audioBw);
  }

  /**
   * Once the bandwidth is shared out, no bitrate put in the call profile by an answer exceeds the upload setting,
   * however the allocation shifts between audio and video during the negotiation.
   */
  lemma {:induction false} UploadSettingRespected(s: Session, msg: Message)
    requires Sound(s.core) && s.core.upload > 0
    ensures var prof := AnswerTo(Linphone(), s, msg, |msg.lines|).session.profile;
            forall pt | pt in prof :: (pt in s.profile && prof[pt] == s.profile[pt]) ||
              WithinUpload(prof[pt], s.core.upload)
  {
    hide AnswerTo, PutDuring, EntryDue, SameSettings, WithinUpload, Sound;
    InCallWhenSound(s.core);
    ProfileCoversAnswer(s, msg);
    var prof := AnswerTo(Linphone(), s, msg, |msg.lines|).session.profile;
    forall pt | pt in prof && PutDuring(s, msg, pt, prof[pt]) ensures WithinUpload(prof[pt], s.core.upload) {
      PutWithinUpload(s, msg, pt, prof[pt]);
    }
  }

  lemma InCallWhenSound(core: Core)
    requires Sound(core)
    ensures core.inCall
  {
  }

  lemma {:induction false} PutWithinUpload(s: Session, msg: Message, pt: int, c: Codec)
    requires Sound(s.core) && s.core.upload > 0 && PutDuring(s, msg, pt, c)
    ensures WithinUpload(c, s.core.upload)
  {
    hide AnswerTo, Scan, FitForLine, OursFor, SameSettings, WithinUpload, Sound;
    var k: nat, j: nat :| PutAt(s, msg, k, j, pt, c);
    var before := AnswerTo(Linphone(), s, msg, k).session;
    var m := MediumOf(msg.lines[k].mtype).value;
    AnswerSound(s, msg, k);
    ScanSound(before, m, msg, k, j);
    InCallWhenSound(s.core);
    AnswerProfile(s, msg, k);
    ScanKeepsSettings(before, m, msg, k, j);
    var core := Scan(Linphone(), before, m, msg, k, j).session.core;
    SameUpload(s.core, before.core);
    SameUpload(before.core, core);
    FitsTheSetting(c, msg.lines[k].bws, core);
  }

  lemma SameUpload(a: Core, b: Core)
    requires SameSettings(a, b)
    ensures a.upload == b.upload
  {
  }
}
