/**
 * The outcome of an answer foretold from the settings and the offer alone: which payloads are known, which line settles
 * each stream, and which lines end up with a port.
 */
module Outlooks {
  import opened Answers
  import opened Bandwidth
  import opened Codecs
  import opened Negotiation
  import opened Rtp
  import opened Sdp
  import opened Text

  // ---- searches see codecs, not bitrates ----

  lemma FormatSame(a: Profile, b: Profile, r: Rtpmap, i: int)
    requires SameCodecs(a, b) && i in a
    ensures HasFormat(a[i], r) <==> HasFormat(b[i], r)
  {
    assert HasFormat(a[i], r) <==> HasFormat(a[i].(bitrate := 0), r);
    assert HasFormat(b[i], r) <==> HasFormat(b[i].(bitrate := 0), r);
  }

  lemma {:induction false} FindFormatSame(a: Profile, b: Profile, r: Rtpmap, i: nat)
    requires SameCodecs(a, b)
    ensures FindFormat(a, r, i) == FindFormat(b, r, i)
    decreases SLOTS - i
  {
    if i >= SLOTS {
    } else {
      FindFormatSame(a, b, r, i + 1);
      if i in a { FormatSame(a, b, r, i); }
    }
  }

  lemma SameCodecAt(a: Profile, b: Profile, i: int)
    requires SameCodecs(a, b) && i in a
    ensures i in b && a[i].mime == b[i].mime && a[i].rate == b[i].rate && a[i].enabled == b[i].enabled
    ensures a[i].recvFmtp == b[i].recvFmtp
    ensures AudioRtpmap(a[i]) == AudioRtpmap(b[i]) && VideoRtpmap(a[i]) == VideoRtpmap(b[i])
  {
    assert a[i].(bitrate := 0).mime == b[i].(bitrate := 0).mime && a[i].(bitrate := 0).rate == b[i].(bitrate := 0).rate;
    assert a[i].(bitrate := 0).enabled == b[i].(bitrate := 0).enabled;
    assert a[i].(bitrate := 0).recvFmtp == b[i].(bitrate := 0).recvFmtp;
  }

  lemma CandidateSame(a: Profile, b: Profile, q: Query, i: int)
    requires SameCodecs(a, b)
    ensures (CandidateAt(a, q, i) <==> CandidateAt(b, q, i)) && (ExactAt(a, q, i) <==> ExactAt(b, q, i))
  {
    if i in a {
      assert Candidate(a[i], q) <==> Candidate(a[i].(bitrate := 0), q);
      assert Candidate(b[i], q) <==> Candidate(b[i].(bitrate := 0), q);
      assert Exact(a[i], q) <==> Exact(a[i].(bitrate := 0), q);
      assert Exact(b[i], q) <==> Exact(b[i].(bitrate := 0), q);
    }
  }

  lemma BestSlotSame(a: Profile, b: Profile, q: Query)
    requires SameCodecs(a, b)
    ensures BestSlot(a, q) == BestSlot(b, q)
  {
    hide SameCodecs, CandidateAt, ExactAt, FirstExact, LastCandidate, BestSlot;
    forall i ensures (CandidateAt(a, q, i) <==> CandidateAt(b, q, i)) && (ExactAt(a, q, i) <==> ExactAt(b, q, i)) {
      CandidateSame(a, b, q, i);
    }
    assert IsBestSlot(b, q, BestSlot(a, q));
    BestSlotIsUnique(b, q, BestSlot(a, q), BestSlot(b, q));
  }

  lemma BestMatchSame(a: Profile, b: Profile, text: string, fmtp: Option<string>)
    requires SameCodecs(a, b)
    ensures BestMatch(a, text, fmtp) == BestMatch(b, text, fmtp)
  {
    hide SameCodecs, BestSlot, FindFormat, SameIgnoringCase, FmtpValue;
    FindFormatSame(a, b, ParseRtpmap(text), 0);
    var k := NumberFromRtpmap(a, text);
    if k >= 0 {
      SameCodecAt(a, b, k);
      BestSlotSame(a, b, PacketizationQuery(a[k], fmtp));
    }
  }

  // ---- cores that decide alike ----

  /** Equal but for the bitrates of video codecs, which every usability test sets anew. */
  predicate Alike(a: Core, b: Core) {
    && a.(local := map[]) == b.(local := map[])
    && a.local.Keys == b.local.Keys
    && forall i | i in a.local :: AlikeCodecs(a.local[i], b.local[i])
  }

  predicate AlikeCodecs(c: Codec, d: Codec) {
    c.(bitrate := 0) == d.(bitrate := 0) && (!c.kind.Video? ==> c.bitrate == d.bitrate)
  }

  lemma AlikeReflexive(a: Core)
    ensures Alike(a, a)
  {
  }

  lemma AlikeTransitive(a: Core, b: Core, c: Core)
    requires Alike(a, b) && Alike(b, c)
    ensures Alike(a, c)
  {
    assert a.(local := map[]) == b.(local := map[]) == c.(local := map[]);
    forall i | i in a.local ensures AlikeCodecs(a.local[i], c.local[i]) {
      assert AlikeCodecs(a.local[i], b.local[i]) && AlikeCodecs(b.local[i], c.local[i]);
    }
  }

  lemma AlikeFields(a: Core, b: Core)
    requires Alike(a, b)
    ensures a.inCall == b.inCall && a.videoEnabled == b.videoEnabled && a.onlyOneCodec == b.onlyOneCodec
    ensures a.download == b.download && a.upload == b.upload && a.down == b.down && a.up == b.up
    ensures a.audioPort == b.audioPort && a.videoPort == b.videoPort
    ensures SameCodecs(a.local, b.local)
  {
    assert a.(local := map[]).inCall == b.(local := map[]).inCall;
    assert a.(local := map[]).videoEnabled == b.(local := map[]).videoEnabled;
    assert a.(local := map[]).onlyOneCodec == b.(local := map[]).onlyOneCodec;
    assert a.(local := map[]).download == b.(local := map[]).download;
    assert a.(local := map[]).upload == b.(local := map[]).upload;
    assert a.(local := map[]).down == b.(local := map[]).down && a.(local := map[]).up == b.(local := map[]).up;
    assert a.(local := map[]).audioPort == b.(local := map[]).audioPort;
    assert a.(local := map[]).videoPort == b.(local := map[]).videoPort;
  }

  lemma AllocateAlike(a: Core, b: Core, bitrate: int)
    requires Alike(a, b)
    ensures Alike(AllocateAudio(a, bitrate), AllocateAudio(b, bitrate))
  {
    hide AlikeCodecs;
    var x, y := AllocateAudio(a, bitrate), AllocateAudio(b, bitrate);
    AlikeFields(a, b);
    assert x.(local := map[]) == AllocateAudio(a.(local := map[]), bitrate);
    assert y.(local := map[]) == AllocateAudio(b.(local := map[]), bitrate);
  }

  // ---- one payload ----

  /** The usability test during a call. */
  predicate Usable(core: Core, slot: int)
    requires slot in core.local
  {
    match core.local[slot].kind
    case AudioContinuous | AudioPacketized => AudioFits(core.download, core.upload, core.local[slot].bitrate)
    case Video => MinBandwidth(core.down.video, core.up.video) != 0
    case Other => false
  }

  /** The bitrate that test leaves behind. */
  function TestedBitrate(core: Core, slot: int): int
    requires slot in core.local
  {
    if core.local[slot].kind.Video? then
      var share := MinBandwidth(core.down.video, core.up.video);
      if share > 0 then share * 1000 else 1500000
    else core.local[slot].bitrate
  }

  /** What a payload leads to: nothing, telephone events, or a usable codec the user has enabled. */
  function Forecast(core: Core, p: Payload): Support {
    var slot := LocalSlot(core, p);
    if !(0 <= slot < SLOTS) || slot !in core.local then Unsupported
    else if core.local[slot].mime == TELEPHONE_EVENT then Supported
    else if Usable(core, slot) && core.local[slot].enabled then SupportedAndValid
    else Unsupported
  }

  lemma UsabilityForecast(core: Core, slot: int)
    requires core.inCall && slot in core.local
    ensures var u := CheckUsability(core, slot);
            && u.usable == Usable(core, slot) && Alike(core, u.core)
            && slot in u.core.local && u.core.local[slot].enabled == core.local[slot].enabled
            && (u.usable ==> u.core.local[slot].bitrate == TestedBitrate(core, slot))
  {
    var u := CheckUsability(core, slot);
    assert u.core == core.(local := u.core.local);
  }

  lemma {:induction false} SupportForecast(s: Session, p: Payload)
    requires s.core.inCall
    ensures var r := CheckSupport(s, p, true);
            && r.level == Forecast(s.core, p) && Alike(s.core, r.session.core)
            && (r.level.SupportedAndValid? ==>
                  && r.slot == LocalSlot(s.core, p) && r.slot in s.core.local && r.slot in r.session.core.local
                  && r.session.core.local[r.slot].bitrate == TestedBitrate(s.core, r.slot))
  {
    hide LocalSlot, CheckUsability, Usable, TestedBitrate, Alike, CallCodec, SetSlot;
    var slot := LocalSlot(s.core, p);
    AlikeReflexive(s.core);
    if slot in s.core.local { UsabilityForecast(s.core, slot); }
  }

  lemma LocalSlotAlike(a: Core, b: Core, p: Payload)
    requires SameCodecs(a.local, b.local)
    ensures LocalSlot(a, p) == LocalSlot(b, p)
  {
    hide SameCodecs, BestMatch;
    if p.rtpmap.Some? { BestMatchSame(a.local, b.local, p.rtpmap.value, p.fmtp); }
  }

  lemma CodecAlike(a: Core, b: Core, slot: int)
    requires Alike(a, b) && slot in a.local
    ensures slot in b.local && a.local[slot].mime == b.local[slot].mime &&
            a.local[slot].enabled == b.local[slot].enabled
    ensures a.local[slot].kind == b.local[slot].kind
    ensures !a.local[slot].kind.Video? ==> a.local[slot].bitrate == b.local[slot].bitrate
  {
    assert AlikeCodecs(a.local[slot], b.local[slot]);
    assert a.local[slot].(bitrate := 0).mime == b.local[slot].(bitrate := 0).mime;
    assert a.local[slot].(bitrate := 0).enabled == b.local[slot].(bitrate := 0).enabled;
    assert a.local[slot].(bitrate := 0).kind == b.local[slot].(bitrate := 0).kind;
  }

  lemma ForecastAlike(a: Core, b: Core, p: Payload)
    requires Alike(a, b)
    ensures Forecast(a, p) == Forecast(b, p) && LocalSlot(a, p) == LocalSlot(b, p)
    ensures var slot := LocalSlot(a, p);
            slot in a.local ==> slot in b.local && TestedBitrate(a, slot) == TestedBitrate(b, slot)
  {
    hide LocalSlot, Alike, SameCodecs, AudioFits;
    AlikeFields(a, b);
    LocalSlotAlike(a, b, p);
    var slot := LocalSlot(a, p);
    if slot in a.local { CodecAlike(a, b, slot); }
    if slot in b.local { CodecAlikeBack(a, b, slot); }
  }

  lemma CodecAlikeBack(a: Core, b: Core, slot: int)
    requires Alike(a, b) && slot in b.local
    ensures slot in a.local
  {
  }

  /** The core once a stream is settled on this payload: audio takes its share of the bandwidth. */
  function AfterSettling(core: Core, m: Medium, p: Payload): Core {
    var slot := LocalSlot(core, p);
    if m.AudioLine? && slot in core.local then AllocateAudio(core, TestedBitrate(core, slot)) else core
  }

  /** Our download share for a medium. */
  function DownShare(core: Core, m: Medium): int {
    if m.AudioLine? then core.down.audio else core.down.video
  }

  /** The callback looks at the payload at all. */
  predicate Asked(core: Core, m: Medium, port: int) {
    m.VideoLine? ==> core.videoEnabled && port != 0
  }

  /** What a callback does while its stream is settled. */
  lemma {:induction false} SettledForecast(s: Session, m: Medium, p: Payload, core: Core)
    requires s.core.inCall && Alike(core, s.core) && StreamOf(s, m).initialized && Asked(core, m, p.remoteport)
    ensures var r := Accept(s, m, p);
            && Alike(core, r.session.core) && StreamOf(r.session, m) == StreamOf(s, m)
            && r.payload.localport == p.localport
  {
    hide CheckSupport, Alike, SameSettings;
    SupportForecast(s, p);
    SupportKeeps(s, p, true);
    AlikeFields(core, s.core);
    AlikeTransitive(core, s.core, CheckSupport(s, p, true).session.core);
  }

  /** What a callback does while its stream is not settled. */
  lemma {:induction false} OpenForecast(s: Session, m: Medium, p: Payload, core: Core)
    requires s.core.inCall && Alike(core, s.core) && !StreamOf(s, m).initialized && Asked(core, m, p.remoteport)
    ensures var r := Accept(s, m, p);
            var level := Forecast(core, p);
            && r.ok == !level.Unsupported? && r.payload.pt == p.pt
            && StreamOf(r.session, m).initialized == level.SupportedAndValid?
            && (!level.SupportedAndValid? ==> StreamOf(r.session, m) == StreamOf(s, m))
            && r.payload.localport ==
                 (if level.SupportedAndValid? then AnnouncedPort(core, m, StreamOf(s, m)) else p.localport)
            && (level.SupportedAndValid? && DownShare(AfterSettling(core, m, p), m) > 0 ==>
                  r.payload.bandwidth == DownShare(AfterSettling(core, m, p), m))
            && Alike(if level.SupportedAndValid? then AfterSettling(core, m, p) else core, r.session.core)
  {
    hide CheckSupport, Alike, SameSettings, Forecast, TestedBitrate, LocalSlot, AllocateAudio;
    var u := CheckSupport(s, p, true);
    SupportForecast(s, p);
    SupportKeeps(s, p, true);
    AlikeFields(core, s.core);
    ForecastAlike(core, s.core, p);
    AlikeTransitive(core, s.core, u.session.core);
    if u.level.SupportedAndValid? {
      CodecAlikeBack(core, s.core, u.slot);
      AllocationPorts(u.session.core, TestedBitrate(s.core, u.slot));
      AlikeFields(core, u.session.core);
      AllocateAlike(core, u.session.core, TestedBitrate(s.core, u.slot));
      AlikeFields(AfterSettling(core, m, p), Accept(s, m, p).session.core);
    }
  }

  /** A callback that looks at nothing changes nothing. */
  lemma UnaskedForecast(s: Session, m: Medium, p: Payload)
    requires !Asked(s.core, m, p.remoteport)
    ensures Accept(s, m, p).session == s && Accept(s, m, p).payload == p
  {
  }

  // ---- one line ----

  /** What the j-th payload of line i leads to. */
  function LevelAt(core: Core, msg: Message, i: nat, j: nat): Support
    requires i < |msg.lines| && j < |msg.lines[i].payloads|
  {
    Forecast(core, PayloadAt(msg, i, j))
  }

  /** The first of the first n payloads that leads to a codec, or n. */
  function FirstCodec(core: Core, msg: Message, i: nat, n: nat): (j: nat)
    requires i < |msg.lines| && n <= |msg.lines[i].payloads|
    ensures j <= n && (j < n ==> LevelAt(core, msg, i, j).SupportedAndValid?)
    ensures forall k | 0 <= k < j :: !LevelAt(core, msg, i, k).SupportedAndValid?
  {
    if n == 0 then 0
    else
      var j := FirstCodec(core, msg, i, n - 1);
      if j < n - 1 || LevelAt(core, msg, i, n - 1).SupportedAndValid? then j else n
  }

  /** The first of the first n payloads that leads to a codec or to telephone events, or n. */
  function FirstKnown(core: Core, msg: Message, i: nat, n: nat): (j: nat)
    requires i < |msg.lines| && n <= |msg.lines[i].payloads|
    ensures j <= n && (j < n ==> !LevelAt(core, msg, i, j).Unsupported?)
    ensures forall k | 0 <= k < j :: LevelAt(core, msg, i, k).Unsupported?
  {
    if n == 0 then 0
    else
      var j := FirstKnown(core, msg, i, n - 1);
      if j < n - 1 || !LevelAt(core, msg, i, n - 1).Unsupported? then j else n
  }

  lemma {:induction false} SettledScan(s: Session, m: Medium, msg: Message, i: nat, n: nat, core: Core)
    requires i < |msg.lines| && n <= |msg.lines[i].payloads|
    requires s.core.inCall && Alike(core, s.core) && StreamOf(s, m).initialized && Asked(core, m, msg.lines[i].port)
    ensures var r := Scan(Linphone(), s, m, msg, i, n);
            Alike(core, r.session.core) && StreamOf(r.session, m) == StreamOf(s, m) && Silent(r.kept)
  {
    hide Accept, Alike;
    if n == 0 {
    } else {
      var prev := Scan(Linphone(), s, m, msg, i, n - 1);
      SettledScan(s, m, msg, i, n - 1, core);
      AlikeFields(core, s.core);
      AlikeFields(core, prev.session.core);
      SettledForecast(prev.session, m, PayloadAt(msg, i, n - 1), core);
      PayloadAtIsSilent(msg, i, n - 1);
    }
  }

  lemma {:induction false} UnaskedScan(s: Session, m: Medium, msg: Message, i: nat, n: nat)
    requires i < |msg.lines| && n <= |msg.lines[i].payloads| && !Asked(s.core, m, msg.lines[i].port)
    ensures var r := Scan(Linphone(), s, m, msg, i, n); r.session == s && Silent(r.kept)
  {
    hide Accept;
    if n == 0 {
    } else {
      UnaskedScan(s, m, msg, i, n - 1);
      UnaskedForecast(s, m, PayloadAt(msg, i, n - 1));
      PayloadAtIsSilent(msg, i, n - 1);
    }
  }

  /** How a scan leaves the session, when the stream was open before it. */
  predicate ScanForetold(core: Core, m: Medium, msg: Message, i: nat, n: nat, before: Stream, r: Scanned<Session>)
    requires i < |msg.lines| && n <= |msg.lines[i].payloads|
  {
    var j, k := FirstCodec(core, msg, i, n), FirstKnown(core, msg, i, n);
    && StreamOf(r.session, m).initialized == (j < n)
    && (j == n ==> StreamOf(r.session, m) == before)
    && Alike(if j < n then AfterSettling(core, m, PayloadAt(msg, i, j)) else core, r.session.core)
    && (r.kept == [] <==> k == n)
    && (k < n ==>
          && r.kept[0].pt == msg.lines[i].payloads[k]
          && r.kept[0].localport ==
               (if LevelAt(core, msg, i, k).SupportedAndValid? then AnnouncedPort(core, m, before) else 0)
          && (LevelAt(core, msg, i, k).SupportedAndValid? ==>
                var share := DownShare(AfterSettling(core, m, PayloadAt(msg, i, k)), m);
                share > 0 ==> r.kept[0].bandwidth == share))
  }

  /** One more callback, before the stream is settled. */
  lemma {:induction false} OpenScanStep(s: Session, m: Medium, msg: Message, i: nat, n: nat, core: Core)
    requires i < |msg.lines| && n < |msg.lines[i].payloads|
    requires s.core.inCall && Alike(core, s.core) && !StreamOf(s, m).initialized && Asked(core, m, msg.lines[i].port)
    requires ScanForetold(core, m, msg, i, n, StreamOf(s, m), Scan(Linphone(), s, m, msg, i, n))
    requires FirstCodec(core, msg, i, n) == n
    ensures ScanForetold(core, m, msg, i, n + 1, StreamOf(s, m), Scan(Linphone(), s, m, msg, i, n + 1))
  {
    hide Accept, Alike, Forecast, AfterSettling, PayloadAt, AnnouncedPort;
    var prev := Scan(Linphone(), s, m, msg, i, n);
    var p := PayloadAt(msg, i, n);
    AlikeFields(core, s.core);
    AlikeFields(core, prev.session.core);
    PayloadAtFields(msg, i, n);
    OpenForecast(prev.session, m, p, core);
  }

  lemma PayloadAtFields(msg: Message, i: nat, j: nat)
    requires i < |msg.lines| && j < |msg.lines[i].payloads|
    ensures var p := PayloadAt(msg, i, j);
            p.pt == msg.lines[i].payloads[j] && p.line == i && p.localport == 0 && p.remoteport == msg.lines[i].port
  {
  }

  /** One more callback, after the stream is settled. */
  lemma {:induction false} DoneScanStep(s: Session, m: Medium, msg: Message, i: nat, n: nat, core: Core)
    requires i < |msg.lines| && n < |msg.lines[i].payloads|
    requires s.core.inCall && Alike(core, s.core) && Asked(core, m, msg.lines[i].port)
    requires ScanForetold(core, m, msg, i, n, StreamOf(s, m), Scan(Linphone(), s, m, msg, i, n))
    requires FirstCodec(core, msg, i, n) < n
    ensures ScanForetold(core, m, msg, i, n + 1, StreamOf(s, m), Scan(Linphone(), s, m, msg, i, n + 1))
  {
    hide Accept, Alike, Forecast, AfterSettling, PayloadAt, AnnouncedPort;
    var prev := Scan(Linphone(), s, m, msg, i, n);
    var p := PayloadAt(msg, i, n);
    var now := AfterSettling(core, m, PayloadAt(msg, i, FirstCodec(core, msg, i, n)));
    AlikeFields(core, s.core);
    AlikeFields(now, prev.session.core);
    SettlingKeepsFields(core, m, PayloadAt(msg, i, FirstCodec(core, msg, i, n)));
    PayloadAtFields(msg, i, n);
    SettledForecast(prev.session, m, p, now);
    FirstsAgree(core, msg, i, n);
  }

  lemma SettlingKeepsFields(core: Core, m: Medium, p: Payload)
    ensures var c := AfterSettling(core, m, p); c.inCall == core.inCall && c.videoEnabled == core.videoEnabled
  {
    hide LocalSlot;
  }

  lemma FirstsAgree(core: Core, msg: Message, i: nat, n: nat)
    requires i < |msg.lines| && n <= |msg.lines[i].payloads|
    ensures FirstKnown(core, msg, i, n) <= FirstCodec(core, msg, i, n)
  {
    hide FirstCodec, FirstKnown, LevelAt;
  }

  lemma {:induction false} OpenScan(s: Session, m: Medium, msg: Message, i: nat, n: nat, core: Core)
    requires i < |msg.lines| && n <= |msg.lines[i].payloads|
    requires s.core.inCall && Alike(core, s.core) && !StreamOf(s, m).initialized && Asked(core, m, msg.lines[i].port)
    ensures ScanForetold(core, m, msg, i, n, StreamOf(s, m), Scan(Linphone(), s, m, msg, i, n))
  {
    if n == 0 {
    } else {
      hide ScanForetold, Scan, Alike, FirstCodec;
      OpenScan(s, m, msg, i, n - 1, core);
      if FirstCodec(core, msg, i, n - 1) == n - 1 {
        OpenScanStep(s, m, msg, i, n - 1, core);
      } else {
        DoneScanStep(s, m, msg, i, n - 1, core);
      }
    }
  }

  // ---- the whole answer ----

  /** The settings as they are after some lines, up to bitrates of video codecs, and the streams settled by then. */
  datatype Outlook = Outlook(core: Core, audio: bool, video: bool)

  predicate Settled(o: Outlook, m: Medium) {
    if m.AudioLine? then o.audio else o.video
  }

  /** Line i settles its stream: the callbacks look at it, and some payload leads to a codec. */
  predicate Settles(o: Outlook, m: Medium, msg: Message, i: nat)
    requires i < |msg.lines|
  {
    var n := |msg.lines[i].payloads|;
    !Settled(o, m) && Asked(o.core, m, msg.lines[i].port) && FirstCodec(o.core, msg, i, n) < n
  }

  /** What is known after n lines, from the settings, the streams settled before, and the offer. */
  function OutlookTo(s: Session, msg: Message, n: nat): Outlook
    requires n <= |msg.lines|
  {
    if n == 0 then Outlook(s.core, s.audio.initialized, s.video.initialized)
    else
      var o := OutlookTo(s, msg, n - 1);
      match MediumOf(msg.lines[n - 1].mtype)
      case None => o
      case Some(m) => OutlookAfter(o, m, msg, n - 1)
  }

  function OutlookAfter(o: Outlook, m: Medium, msg: Message, i: nat): Outlook
    requires i < |msg.lines|
  {
    if !Settles(o, m, msg, i) then o
    else
      var j := FirstCodec(o.core, msg, i, |msg.lines[i].payloads|);
      Outlook(AfterSettling(o.core, m, PayloadAt(msg, i, j)), o.audio || m.AudioLine?, o.video || m.VideoLine?)
  }

  /** The session bears the outlook out: a stream is settled exactly when foreseen, and untouched otherwise. */
  predicate BearsOut(s: Session, o: Outlook, r: Session) {
    && Alike(o.core, r.core) && r.core.inCall
    && r.audio.initialized == o.audio && (!o.audio ==> r.audio == s.audio)
    && r.video.initialized == o.video && (!o.video ==> r.video == s.video)
  }

  lemma {:induction false} LineBearsOut(s: Session, before: Session, o: Outlook, m: Medium, msg: Message, i: nat)
    requires i < |msg.lines| && BearsOut(s, o, before)
    ensures BearsOut(s, OutlookAfter(o, m, msg, i),
            Scan(Linphone(), before, m, msg, i, |msg.lines[i].payloads|).session)
  {
    hide Scan, Alike, FirstCodec, FirstKnown, AfterSettling, AnnouncedPort, PayloadAt, Silent, SameSettings, Forecast;
    var n := |msg.lines[i].payloads|;
    AlikeFields(o.core, before.core);
    var r := Scan(Linphone(), before, m, msg, i, n);
    ScanKeepsSettings(before, m, msg, i, n);
    ScanKeepsCall(before, m, msg, i, n);
    if !Asked(o.core, m, msg.lines[i].port) {
      UnaskedScan(before, m, msg, i, n);
    } else if Settled(o, m) {
      SettledScan(before, m, msg, i, n, o.core);
    } else {
      OpenScan(before, m, msg, i, n, o.core);
    }
  }

  lemma ScanKeepsCall(s: Session, m: Medium, msg: Message, i: nat, n: nat)
    requires i < |msg.lines| && n <= |msg.lines[i].payloads|
    ensures Scan(Linphone(), s, m, msg, i, n).session.core.inCall == s.core.inCall
  {
    ScanKeepsSettings(s, m, msg, i, n);
  }

  lemma OutlookStarts(s: Session)
    requires s.core.inCall
    ensures BearsOut(s, Outlook(s.core, s.audio.initialized, s.video.initialized), s)
  {
    hide Alike;
    AlikeReflexive(s.core);
  }

  /** The outlook comes true. */
  lemma {:induction false} OutlookHolds(s: Session, msg: Message, n: nat)
    requires s.core.inCall && n <= |msg.lines|
    ensures BearsOut(s, OutlookTo(s, msg, n), AnswerTo(Linphone(), s, msg, n).session)
  {
    hide BearsOut, OutlookAfter, ScanLine, AnswerLine;
    if n == 0 {
      OutlookStarts(s);
    } else {
      OutlookHolds(s, msg, n - 1);
      var medium := MediumOf(msg.lines[n - 1].mtype);
      if medium.Some? {
        PhoneAsks(AnswerTo(Linphone(), s, msg, n - 1).session, medium.value, msg, n - 1);
        LineBearsOut(s, AnswerTo(Linphone(), s, msg, n - 1).session, OutlookTo(s, msg, n - 1), medium.value, msg,
          n - 1);
      }
    }
  }

  /** As long as no audio line settles, audio lines are judged by the settings as they were. */
  lemma {:induction false} OutlookCore(s: Session, msg: Message, n: nat)
    requires n <= |msg.lines|
    ensures var o := OutlookTo(s, msg, n);
            (s.audio.initialized ==> o.audio) && (!o.audio || s.audio.initialized ==> o.core == s.core)
  {
    hide FirstCodec;
    if n == 0 {
    } else {
      OutlookCore(s, msg, n - 1);
    }
  }

  /** Some payload leads to a codec, and none before it leads to telephone events. */
  predicate CodecBeforeEvents(core: Core, msg: Message, i: nat)
    requires i < |msg.lines|
  {
    exists j :: 0 <= j < |msg.lines[i].payloads| && LevelAt(core, msg, i, j).SupportedAndValid? &&
      NoEventBefore(core, msg, i, j)
  }

  predicate NoEventBefore(core: Core, msg: Message, i: nat, j: nat)
    requires i < |msg.lines| && j <= |msg.lines[i].payloads|
  {
    forall k | 0 <= k < j :: !LevelAt(core, msg, i, k).Supported?
  }

  lemma {:induction false} CodecComesFirst(core: Core, msg: Message, i: nat)
    requires i < |msg.lines|
    ensures var n := |msg.lines[i].payloads|;
            var k := FirstKnown(core, msg, i, n);
            CodecBeforeEvents(core, msg, i) <==> k < n && LevelAt(core, msg, i, k).SupportedAndValid?
    ensures CodecBeforeEvents(core, msg, i) ==>
            FirstCodec(core, msg, i, |msg.lines[i].payloads|) < |msg.lines[i].payloads|
  {
    hide FirstCodec, FirstKnown, LevelAt;
    var n := |msg.lines[i].payloads|;
    var k := FirstKnown(core, msg, i, n);
    if k < n && LevelAt(core, msg, i, k).SupportedAndValid? {
      assert NoEventBefore(core, msg, i, k);
    }
  }

  /** Line i is the one its medium will use: its stream is open, and a codec comes before telephone events. */
  predicate GoesLive(o: Outlook, m: Medium, msg: Message, i: nat)
    requires i < |msg.lines|
  {
    !Settled(o, m) && Asked(o.core, m, msg.lines[i].port) && CodecBeforeEvents(o.core, msg, i)
  }

  lemma {:induction false} ScanPort(s: Session, before: Session, o: Outlook, m: Medium, msg: Message, i: nat)
    requires i < |msg.lines| && BearsOut(s, o, before) && SameSettings(s.core, before.core)
    ensures AnswerLine(msg.lines[i], Scan(Linphone(), before, m, msg, i, |msg.lines[i].payloads|).kept, true).port ==
            if GoesLive(o, m, msg, i) then AnnouncedPort(s.core, m, StreamOf(s, m)) else 0
  {
    hide Scan, Alike, FirstCodec, FirstKnown, AfterSettling, PayloadAt, SameCodecs, AnswerLine, LevelAt,
      CodecBeforeEvents;
    var n := |msg.lines[i].payloads|;
    var kept := Scan(Linphone(), before, m, msg, i, n).kept;
    AlikeFields(o.core, before.core);
    AnswerLineHeader(msg.lines[i], kept);
    if !Asked(o.core, m, msg.lines[i].port) {
      UnaskedScan(before, m, msg, i, n);
    } else if Settled(o, m) {
      SettledScan(before, m, msg, i, n, o.core);
    } else {
      OpenScan(before, m, msg, i, n, o.core);
      CodecComesFirst(o.core, msg, i);
    }
  }

  /**
   * The port of every line of an answer, foretold: our port when the stream of its medium is still open and a payload
   * leads to an enabled, usable codec of ours ahead of any that leads to telephone events; port 0 otherwise.
   */
  lemma {:induction false} LineLiveIff(s: Session, msg: Message, i: nat, m: Medium)
    requires s.core.inCall && i < |msg.lines| && MediumOf(msg.lines[i].mtype) == Some(m)
    ensures var lines := AnswerTo(Linphone(), s, msg, |msg.lines|).lines;
            && MediaLines(msg, i) < |lines|
            && lines[MediaLines(msg, i)].port ==
                 if GoesLive(OutlookTo(s, msg, i), m, msg, i) then AnnouncedPort(s.core, m, StreamOf(s, m)) else 0
  {
    hide AnswerTo, Scan, AnswerLine, BearsOut, GoesLive, SameSettings, AnswerPuts, AnswerCovers, OutlookTo;
    var before := AnswerTo(Linphone(), s, msg, i).session;
    AnswerPrefix(Linphone(), s, msg, |msg.lines|, i);
    OutlookHolds(s, msg, i);
    AnswerProfile(s, msg, i);
    ScanPort(s, before, OutlookTo(s, msg, i), m, msg, i);
    PlacedPort(msg.lines[i], ScanOf(Linphone(), s, msg, i).kept, MediaLines(msg, i) == i);
  }

  lemma PlacedPort(media: Media, kept: seq<Payload>, aligned: bool)
    ensures AnswerLine(media, kept, aligned).port == AnswerLine(media, kept, true).port
  {
    hide LineOf;
  }

  /** The settings once line i has settled its stream. */
  function CoreOnceLive(o: Outlook, m: Medium, msg: Message, i: nat): Core
    requires i < |msg.lines|
  {
    var n := |msg.lines[i].payloads|;
    var k := FirstKnown(o.core, msg, i, n);
    if k < n then AfterSettling(o.core, m, PayloadAt(msg, i, k)) else o.core
  }

  /**
   * A live line tells the peer our own limit: its one b= line is AS with our download share of the medium, as it is
   * once the codec of the line has been allowed for.
   */
  lemma {:induction false} LiveLineBandwidth(s: Session, msg: Message, i: nat, m: Medium)
    requires s.core.inCall && i < |msg.lines| && MediumOf(msg.lines[i].mtype) == Some(m) && MediaLines(msg, i) == i
    requires GoesLive(OutlookTo(s, msg, i), m, msg, i)
    requires DownShare(CoreOnceLive(OutlookTo(s, msg, i), m, msg, i), m) > 0
    ensures var lines := AnswerTo(Linphone(), s, msg, |msg.lines|).lines;
            && i < |lines|
            && lines[i].bws == [Bw("AS", DownShare(CoreOnceLive(OutlookTo(s, msg, i), m, msg, i), m))]
  {
    hide AnswerTo, Scan, FirstCodec, FirstKnown, LevelAt, CodecBeforeEvents, AfterSettling, PayloadAt, OutlookTo,
      AnnouncedPort;
    hide Alike, SameSettings;
    var o := OutlookTo(s, msg, i);
    var before := AnswerTo(Linphone(), s, msg, i).session;
    OutlookHolds(s, msg, i);
    AlikeFields(o.core, before.core);
    OpenScan(before, m, msg, i, |msg.lines[i].payloads|, o.core);
    CodecComesFirst(o.core, msg, i);
    AnswerPrefix(Linphone(), s, msg, |msg.lines|, i);
    var kept := ScanOf(Linphone(), s, msg, i).kept;
    PhoneAsks(before, m, msg, i);
    LineContents(msg.lines[i].mtype, msg.lines[i].proto, kept, 0);
  }

  // ---- telephone events ahead of the codecs ----

  function Plain(mime: string): Codec {
    Codec(AudioContinuous, mime, 8000, 1, 64000, None, None, true, None)
  }

  /** A phone in a call that knows PCMU as 0 and telephone events as 101, without limits. */
  function PlainPhone(): Session {
    var core := Core(map[0 := Plain("PCMU"), 101 := Plain(TELEPHONE_EVENT)], [0], [], 7078, 9078, false, false, true,
      0, 0, 80,
                     Share(-1, -1), Share(-1, -1));
    var open := Stream(false, 0, 0, 0, 0, 0, 0, "");
    Session(core, open, open, map[])
  }

  /** An audio offer of telephone events first and PCMU second, by number alone. */
  function EventsFirst(): Message {
    Message("host", [EmptyLine("audio", 7078, "RTP/AVP").(payloads := [101, 0])])
  }

  lemma {:induction false} EventsFirstLevels()
    ensures LevelAt(PlainPhone().core, EventsFirst(), 0, 0).Supported?
    ensures LevelAt(PlainPhone().core, EventsFirst(), 0, 1).SupportedAndValid?
  {
    var core := PlainPhone().core;
    assert PayloadAt(EventsFirst(), 0, 0).rtpmap.None? && PayloadAt(EventsFirst(), 0, 1).rtpmap.None?;
    assert Usable(core, 0);
    assert "PCMU" != TELEPHONE_EVENT;
  }

  lemma {:induction false} EventsFirstVerdicts()
    ensures Scan(Linphone(), PlainPhone(), AudioLine, EventsFirst(), 0, 2).oks == [true, true]
  {
    hide Accept, PayloadAt, Forecast, Alike, AfterSettling;
    var s, msg := PlainPhone(), EventsFirst();
    EventsFirstLevels();
    AlikeReflexive(s.core);
    var one := Scan(Linphone(), s, AudioLine, msg, 0, 1);
    assert one.oks == [Accept(s, AudioLine, PayloadAt(msg, 0, 0)).ok] by {
      assert Scan(Linphone(), s, AudioLine, msg, 0, 0).oks == [];
    }
    OpenForecast(s, AudioLine, PayloadAt(msg, 0, 0), s.core);
    AlikeFields(s.core, one.session.core);
    OpenForecast(one.session, AudioLine, PayloadAt(msg, 0, 1), s.core);
  }

  /** Both payloads are accepted and the stream is settled, and yet the line is answered with port 0. */
  lemma {:induction false} EventsFirstSilenceTheLine()
    ensures var r := AnswerTo(Linphone(), PlainPhone(), EventsFirst(), 1);
            r.verdicts == [[true, true]] && |r.lines| == 1 && r.lines[0].port == 0 && r.session.audio.initialized
  {
    hide Scan, LevelAt, Forecast, Alike, AfterSettling, AnswerLine, CodecBeforeEvents;
    var s, msg := PlainPhone(), EventsFirst();
    EventsFirstLevels();
    EventsFirstVerdicts();
    CodecComesFirst(s.core, msg, 0);
    LineLiveIff(s, msg, 0, AudioLine);
    OutlookHolds(s, msg, 1);
    AnswerStep(Linphone(), s, msg, 0);
  }
}
