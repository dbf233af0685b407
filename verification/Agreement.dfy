/** Offer, answer and read-answer composed: the two endpoints settle on the same stream. */
module Agreement {
  import opened Answers
  import opened Bandwidth
  import opened Codecs
  import opened Negotiation
  import opened Outlooks
  import opened Rtp
  import opened Sdp
  import opened Text

  /** What a valid verdict says about the slot found, and when it is certain. */
  lemma ValidMeans(s: Session, p: Payload, answering: bool)
    ensures var slot := LocalSlot(s.core, p);
            var good := 0 <= slot < SLOTS && EnabledAt(s.core, slot) && s.core.local[slot].mime != TELEPHONE_EVENT;
            && (CheckSupport(s, p, answering).level.SupportedAndValid? ==> good)
            && (good && !answering ==> CheckSupport(s, p, answering).level.SupportedAndValid?)
  {
    hide LocalSlot, SameSettings;
    var slot := LocalSlot(s.core, p);
    if slot in s.core.local {
      UsabilityKeepsEnabled(s.core, slot);
    }
  }

  lemma UsabilityKeepsEnabled(core: Core, slot: int)
    requires slot in core.local
    ensures EnabledAt(CheckUsability(core, slot).core, slot) <==> EnabledAt(core, slot)
  {
  }

  /**
   * A refused line (port 0, the payload 0, no attributes) still settles the reader's stream, on number 0 and port 0,
   * exactly when the reader's own slot 0 holds an enabled codec.
   */
  lemma RefusedLineSettlesReader(s: Session, m: Medium, msg: Message, i: nat)
    requires i < |msg.lines| && msg.lines[i].payloads == [0] && msg.lines[i].attrs == [] && msg.lines[i].port == 0
    requires !StreamOf(s, m).initialized
    ensures var st := StreamOf(ReadLine(Linphone(), s, m, msg, i, 1), m);
            && (st.initialized <==> EnabledAt(s.core, 0) && s.core.local[0].mime != TELEPHONE_EVENT)
            && (st.initialized ==> st.pt == 0 && st.remoteport == 0)
  {
    hide CheckSupport;
    var p := PayloadAt(msg, i, 0);
    assert ReadLine(Linphone(), s, m, msg, i, 0) == s;
    ValidMeans(s, p, false);
    SupportKeeps(s, p, false);
  }

  /** Reading the refusal of an audio line, a phone whose slot 0 is PCMU settles its stream on port 0. */
  lemma {:induction false} RefusalSettlesPlainReader()
    ensures var line := Refused(EmptyLine("audio", 7078, "RTP/AVP"));
            var after := ReadTo(Linphone(), PlainPhone(), Message("peer", [line]), 1);
            after.audio.initialized && after.audio.remoteport == 0
  {
    hide Read;
    var s, msg := PlainPhone(), Message("peer", [Refused(EmptyLine("audio", 7078, "RTP/AVP"))]);
    RefusedLineSettlesReader(s, AudioLine, msg, 0);
    assert ReadTo(Linphone(), s, msg, 0) == s;
    assert EnabledAt(s.core, 0) && "PCMU" != TELEPHONE_EVENT;
  }

  // ---- reading an answer ----

  /** Reading never unsettles a stream and never touches the other one. */
  lemma ReadKeeps(s: Session, m: Medium, p: Payload)
    ensures var r := Read(s, m, p);
            && StreamOf(r, OtherMedium(m)) == StreamOf(s, OtherMedium(m))
            && (StreamOf(s, m).initialized ==> StreamOf(r, m) == StreamOf(s, m))
  {
    SupportKeeps(s, p, false);
  }

  lemma {:induction false} ReadLineKeeps(s: Session, lm: Medium, msg: Message, i: nat, n: nat, m: Medium)
    requires i < |msg.lines| && n <= |msg.lines[i].payloads|
    requires lm != m || StreamOf(s, m).initialized
    ensures StreamOf(ReadLine(Linphone(), s, lm, msg, i, n), m) == StreamOf(s, m)
  {
    hide Read;
    if n == 0 {
    } else {
      ReadLineKeeps(s, lm, msg, i, n - 1, m);
      ReadKeeps(ReadLine(Linphone(), s, lm, msg, i, n - 1), lm, PayloadAt(msg, i, n - 1));
    }
  }

  lemma {:induction false} ReadLineSettles(s: Session, m: Medium, msg: Message, i: nat, n: nat)
    requires i < |msg.lines| && 0 < n <= |msg.lines[i].payloads|
    requires !StreamOf(s, m).initialized && CheckSupport(s, PayloadAt(msg, i, 0), false).level.SupportedAndValid?
    ensures StreamOf(ReadLine(Linphone(), s, m, msg, i, n), m) ==
            Settle(s.core, m, StreamOf(s, m), PayloadAt(msg, i, 0))
  {
    hide CheckSupport;
    if n == 1 {
      assert ReadLine(Linphone(), s, m, msg, i, 0) == s;
      SupportKeeps(s, PayloadAt(msg, i, 0), false);
    } else {
      hide Read;
      ReadLineSettles(s, m, msg, i, n - 1);
      ReadKeeps(ReadLine(Linphone(), s, m, msg, i, n - 1), m, PayloadAt(msg, i, n - 1));
    }
  }

  lemma {:induction false} ReadToKeeps(s: Session, msg: Message, i: nat, n: nat, m: Medium)
    requires i <= n <= |msg.lines| && StreamOf(ReadTo(Linphone(), s, msg, i), m).initialized
    ensures StreamOf(ReadTo(Linphone(), s, msg, n), m) == StreamOf(ReadTo(Linphone(), s, msg, i), m)
  {
    if i == n {
    } else {
      ReadToKeeps(s, msg, i, n - 1, m);
      var medium := MediumOf(msg.lines[n - 1].mtype);
      if medium.Some? {
        ReadLineKeeps(ReadTo(Linphone(), s, msg, n - 1), medium.value, msg, n - 1, |msg.lines[n - 1].payloads|, m);
      }
    }
  }

  // ---- agreement on one line ----

  /** What it means for two ends to agree on line i: one number, each sends to the port the other announced. */
  predicate Agree(a: Stream, b: Stream, i: int, portA: int, portB: int, addrA: string, addrB: string) {
    && a.initialized && b.initialized && a.pt == b.pt && a.line == b.line == i
    && b.remoteport == portA && b.remotertcp == portA + 1 && b.remoteaddr == addrA
    && a.remoteport == portB && a.remotertcp == portB + 1 && a.remoteaddr == addrB
  }

  /** Where a medium is received: the audio port for audio, the video port for video. */
  function OwnPort(core: Core, m: Medium): int {
    match m
    case AudioLine => core.audioPort
    case VideoLine => core.videoPort
  }

  /** The port announced is that one, unless the one behind the NAT is known. */
  lemma AnnouncedPortIs(core: Core, m: Medium, st: Stream)
    ensures st.natPort <= 0 ==> AnnouncedPort(core, m, st) == OwnPort(core, m)
    ensures st.natPort > 0 ==> AnnouncedPort(core, m, st) == st.natPort
  {
  }

  lemma SamePorts(a: Core, b: Core, m: Medium)
    requires SameSettings(a, b)
    ensures OwnPort(a, m) == OwnPort(b, m)
  {
  }

  /**
   * For any offer of audio and video lines: if the answer gives line i a port and the reader knows the first number
   * answered, both ends settle on that line with the same number, and send to each other's announced ports.
   */
  lemma LineAgreement(b: Session, offer: Message, i: nat, m: Medium, reader: Session, addrB: string)
    requires AllMedia(offer) && i < |offer.lines| && MediumOf(offer.lines[i].mtype) == Some(m)
    requires !StreamOf(b, m).initialized
    requires var lines := AnswerTo(Linphone(), b, offer, |offer.lines|).lines;
             i < |lines| && lines[i].port != 0 && lines[i].payloads != []
    requires var ans := Message(addrB, AnswerTo(Linphone(), b, offer, |offer.lines|).lines);
             && !StreamOf(ReadTo(Linphone(), reader, ans, i), m).initialized
             && CheckSupport(ReadTo(Linphone(), reader, ans, i), PayloadAt(ans, i, 0), false).level.SupportedAndValid?
    ensures var r := AnswerTo(Linphone(), b, offer, |offer.lines|);
            var ans := Message(addrB, r.lines);
            && Agree(StreamOf(ReadTo(Linphone(), reader, ans, |ans.lines|), m), StreamOf(r.session, m), i,
                     offer.lines[i].port, r.lines[i].port, offer.lines[i].addr.GetOr(offer.addr), addrB)
            && r.lines[i].port == AnnouncedPort(b.core, m, StreamOf(b, m))
            && StreamOf(r.session, m).localport == OwnPort(b.core, m)
            && StreamOf(ReadTo(Linphone(), reader, ans, |ans.lines|), m).localport ==
                 OwnPort(ReadTo(Linphone(), reader, ans, i).core, m)
  {
    hide AnswerTo, CheckSupport, ReadLine, AnnouncedPort;
    var r := AnswerTo(Linphone(), b, offer, |offer.lines|);
    var ans := Message(addrB, r.lines);
    OneLiveStream(b, offer, m);
    AnswerAligned(Linphone(), b, offer);
    var before := ReadTo(Linphone(), reader, ans, i);
    ReadLineSettles(before, m, ans, i, |ans.lines[i].payloads|);
    ReadToKeeps(reader, ans, i + 1, |ans.lines|, m);
    AnsweredLineAddr(b, offer, i);
  }

  lemma AnsweredLineAddr(b: Session, offer: Message, i: nat)
    requires AllMedia(offer) && i < |offer.lines|
    ensures var lines := AnswerTo(Linphone(), b, offer, |offer.lines|).lines; i < |lines| && lines[i].addr == None
  {
    hide AnswerTo, AnswerLine;
    assert MediaLines(offer, |offer.lines|) == |offer.lines|;
    AnswerPrefix(Linphone(), b, offer, |offer.lines|, i);
    AnswerLineHeader(offer.lines[i], ScanOf(Linphone(), b, offer, i).kept);
  }

  // ---- our own offer ----

  /** The rtpmap that a codec is offered with. */
  function TextOf(m: Medium, c: Codec): string {
    if m.AudioLine? then AudioRtpmap(c) else VideoRtpmap(c)
  }

  /** The number that a codec is offered under. */
  function NumberOf(prof: Profile, m: Medium, slot: int): int
    requires slot in prof
  {
    if m.AudioLine? then NumberFromRtpmap(prof, AudioRtpmap(prof[slot]))
    else BestSlot(prof, Query(prof[slot].mime, prof[slot].rate, prof[slot].recvFmtp, false))
  }

  predicate OffersSlot(core: Core, m: Medium, st: Stream, p: Payload, slot: int) {
    && EnabledAt(core, slot)
    && p.rtpmap == Some(TextOf(m, core.local[slot]))
    && p.pt == NumberOf(core.local, m, slot)
    && p.localport == AnnouncedPort(core, m, st)
    && p.fmtp == OwnFormat(core, m, slot) && (m.AudioLine? ==> p.bandwidth == 0)
  }

  /** The format parameters of an offered codec: the 30 ms mode for iLBC, and the codec's own for video. */
  function OwnFormat(core: Core, m: Medium, slot: int): Option<string>
    requires slot in core.local
  {
    match m
    case AudioLine => if SameIgnoringCase(core.local[slot].mime, "iLBC") then Some("ptime=30") else None
    case VideoLine => core.local[slot].recvFmtp
  }

  /** The payload offers an enabled codec of our list. */
  predicate FromCodec(core: Core, m: Medium, st: Stream, p: Payload) {
    exists i :: 0 <= i < |CodecList(core, m)| && OffersSlot(core, m, st, p, CodecList(core, m)[i])
  }

  predicate AllFromCodecs(core: Core, m: Medium, st: Stream, ps: seq<Payload>) {
    forall k | 0 <= k < |ps| :: FromCodec(core, m, st, ps[k])
  }

  function PayloadFor(core: Core, m: Medium, slot: int, st: Stream, first: bool): Payload
    requires slot in core.local
  {
    if m.AudioLine? then AudioPayload(core, slot, st) else VideoPayload(core, slot, st, first)
  }

  lemma PayloadOffers(core: Core, now: Core, m: Medium, slot: int, st: Stream, first: bool)
    requires SameSettings(core, now) && EnabledAt(now, slot)
    ensures OffersSlot(core, m, st, PayloadFor(now, m, slot, st, first), slot)
  {
    hide FindFormat, BestSlot, SameCodecs;
    SameKeys(core.local, now.local, slot);
    SameCodecAt(core.local, now.local, slot);
    if m.AudioLine? {
      FindFormatSame(core.local, now.local, ParseRtpmap(AudioRtpmap(core.local[slot])), 0);
    } else {
      var c := core.local[slot];
      BestSlotSame(core.local, now.local, Query(c.mime, c.rate, c.recvFmtp, false));
    }
  }

  lemma SameKeys(a: Profile, b: Profile, slot: int)
    requires SameCodecs(a, b)
    ensures slot in a <==> slot in b
  {
  }

  lemma {:induction false} OfferStep(core: Core, prev: Offering, m: Medium, st: Stream, slot: int)
    requires SameSettings(core, prev.core) && slot in prev.core.local
    ensures var u := CheckUsability(prev.core, slot);
            && SameSettings(core, u.core)
            && (EnabledAt(u.core, slot) ==>
                  OffersSlot(core, m, st, PayloadFor(u.core, m, slot, st, prev.payloads == []), slot))
  {
    hide SameSettings, CheckUsability, PayloadFor, OffersSlot, EnabledAt;
    var u := CheckUsability(prev.core, slot);
    UsabilityKeeps(prev.core, slot);
    SameSettingsTransitive(core, prev.core, u.core);
    if EnabledAt(u.core, slot) { PayloadOffers(core, u.core, m, slot, st, prev.payloads == []); }
  }

  /** One turn of the offer loop, for a codec of our list. */
  lemma {:induction false} OfferOneIsFromCodecs(core: Core, prev: Offering, m: Medium, st: Stream, i: nat)
    requires SameSettings(core, prev.core) && AllFromCodecs(core, m, st, prev.payloads) && i < |CodecList(core, m)|
    ensures var next := OfferOne(prev, m, st, CodecList(core, m)[i]);
            SameSettings(core, next.core) && AllFromCodecs(core, m, st, next.payloads)
  {
    hide CheckUsability, AudioPayload, VideoPayload, OffersSlot, SameSettings;
    var slot := CodecList(core, m)[i];
    if slot in prev.core.local {
      OfferStep(core, prev, m, st, slot);
      var u := CheckUsability(prev.core, slot);
      if u.usable && EnabledAt(u.core, slot) {
        FromCodecSnoc(core, m, st, prev.payloads, PayloadFor(u.core, m, slot, st, prev.payloads == []), i);
      }
    }
  }

  lemma FromCodecSnoc(core: Core, m: Medium, st: Stream, ps: seq<Payload>, p: Payload, i: nat)
    requires AllFromCodecs(core, m, st, ps) && i < |CodecList(core, m)|
    requires OffersSlot(core, m, st, p, CodecList(core, m)[i])
    ensures AllFromCodecs(core, m, st, ps + [p])
  {
    hide OffersSlot;
    assert FromCodec(core, m, st, p);
  }

  lemma NothingOffered(core: Core, m: Medium, st: Stream)
    ensures AllFromCodecs(core, m, st, [])
  {
  }

  lemma SameLists(a: Core, b: Core, m: Medium)
    requires SameSettings(a, b)
    ensures CodecList(a, m) == CodecList(b, m)
  {
  }

  lemma {:induction false} OfferIsFromCodecs(core: Core, now: Core, m: Medium, st: Stream, n: nat)
    requires SameSettings(core, now) && n <= |CodecList(now, m)|
    ensures SameSettings(core, OfferTo(now, m, st, n).core)
    ensures AllFromCodecs(core, m, st, OfferTo(now, m, st, n).payloads)
  {
    hide OfferOne, AllFromCodecs, SameSettings, FromCodec;
    if n == 0 {
      NothingOffered(core, m, st);
    } else {
      OfferIsFromCodecs(core, now, m, st, n - 1);
      SameLists(core, now, m);
      OfferOneIsFromCodecs(core, OfferTo(now, m, st, n - 1), m, st, n - 1);
    }
  }

  /** The core once the audio codecs of the offer are chosen. */
  function AfterAudio(a: Session): Core {
    OfferTo(a.core, AudioLine, a.audio, |a.core.audioCodecs|).core
  }

  /** The codecs offered on the line of a medium. */
  function CodecPayloads(a: Session, m: Medium): seq<Payload> {
    if m.AudioLine? then OfferTo(a.core, AudioLine, a.audio, |a.core.audioCodecs|).payloads
    else OfferTo(AfterAudio(a), VideoLine, a.video, |AfterAudio(a).videoCodecs|).payloads
  }

  /** All that is offered on it: telephone events come last on the audio line. */
  function LinePayloads(a: Session, m: Medium): (ps: seq<Payload>)
    ensures |CodecPayloads(a, m)| <= |ps| && forall k | 0 <= k < |CodecPayloads(a, m)| ::
            ps[k] == CodecPayloads(a, m)[k]
  {
    if m.AudioLine? then CodecPayloads(a, m) + [TelephonePayload(AfterAudio(a))] else CodecPayloads(a, m)
  }

  function LineNo(m: Medium): nat {
    if m.AudioLine? then 0 else 1
  }

  /** Our offer has a line of this medium with a codec on it. */
  predicate HasCodecs(a: Session, m: Medium) {
    CodecPayloads(a, m) != [] && (m.VideoLine? ==> a.core.videoEnabled)
  }

  lemma OfferShape(a: Session, addr: string)
    ensures var msg := Offer(a, addr).message;
            && msg.addr == addr && 1 <= |msg.lines| <= 2 && AllMedia(msg)
            && msg.lines[0] == LineOf("audio", "RTP/AVP", LinePayloads(a, AudioLine))
            && MediumOf(msg.lines[0].mtype) == Some(AudioLine)
            && (|msg.lines| == 2 <==> HasCodecs(a, VideoLine))
            && (|msg.lines| == 2 ==>
                  && msg.lines[1] == LineOf("video", "RTP/AVP", LinePayloads(a, VideoLine))
                  && MediumOf(msg.lines[1].mtype) == Some(VideoLine))
  {
    hide OfferTo, TelephonePayload, LineOf;
    LineContents("audio", "RTP/AVP", LinePayloads(a, AudioLine), 0);
    if HasCodecs(a, VideoLine) { LineContents("video", "RTP/AVP", LinePayloads(a, VideoLine), 0); }
    assert "audio"[0] != "video"[0];
  }

  /** The line of a medium in our offer. */
  lemma OfferLine(a: Session, addr: string, m: Medium)
    requires HasCodecs(a, m)
    ensures LinePayloads(a, m) != []
    ensures var msg := Offer(a, addr).message;
            && msg.addr == addr && AllMedia(msg) && LineNo(m) < |msg.lines| &&
              MediumOf(msg.lines[LineNo(m)].mtype) == Some(m)
            && (m.VideoLine? ==> MediumOf(msg.lines[0].mtype) == Some(AudioLine))
            && msg.lines[LineNo(m)] == LineOf(if m.AudioLine? then "audio" else "video", "RTP/AVP", LinePayloads(a, m))
  {
    hide Offer, OfferTo, LineOf, MediumOf;
    OfferShape(a, addr);
  }

  lemma CodecsAreOurs(a: Session, m: Medium)
    ensures AllFromCodecs(a.core, m, StreamOf(a, m), CodecPayloads(a, m))
  {
    hide OfferTo, FromCodec, SameSettings;
    SameSettingsReflexive(a.core);
    OfferIsFromCodecs(a.core, a.core, AudioLine, a.audio, |a.core.audioCodecs|);
    OfferIsFromCodecs(a.core, AfterAudio(a), VideoLine, a.video, |AfterAudio(a).videoCodecs|);
  }

  // ---- codecs that are found again through their own text ----

  /** The codec is found again through the rtpmap it is offered with, under the number it is offered with. */
  predicate CoherentSlot(prof: Profile, m: Medium, slot: int)
    requires slot in prof
  {
    && 0 <= slot < SLOTS
    && NumberFromRtpmap(prof, TextOf(m, prof[slot])) == slot && NumberOf(prof, m, slot) == slot
    && !SameIgnoringCase(prof[slot].mime, TELEPHONE_EVENT)
    && !SameIgnoringCase(prof[slot].mime, "H264")
  }

  /** So it is for every enabled codec of our list. */
  predicate Coherent(core: Core, m: Medium) {
    forall i | 0 <= i < |CodecList(core, m)| && EnabledAt(core, CodecList(core, m)[i]) ::
      CoherentSlot(core.local, m, CodecList(core, m)[i])
  }

  /** An earlier slot of the same name and rate. */
  predicate Shadows(prof: Profile, slot: int, j: int)
    requires slot in prof
  {
    0 <= j < slot && j in prof && SameIgnoringCase(prof[j].mime, prof[slot].mime) && prof[j].rate == prof[slot].rate
  }

  /** When an audio codec is found again: at most one channel, and no earlier slot of that name and rate comes first. */
  lemma {:induction false} CoherentWhenFirst(prof: Profile, slot: int)
    requires 0 <= slot < SLOTS && slot in prof && '/' !in prof[slot].mime
    ensures NumberFromRtpmap(prof, AudioRtpmap(prof[slot])) == slot <==>
            prof[slot].channels <= 1 && forall j | Shadows(prof, slot, j) :: prof[j].channels > 1
  {
    hide FindFormat, AudioRtpmap;
    ParsePrintedAudio(prof[slot]);
    var r := Rtpmap(prof[slot].mime, prof[slot].rate, 1);
    var k := NumberFromRtpmap(prof, AudioRtpmap(prof[slot]));
    assert k == FindFormat(prof, r, 0);
    assert prof[slot].channels <= 1 <==> HasFormat(prof[slot], r);
    assert forall j | Shadows(prof, slot, j) :: prof[j].channels <= 1 <==> HasFormat(prof[j], r);
  }

  lemma ShadowsHaveFormat(prof: Profile, slot: int, j: int)
    requires slot in prof && 0 <= j < slot && j in prof
    ensures HasFormat(prof[j], Rtpmap(prof[slot].mime, prof[slot].rate, -1)) <==> Shadows(prof, slot, j)
  {
  }

  /** When a video codec is found again, and offered under its own number: no earlier slot of that name and rate. */
  lemma {:induction false} VideoCoherentWhenFirst(prof: Profile, slot: int)
    requires 0 <= slot < LAST_SEARCHED && slot in prof && '/' !in prof[slot].mime && prof[slot].rate > 0
    ensures NumberFromRtpmap(prof, VideoRtpmap(prof[slot])) == slot <==> forall j :: !Shadows(prof, slot, j)
    ensures (forall j :: !Shadows(prof, slot, j)) ==> NumberOf(prof, VideoLine, slot) == slot
  {
    hide FindFormat, VideoRtpmap, HasFormat, NumberOf, ParseRtpmap, Shadows;
    ParsePrintedVideo(prof[slot]);
    var r := Rtpmap(prof[slot].mime, prof[slot].rate, -1);
    var k := NumberFromRtpmap(prof, VideoRtpmap(prof[slot]));
    assert k == FindFormat(prof, r, 0);
    assert HasFormat(prof[slot], r) by { OwnTextFormat(prof[slot]); }
    if k == slot {
      forall j ensures !Shadows(prof, slot, j) {
        if 0 <= j < slot && j in prof { ShadowsHaveFormat(prof, slot, j); } else { NoShadow(prof, slot, j); }
      }
    } else {
      ShadowsHaveFormat(prof, slot, k);
    }
    if forall j :: !Shadows(prof, slot, j) { OwnSlotIsBest(prof, slot); }
  }

  lemma OwnTextFormat(c: Codec)
    ensures HasFormat(c, Rtpmap(c.mime, c.rate, -1))
  {
  }

  lemma NoShadow(prof: Profile, slot: int, j: int)
    requires slot in prof && !(0 <= j < slot && j in prof)
    ensures !Shadows(prof, slot, j)
  {
  }

  lemma OwnSlotIsBest(prof: Profile, slot: int)
    requires 0 <= slot < LAST_SEARCHED && slot in prof && prof[slot].rate > 0 && forall j :: !Shadows(prof, slot, j)
    ensures NumberOf(prof, VideoLine, slot) == slot
  {
    hide FirstExact, LastCandidate;
    var q := Query(prof[slot].mime, prof[slot].rate, prof[slot].recvFmtp, false);
    assert ExactAt(prof, q, slot);
    forall j | 0 <= j < slot ensures !ExactAt(prof, q, j) {
      assert !Shadows(prof, slot, j);
    }
    BestSlotIsUnique(prof, q, slot, BestSlot(prof, q));
  }

  // ---- what our offer says about a number ----

  /**
   * Looking up the number of a payload with an rtpmap leads to that payload or to an earlier one of the same number.
   */
  lemma {:induction false} RtpmapAmongUpTo(ps: seq<Payload>, j: nat) returns (k: nat)
    requires j < |ps| && ps[j].rtpmap.Some? && ps[j].rtpmap.value != ""
    ensures k <= j && ps[k].pt == ps[j].pt && ps[k].rtpmap.Some? && RtpmapAmong(ps, ps[j].pt) == ps[k].rtpmap
  {
    if ps[0].pt == ps[j].pt && ps[0].rtpmap.Some? && ps[0].rtpmap.value != "" {
      k := 0;
    } else {
      var rest := RtpmapAmongUpTo(ps[1..], j - 1);
      k := 1 + rest;
    }
  }

  /** The number and the text of an offered codec are those of one enabled slot of ours. */
  lemma CodecIsSlot(a: Session, m: Medium, j: nat)
    requires Coherent(a.core, m) && j < |CodecPayloads(a, m)|
    ensures var p := CodecPayloads(a, m)[j];
            && EnabledAt(a.core, p.pt) && CoherentSlot(a.core.local, m, p.pt)
            && p.rtpmap == Some(TextOf(m, a.core.local[p.pt])) && p.rtpmap.value != ""
            && p.localport == AnnouncedPort(a.core, m, StreamOf(a, m))
  {
    hide CodecPayloads, NumberFromRtpmap, BestSlot, AnnouncedPort, SameIgnoringCase;
    CodecsAreOurs(a, m);
    assert FromCodec(a.core, m, StreamOf(a, m), CodecPayloads(a, m)[j]);
  }

  predicate OfferedAs(a: Session, m: Medium, line: Media, j: nat) {
    && j < |line.payloads| && EnabledAt(a.core, line.payloads[j]) && CoherentSlot(a.core.local, m, line.payloads[j])
    && AttrValue(line.attrs, "rtpmap", line.payloads[j]) == Some(TextOf(m, a.core.local[line.payloads[j]]))
  }

  /** On our offered line, the j-th number is that of an enabled codec of ours, and its text is that codec's. */
  lemma {:induction false} OfferedText(a: Session, addr: string, m: Medium, j: nat)
    requires Coherent(a.core, m) && HasCodecs(a, m) && j < |CodecPayloads(a, m)|
    ensures LineNo(m) < |Offer(a, addr).message.lines|
    ensures var line := Offer(a, addr).message.lines[LineNo(m)];
            && |line.payloads| == |LinePayloads(a, m)| && OfferedAs(a, m, line, j)
            && line.payloads[j] == CodecPayloads(a, m)[j].pt
            && line.port == AnnouncedPort(a.core, m, StreamOf(a, m)) && line.addr == None
  {
    hide Offer, CodecPayloads, LinePayloads, LineOf, Coherent, CoherentSlot, EnabledAt, AnnouncedPort, TextOf,
      NumberOf, AttrValue;
    var ps := LinePayloads(a, m);
    OfferLine(a, addr, m);
    LineContents(if m.AudioLine? then "audio" else "video", "RTP/AVP", ps, ps[j].pt);
    CodecIsSlot(a, m, j);
    CodecIsSlot(a, m, 0);
    var k := RtpmapAmongUpTo(ps, j);
    CodecIsSlot(a, m, k);
  }

  // ---- what our offer lists ----

  /** The slots of our list that are enabled and usable, in its order. */
  function Offerable(core: Core, m: Medium, n: nat): seq<int>
    requires n <= |CodecList(core, m)|
  {
    if n == 0 then []
    else
      var slot := CodecList(core, m)[n - 1];
      Offerable(core, m, n - 1) + if EnabledAt(core, slot) && Usable(core, slot) then [slot] else []
  }

  lemma AlikeIsSame(a: Core, b: Core)
    requires Alike(a, b)
    ensures SameSettings(a, b)
  {
    AlikeFields(a, b);
    assert a.(local := map[]).audioCodecs == b.(local := map[]).audioCodecs;
    assert a.(local := map[]).videoCodecs == b.(local := map[]).videoCodecs;
  }

  lemma {:induction false} OfferOneLists(core: Core, prev: Offering, m: Medium, st: Stream, i: nat)
    requires core.inCall && Alike(core, prev.core) && Coherent(core, m) && i < |CodecList(core, m)|
    ensures var slot := CodecList(core, m)[i];
            var next := OfferOne(prev, m, st, slot);
            && Alike(core, next.core)
            && Numbers(next.payloads) ==
                 Numbers(prev.payloads) + if EnabledAt(core, slot) && Usable(core, slot) then [slot] else []
  {
    hide Alike, SameSettings, CheckUsability, AudioPayload, VideoPayload, NumberFromRtpmap, BestSlot, AudioFits;
    var slot := CodecList(core, m)[i];
    AlikeIsSame(core, prev.core);
    AlikeFields(core, prev.core);
    if slot in core.local { CodecAlike(core, prev.core, slot); }
    if slot in prev.core.local {
      CodecAlikeBack(core, prev.core, slot);
      UsabilityForecast(prev.core, slot);
      var u := CheckUsability(prev.core, slot);
      AlikeTransitive(core, prev.core, u.core);
      OfferStep(core, prev, m, st, slot);
      if u.usable && EnabledAt(u.core, slot) {
        assert CoherentSlot(core.local, m, slot);
        NumbersSnoc(prev.payloads, PayloadFor(u.core, m, slot, st, prev.payloads == []));
      }
    }
  }

  lemma {:induction false} OfferLists(core: Core, now: Core, m: Medium, st: Stream, n: nat)
    requires core.inCall && Alike(core, now) && Coherent(core, m)
    requires n <= |CodecList(now, m)| && CodecList(core, m) == CodecList(now, m)
    ensures var o := OfferTo(now, m, st, n); Alike(core, o.core) && Numbers(o.payloads) == Offerable(core, m, n)
  {
    hide Alike, OfferOne, Coherent, Usable, EnabledAt;
    if n == 0 {
      assert Numbers([]) == [];
    } else {
      OfferLists(core, now, m, st, n - 1);
      OfferOneLists(core, OfferTo(now, m, st, n - 1), m, st, n - 1);
    }
  }

  lemma {:induction false} AudioOfferAlike(core: Core, st: Stream, n: nat)
    requires core.inCall && n <= |core.audioCodecs|
    ensures Alike(core, OfferTo(core, AudioLine, st, n).core)
  {
    hide Alike, CheckUsability, AudioPayload;
    if n == 0 {
      AlikeReflexive(core);
    } else {
      AudioOfferAlike(core, st, n - 1);
      var prev := OfferTo(core, AudioLine, st, n - 1);
      AlikeFields(core, prev.core);
      var slot := core.audioCodecs[n - 1];
      if slot in prev.core.local {
        UsabilityForecast(prev.core, slot);
        AlikeTransitive(core, prev.core, CheckUsability(prev.core, slot).core);
      }
    }
  }

  /** In a call, as whenever it offers, the phone offers exactly the enabled and usable codecs of its list, in order. */
  lemma {:induction false} OfferedCodecs(a: Session, m: Medium)
    requires a.core.inCall && Coherent(a.core, m)
    ensures Numbers(CodecPayloads(a, m)) == Offerable(a.core, m, |CodecList(a.core, m)|)
  {
    hide Alike, OfferTo, Coherent, SameSettings, Offerable;
    AlikeReflexive(a.core);
    if m.AudioLine? {
      OfferLists(a.core, a.core, AudioLine, a.audio, |a.core.audioCodecs|);
    } else {
      AudioOfferAlike(a.core, a.audio, |a.core.audioCodecs|);
      AlikeIsSame(a.core, AfterAudio(a));
      SameLists(a.core, AfterAudio(a), VideoLine);
      OfferLists(a.core, AfterAudio(a), VideoLine, a.video, |a.core.videoCodecs|);
    }
  }

  /** A slot of telephone events, under any spelling. */
  predicate EventSlot(prof: Profile, i: int) {
    0 <= i < SLOTS && i in prof && SameIgnoringCase(prof[i].mime, "telephone-event")
  }

  /** The number telephone events are offered under: the first such slot, or -1 without one. */
  predicate IsEventNumber(prof: Profile, pt: int) {
    if EventSlot(prof, pt) then forall i | 0 <= i < pt :: !EventSlot(prof, i)
    else pt == -1 && forall i | 0 <= i < SLOTS :: !EventSlot(prof, i)
  }

  lemma EventSlotSame(a: Profile, b: Profile, i: int)
    requires SameCodecs(a, b)
    ensures EventSlot(a, i) == EventSlot(b, i)
  {
    SameKeys(a, b, i);
    if i in a { SameCodecAt(a, b, i); }
  }

  lemma {:induction false} TelephoneNumber(a: Session)
    ensures IsEventNumber(a.core.local, TelephonePayload(AfterAudio(a)).pt)
  {
    hide SameIgnoringCase, OfferTo, SameCodecs;
    SameSettingsReflexive(a.core);
    OfferIsFromCodecs(a.core, a.core, AudioLine, a.audio, |a.core.audioCodecs|);
    var prof := AfterAudio(a).local;
    forall i ensures EventSlot(a.core.local, i) == EventSlot(prof, i) {
      EventSlotSame(a.core.local, prof, i);
    }
  }

  lemma {:induction false} AmongNone(ps: seq<Payload>, pt: int)
    requires pt !in Numbers(ps)
    ensures RtpmapAmong(ps, pt) == None && FormatAmong(ps, pt) == None
  {
    if ps == [] {
    } else {
      assert Numbers(ps) == [ps[0].pt] + Numbers(ps[1..]);
      AmongNone(ps[1..], pt);
    }
  }

  lemma {:induction false} NoBandwidthSoFar(ps: seq<Payload>)
    requires forall k | 0 <= k < |ps| :: ps[k].bandwidth == 0
    ensures FirstBandwidth(ps) == 0
  {
    if ps == [] {
    } else {
      NoBandwidthSoFar(ps[1..]);
    }
  }

  /** No codec is offered under the number of telephone events. */
  lemma CodecsAreNoEvents(a: Session, j: nat)
    requires Coherent(a.core, AudioLine) && j < |CodecPayloads(a, AudioLine)|
    ensures !EventSlot(a.core.local, CodecPayloads(a, AudioLine)[j].pt) && CodecPayloads(a, AudioLine)[j].pt != -1
    ensures CodecPayloads(a, AudioLine)[j].bandwidth == 0
  {
    hide CodecPayloads, NumberFromRtpmap, AnnouncedPort;
    CodecIsSlot(a, AudioLine, j);
    CodecsAreOurs(a, AudioLine);
    assert FromCodec(a.core, AudioLine, a.audio, CodecPayloads(a, AudioLine)[j]);
  }

  /**
   * Our audio line, all of it: the enabled and usable codecs in the order of our list, then telephone events under the
   * number of their first slot, with their text and events 0 to 11; and our download share as the one bandwidth, when
   * there is one.
   */
  lemma {:induction false} AudioLineLists(a: Session, addr: string)
    requires a.core.inCall && Coherent(a.core, AudioLine)
    ensures |Offer(a, addr).message.lines| > 0
    ensures var line := Offer(a, addr).message.lines[0];
            var codecs := Offerable(a.core, AudioLine, |a.core.audioCodecs|);
            var n := |codecs|;
            && |line.payloads| == n + 1 && line.payloads[..n] == codecs && IsEventNumber(a.core.local, line.payloads[n])
            && AttrValue(line.attrs, "rtpmap", line.payloads[n]) == Some("telephone-event/8000")
            && AttrValue(line.attrs, "fmtp", line.payloads[n]) == Some("0-11")
            && line.bws == if a.core.down.audio > 0 then [Bw("AS", a.core.down.audio)] else []
  {
    hide Offer, CodecPayloads, LineOf, Coherent, AttrValue, Offerable, EventSlot, Alike, OfferTo;
    var ps, codecs := LinePayloads(a, AudioLine), CodecPayloads(a, AudioLine);
    var event := TelephonePayload(AfterAudio(a));
    OfferShape(a, addr);
    OfferedCodecs(a, AudioLine);
    TelephoneNumber(a);
    AudioOfferAlike(a.core, a.audio, |a.core.audioCodecs|);
    AlikeFields(a.core, AfterAudio(a));
    LineContents("audio", "RTP/AVP", ps, event.pt);
    LineFormats("audio", "RTP/AVP", ps, event.pt);
    assert ps == codecs + [event];
    NumbersSnoc(codecs, event);
    forall j | 0 <= j < |codecs| ensures codecs[j].pt != event.pt && codecs[j].bandwidth == 0 {
      CodecsAreNoEvents(a, j);
    }
    AmongNone(codecs, event.pt);
    RtpmapAmongSnoc(codecs, event, event.pt);
    FormatAmongSnoc(codecs, event, event.pt);
    NoBandwidthSoFar(codecs);
    FirstBandwidthSnoc(codecs, event);
    EventTexts(event);
  }

  lemma EventTexts(p: Payload)
    requires p.rtpmap == Some("telephone-event/8000") && p.fmtp == Some("0-11")
    ensures RtpmapAmong([p], p.pt) == Some("telephone-event/8000") && FormatAmong([p], p.pt) == Some("0-11")
  {
    assert |"telephone-event/8000"| == 20 && |"0-11"| == 4;
  }

  lemma {:induction false} FirstVideoOne(core: Core, prev: Offering, st: Stream, slot: int)
    requires core.inCall && Alike(core, prev.core)
    requires prev.payloads != [] ==> prev.payloads[0].bandwidth == if core.down.video > 0 then core.down.video else 0
    ensures var next := OfferOne(prev, VideoLine, st, slot);
            && Alike(core, next.core)
            && (next.payloads != [] ==>
                  next.payloads[0].bandwidth == if core.down.video > 0 then core.down.video else 0)
  {
    hide Alike, CheckUsability, BestSlot, VideoRtpmap;
    AlikeFields(core, prev.core);
    if slot in prev.core.local {
      UsabilityForecast(prev.core, slot);
      var u := CheckUsability(prev.core, slot);
      AlikeTransitive(core, prev.core, u.core);
      AlikeFields(core, u.core);
    }
  }

  lemma {:induction false} FirstVideoBandwidth(core: Core, now: Core, st: Stream, n: nat)
    requires core.inCall && Alike(core, now) && n <= |now.videoCodecs|
    ensures var o := OfferTo(now, VideoLine, st, n);
            && Alike(core, o.core)
            && (o.payloads != [] ==> o.payloads[0].bandwidth == if core.down.video > 0 then core.down.video else 0)
  {
    hide Alike, OfferOne;
    if n == 0 {
    } else {
      FirstVideoBandwidth(core, now, st, n - 1);
      FirstVideoOne(core, OfferTo(now, VideoLine, st, n - 1), st, now.videoCodecs[n - 1]);
    }
  }

  /** With one format for all payloads of a number, that is the line's format for it. */
  lemma {:induction false} FormatAmongUniform(ps: seq<Payload>, pt: int, fmtp: Option<string>)
    requires pt in Numbers(ps) && forall k | 0 <= k < |ps| && ps[k].pt == pt :: ps[k].fmtp == fmtp
    ensures FormatAmong(ps, pt) == if fmtp == Some("") then None else fmtp
  {
    if pt in Numbers(ps[1..]) {
      FormatAmongUniform(ps[1..], pt, fmtp);
    } else {
      AmongNone(ps[1..], pt);
      assert Numbers(ps) == [ps[0].pt] + Numbers(ps[1..]);
    }
  }

  /** Payloads of one number are offered from one slot, and so with one format. */
  lemma CodecFormatIsSlots(a: Session, m: Medium, j: nat)
    requires Coherent(a.core, m) && j < |CodecPayloads(a, m)|
    ensures var p := CodecPayloads(a, m)[j]; p.pt in a.core.local && p.fmtp == OwnFormat(a.core, m, p.pt)
  {
    hide CodecPayloads, NumberFromRtpmap, BestSlot, AnnouncedPort, SameIgnoringCase, OwnFormat;
    CodecsAreOurs(a, m);
    assert FromCodec(a.core, m, StreamOf(a, m), CodecPayloads(a, m)[j]);
  }

  /**
   * Our video line, all of it: the enabled and usable codecs in the order of our list, each with its own format
   * parameters, and our download share of the medium as the one bandwidth, when there is one.
   */
  lemma {:induction false} VideoLineLists(a: Session, addr: string, j: nat)
    requires a.core.inCall && Coherent(a.core, VideoLine) && HasCodecs(a, VideoLine) &&
             j < |CodecPayloads(a, VideoLine)|
    ensures |Offer(a, addr).message.lines| == 2
    ensures var line := Offer(a, addr).message.lines[1];
            && line.payloads == Offerable(a.core, VideoLine, |a.core.videoCodecs|)
            && j < |line.payloads| && line.payloads[j] in a.core.local
            && AttrValue(line.attrs, "fmtp", line.payloads[j]) ==
                 (var own := a.core.local[line.payloads[j]].recvFmtp; if own == Some("") then None else own)
            && (a.core.down.video > 0 ==> line.bws == [Bw("AS", a.core.down.video)])
  {
    hide Offer, LineOf, Coherent, AttrValue, Offerable, Alike, OfferTo, HasCodecs;
    var ps := LinePayloads(a, VideoLine);
    OfferShape(a, addr);
    OfferedCodecs(a, VideoLine);
    AudioOfferAlike(a.core, a.audio, |a.core.audioCodecs|);
    FirstVideoBandwidth(a.core, AfterAudio(a), a.video, |AfterAudio(a).videoCodecs|);
    LineContents("video", "RTP/AVP", ps, ps[j].pt);
    LineFormats("video", "RTP/AVP", ps, ps[j].pt);
    CodecFormatIsSlots(a, VideoLine, j);
    forall k | 0 <= k < |ps| && ps[k].pt == ps[j].pt ensures ps[k].fmtp == ps[j].fmtp {
      CodecFormatIsSlots(a, VideoLine, k);
    }
    assert Numbers(ps)[j] == ps[j].pt;
    FormatAmongUniform(ps, ps[j].pt, ps[j].fmtp);
  }

  // ---- what the peer makes of it ----

  /** A core's own codec of that text can be used. */
  predicate Takes(core: Core, text: string) {
    var k := NumberFromRtpmap(core.local, text);
    k >= 0 && Usable(core, k) && core.local[k].enabled
  }

  /** The name of an ordinary codec. */
  predicate PlainName(text: string) {
    !SameIgnoringCase(ParseRtpmap(text).mime, TELEPHONE_EVENT) && !SameIgnoringCase(ParseRtpmap(text).mime, "H264")
  }

  lemma CoherentIsPlain(prof: Profile, m: Medium, slot: int)
    requires slot in prof && CoherentSlot(prof, m, slot)
    ensures PlainName(TextOf(m, prof[slot]))
  {
    hide FindFormat, ParseRtpmap, TextOf, NumberOf;
    assert HasFormat(prof[slot], ParseRtpmap(TextOf(m, prof[slot])));
  }

  /** A plain codec name leads to a usable codec, or to nothing. */
  lemma {:induction false} PlainForecast(core: Core, p: Payload, text: string)
    requires p.rtpmap == Some(text) && PlainName(text)
    ensures Forecast(core, p) == if Takes(core, text) then SupportedAndValid else Unsupported
  {
    hide FindFormat, ParseRtpmap, Usable, SameIgnoringCase;
    var k := NumberFromRtpmap(core.local, text);
    if k >= 0 {
      SameNameKind(core.local[k].mime, ParseRtpmap(text).mime);
    }
  }

  lemma SameNameKind(a: string, b: string)
    requires SameIgnoringCase(a, b)
    ensures SameIgnoringCase(a, TELEPHONE_EVENT) <==> SameIgnoringCase(b, TELEPHONE_EVENT)
    ensures SameIgnoringCase(a, "H264") <==> SameIgnoringCase(b, "H264")
    ensures a == TELEPHONE_EVENT ==> SameIgnoringCase(b, TELEPHONE_EVENT)
  {
  }

  /** The text a codec of ours is offered with. */
  function OfferedName(a: Session, m: Medium, j: nat): string
    requires j < |CodecPayloads(a, m)|
  {
    CodecPayloads(a, m)[j].rtpmap.GetOr("")
  }

  lemma {:induction false} CodecLevel(a: Session, addr: string, m: Medium, j: nat, core: Core)
    requires Coherent(a.core, m) && HasCodecs(a, m) && j < |CodecPayloads(a, m)|
    ensures var msg := Offer(a, addr).message;
            && LineNo(m) < |msg.lines| && j < |msg.lines[LineNo(m)].payloads|
            && LevelAt(core, msg, LineNo(m), j) ==
                 if Takes(core, OfferedName(a, m, j)) then SupportedAndValid else Unsupported
  {
    hide Offer, CodecPayloads, LinePayloads, Coherent, CoherentSlot, Takes, Forecast, TextOf, AnnouncedPort, EnabledAt,
      HasCodecs;
    OfferedText(a, addr, m, j);
    CodecIsSlot(a, m, j);
    var msg := Offer(a, addr).message;
    CodecNameIsPlain(a, m, j);
    PlainForecast(core, PayloadAt(msg, LineNo(m), j), OfferedName(a, m, j));
  }

  lemma EnabledIsThere(core: Core, slot: int)
    requires EnabledAt(core, slot)
    ensures slot in core.local
  {
  }

  /** The peer can use one of the codecs we offer. */
  predicate TakesOne(core: Core, a: Session, m: Medium) {
    exists j :: 0 <= j < |CodecPayloads(a, m)| && Takes(core, OfferedName(a, m, j))
  }

  /** The first payload known to the peer is then one of these codecs. */
  lemma {:induction false} TakenComesFirst(a: Session, addr: string, m: Medium, core: Core)
    requires Coherent(a.core, m) && HasCodecs(a, m) && TakesOne(core, a, m)
    ensures var msg := Offer(a, addr).message;
            && LineNo(m) < |msg.lines|
            && var n := |msg.lines[LineNo(m)].payloads|;
               var k := FirstKnown(core, msg, LineNo(m), n);
               && CodecBeforeEvents(core, msg, LineNo(m))
               && k < n && k < |CodecPayloads(a, m)| && Takes(core, OfferedName(a, m, k))
  {
    hide Offer, CodecPayloads, Coherent, HasCodecs, Takes, LevelAt, OfferedName, CodecBeforeEvents, FirstKnown;
    var j :| 0 <= j < |CodecPayloads(a, m)| && Takes(core, OfferedName(a, m, j));
    var msg := Offer(a, addr).message;
    CodecLevel(a, addr, m, j, core);
    var n := |msg.lines[LineNo(m)].payloads|;
    var k := FirstKnown(core, msg, LineNo(m), n);
    CodecLevel(a, addr, m, k, core);
    CodecComesFirst(core, msg, LineNo(m));
  }

  /** Telephone events, under any spelling the searches accept, are spelt the way the support check expects. */
  predicate CanonicalEvents(prof: Profile) {
    forall i | i in prof && SameIgnoringCase(prof[i].mime, TELEPHONE_EVENT) :: prof[i].mime == TELEPHONE_EVENT
  }

  const EVENT_RTPMAP := "telephone-event/8000"

  lemma {:induction false} EventRtpmapParses()
    ensures ParseRtpmap(EVENT_RTPMAP).mime == TELEPHONE_EVENT
  {
    hide FindChar, Atoi;
    CutAtSlash(TELEPHONE_EVENT, "8000");
    assert EVENT_RTPMAP == TELEPHONE_EVENT + "/" + "8000";
  }

  /** No codec of ours is valid for the telephone-event rtpmap. */
  lemma {:induction false} EventIsNotValid(core: Core, p: Payload)
    requires CanonicalEvents(core.local) && p.rtpmap == Some(EVENT_RTPMAP)
    ensures !Forecast(core, p).SupportedAndValid?
  {
    hide BestMatch, SameIgnoringCase, ParseRtpmap, Usable;
    EventRtpmapParses();
    BestMatchFormat(core.local, EVENT_RTPMAP, p.fmtp);
  }

  lemma EventPayload(a: Session)
    ensures var n := |CodecPayloads(a, AudioLine)|;
            && |LinePayloads(a, AudioLine)| == n + 1
            && LinePayloads(a, AudioLine)[n].rtpmap == Some(EVENT_RTPMAP) && EVENT_RTPMAP != ""
  {
    hide CodecPayloads, AfterAudio;
  }

  /** Looking up the number of the telephone events leads to their text, or to that of a codec that shares it. */
  lemma {:induction false} EventText(a: Session, addr: string)
    requires HasCodecs(a, AudioLine) && Coherent(a.core, AudioLine)
    ensures var msg := Offer(a, addr).message;
            var n := |CodecPayloads(a, AudioLine)|;
            && |msg.lines| > 0 && |msg.lines[0].payloads| == n + 1
            && var text := PayloadAt(msg, 0, n).rtpmap;
               text == Some(EVENT_RTPMAP) || exists k :: 0 <= k < n && text == Some(OfferedName(a, AudioLine, k))
  {
    hide Offer, CodecPayloads, LineOf, Coherent, CoherentSlot, EnabledAt, AttrValue, AfterAudio, HasCodecs, TextOf;
    var ps := LinePayloads(a, AudioLine);
    var n := |CodecPayloads(a, AudioLine)|;
    OfferLine(a, addr, AudioLine);
    EventPayload(a);
    LineContents("audio", "RTP/AVP", ps, ps[n].pt);
    var k := RtpmapAmongUpTo(ps, n);
    if k < n {
      CodecIsSlot(a, AudioLine, k);
      assert ps[k].rtpmap == Some(OfferedName(a, AudioLine, k));
    }
  }

  lemma CodecNameIsPlain(a: Session, m: Medium, j: nat)
    requires Coherent(a.core, m) && j < |CodecPayloads(a, m)|
    ensures PlainName(OfferedName(a, m, j))
  {
    hide CodecPayloads, Coherent, CoherentSlot, EnabledAt, TextOf, PlainName;
    CodecIsSlot(a, m, j);
    EnabledIsThere(a.core, CodecPayloads(a, m)[j].pt);
    CoherentIsPlain(a.core.local, m, CodecPayloads(a, m)[j].pt);
  }

  /** The telephone events we offer are no codec to the peer, unless it can use one of ours. */
  lemma {:induction false} EventLevel(a: Session, addr: string, core: Core)
    requires HasCodecs(a, AudioLine) && Coherent(a.core, AudioLine) && CanonicalEvents(core.local)
    ensures var msg := Offer(a, addr).message;
            var n := |CodecPayloads(a, AudioLine)|;
            && |msg.lines| > 0 && |msg.lines[0].payloads| == n + 1
            && (LevelAt(core, msg, 0, n).SupportedAndValid? ==> TakesOne(core, a, AudioLine))
  {
    hide Offer, CodecPayloads, Coherent, HasCodecs, Takes, Forecast, CanonicalEvents, PlainName, OfferedName, PayloadAt;
    var n := |CodecPayloads(a, AudioLine)|;
    EventText(a, addr);
    var p := PayloadAt(Offer(a, addr).message, 0, n);
    if p.rtpmap == Some(EVENT_RTPMAP) {
      EventIsNotValid(core, p);
    } else {
      var k :| 0 <= k < n && p.rtpmap == Some(OfferedName(a, AudioLine, k));
      CodecNameIsPlain(a, AudioLine, k);
      PlainForecast(core, p, OfferedName(a, AudioLine, k));
    }
  }

  // ---- when our own line goes live ----

  /** The peer's settings when it comes to our line of this medium. */
  function PeerAt(b: Session, a: Session, addr: string, m: Medium): Outlook
    requires HasCodecs(a, m)
  {
    OfferLine(a, addr, m);
    OutlookTo(b, Offer(a, addr).message, LineNo(m))
  }

  /** Our line is the first of its medium, so it is judged with an open stream. */
  lemma {:induction false} PeerIsOpen(b: Session, a: Session, addr: string, m: Medium)
    requires HasCodecs(a, m)
    ensures var o := PeerAt(b, a, addr, m);
            && Settled(o, m) == StreamOf(b, m).initialized && o.core.videoEnabled == b.core.videoEnabled
            && (m.AudioLine? ==> o.core == b.core)
            && SameCodecs(b.core.local, o.core.local)
  {
    hide Offer, HasCodecs, Forecast, AfterSettling, FirstCodec, SameCodecs;
    OfferLine(a, addr, m);
    var msg := Offer(a, addr).message;
    SameSettingsReflexive(b.core);
    assert OutlookTo(b, msg, 0) == Outlook(b.core, b.audio.initialized, b.video.initialized);
    if m.VideoLine? {
      var j := FirstCodec(b.core, msg, 0, |msg.lines[0].payloads|);
      if j < |msg.lines[0].payloads| {
        SettlingKeepsFields(b.core, AudioLine, PayloadAt(msg, 0, j));
        SettlingKeepsCodecs(b.core, AudioLine, PayloadAt(msg, 0, j));
      }
    }
  }

  lemma SettlingKeepsCodecs(core: Core, m: Medium, p: Payload)
    ensures SameCodecs(core.local, AfterSettling(core, m, p).local)
  {
    hide LocalSlot, TestedBitrate;
  }

  /** The peer may look at our line, and its own stream is still to be settled. */
  predicate Open(b: Session, a: Session, m: Medium) {
    !StreamOf(b, m).initialized && Asked(b.core, m, AnnouncedPort(a.core, m, StreamOf(a, m)))
  }

  /**
   * Our line of a medium goes live at the peer exactly when the peer's stream is open, it looks at the line, and one of
   * the codecs we offer is one that its own profile finds by that text, has enabled and can fit.
   */
  lemma {:induction false} OwnLineLiveIff(a: Session, addr: string, b: Session, m: Medium)
    requires Coherent(a.core, m) && HasCodecs(a, m) && b.core.inCall && CanonicalEvents(b.core.local)
    ensures var msg := Offer(a, addr).message;
            var lines := AnswerTo(Linphone(), b, msg, |msg.lines|).lines;
            && LineNo(m) < |lines|
            && lines[LineNo(m)].port ==
                 if Open(b, a, m) && TakesOne(PeerAt(b, a, addr, m).core, a, m)
                 then AnnouncedPort(b.core, m, StreamOf(b, m)) else 0
  {
    hide Offer, AnswerTo, Coherent, HasCodecs, TakesOne, CodecBeforeEvents, AnnouncedPort, SameCodecs, CanonicalEvents,
      OutlookTo,
      CodecPayloads;
    var msg := Offer(a, addr).message;
    OfferLine(a, addr, m);
    OfferedText(a, addr, m, 0) by { HasFirstCodec(a, m); }
    PeerIsOpen(b, a, addr, m);
    var o := PeerAt(b, a, addr, m);
    assert MediaLines(msg, LineNo(m)) == LineNo(m);
    LineLiveIff(b, msg, LineNo(m), m);
    CanonicalKept(b.core.local, o.core.local);
    if TakesOne(o.core, a, m) {
      TakenComesFirst(a, addr, m, o.core);
    } else {
      NoneTaken(a, addr, m, o.core);
    }
  }

  lemma HasFirstCodec(a: Session, m: Medium)
    requires HasCodecs(a, m)
    ensures 0 < |CodecPayloads(a, m)|
  {
  }

  /** How many payloads our line has: one per codec, and the telephone events for audio. */
  lemma LineLength(a: Session, addr: string, m: Medium)
    requires Coherent(a.core, m) && HasCodecs(a, m)
    ensures var msg := Offer(a, addr).message;
            && LineNo(m) < |msg.lines|
            && |msg.lines[LineNo(m)].payloads| == |CodecPayloads(a, m)| + if m.AudioLine? then 1 else 0
  {
    hide Offer, CodecPayloads, AfterAudio, Coherent;
    OfferedText(a, addr, m, 0) by { HasFirstCodec(a, m); }
  }

  lemma {:induction false} NoneTaken(a: Session, addr: string, m: Medium, core: Core)
    requires Coherent(a.core, m) && HasCodecs(a, m) && !TakesOne(core, a, m) && CanonicalEvents(core.local)
    ensures LineNo(m) < |Offer(a, addr).message.lines| && !CodecBeforeEvents(core, Offer(a, addr).message, LineNo(m))
  {
    hide Offer, CodecPayloads, Coherent, HasCodecs, Takes, LevelAt, OfferedName, CanonicalEvents;
    var msg := Offer(a, addr).message;
    LineLength(a, addr, m);
    forall j | 0 <= j < |msg.lines[LineNo(m)].payloads| ensures !LevelAt(core, msg, LineNo(m), j).SupportedAndValid? {
      if j < |CodecPayloads(a, m)| {
        CodecLevel(a, addr, m, j, core);
        assert !Takes(core, OfferedName(a, m, j));
      } else {
        EventLevel(a, addr, core);
      }
    }
  }

  lemma {:induction false} CanonicalKept(a: Profile, b: Profile)
    requires SameCodecs(a, b) && CanonicalEvents(a)
    ensures CanonicalEvents(b)
  {
    forall i | i in b && SameIgnoringCase(b[i].mime, TELEPHONE_EVENT) ensures b[i].mime == TELEPHONE_EVENT {
      SameCodecAt(a, b, i);
    }
  }

  // ---- the reader's side ----

  /** A codec that is coherent for us is found valid again when its own text comes back. */
  lemma {:induction false} OwnTextIsValid(a: Core, s: Session, m: Medium, pt: int, p: Payload)
    requires SameSettings(a, s.core) && EnabledAt(a, pt) && CoherentSlot(a.local, m, pt)
    requires p.rtpmap == Some(TextOf(m, a.local[pt]))
    ensures CheckSupport(s, p, false).level.SupportedAndValid?
  {
    hide CheckSupport, FindFormat, AudioRtpmap, VideoRtpmap, ParseRtpmap, SameIgnoringCase, SameCodecs, BestSlot;
    SameCodecAt(a.local, s.core.local, pt);
    FindFormatSame(a.local, s.core.local, ParseRtpmap(TextOf(m, a.local[pt])), 0);
    assert LocalSlot(s.core, p) == pt;
    ValidMeans(s, p, false);
    NotEvent(s.core.local[pt].mime);
  }

  lemma NotEvent(mime: string)
    requires !SameIgnoringCase(mime, TELEPHONE_EVENT)
    ensures mime != TELEPHONE_EVENT
  {
  }

  lemma {:induction false} ReadKeepsSettings(s: Session, m: Medium, msg: Message, i: nat, n: nat)
    requires i < |msg.lines| && n <= |msg.lines[i].payloads|
    ensures SameSettings(s.core, ReadLine(Linphone(), s, m, msg, i, n).core)
  {
    hide CheckSupport, SameSettings, PayloadAt;
    if n == 0 {
      SameSettingsReflexive(s.core);
    } else {
      var prev := ReadLine(Linphone(), s, m, msg, i, n - 1);
      var p := PayloadAt(msg, i, n - 1);
      ReadKeepsSettings(s, m, msg, i, n - 1);
      var r := CheckSupport(prev, p, false);
      SupportKeeps(prev, p, false);
      SameSettingsTransitive(s.core, prev.core, r.session.core);
      if r.level.SupportedAndValid? { AllocateKeeps(s.core, r.session.core, r.session.core.local[r.slot].bitrate); }
    }
  }

  /** Before our line of this medium is read, its stream is untouched and the settings are ours. */
  lemma {:induction false} ReaderIsOpen(reader: Session, ans: Message, m: Medium)
    requires LineNo(m) < |ans.lines| && (m.VideoLine? ==> MediumOf(ans.lines[0].mtype) == Some(AudioLine))
    ensures var mid := ReadTo(Linphone(), reader, ans, LineNo(m));
            StreamOf(mid, m) == StreamOf(reader, m) && SameSettings(reader.core, mid.core)
  {
    hide ReadLine, SameSettings;
    SameSettingsReflexive(reader.core);
    assert ReadTo(Linphone(), reader, ans, 0) == reader;
    if m.VideoLine? {
      var n := |ans.lines[0].payloads|;
      ReadLineKeeps(reader, AudioLine, ans, 0, n, VideoLine);
      ReadKeepsSettings(reader, AudioLine, ans, 0, n);
    }
  }

  /** The text that comes back for a number of an accepted line is the text it was offered with. */
  lemma EchoedText(b: Session, offer: Message, i: nat, pt: int)
    requires AllMedia(offer) && i < |offer.lines|
    requires var lines := AnswerTo(Linphone(), b, offer, |offer.lines|).lines;
             i < |lines| && lines[i].port != 0 && pt in lines[i].payloads
    ensures var lines := AnswerTo(Linphone(), b, offer, |offer.lines|).lines;
            AttrValue(lines[i].attrs, "rtpmap", pt) == AttrValue(offer.lines[i].attrs, "rtpmap", pt)
  {
    hide AnswerTo, AttrValue;
    LinphoneEchoes();
    AnswerContents(Linphone(), b, offer, i);
  }

  // ---- the two ends composed ----

  /** The first number answered on a live line is that of the first payload known. */
  lemma {:induction false} FirstAnswered(b: Session, msg: Message, i: nat, m: Medium)
    requires b.core.inCall && AllMedia(msg) && i < |msg.lines| && MediumOf(msg.lines[i].mtype) == Some(m)
    requires GoesLive(OutlookTo(b, msg, i), m, msg, i)
    ensures var r := AnswerTo(Linphone(), b, msg, |msg.lines|);
            var k := FirstKnown(OutlookTo(b, msg, i).core, msg, i, |msg.lines[i].payloads|);
            && k < |msg.lines[i].payloads| && i < |r.lines|
            && r.lines[i].payloads != [] && r.lines[i].payloads[0] == msg.lines[i].payloads[k]
  {
    hide AnswerTo, Scan, FirstKnown, FirstCodec, LevelAt, CodecBeforeEvents, SameSettings, Alike, AnswerLine,
      AnnouncedPort, OutlookTo;
    var o := OutlookTo(b, msg, i);
    var before := AnswerTo(Linphone(), b, msg, i).session;
    assert MediaLines(msg, i) == i;
    OutlookHolds(b, msg, i);
    AlikeFields(o.core, before.core);
    OpenScan(before, m, msg, i, |msg.lines[i].payloads|, o.core);
    CodecComesFirst(o.core, msg, i);
    AnswerPrefix(Linphone(), b, msg, |msg.lines|, i);
    AnswerLineHeader(msg.lines[i], ScanOf(Linphone(), b, msg, i).kept);
  }

  /**
   * What both ends hold once they agree on our line of this medium: one enabled codec of ours that the peer can use.
   */
  ghost predicate AgreeOnCodec(a: Session, addrA: string, b: Session, addrB: string, reader: Session, m: Medium)
    requires HasCodecs(a, m)
  {
    var offer := Offer(a, addrA).message;
    var r := AnswerTo(Linphone(), b, offer, |offer.lines|);
    var st := StreamOf(ReadTo(Linphone(), reader, Message(addrB, r.lines), |r.lines|), m);
    && Agree(st, StreamOf(r.session, m), LineNo(m), AnnouncedPort(a.core, m, StreamOf(a, m)),
             AnnouncedPort(b.core, m, StreamOf(b, m)), addrA, addrB)
    && st.localport == OwnPort(reader.core, m) && StreamOf(r.session, m).localport == OwnPort(b.core, m)
    && EnabledAt(a.core, st.pt) && Takes(PeerAt(b, a, addrA, m).core, TextOf(m, a.core.local[st.pt]))
  }

  /**
   * Two phones fit for a negotiation of this medium: coherent codecs on our side, open streams, ports to announce; the
   * peer is in a call, as a phone is whenever its callbacks answer.
   */
  predicate Ready(a: Session, b: Session, reader: Session, m: Medium) {
    && Coherent(a.core, m) && HasCodecs(a, m) && SameSettings(a.core, reader.core) && !StreamOf(reader, m).initialized
    && b.core.inCall && Open(b, a, m) && AnnouncedPort(b.core, m, StreamOf(b, m)) != 0
  }

  /** A codec in common gives agreement: one that we offer and that the peer finds, has enabled and can fit. */
  lemma {:induction false} CommonCodecAgrees(a: Session, addrA: string, b: Session, addrB: string, reader: Session,
    m: Medium)
    requires Ready(a, b, reader, m) && TakesOne(PeerAt(b, a, addrA, m).core, a, m)
    ensures AgreeOnCodec(a, addrA, b, addrB, reader, m)
  {
    hide Offer, AnswerTo, Coherent, HasCodecs, TakesOne, Takes, CodecBeforeEvents, AnnouncedPort, SameSettings,
      SameCodecs, OutlookTo,
      CodecPayloads, FirstKnown, ReadTo, CoherentSlot, EnabledAt, TextOf, AttrValue, CheckSupport, Settle;
    var offer := Offer(a, addrA).message;
    var r := AnswerTo(Linphone(), b, offer, |offer.lines|);
    var ans := Message(addrB, r.lines);
    var i := LineNo(m);
    OfferLine(a, addrA, m);
    OfferedText(a, addrA, m, 0) by { HasFirstCodec(a, m); }
    PeerIsOpen(b, a, addrA, m);
    var o := PeerAt(b, a, addrA, m);
    TakenComesFirst(a, addrA, m, o.core);
    assert MediaLines(offer, i) == i;
    LineLiveIff(b, offer, i, m);
    FirstAnswered(b, offer, i, m);
    var k := FirstKnown(o.core, offer, i, |offer.lines[i].payloads|);
    OfferedText(a, addrA, m, k);
    CodecIsSlot(a, m, k);
    var pt := offer.lines[i].payloads[k];
    OneLiveStream(b, offer, m);
    AnswerAligned(Linphone(), b, offer);
    EchoedText(b, offer, i, pt);
    ReaderIsOpen(reader, ans, m);
    var mid := ReadTo(Linphone(), reader, ans, i);
    SameSettingsTransitive(a.core, reader.core, mid.core);
    OwnTextIsValid(a.core, mid, m, pt, PayloadAt(ans, i, 0));
    LineAgreement(b, offer, i, m, reader, addrB);
    SamePorts(reader.core, mid.core, m);
  }

  /** The peer's callback accepted the j-th codec that we offer. */
  predicate AcceptsCodec(a: Session, addrA: string, b: Session, m: Medium, j: nat) {
    var offer := Offer(a, addrA).message;
    && j < |CodecPayloads(a, m)|
    && LineNo(m) < |offer.lines| && MediumOf(offer.lines[LineNo(m)].mtype).Some? &&
      j < |offer.lines[LineNo(m)].payloads|
    && AcceptedAt(Linphone(), b, offer, LineNo(m), j)
  }

  /** An accepted payload is known to the peer, or comes after one that is. */
  lemma {:induction false} AcceptedIsKnown(b: Session, msg: Message, i: nat, m: Medium, j: nat)
    requires b.core.inCall && i < |msg.lines| && MediumOf(msg.lines[i].mtype) == Some(m) && j < |msg.lines[i].payloads|
    requires AcceptedAt(Linphone(), b, msg, i, j)
    requires var o := OutlookTo(b, msg, i); !Settled(o, m) && Asked(o.core, m, msg.lines[i].port)
    ensures FirstKnown(OutlookTo(b, msg, i).core, msg, i, |msg.lines[i].payloads|) <= j
  {
    hide AnswerTo, Scan, SameSettings, Alike, Accept, OutlookTo, AfterSettling, Forecast, FirstKnown, FirstCodec;
    var o := OutlookTo(b, msg, i);
    var before := AnswerTo(Linphone(), b, msg, i).session;
    var prev := Scan(Linphone(), before, m, msg, i, j).session;
    OutlookHolds(b, msg, i);
    AlikeFields(o.core, before.core);
    OpenScan(before, m, msg, i, j, o.core);
    if FirstCodec(o.core, msg, i, j) == j {
      AlikeFields(o.core, prev.core);
      PayloadAtFields(msg, i, j);
      OpenForecast(prev, m, PayloadAt(msg, i, j), o.core);
      assert !LevelAt(o.core, msg, i, j).Unsupported?;
    } else {
      assert !LevelAt(o.core, msg, i, FirstCodec(o.core, msg, i, j)).Unsupported?;
    }
  }

  /**
   * Agreement from acceptance: as soon as the peer accepts one of the codecs we offer, both ends settle on our line, on
   * one number that is an enabled codec of ours, and each sends to the port and address that the other announced.
   */
  lemma {:induction false} StreamAgreement(a: Session, addrA: string, b: Session, addrB: string, reader: Session,
    m: Medium, j: nat)
    requires Ready(a, b, reader, m) && AcceptsCodec(a, addrA, b, m, j)
    ensures AgreeOnCodec(a, addrA, b, addrB, reader, m)
  {
    hide Offer, Coherent, HasCodecs, Takes, SameSettings, SameCodecs, OutlookTo, CodecPayloads, FirstKnown,
      AgreeOnCodec, AcceptedAt,
      OfferedName, LevelAt;
    var offer := Offer(a, addrA).message;
    OfferLine(a, addrA, m);
    OfferedText(a, addrA, m, j);
    PeerIsOpen(b, a, addrA, m);
    var core := PeerAt(b, a, addrA, m).core;
    AcceptedIsKnown(b, offer, LineNo(m), m, j);
    var k := FirstKnown(core, offer, LineNo(m), |offer.lines[LineNo(m)].payloads|);
    CodecLevel(a, addrA, m, k, core);
    assert Takes(core, OfferedName(a, m, k));
    CommonCodecAgrees(a, addrA, b, addrB, reader, m);
  }

  // ---- from the settings of both ends ----

  predicate IsAudio(c: Codec) {
    c.kind.AudioContinuous? || c.kind.AudioPacketized?
  }

  /** A listed, enabled audio codec that fits our limits. */
  predicate CanOffer(core: Core, slot: int) {
    && slot in core.audioCodecs && EnabledAt(core, slot) && IsAudio(core.local[slot])
    && AudioFits(core.download, core.upload, core.local[slot].bitrate)
  }

  /** What an offer loop leaves as it was: limits, lists and all but the bitrates of video codecs. */
  predicate SameAudio(a: Core, b: Core) {
    && a.download == b.download && a.upload == b.upload && a.audioCodecs == b.audioCodecs
    && a.local.Keys == b.local.Keys && forall i | i in a.local :: AlikeCodecs(a.local[i], b.local[i])
  }

  lemma {:induction false} UsabilityKeepsAudio(core: Core, slot: int)
    requires slot in core.local
    ensures SameAudio(core, CheckUsability(core, slot).core)
    ensures IsAudio(core.local[slot]) ==>
              CheckUsability(core, slot).usable == AudioFits(core.download, core.upload, core.local[slot].bitrate)
  {
    hide AllocateLargest, AudioFits, MinBandwidth;
    AllocateLargestKeeps(core);
  }

  lemma SameAudioTransitive(a: Core, b: Core, c: Core)
    requires SameAudio(a, b) && SameAudio(b, c)
    ensures SameAudio(a, c)
  {
    forall i | i in a.local ensures AlikeCodecs(a.local[i], c.local[i]) {
      assert AlikeCodecs(a.local[i], b.local[i]) && AlikeCodecs(b.local[i], c.local[i]);
    }
  }

  lemma SameAudioAt(a: Core, b: Core, slot: int)
    requires SameAudio(a, b) && slot in a.local
    ensures slot in b.local && a.local[slot].kind == b.local[slot].kind &&
            a.local[slot].enabled == b.local[slot].enabled
    ensures a.local[slot].mime == b.local[slot].mime && a.local[slot].rate == b.local[slot].rate
    ensures IsAudio(a.local[slot]) ==> a.local[slot].bitrate == b.local[slot].bitrate
  {
    var c, d := a.local[slot], b.local[slot];
    assert AlikeCodecs(c, d);
    assert c.(bitrate := 0).kind == d.(bitrate := 0).kind && c.(bitrate := 0).enabled == d.(bitrate := 0).enabled;
    assert c.(bitrate := 0).mime == d.(bitrate := 0).mime && c.(bitrate := 0).rate == d.(bitrate := 0).rate;
  }

  predicate HasText(ps: seq<Payload>, text: string) {
    exists k :: 0 <= k < |ps| && ps[k].rtpmap == Some(text)
  }

  /** One turn of the audio offer loop keeps what is offered, and offers the codec if it can be. */
  lemma {:induction false} OfferOneAudio(core: Core, prev: Offering, st: Stream, slot: int, text: string)
    requires SameAudio(core, prev.core) && slot in core.local
    ensures var next := OfferOne(prev, AudioLine, st, slot);
            && SameAudio(core, next.core)
            && (HasText(prev.payloads, text) ==> HasText(next.payloads, text))
            && (CanOffer(core, slot) ==> HasText(next.payloads, AudioRtpmap(core.local[slot])))
  {
    hide CheckUsability, SameAudio, AudioRtpmap, AudioFits, NumberFromRtpmap;
    var next := OfferOne(prev, AudioLine, st, slot);
    SameAudioAt(core, prev.core, slot);
    UsabilityKeepsAudio(prev.core, slot);
    var u := CheckUsability(prev.core, slot);
    SameAudioTransitive(core, prev.core, u.core);
    SameAudioAt(core, u.core, slot);
    SameText(core.local[slot], u.core.local[slot]);
    SameLimits(core, prev.core);
    assert forall k | 0 <= k < |prev.payloads| :: next.payloads[k] == prev.payloads[k];
    if CanOffer(core, slot) {
      assert next.payloads[|prev.payloads|].rtpmap == Some(AudioRtpmap(core.local[slot]));
    }
  }

  lemma SameText(c: Codec, d: Codec)
    requires c.mime == d.mime && c.rate == d.rate
    ensures AudioRtpmap(c) == AudioRtpmap(d)
  {
  }

  lemma SameLimits(a: Core, b: Core)
    requires SameAudio(a, b)
    ensures a.download == b.download && a.upload == b.upload && forall i :: i in a.local <==> i in b.local
  {
  }

  lemma {:induction false} OfferedWhenItCan(core: Core, st: Stream, i: nat, n: nat)
    requires n <= |core.audioCodecs|
    ensures var o := OfferTo(core, AudioLine, st, n);
            && SameAudio(core, o.core)
            && (i < n && CanOffer(core, core.audioCodecs[i]) ==>
              HasText(o.payloads, AudioRtpmap(core.local[core.audioCodecs[i]])))
  {
    hide OfferOne, AudioRtpmap, HasText, AudioFits, SameAudio;
    if n == 0 {
      SameAudioReflexive(core);
    } else {
      OfferedWhenItCan(core, st, i, n - 1);
      var prev, slot := OfferTo(core, AudioLine, st, n - 1), core.audioCodecs[n - 1];
      SameLimits(core, prev.core);
      if slot in core.local {
        var mine := core.audioCodecs[if i < n then i else n - 1];
        OfferOneAudio(core, prev, st, slot, if mine in core.local then AudioRtpmap(core.local[mine]) else "");
      } else {
        UnknownSlot(prev, st, slot);
      }
    }
  }

  lemma SameAudioReflexive(core: Core)
    ensures SameAudio(core, core)
  {
  }

  lemma UnknownSlot(prev: Offering, st: Stream, slot: int)
    requires slot !in prev.core.local
    ensures OfferOne(prev, AudioLine, st, slot) == prev
  {
  }

  /**
   * Two phones with a codec in common agree on audio: it is enough that one codec of our list is enabled and fits our
   * limits, and that the peer finds a codec of its own by that name and rate which is enabled and fits the peer's.
   */
  lemma {:induction false} AudioAgreement(a: Session, addrA: string, b: Session, addrB: string, reader: Session,
    slot: int)
    requires Coherent(a.core, AudioLine) && SameSettings(a.core, reader.core)
    requires !reader.audio.initialized && !b.audio.initialized && b.core.inCall
    requires AnnouncedPort(b.core, AudioLine, b.audio) != 0
    requires CanOffer(a.core, slot) && Takes(b.core, AudioRtpmap(a.core.local[slot]))
    ensures HasCodecs(a, AudioLine) && AgreeOnCodec(a, addrA, b, addrB, reader, AudioLine)
  {
    hide OfferTo, AudioRtpmap, Coherent, SameSettings, AudioFits, Takes, AgreeOnCodec, Offer, OutlookTo, AnnouncedPort,
      SameAudio;
    var i :| 0 <= i < |a.core.audioCodecs| && a.core.audioCodecs[i] == slot;
    OfferedWhenItCan(a.core, a.audio, i, |a.core.audioCodecs|);
    var ps := CodecPayloads(a, AudioLine);
    var k :| 0 <= k < |ps| && ps[k].rtpmap == Some(AudioRtpmap(a.core.local[slot]));
    assert Takes(b.core, OfferedName(a, AudioLine, k));
    PeerIsOpen(b, a, addrA, AudioLine);
    CommonCodecAgrees(a, addrA, b, addrB, reader, AudioLine);
  }

  /** The plain phone's PCMU is found again through its own text. */
  lemma {:induction false} PlainPhoneIsCoherent()
    ensures Coherent(PlainPhone().core, AudioLine)
    ensures CanOffer(PlainPhone().core, 0) && Takes(PlainPhone().core, AudioRtpmap(PlainPhone().core.local[0]))
  {
    hide FindFormat, AudioRtpmap;
    var core := PlainPhone().core;
    assert |"PCMU"| == 4 && '/' !in "PCMU" && |"H264"| == 4 && |TELEPHONE_EVENT| == 15;
    assert ToLower("PCMU")[0] == 'p' && ToLower("H264")[0] == 'h';
    assert |ToLower("PCMU")| == 4 && |ToLower(TELEPHONE_EVENT)| == 15;
    CoherentWhenFirst(core.local, 0);
    assert CoherentSlot(core.local, AudioLine, 0);
    assert Usable(core, 0);
  }

  /** Two plain phones call each other: both settle on PCMU, each sending to the other's port 7078, RTCP on 7079. */
  lemma {:induction false} PlainPhonesAgree()
    ensures var a, b := PlainPhone(), PlainPhone();
            && HasCodecs(a, AudioLine) && AgreeOnCodec(a, "alice", b, "bob", a, AudioLine)
            && var offer := Offer(a, "alice").message;
               var r := AnswerTo(Linphone(), b, offer, |offer.lines|);
               var read := ReadTo(Linphone(), a, Message("bob", r.lines), |r.lines|);
               && r.session.audio.remoteaddr == "alice" && read.audio.remoteaddr == "bob"
               && r.session.audio.localport == 7078 && read.audio.localport == 7078
               && r.session.audio.remoteport == 7078 && read.audio.remoteport == 7078
               && r.session.audio.remotertcp == 7079 && read.audio.remotertcp == 7079
  {
    hide Coherent, CanOffer, Takes, HasCodecs, Offer, AnswerTo, ReadTo, EnabledAt, TextOf, PeerAt;
    PlainPhoneIsCoherent();
    SameSettingsReflexive(PlainPhone().core);
    AudioAgreement(PlainPhone(), "alice", PlainPhone(), "bob", PlainPhone(), 0);
  }

  /** The plain phone offers PCMU under 0 and telephone events under 101. */
  lemma {:induction false} PlainPhoneOffers(addr: string)
    ensures |Offer(PlainPhone(), addr).message.lines| > 0 &&
            Offer(PlainPhone(), addr).message.lines[0].payloads == [0, 101]
  {
    hide Offer, Coherent, CanOffer, Takes, AttrValue;
    var core := PlainPhone().core;
    PlainPhoneIsCoherent();
    AudioLineLists(PlainPhone(), addr);
    assert core.audioCodecs[0] == 0 && EnabledAt(core, 0) && Usable(core, 0);
    assert Offerable(core, AudioLine, 0) == [];
    assert Offerable(core, AudioLine, 1) == [0];
    assert |"PCMU"| == 4 && |"telephone-event"| == 15;
    assert |ToLower("PCMU")| == 4 && |ToLower("telephone-event")| == 15;
    assert EventSlot(core.local, 101);
    assert forall i | 0 <= i < SLOTS && EventSlot(core.local, i) :: i == 101;
  }
}
