/** The codec side of a call: limits, streams, the call profile, and the callbacks of Events.cpp on them. */
module Codecs {
  import opened Text
  import opened Bandwidth
  import opened Rtp
  import opened Sdp

  /** The settings and shares of the core that negotiation reads and updates; codec lists hold profile slots. */
  datatype Core = Core(
    local: Profile, audioCodecs: seq<int>, videoCodecs: seq<int>, audioPort: int, videoPort: int,
    onlyOneCodec: bool, videoEnabled: bool, inCall: bool, download: int, upload: int,
    audioBw: int, down: Share, up: Share)

  datatype Stream = Stream(
    initialized: bool, line: int, localport: int, remoteport: int, remotertcp: int, pt: int, natPort: int,
    remoteaddr: string)

  /** What a call owns during negotiation. */
  datatype Session = Session(core: Core, audio: Stream, video: Stream, profile: Profile)

  datatype Support = Unsupported | Supported | SupportedAndValid

  const TELEPHONE_EVENT := "telephone-event"

  // ---- bandwidth allocation ----

  /** linphone_core_update_allocated_audio_bandwidth_in_call(). */
  function AllocateAudio(core: Core, bitrate: int): Core {
    var bw := CDiv(AudioBandwidth(bitrate), 1000);
    core.(audioBw := bw, down := Split(core.download, bw), up := Split(core.upload, bw))
  }

  /** The largest bitrate among the enabled codecs of the first n listed. */
  function LargestEnabled(core: Core, n: nat): (r: Option<int>)
    requires n <= |core.audioCodecs|
    ensures forall i | 0 <= i < n && EnabledAt(core, core.audioCodecs[i]) ::
              r.Some? && core.local[core.audioCodecs[i]].bitrate <= r.value
    ensures r.Some? ==>
              exists i :: 0 <= i < n && EnabledAt(core, core.audioCodecs[i])
                          && core.local[core.audioCodecs[i]].bitrate == r.value
  {
    if n == 0 then None
    else
      var r := LargestEnabled(core, n - 1);
      var c := core.audioCodecs[n - 1];
      if EnabledAt(core, c) && (r.None? || r.value < core.local[c].bitrate) then Some(core.local[c].bitrate) else r
  }

  predicate EnabledAt(core: Core, slot: int) {
    slot in core.local && core.local[slot].enabled
  }

  /** linphone_core_update_allocated_audio_bandwidth(). */
  function AllocateLargest(core: Core): Core {
    var r := LargestEnabled(core, |core.audioCodecs|);
    if r.Some? then AllocateAudio(core, r.value) else core
  }

  /** The allocation covers every enabled audio codec. */
  lemma {:induction false} AllocationDominates(core: Core, i: nat)
    requires i < |core.audioCodecs| && EnabledAt(core, core.audioCodecs[i])
    ensures CDiv(AudioBandwidth(core.local[core.audioCodecs[i]].bitrate), 1000) <= AllocateLargest(core).audioBw
  {
    var r := LargestEnabled(core, |core.audioCodecs|);
    AudioBandwidthMonotone(core.local[core.audioCodecs[i]].bitrate, r.value);
  }

  /** The shares of both directions are those of their own settings. */
  predicate Allocated(core: Core) {
    ShareOf(core.down, core.download, core.audioBw) && ShareOf(core.up, core.upload, core.audioBw)
  }

  /** An allocation shares out each setting for the codec's bandwidth in whole kbit/s. */
  lemma AllocationShares(core: Core, bitrate: int)
    ensures var c := AllocateAudio(core, bitrate);
            && Allocated(c) && c.download == core.download && c.upload == core.upload && c.local == core.local
            && (bitrate >= 0 ==> c.audioBw * 1000 <= AudioBandwidth(bitrate) < (c.audioBw + 1) * 1000)
            && (bitrate >= 0 ==> c.audioBw > 0)
  {
    hide Split, AudioBandwidth;
    var bw := CDiv(AudioBandwidth(bitrate), 1000);
    SplitConserves(core.download, bw);
    SplitConserves(core.upload, bw);
    if bitrate >= 0 { AudioBandwidthBounds(bitrate); }
  }

  /** So it does outside calls, as soon as one audio codec is enabled. */
  lemma AllocateLargestShares(core: Core, i: nat)
    requires i < |core.audioCodecs| && EnabledAt(core, core.audioCodecs[i])
    ensures Allocated(AllocateLargest(core))
  {
    hide AllocateAudio, Allocated;
    var r := LargestEnabled(core, |core.audioCodecs|);
    assert r.Some?;
    AllocationShares(core, r.value);
  }

  // ---- usability and support ----

  datatype Usability = Usability(core: Core, usable: bool)

  /** linphone_core_check_payload_type_usability(): outside calls it reallocates; a video codec is given its bitrate. */
  function CheckUsability(core: Core, slot: int): Usability
    requires slot in core.local
  {
    var c1 := if core.inCall then core else AllocateLargest(core);
    var codec := c1.local[slot];
    match codec.kind
    case AudioContinuous | AudioPacketized => Usability(c1, AudioFits(c1.download, c1.upload, codec.bitrate))
    case Video =>
      var m := MinBandwidth(c1.down.video, c1.up.video);
      if m == 0 then Usability(c1, false)
      else Usability(c1.(local := c1.local[slot := codec.(bitrate := if m > 0 then m * 1000 else 1500000)]), true)
    case Other => Usability(c1, false)
  }

  /**
   * A video codec is usable during a call unless one of the two video shares is 0, and then it gets the smaller of the
   * shares that are set, or 1500000 bit/s when none is.
   */
  lemma {:induction false} VideoTuned(core: Core, slot: int)
    requires core.inCall && slot in core.local && core.local[slot].kind.Video?
    ensures var u := CheckUsability(core, slot);
            var down, up := core.down.video, core.up.video;
            && u.usable == (down != 0 && up != 0)
            && (u.usable ==>
                  var b := u.core.local[slot].bitrate;
                  && (down > 0 ==> b <= 1000 * down) && (up > 0 ==> b <= 1000 * up)
                  && (down > 0 || up > 0 ==> b == 1000 * down || b == 1000 * up)
                  && (down < 0 && up < 0 ==> b == 1500000))
  {
  }

  /** The upload share that bounds a codec of this kind. */
  function UploadLimit(core: Core, kind: Kind): int {
    if kind.Video? then core.up.video else core.up.audio
  }

  function SendBitrate(codec: Codec, remoteLimit: int, uploadLimit: int): int {
    if remoteLimit != 0 then 1000 * MinBandwidth(remoteLimit, uploadLimit)
    else if uploadLimit > 0 then 1000 * uploadLimit
    else if !codec.kind.Video? then -1
    else codec.bitrate
  }

  /**
   * The bitrate kept for sending is one of the two limits, within each that is not negative; without any limit, audio
   * may take what it likes and video keeps its own bitrate.
   */
  lemma SendBitrateIsALimit(codec: Codec, remoteLimit: int, uploadLimit: int)
    ensures var b := SendBitrate(codec, remoteLimit, uploadLimit);
            if remoteLimit == 0 && uploadLimit <= 0 then b == if codec.kind.Video? then codec.bitrate else -1
            else
              && (b == 1000 * remoteLimit || b == 1000 * uploadLimit)
              && (remoteLimit > 0 ==> b <= 1000 * remoteLimit)
              && (uploadLimit > 0 ==> b <= 1000 * uploadLimit)
  {
  }

  /** The clone that linphone_payload_is_supported() puts in the call profile. */
  function CallCodec(core: Core, codec: Codec, p: Payload): Codec {
    var send := if p.fmtp.Some? then p.fmtp else codec.sendFmtp;
    var ptime := "ptime=" + IntToString(p.ptime);
    codec.(bitrate := SendBitrate(codec, p.bandwidth, UploadLimit(core, codec.kind)),
           sendFmtp := if p.ptime <= 0 then send else if send.None? then Some(ptime)
             else Some(send.value + ";" + ptime))
  }

  /**
   * The clone is our codec but for its bitrate and what it sends: the peer's format parameters where the peer gave any,
   * ours otherwise, followed by the packet time where the peer asked for one.
   */
  lemma CallCodecFormat(core: Core, codec: Codec, p: Payload)
    ensures var c := CallCodec(core, codec, p);
            c.(bitrate := codec.bitrate, sendFmtp := codec.sendFmtp) == codec
    ensures p.ptime <= 0 && p.fmtp.Some? ==> CallCodec(core, codec, p).sendFmtp == p.fmtp
    ensures p.ptime <= 0 && p.fmtp.None? ==> CallCodec(core, codec, p).sendFmtp == codec.sendFmtp
    ensures p.ptime > 0 && p.fmtp.Some? ==>
              CallCodec(core, codec, p).sendFmtp == Some(p.fmtp.value + ";" + ("ptime=" + IntToString(p.ptime)))
    ensures p.ptime > 0 && p.fmtp.None? && codec.sendFmtp.Some? ==>
              CallCodec(core, codec, p).sendFmtp == Some(codec.sendFmtp.value + ";" + ("ptime=" + IntToString(p.ptime)))
    ensures p.ptime > 0 && p.fmtp.None? && codec.sendFmtp.None? ==>
              CallCodec(core, codec, p).sendFmtp == Some("ptime=" + IntToString(p.ptime))
  {
    hide SendBitrate, IntToString;
  }

  /** rtp_profile_set_payload(): a number outside the table is ignored. */
  function SetSlot(prof: Profile, pt: int, codec: Codec): Profile {
    if 0 <= pt < SLOTS then prof[pt := codec] else prof
  }

  /** So the call profile never leaves the table, and a number of the table is always taken over. */
  lemma SetSlotKeepsTable(prof: Profile, pt: int, codec: Codec)
    requires ValidProfile(prof)
    ensures ValidProfile(SetSlot(prof, pt, codec))
    ensures SetSlot(prof, pt, codec) == prof <==> !(0 <= pt < 128) || (pt in prof && prof[pt] == codec)
  {
  }

  datatype SupportResult = SupportResult(session: Session, payload: Payload, level: Support, slot: int)

  function LocalSlot(core: Core, p: Payload): int {
    if p.rtpmap.Some? then BestMatch(core.local, p.rtpmap.value, p.fmtp) else p.pt
  }

  /** linphone_payload_is_supported(), with the call profile as dialog profile. */
  function CheckSupport(s: Session, p: Payload, answering: bool): SupportResult {
    var slot := LocalSlot(s.core, p);
    if !(0 <= slot < SLOTS) || slot !in s.core.local then SupportResult(s, p, Unsupported, slot)
    else if s.core.local[slot].mime == TELEPHONE_EVENT then Insert(s, p, slot, Supported)
    else
      var u := if answering then CheckUsability(s.core, slot) else Usability(s.core, true);
      var s1 := s.(core := u.core);
      if !u.usable || !s1.core.local[slot].enabled then SupportResult(s1, p, Unsupported, slot)
      else Insert(s1, p, slot, SupportedAndValid)
  }

  function Insert(s: Session, p: Payload, slot: int, level: Support): SupportResult
    requires slot in s.core.local
  {
    var codec := s.core.local[slot];
    SupportResult(s.(profile := SetSlot(s.profile, p.pt, CallCodec(s.core, codec, p))),
                  p.(fmtp := codec.recvFmtp), level, slot)
  }

  // ---- the callbacks ----

  function StreamOf(s: Session, m: Medium): Stream {
    if m.AudioLine? then s.audio else s.video
  }

  function WithStream(s: Session, m: Medium, st: Stream): Session {
    if m.AudioLine? then s.(audio := st) else s.(video := st)
  }

  function LocalPort(core: Core, m: Medium): int {
    if m.AudioLine? then core.audioPort else core.videoPort
  }

  /** The port announced to the peer: the one seen behind the NAT when it is known. */
  function AnnouncedPort(core: Core, m: Medium, st: Stream): int {
    if st.natPort > 0 then st.natPort else LocalPort(core, m)
  }

  /** The first valid codec settles the stream. */
  function Settle(core: Core, m: Medium, st: Stream, p: Payload): Stream {
    st.(initialized := true, localport := LocalPort(core, m), line := p.line, pt := p.pt,
        remoteaddr := p.addr, remoteport := p.remoteport, remotertcp := p.remoteport + 1)
  }

  /** linphone_accept_audio_offer() and linphone_accept_video_offer(); `ok` stands for the result 0. */
  function Accept(s: Session, m: Medium, p: Payload): Outcome<Session> {
    if m.VideoLine? && !s.core.videoEnabled then Outcome(s, p, false)
    else if m.VideoLine? && p.remoteport == 0 then Outcome(s, p, true)
    else
      var r := CheckSupport(s, p, true);
      var st := StreamOf(r.session, m);
      if r.level.Unsupported? || (r.session.core.onlyOneCodec && st.initialized)
        then Outcome(r.session, r.payload, false)
      else if r.level.Supported? then Outcome(r.session, r.payload, true)
      else if st.initialized then Outcome(r.session, r.payload, st.line == p.line)
      else
        var core := if m.AudioLine? then AllocateAudio(r.session.core, r.session.core.local[r.slot].bitrate)
          else r.session.core;
        var limit := if m.AudioLine? then core.down.audio else core.down.video;
        Outcome(WithStream(r.session.(core := core), m, Settle(core, m, st, p)),
                r.payload.(localport := AnnouncedPort(core, m, st), bandwidth := if limit > 0 then limit else 0), true)
  }

  /** linphone_read_audio_answer() and linphone_read_video_answer(). */
  function Read(s: Session, m: Medium, p: Payload): Session {
    var r := CheckSupport(s, p, false);
    var st := StreamOf(r.session, m);
    if !r.level.SupportedAndValid? || st.initialized then r.session
    else
      var core := if m.AudioLine? then AllocateAudio(r.session.core, r.session.core.local[r.slot].bitrate)
        else r.session.core;
      WithStream(r.session.(core := core), m, Settle(core, m, st, p))
  }

  /** The table of callbacks that the phone installs. */
  function Linphone(): Handler<Session> {
    Handler({AudioLine, VideoLine}, Accept, {AudioLine, VideoLine}, Read)
  }

  // ---- offering ----

  datatype Offering = Offering(core: Core, payloads: seq<Payload>)

  function AudioPayload(core: Core, slot: int, st: Stream): Payload
    requires slot in core.local
  {
    var c := core.local[slot];
    var text := AudioRtpmap(c);
    Payload(0, NumberFromRtpmap(core.local, text), AnnouncedPort(core, AudioLine, st), 0, 0, "", Some(text),
            if SameIgnoringCase(c.mime, "iLBC") then Some("ptime=30") else None, 0)
  }

  function TelephonePayload(core: Core): Payload {
    Payload(0, FindMime(core.local, TELEPHONE_EVENT, 0), 0, 0, if core.down.audio > 0 then core.down.audio else 0, "",
            Some("telephone-event/8000"), Some("0-11"), 0)
  }

  function VideoPayload(core: Core, slot: int, st: Stream, first: bool): Payload
    requires slot in core.local
  {
    var c := core.local[slot];
    Payload(1, BestSlot(core.local, Query(c.mime, c.rate, c.recvFmtp, false)), AnnouncedPort(core, VideoLine, st), 0,
            if first && core.down.video > 0 then core.down.video else 0, "", Some(VideoRtpmap(c)), c.recvFmtp, 0)
  }

  /** One turn of an offer loop: a usable and enabled codec is offered; a listed slot is always in the profile. */
  function OfferOne(prev: Offering, m: Medium, st: Stream, slot: int): (r: Offering)
    ensures r.payloads == prev.payloads || (|r.payloads| == |prev.payloads| + 1 && prev.payloads < r.payloads)
  {
    if slot !in prev.core.local then prev
    else
      var u := CheckUsability(prev.core, slot);
      if !u.usable || !EnabledAt(u.core, slot) then Offering(u.core, prev.payloads)
      else Offering(u.core, prev.payloads + [if m.AudioLine? then AudioPayload(u.core, slot, st)
                                             else VideoPayload(u.core, slot, st, prev.payloads == [])])
  }

  /** The codecs of a list that the offer callbacks keep, over the first n. */
  function OfferTo(core: Core, m: Medium, st: Stream, n: nat): Offering
    requires n <= |CodecList(core, m)|
  {
    if n == 0 then Offering(core, [])
    else OfferOne(OfferTo(core, m, st, n - 1), m, st, CodecList(core, m)[n - 1])
  }

  function CodecList(core: Core, m: Medium): seq<int> {
    if m.AudioLine? then core.audioCodecs else core.videoCodecs
  }

  datatype Offered = Offered(core: Core, message: Message)

  /** linphone_set_audio_offer() then linphone_set_video_offer(). */
  function Offer(s: Session, localip: string): Offered {
    var audio := OfferTo(s.core, AudioLine, s.audio, |s.core.audioCodecs|);
    var line0 := LineOf("audio", "RTP/AVP", audio.payloads + [TelephonePayload(audio.core)]);
    if !s.core.videoEnabled then Offered(audio.core, Message(localip, [line0]))
    else
      var video := OfferTo(audio.core, VideoLine, s.video, |audio.core.videoCodecs|);
      Offered(video.core, Message(localip, [line0] + if video.payloads == [] then []
        else [LineOf("video", "RTP/AVP", video.payloads)]))
  }

  // ---- what one callback can and cannot do ----

  /** The settings no callback touches. */
  predicate SameSettings(a: Core, b: Core) {
    && a.audioPort == b.audioPort && a.videoPort == b.videoPort && a.audioCodecs == b.audioCodecs
    && a.videoCodecs == b.videoCodecs && a.onlyOneCodec == b.onlyOneCodec && a.videoEnabled == b.videoEnabled
    && a.inCall == b.inCall && a.download == b.download && a.upload == b.upload
    && SameCodecs(a.local, b.local)
  }

  /** Two local profiles that differ in bitrates only. */
  predicate SameCodecs(a: Profile, b: Profile) {
    a.Keys == b.Keys && forall i | i in a :: a[i].(bitrate := 0) == b[i].(bitrate := 0)
  }

  /** Allocation touches the shares only. */
  lemma AllocateLargestKeeps(core: Core)
    ensures var c := AllocateLargest(core); c == core.(audioBw := c.audioBw, down := c.down, up := c.up)
  {
    hide LargestEnabled, Split, AudioBandwidth;
  }

  lemma RetunedIsSame(prof: Profile, slot: int, bitrate: int)
    requires slot in prof
    ensures SameCodecs(prof, prof[slot := prof[slot].(bitrate := bitrate)])
  {
  }

  lemma SameCodecsReflexive(prof: Profile)
    ensures SameCodecs(prof, prof)
  {
  }

  lemma {:induction false} UsabilityKeeps(core: Core, slot: int)
    requires slot in core.local
    ensures SameSettings(core, CheckUsability(core, slot).core)
    ensures core.inCall ==> var c := CheckUsability(core, slot).core; c.up == core.up && c.down == core.down
    ensures slot in CheckUsability(core, slot).core.local
  {
    hide AllocateLargest, SameCodecs, AudioFits, MinBandwidth;
    AllocateLargestKeeps(core);
    SameCodecsReflexive(core.local);
    var c := CheckUsability(core, slot).core;
    RetunedIsSame(core.local, slot, if slot in c.local then c.local[slot].bitrate else 0);
  }

  lemma {:induction false} SupportKeeps(s: Session, p: Payload, answering: bool)
    ensures var r := CheckSupport(s, p, answering);
            && SameSettings(s.core, r.session.core)
            && r.session.audio == s.audio && r.session.video == s.video
            && r.payload.(fmtp := None) == p.(fmtp := None)
            && (!r.level.Unsupported? ==> r.slot in r.session.core.local)
            && (s.core.inCall ==> r.session.core.up == s.core.up)
  {
    hide CheckUsability, LocalSlot, CallCodec, SetSlot, SameSettings;
    SameSettingsReflexive(s.core);
    var slot := LocalSlot(s.core, p);
    if slot in s.core.local { UsabilityKeeps(s.core, slot); }
  }

  lemma SameSettingsReflexive(a: Core)
    ensures SameSettings(a, a)
  {
  }

  lemma AllocateKeeps(a: Core, b: Core, bitrate: int)
    requires SameSettings(a, b)
    ensures SameSettings(a, AllocateAudio(b, bitrate))
  {
  }

  function OtherMedium(m: Medium): Medium {
    if m.AudioLine? then VideoLine else AudioLine
  }

  /** How one accept callback may change its stream and the port it announces. */
  predicate SettlesOn(core: Core, before: Stream, after: Stream, m: Medium, p: Payload, r: Outcome<Session>) {
    if before.initialized || !after.initialized then
      after == before && r.payload.localport == p.localport
    else
      && r.ok && after == Settle(core, m, before, p)
      && r.payload.localport == AnnouncedPort(core, m, before)
  }

  /**
   * A callback never touches the other stream, never unsettles a stream, and settles it on the payload it was given.
   */
  lemma {:induction false} AcceptSettles(s: Session, m: Medium, p: Payload)
    ensures var r := Accept(s, m, p);
            && SameSettings(s.core, r.session.core)
            && StreamOf(r.session, OtherMedium(m)) == StreamOf(s, OtherMedium(m))
            && r.payload.pt == p.pt && r.payload.line == p.line && r.payload.rtpmap == p.rtpmap
            && SettlesOn(s.core, StreamOf(s, m), StreamOf(r.session, m), m, p, r)
  {
    var r := CheckSupport(s, p, true);
    SupportKeeps(s, p, true);
    if r.level.SupportedAndValid? {
      AllocateKeeps(s.core, r.session.core, r.session.core.local[r.slot].bitrate);
    }
  }

  /**
   * What a payload of an answer does to the call: the first valid one settles the stream on what the peer announced.
   */
  predicate ReadsRight(s: Session, m: Medium, p: Payload, r: Session) {
    var slot := LocalSlot(s.core, p);
    var known := 0 <= slot < SLOTS && slot in s.core.local;
    var before, after := StreamOf(s, m), StreamOf(r, m);
    if known && s.core.local[slot].mime != TELEPHONE_EVENT && s.core.local[slot].enabled && !before.initialized then
      && after == before.(initialized := true, line := p.line, pt := p.pt, remoteaddr := p.addr,
                          remoteport := p.remoteport, remotertcp := p.remoteport + 1, localport := after.localport)
      && after.localport == (match m case AudioLine => s.core.audioPort case VideoLine => s.core.videoPort)
      && (m.AudioLine? ==>
            && Allocated(r.core)
            && (s.core.local[slot].bitrate >= 0 ==>
                  r.core.audioBw * 1000 <= AudioBandwidth(s.core.local[slot].bitrate) < (r.core.audioBw + 1) * 1000))
      && (m.VideoLine? ==> r.core == s.core)
    else
      after == before && r.core == s.core
  }

  /** Reading refines the audio allocation to the codec that is going to be used, and changes no setting besides. */
  lemma {:induction false} ReadSettles(s: Session, m: Medium, p: Payload)
    ensures ReadsRight(s, m, p, Read(s, m, p))
    ensures StreamOf(Read(s, m, p), OtherMedium(m)) == StreamOf(s, OtherMedium(m))
  {
    hide LocalSlot, AllocateAudio, CallCodec, SetSlot, Allocated, AudioBandwidth;
    var slot := LocalSlot(s.core, p);
    if slot in s.core.local {
      AllocationShares(s.core, s.core.local[slot].bitrate);
      AllocationPorts(s.core, s.core.local[slot].bitrate);
    }
  }

  lemma AllocationPorts(core: Core, bitrate: int)
    ensures var c := AllocateAudio(core, bitrate); c.audioPort == core.audioPort && c.videoPort == core.videoPort
  {
  }

  /** A known payload of an answer is entered in the call profile under its number, as a clone of our codec. */
  lemma {:induction false} ReadInserts(s: Session, m: Medium, p: Payload)
    requires 0 <= p.pt < SLOTS
    ensures var slot := LocalSlot(s.core, p);
            var r := Read(s, m, p);
            if 0 <= slot < SLOTS && slot in s.core.local
               && (s.core.local[slot].mime == TELEPHONE_EVENT || s.core.local[slot].enabled) then
              p.pt in r.profile && OursFor(r.profile[p.pt], p, s.core) &&
                r.profile == s.profile[p.pt := r.profile[p.pt]]
            else
              r.profile == s.profile
  {
    hide LocalSlot, AllocateAudio, CallCodec;
    var slot := LocalSlot(s.core, p);
    if slot in s.core.local {
      SameCodecsReflexive(s.core.local);
      CallCodecIsOurs(s.core, s.core, slot, p);
    }
  }

  /** An accepted payload is answered with the format parameters of our own codec, the one its rtpmap leads to. */
  lemma AcceptAnswersOwnFormat(s: Session, m: Medium, p: Payload)
    requires Accept(s, m, p).ok && !(m.VideoLine? && p.remoteport == 0)
    ensures var slot := LocalSlot(s.core, p);
            0 <= slot < SLOTS && slot in s.core.local && Accept(s, m, p).payload.fmtp == s.core.local[slot].recvFmtp
  {
    hide LocalSlot, SetSlot, CallCodec;
    var slot := LocalSlot(s.core, p);
    if slot in s.core.local { UsabilityKeepsFormat(s.core, slot); }
  }

  lemma UsabilityKeepsFormat(core: Core, slot: int)
    requires slot in core.local
    ensures var c := CheckUsability(core, slot).core;
            && slot in c.local && c.local[slot].recvFmtp == core.local[slot].recvFmtp
            && c.local[slot].kind == core.local[slot].kind && c.local[slot].mime == core.local[slot].mime
  {
  }

  /**
   * Once a stream is settled, one codec is all there is when the setting says so, and other lines get no valid codec.
   */
  lemma SettledRefuses(s: Session, m: Medium, p: Payload)
    requires StreamOf(s, m).initialized && !(m.VideoLine? && p.remoteport == 0)
    ensures s.core.onlyOneCodec ==> !Accept(s, m, p).ok
    ensures StreamOf(s, m).line != p.line && Accept(s, m, p).ok ==> CheckSupport(s, p, true).level.Supported?
  {
    SupportKeeps(s, p, true);
  }

  /**
   * What a codec put in the call profile satisfies, for the peer's limit (0 when there is none) and the upload share of
   * its kind: its bitrate is one of the two limits and within both; an audio codec without limits is unbounded; and a
   * video codec got through the usability test, which wants a share.
   */
  predicate FitFor(c: Codec, remoteLimit: int, core: Core) {
    var share := if c.kind.Video? then core.up.video else core.up.audio;
    && (remoteLimit > 0 ==> c.bitrate <= 1000 * remoteLimit)
    && (share > 0 ==> c.bitrate <= 1000 * share)
    && (remoteLimit != 0 || share > 0 ==> c.bitrate == 1000 * remoteLimit || c.bitrate == 1000 * share)
    && (remoteLimit == 0 && share <= 0 && !c.kind.Video? ==> c.bitrate == -1)
    && (c.kind.Video? && c.mime != TELEPHONE_EVENT ==> share != 0)
  }

  /** The codec is a clone of the one of ours that the payload leads to, but for its bitrate and what it sends. */
  predicate OursFor(c: Codec, p: Payload, core: Core) {
    var slot := LocalSlot(core, p);
    slot in core.local && c.(bitrate := 0, sendFmtp := None) == core.local[slot].(bitrate := 0, sendFmtp := None)
  }

  predicate PutsFor(c: Codec, p: Payload, core: Core) {
    FitFor(c, p.bandwidth, core) && OursFor(c, p, core)
  }

  /** The call profile after one callback: only the payload's own number may change, and what is put there fits. */
  predicate InsertsAt(before: Profile, after: Profile, p: Payload, core: Core) {
    && (forall i | i in before :: i in after)
    && (forall i | i in after && i != p.pt :: i in before && after[i] == before[i])
    && (p.pt in after && !(p.pt in before && after[p.pt] == before[p.pt]) ==> PutsFor(after[p.pt], p, core))
  }

  /** The profile has an entry for the payload's number, and it fits. */
  predicate HoldsCodec(prof: Profile, p: Payload, core: Core) {
    p.pt in prof && PutsFor(prof[p.pt], p, core)
  }

  lemma {:induction false} CallCodecFits(core: Core, codec: Codec, p: Payload)
    requires codec.kind.Video? && codec.mime != TELEPHONE_EVENT ==> core.up.video != 0
    ensures FitFor(CallCodec(core, codec, p), p.bandwidth, core)
  {
    hide SendBitrate, IntToString;
    SendBitrateIsALimit(codec, p.bandwidth, UploadLimit(core, codec.kind));
  }

  lemma UsableHasShare(core: Core, slot: int)
    requires core.inCall && slot in core.local && core.local[slot].kind.Video? && CheckUsability(core, slot).usable
    ensures core.up.video != 0
  {
  }

  lemma {:induction false} SupportInserts(s: Session, p: Payload)
    requires s.core.inCall
    ensures var r := CheckSupport(s, p, true);
            && InsertsAt(s.profile, r.session.profile, p, s.core)
            && (!r.level.Unsupported? && 0 <= p.pt < SLOTS ==> HoldsCodec(r.session.profile, p, s.core))
  {
    hide CheckUsability, LocalSlot, CallCodec, FitFor, OursFor, SameCodecs;
    var slot := LocalSlot(s.core, p);
    if slot in s.core.local {
      UsabilityKeeps(s.core, slot);
      UsabilityKeepsFormat(s.core, slot);
      var r := CheckSupport(s, p, true);
      if !r.level.Unsupported? {
        if r.level.SupportedAndValid? && s.core.local[slot].kind.Video? { UsableHasShare(s.core, slot); }
        CallCodecFits(r.session.core, r.session.core.local[slot], p);
        SameCodecsReflexive(s.core.local);
        CallCodecIsOurs(s.core, r.session.core, slot, p);
        FitsSameShares(s.core, r.session.core, CallCodec(r.session.core, r.session.core.local[slot], p), p.bandwidth);
      }
    }
  }

  lemma {:induction false} CallCodecIsOurs(before: Core, core: Core, slot: int, p: Payload)
    requires SameCodecs(before.local, core.local) && slot in before.local && slot in core.local
    requires slot == LocalSlot(before, p)
    ensures OursFor(CallCodec(core, core.local[slot], p), p, before)
  {
    hide LocalSlot, CallCodec;
    var b, c := before.local[slot], core.local[slot];
    CallCodecFormat(core, c, p);
    var d := CallCodec(core, c, p);
    assert b.(bitrate := 0) == c.(bitrate := 0);
    assert d.(bitrate := 0, sendFmtp := None) ==
      d.(bitrate := c.bitrate, sendFmtp := c.sendFmtp).(bitrate := 0, sendFmtp := None);
    assert b.(bitrate := 0, sendFmtp := None) == b.(bitrate := 0).(sendFmtp := None);
  }

  lemma FitsSameShares(a: Core, b: Core, c: Codec, remoteLimit: int)
    requires a.up == b.up
    ensures FitFor(c, remoteLimit, a) == FitFor(c, remoteLimit, b)
  {
  }

  predicate Bypassed(s: Session, m: Medium, p: Payload) {
    m.VideoLine? && (!s.core.videoEnabled || p.remoteport == 0)
  }

  lemma AcceptUsesSupport(s: Session, m: Medium, p: Payload)
    ensures Accept(s, m, p).session.profile ==
            if Bypassed(s, m, p) then s.profile else CheckSupport(s, p, true).session.profile
    ensures !Bypassed(s, m, p) && Accept(s, m, p).ok ==> !CheckSupport(s, p, true).level.Unsupported?
  {
  }

  lemma {:induction false} AcceptInserts(s: Session, m: Medium, p: Payload)
    requires s.core.inCall
    ensures var r := Accept(s, m, p);
            && InsertsAt(s.profile, r.session.profile, p, s.core)
            && (r.ok && 0 <= p.pt < SLOTS && !(m.VideoLine? && p.remoteport == 0) ==>
                  HoldsCodec(r.session.profile, p, s.core))
  {
    AcceptUsesSupport(s, m, p);
    SupportInserts(s, p);
    assert Bypassed(s, m, p) && Accept(s, m, p).ok ==> p.remoteport == 0;
  }
}
