/** The call object during negotiation: the loops and in-place updates of SdpHandler.cpp, Events.cpp and Misc.cpp. */
module CallMedia {
  import opened Text
  import opened Bandwidth
  import opened Rtp
  import opened Codecs
  import opened Sdp

  class Call {
    var core: Core
    var audio: Stream
    var video: Stream
    var profile: Profile
    var offer: Option<Message>
    var answer: Option<Message>
    var status: int

    constructor (core: Core, audio: Stream, video: Stream)
      ensures Abs() == Session(core, audio, video, map[]) && offer == None && answer == None && status == 0
    {
      this.core, this.audio, this.video, profile := core, audio, video, map[];
      offer, answer, status := None, None, 0;
    }

    ghost function Abs(): Session
      reads this
    {
      Session(core, audio, video, profile)
    }

    // ---- Misc.cpp ----

    /** linphone_core_set_download_bandwidth() and linphone_core_set_upload_bandwidth() for a new audio share. */
    method UpdateAllocatedInCall(bitrate: int)
      modifies this`core
      ensures core == AllocateAudio(old(core), bitrate) && Allocated(core)
    {
      AllocationShares(core, bitrate);
      core := core.(audioBw := CDiv(AudioBandwidth(bitrate), 1000));
      core := core.(down := Split(core.download, core.audioBw));
      core := core.(up := Split(core.upload, core.audioBw));
    }

    /** linphone_core_update_allocated_audio_bandwidth(): the loop for the largest enabled bitrate. */
    method UpdateAllocated()
      modifies this`core
      ensures core == AllocateLargest(old(core))
      ensures (exists i :: 0 <= i < |old(core).audioCodecs| && EnabledAt(old(core), old(core).audioCodecs[i])) ==>
                Allocated(core)
    {
      hide Allocated;
      var max := None;
      var i := 0;
      while i < |core.audioCodecs|
        invariant 0 <= i <= |core.audioCodecs| && core == old(core)
        invariant max == LargestEnabled(core, i)
      {
        var slot := core.audioCodecs[i];
        if slot in core.local && core.local[slot].enabled {
          if max.None? || max.value < core.local[slot].bitrate {
            max := Some(core.local[slot].bitrate);
          }
        }
        i := i + 1;
      }
      if max.Some? { UpdateAllocatedInCall(max.value); }
    }

    /** linphone_core_check_payload_type_usability(). */
    method CheckUsable(slot: int) returns (usable: bool)
      requires slot in core.local
      modifies this`core
      ensures Usability(core, usable) == CheckUsability(old(core), slot)
    {
      if !core.inCall { UpdateAllocated(); }
      var minAudio := MinBandwidth(core.download, core.upload);
      if minAudio == 0 { minAudio := -1; }
      var minVideo := MinBandwidth(core.down.video, core.up.video);
      var codec := core.local[slot];
      usable := false;
      match codec.kind
      case AudioContinuous | AudioPacketized =>
        usable := IsGreater(minAudio * 1000, AudioBandwidth(codec.bitrate));
      case Video =>
        if minVideo != 0 {
          core := core.(local := core.local[slot :=
            codec.(bitrate := if minVideo > 0 then minVideo * 1000 else 1500000)]);
          usable := true;
        }
      case Other =>
    }

    // ---- Events.cpp ----

    /** linphone_payload_is_supported(). */
    method PayloadSupport(p: Payload, answering: bool) returns (level: Support, q: Payload, slot: int)
      modifies this`core, this`profile
      ensures SupportResult(Abs(), q, level, slot) == CheckSupport(old(Abs()), p, answering)
    {
      hide AllocateLargest, BestMatch;
      q := p;
      level := Unsupported;
      slot := if p.rtpmap.Some? then BestMatch(core.local, p.rtpmap.value, p.fmtp) else p.pt;
      if !(0 <= slot < SLOTS) || slot !in core.local { return; }
      if core.local[slot].mime != TELEPHONE_EVENT {
        if answering {
          UsabilityKeeps(core, slot);
          var usable := CheckUsable(slot);
          if !usable { return; }
        }
        if !core.local[slot].enabled { return; }
        level := SupportedAndValid;
      } else {
        level := Supported;
      }
      var clone := core.local[slot];
      clone := CallCodec(core, clone, p);
      profile := SetSlot(profile, p.pt, clone);
      q := p.(fmtp := core.local[slot].recvFmtp);
    }

    /** linphone_accept_audio_offer(). */
    method AcceptAudio(p: Payload) returns (ok: bool, q: Payload)
      modifies this`core, this`profile, this`audio
      ensures Outcome(Abs(), q, ok) == Accept(old(Abs()), AudioLine, p)
    {
      hide BestMatch, AllocateLargest, CallCodec, SetSlot, CheckUsability, CheckSupport;
      SupportKeeps(Abs(), p, true);
      var level, r, slot := PayloadSupport(p, true);
      q := r;
      if level.Unsupported? { return false, q; }
      if core.onlyOneCodec && audio.initialized { return false, q; }
      if level.SupportedAndValid? {
        if !audio.initialized {
          q := q.(localport := if audio.natPort > 0 then audio.natPort else core.audioPort);
          audio := Settle(core, AudioLine, audio, p);
          UpdateAllocatedInCall(core.local[slot].bitrate);
          q := q.(bandwidth := if core.down.audio > 0 then core.down.audio else 0);
        } else if audio.line != p.line {
          return false, q;
        }
      }
      return true, q;
    }

    /** linphone_accept_video_offer(). */
    method AcceptVideo(p: Payload) returns (ok: bool, q: Payload)
      modifies this`core, this`profile, this`video
      ensures Outcome(Abs(), q, ok) == Accept(old(Abs()), VideoLine, p)
    {
      hide BestMatch, AllocateLargest, CallCodec, SetSlot, CheckUsability, CheckSupport;
      q := p;
      if !core.videoEnabled { return false, q; }
      if p.remoteport == 0 { return true, q; }
      SupportKeeps(Abs(), p, true);
      var level, r, slot := PayloadSupport(p, true);
      q := r;
      if level.Unsupported? { return false, q; }
      if core.onlyOneCodec && video.initialized { return false, q; }
      if level.SupportedAndValid? {
        if !video.initialized {
          q := q.(localport := if video.natPort > 0 then video.natPort else core.videoPort);
          video := Settle(core, VideoLine, video, p);
          q := q.(bandwidth := if core.down.video > 0 then core.down.video else 0);
        } else if video.line != p.line {
          return false, q;
        }
      }
      return true, q;
    }

    /** linphone_read_audio_answer(). */
    method ReadAudio(p: Payload)
      modifies this`core, this`profile, this`audio
      ensures Abs() == Read(old(Abs()), AudioLine, p)
    {
      hide BestMatch, AllocateLargest, CallCodec, SetSlot, CheckUsability, CheckSupport;
      SupportKeeps(Abs(), p, false);
      var level, r, slot := PayloadSupport(p, false);
      if level.SupportedAndValid? && !audio.initialized {
        audio := Settle(core, AudioLine, audio, p);
        UpdateAllocatedInCall(core.local[slot].bitrate);
      }
    }

    /** linphone_read_video_answer(). */
    method ReadVideo(p: Payload)
      modifies this`core, this`profile, this`video
      ensures Abs() == Read(old(Abs()), VideoLine, p)
    {
      hide BestMatch, AllocateLargest, CallCodec, SetSlot, CheckUsability, CheckSupport;
      SupportKeeps(Abs(), p, false);
      var level, r, slot := PayloadSupport(p, false);
      if level.SupportedAndValid? && !video.initialized {
        video := Settle(core, VideoLine, video, p);
      }
    }

    // ---- SdpHandler.cpp: offering ----

    /** sdp_context_add_payload() on the offer under construction. */
    static method AddPayload(lines: seq<Media>, p: Payload, media: string) returns (r: seq<Media>)
      requires p.line >= 0
      ensures r == PutPayload(if p.line < |lines| then lines else lines + [EmptyLine(media, p.localport, "RTP/AVP")],
              p.line, p)
    {
      r := lines;
      if p.line >= |r| { r := r + [EmptyLine(media, p.localport, "RTP/AVP")]; }
      r := PutPayload(r, p.line, p);
    }

    /** One codec of the offer loops: usable and enabled codecs are added to the medium's line. */
    method OfferCodec(m: Medium, slot: int, lines: seq<Media>, at: nat, ghost ps: seq<Payload>, first: bool)
      returns (r: seq<Media>, kept: bool)
      requires at == (if m.AudioLine? then 0 else 1) && at <= |lines| && lines[at..] == Line(m, ps) &&
               first == (ps == [])
      modifies this`core
      ensures SameSettings(old(core), core)
      ensures var o := OfferOne(Offering(old(core), ps), m, StreamOf(Abs(), m), slot);
              && core == o.core && r == lines[..at] + Line(m, o.payloads) && kept == (|o.payloads| > |ps|)
    {
      hide CheckUsability, AudioPayload, VideoPayload, SameCodecs, LineOf;
      r, kept := lines, false;
      assert lines == lines[..at] + lines[at..];
      SameSettingsReflexive(core);
      if slot in core.local {
        UsabilityKeeps(core, slot);
        var usable := CheckUsable(slot);
        if usable && EnabledAt(core, slot) {
          PayloadLines(core, slot, audio, video, first);
          var p := if m.AudioLine? then AudioPayload(core, slot, audio) else VideoPayload(core, slot, video, first);
          r := PutOnLine(lines, at, p, if m.AudioLine? then "audio" else "video", ps);
          kept := true;
        }
      }
    }

    /** linphone_set_audio_offer(). */
    method SetAudioOffer() returns (lines: seq<Media>)
      modifies this`core
      ensures var o := OfferTo(old(core), AudioLine, audio, |old(core).audioCodecs|);
              core == o.core && lines == [LineOf("audio", "RTP/AVP", o.payloads + [TelephonePayload(o.core)])]
    {
      hide OfferOne, TelephonePayload, SameCodecs, LineOf;
      lines := [];
      ghost var start := core;
      ghost var ps := [];
      var i := 0;
      var first := true;
      while i < |core.audioCodecs|
        invariant 0 <= i <= |core.audioCodecs| && core.audioCodecs == start.audioCodecs
        invariant Offering(core, ps) == OfferTo(start, AudioLine, audio, i)
        invariant first == (ps == []) && lines == Line(AudioLine, ps)
      {
        var kept;
        ghost var o := OfferOne(Offering(core, ps), AudioLine, audio, core.audioCodecs[i]);
        assert lines[0..] == lines && lines[..0] == [];
        lines, kept := OfferCodec(AudioLine, core.audioCodecs[i], lines, 0, ps, first);
        OfferOneGrows(Offering(o.core, ps), o.payloads, ps, kept);
        first := first && !kept;
        ps := o.payloads;
        i := i + 1;
      }
      var tel := TelephonePayload(core);
      assert lines[0..] == lines && lines[..0] == [];
      TelephoneLine(core);
      lines := PutOnLine(lines, 0, tel, "audio", ps);
    }

    /** AddPayload() on the line that holds the payloads `ps` so far, if any. */
    static method PutOnLine(lines: seq<Media>, at: nat, p: Payload, media: string, ghost ps: seq<Payload>)
      returns (r: seq<Media>)
      requires p.line == at && at <= |lines|
      requires lines[at..] == if ps == [] then [] else [LineOf(media, "RTP/AVP", ps)]
      ensures r == lines[..at] + [LineOf(media, "RTP/AVP", ps + [p])]
    {
      r := AddPayload(lines, p, media);
      assert (ps + [p])[..|ps|] == ps;
      if ps != [] {
        assert |lines[at..]| == 1 && lines == lines[..at] + lines[at..];
        assert lines[at] == lines[at..][0];
      } else {
        assert |lines[at..]| == 0 && lines[..at] == lines;
      }
    }

    /** linphone_set_video_offer(). */
    method SetVideoOffer(start: seq<Media>) returns (lines: seq<Media>)
      requires |start| == 1
      modifies this`core
      ensures if !old(core).videoEnabled then core == old(core) && lines == start
              else var o := OfferTo(old(core), VideoLine, video, |old(core).videoCodecs|);
                   core == o.core && lines == start + Line(VideoLine, o.payloads)
    {
      hide OfferOne, SameCodecs, LineOf;
      lines := start;
      if !core.videoEnabled { return; }
      ghost var before := core;
      ghost var ps := [];
      var firstTime := true;
      var i := 0;
      while i < |core.videoCodecs|
        invariant 0 <= i <= |core.videoCodecs| && core.videoCodecs == before.videoCodecs
        invariant Offering(core, ps) == OfferTo(before, VideoLine, video, i)
        invariant firstTime == (ps == []) && lines == start + Line(VideoLine, ps)
      {
        var kept;
        ghost var o := OfferOne(Offering(core, ps), VideoLine, video, core.videoCodecs[i]);
        assert lines[1..] == Line(VideoLine, ps) && lines[..1] == start;
        lines, kept := OfferCodec(VideoLine, core.videoCodecs[i], lines, 1, ps, firstTime);
        OfferOneGrows(Offering(o.core, ps), o.payloads, ps, kept);
        firstTime := firstTime && !kept;
        ps := o.payloads;
        i := i + 1;
      }
    }

    /** sdp_context_get_offer(). */
    method GetOffer(localip: string)
      modifies this`core, this`offer
      ensures var o := Offer(old(Abs()), localip); core == o.core && offer == Some(o.message)
    {
      hide OfferTo, LineOf, TelephonePayload;
      var lines := SetAudioOffer();
      VideoSettingKept(old(core), audio);
      lines := SetVideoOffer(lines);
      offer := Some(Message(localip, lines));
    }

    // ---- SdpHandler.cpp: answering ----

    method AcceptPayload(m: Medium, p: Payload) returns (ok: bool, q: Payload)
      modifies this`core, this`profile, this`audio, this`video
      ensures Outcome(Abs(), q, ok) == Accept(old(Abs()), m, p)
    {
      hide Accept;
      if m.AudioLine? { ok, q := AcceptAudio(p); } else { ok, q := AcceptVideo(p); }
    }

    /** One payload of the inner loop: ask the callback and complete the answer line in place. */
    method AnswerPayload(m: Medium, p: Payload, media: Media, i: nat, start: seq<Media>, before: seq<Media>,
      ncodec: nat, ghost kept: seq<Payload>)
      returns (lines: seq<Media>, count: nat)
      requires |start| <= i && ncodec == |kept| && before == start + InProgress(media, kept, |start| == i)
      modifies this`core, this`profile, this`audio, this`video
      ensures var r := Accept(old(Abs()), m, p);
              var more := if r.ok then kept + [r.payload] else kept;
              Abs() == r.session && count == |more| && lines == start + InProgress(media, more, |start| == i)
    {
      hide Accept, LineOf, Placed;
      lines, count := before, ncodec;
      var ok, q := AcceptPayload(m, p);
      if ok {
        count := count + 1;
        if count == 1 {
          lines := lines + [EmptyLine(media.mtype, q.localport, media.proto)];
        }
        lines := PutPayload(lines, i, q);
        PutCompletes(start, media, kept, q, i);
      }
    }

    /** The body of the line loop of sdp_context_get_answer(): the inner loop over the payloads of line i. */
    method AnswerMedia(remote: Message, i: nat, m: Medium, start: seq<Media>) returns (lines: seq<Media>, ncodec: nat)
      requires i < |remote.lines| && |start| <= i
      modifies this`core, this`profile, this`audio, this`video
      ensures var sc := ScanLine(Linphone(), old(Abs()), m, remote, i);
              && Abs() == sc.session && ncodec == |sc.kept|
              && lines == start + [AnswerLine(remote.lines[i], sc.kept, |start| == i)]
    {
      hide Accept, PayloadAt, LineOf, Placed;
      var media := remote.lines[i];
      ghost var before := Abs();
      ghost var kept := [];
      lines, ncodec := start, 0;
      var j := 0;
      while j < |media.payloads|
        invariant 0 <= j <= |media.payloads|
        invariant var sc := Scan(Linphone(), before, m, remote, i, j); Abs() == sc.session && kept == sc.kept
        invariant ncodec == |kept| && lines == start + InProgress(media, kept, |start| == i)
      {
        lines, ncodec := AnswerPayload(m, PayloadAt(remote, i, j), media, i, start, lines, ncodec, kept);
        kept := Scan(Linphone(), before, m, remote, i, j + 1).kept;
        j := j + 1;
      }
      if ncodec == 0 {
        RefusalCompletes(start, media, i);
        lines := PutNumber(start + [EmptyLine(media.mtype, 0, media.proto)], i, 0);
      }
    }

    /** sdp_context_get_answer(). */
    method GetAnswer(remote: Message, localip: string)
      modifies this`core, this`profile, this`audio, this`video, this`answer, this`status
      ensures var r := AnswerTo(Linphone(), old(Abs()), remote, |remote.lines|);
              Abs() == r.session && answer == Some(Message(localip, r.lines)) && status == StatusOf(r)
    {
      hide ScanLine, AnswerLine;
      ghost var before := Abs();
      var lines := [];
      var accepted := 0;
      var i := 0;
      while i < |remote.lines|
        invariant 0 <= i <= |remote.lines|
        invariant var r := AnswerTo(Linphone(), before, remote, i);
                  Abs() == r.session && lines == r.lines && accepted == r.accepted
      {
        var medium := MediumOf(remote.lines[i].mtype);
        if medium.Some? {
          var ncodec;
          lines, ncodec := AnswerMedia(remote, i, medium.value, lines);
          if ncodec > 0 { accepted := accepted + 1; }
        }
        i := i + 1;
      }
      answer := Some(Message(localip, lines));
      status := if accepted > 0 then 200 else 415;
    }

    // ---- SdpHandler.cpp: reading an answer ----

    /** sdp_context_read_answer(). */
    method ReadAnswer(remote: Message)
      modifies this`core, this`profile, this`audio, this`video
      ensures Abs() == ReadTo(Linphone(), old(Abs()), remote, |remote.lines|)
    {
      hide Read, PayloadAt;
      ghost var before := Abs();
      var i := 0;
      while i < |remote.lines|
        invariant 0 <= i <= |remote.lines|
        invariant Abs() == ReadTo(Linphone(), before, remote, i)
      {
        var medium := MediumOf(remote.lines[i].mtype);
        if medium.Some? {
          ghost var prev := Abs();
          var j := 0;
          while j < |remote.lines[i].payloads|
            invariant 0 <= j <= |remote.lines[i].payloads|
            invariant Abs() == ReadLine(Linphone(), prev, medium.value, remote, i, j)
          {
            var p := PayloadAt(remote, i, j);
            if medium.value.AudioLine? { ReadAudio(p); } else { ReadVideo(p); }
            j := j + 1;
          }
        }
        i := i + 1;
      }
    }
  }

  /** The answer line while its payloads are being read. */
  function InProgress(media: Media, kept: seq<Payload>, aligned: bool): seq<Media> {
    if kept == [] then [] else [Placed(LineOf(media.mtype, media.proto, kept), aligned)]
  }

  /** The offered line of a medium, once it has a payload. */
  function Line(m: Medium, ps: seq<Payload>): seq<Media> {
    if ps == [] then [] else [LineOf(if m.AudioLine? then "audio" else "video", "RTP/AVP", ps)]
  }

  lemma RefusalCompletes(start: seq<Media>, media: Media, i: nat)
    requires |start| <= i
    ensures PutNumber(start + [EmptyLine(media.mtype, 0, media.proto)], i, 0) ==
            start + [AnswerLine(media, [], |start| == i)]
  {
    var line := EmptyLine(media.mtype, 0, media.proto);
    assert line.payloads + [0] == [0];
    assert |start| == i ==> (start + [line])[i := Refused(media)] == start + [Refused(media)];
  }

  lemma PayloadLines(core: Core, slot: int, audio: Stream, video: Stream, first: bool)
    requires slot in core.local
    ensures AudioPayload(core, slot, audio).line == 0 && VideoPayload(core, slot, video, first).line == 1
  {
  }

  lemma TelephoneLine(core: Core)
    ensures TelephonePayload(core).line == 0
  {
  }

  lemma OfferOneGrows(o: Offering, more: seq<Payload>, ps: seq<Payload>, kept: bool)
    requires kept == (|more| > |ps|) && (more == ps || |more| == |ps| + 1)
    ensures more == [] <==> ps == [] && !kept
  {
  }

  lemma {:induction false} VideoSettingKeptTo(core: Core, st: Stream, n: nat)
    requires n <= |core.audioCodecs|
    ensures OfferTo(core, AudioLine, st, n).core.videoEnabled == core.videoEnabled
  {
    hide CheckUsability;
    if n == 0 {
    } else {
      VideoSettingKeptTo(core, st, n - 1);
      var prev := OfferTo(core, AudioLine, st, n - 1);
      if core.audioCodecs[n - 1] in prev.core.local { UsabilityKeeps(prev.core, core.audioCodecs[n - 1]); }
    }
  }

  lemma VideoSettingKept(core: Core, st: Stream)
    ensures OfferTo(core, AudioLine, st, |core.audioCodecs|).core.videoEnabled == core.videoEnabled
  {
    VideoSettingKeptTo(core, st, |core.audioCodecs|);
  }

  /** The indexed appends complete the line just added, or are lost, according to alignment. */
  lemma PutCompletes(start: seq<Media>, media: Media, kept: seq<Payload>, p: Payload, i: nat)
    requires |start| <= i
    ensures var line := if kept == [] then EmptyLine(media.mtype, p.localport, media.proto)
            else Placed(LineOf(media.mtype, media.proto, kept), |start| == i);
            PutPayload(start + [line], i, p) ==
              start + [Placed(LineOf(media.mtype, media.proto, kept + [p]), |start| == i)]
  {
    assert (kept + [p])[..|kept|] == kept;
  }
}
