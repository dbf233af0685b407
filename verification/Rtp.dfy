/** RTP profiles: a table of up to 128 codecs, and the searches the call code makes in it. */
module Rtp {
  import opened Text

  datatype Kind = AudioContinuous | AudioPacketized | Video | Other

  /** A payload type; `description` is the user data that marks a slot as claimed. */
  datatype Codec = Codec(
    kind: Kind, mime: string, rate: int, channels: int, bitrate: int,
    recvFmtp: Option<string>, sendFmtp: Option<string>, enabled: bool, description: Option<string>)

  const SLOTS: nat := 128
  /** Some searches stop one slot early. */
  const LAST_SEARCHED: nat := 127

  type Profile = map<int, Codec>

  predicate ValidProfile(prof: Profile) {
    forall i | i in prof :: 0 <= i < SLOTS
  }

  // ---- rtpmap text ----

  datatype Rtpmap = Rtpmap(mime: string, rate: int, channels: int)

  /** The split of rtp_profile_get_payload_number_from_rtpmap(): mime[/rate[/channels]]. */
  function ParseRtpmap(text: string): Rtpmap {
    var a := FindChar(text, '/');
    if a + 1 >= |text| then Rtpmap(text, 8000, -1)
    else
      var tail := text[a + 1..];
      var b := FindChar(tail, '/');
      if b + 1 >= |tail| then Rtpmap(text[..a], Atoi(tail), -1)
      else Rtpmap(text[..a], Atoi(tail[..b]), Atoi(tail[b + 1..]))
  }

  /** The text of an audio offer: "%s/%i/1". */
  function AudioRtpmap(c: Codec): string {
    c.mime + "/" + IntToString(c.rate) + "/1"
  }

  /** The text of a video offer: "%s/%i". */
  function VideoRtpmap(c: Codec): string {
    c.mime + "/" + IntToString(c.rate)
  }

  /** Cutting a text at its first slash. */
  lemma CutAtSlash(head: string, tail: string)
    requires '/' !in head
    ensures var text := head + "/" + tail;
            FindChar(text, '/') == |head| && text[..|head|] == head && text[|head| + 1..] == tail
  {
    assert head + "/" + tail == head + ['/'] + tail;
    FindCharAfter(head, '/', tail);
  }

  /** An rtpmap that gives no rate stands for 8000 Hz. */
  lemma RtpmapWithoutRate(text: string)
    requires '/' !in text
    ensures ParseRtpmap(text) == Rtpmap(text, 8000, -1)
  {
  }

  /** An rtpmap with all three parts, as a peer may send it. */
  lemma {:induction false} ParseThreeParts(mime: string, rate: int, channels: int)
    requires '/' !in mime
    ensures ParseRtpmap(mime + "/" + (IntToString(rate) + "/" + IntToString(channels))) == Rtpmap(mime, rate, channels)
  {
    CutAtSlash(mime, IntToString(rate) + "/" + IntToString(channels));
    CutAtSlash(IntToString(rate), IntToString(channels));
    AtoiOfIntToString(rate);
    AtoiOfIntToString(channels);
  }

  lemma {:induction false} ParsePrintedAudio(c: Codec)
    requires '/' !in c.mime
    ensures ParseRtpmap(AudioRtpmap(c)) == Rtpmap(c.mime, c.rate, 1)
  {
    hide ParseRtpmap;
    assert IntToString(1) == "1";
    assert AudioRtpmap(c) == c.mime + "/" + (IntToString(c.rate) + "/" + IntToString(1));
    ParseThreeParts(c.mime, c.rate, 1);
  }

  lemma ParsePrintedVideo(c: Codec)
    requires '/' !in c.mime
    ensures ParseRtpmap(VideoRtpmap(c)) == Rtpmap(c.mime, c.rate, -1)
  {
    var n := IntToString(c.rate);
    CutAtSlash(c.mime, n);
    AtoiOfIntToString(c.rate);
  }

  // ---- searches ----

  predicate HasFormat(c: Codec, r: Rtpmap) {
    && SameIgnoringCase(c.mime, r.mime)
    && c.rate == r.rate
    && (c.channels == r.channels || r.channels <= 0 || c.channels <= 0)
  }

  /** rtp_profile_find_payload_number() from slot i on. */
  function FindFormat(prof: Profile, r: Rtpmap, i: nat): (k: int)
    ensures k == -1 || (i <= k < SLOTS && k in prof && HasFormat(prof[k], r))
    ensures forall j | i <= j < (if k == -1 then SLOTS else k) :: j in prof ==> !HasFormat(prof[j], r)
    decreases SLOTS - i
  {
    if i >= SLOTS then -1
    else if i in prof && HasFormat(prof[i], r) then i
    else FindFormat(prof, r, i + 1)
  }

  function NumberFromRtpmap(prof: Profile, text: string): (k: int)
    ensures k == -1 || (0 <= k < SLOTS && k in prof && HasFormat(prof[k], ParseRtpmap(text)))
  {
    FindFormat(prof, ParseRtpmap(text), 0)
  }

  /** rtp_profile_get_payload_number_from_mime() from slot i on. */
  function FindMime(prof: Profile, mime: string, i: nat): (k: int)
    ensures k == -1 || (i <= k < SLOTS && k in prof && SameIgnoringCase(prof[k].mime, mime))
    ensures forall j | i <= j < (if k == -1 then SLOTS else k) :: j in prof ==> !SameIgnoringCase(prof[j].mime, mime)
    decreases SLOTS - i
  {
    if i >= SLOTS then -1
    else if i in prof && SameIgnoringCase(prof[i].mime, mime) then i
    else FindMime(prof, mime, i + 1)
  }

  /**
   * What a search asks for: a name, a rate (any when not positive) and a format parameter, maybe among free slots only.
   */
  datatype Query = Query(mime: string, rate: int, fmtp: Option<string>, freeOnly: bool)

  predicate Candidate(c: Codec, q: Query) {
    && SameIgnoringCase(q.mime, c.mime)
    && (q.rate == c.rate || q.rate <= 0)
    && (q.freeOnly ==> c.description.None?)
  }

  predicate Exact(c: Codec, q: Query) {
    && Candidate(c, q)
    && match (q.fmtp, c.recvFmtp)
       case (Some(a), Some(b)) => SameIgnoringCase(a, b)
       case (None, None) => true
       case _ => false
  }

  predicate CandidateAt(prof: Profile, q: Query, i: int) {
    0 <= i < LAST_SEARCHED && i in prof && Candidate(prof[i], q)
  }

  predicate ExactAt(prof: Profile, q: Query, i: int) {
    CandidateAt(prof, q, i) && Exact(prof[i], q)
  }

  /** The answer a search must give: the first exact slot, else the last candidate, else -1. */
  ghost predicate IsBestSlot(prof: Profile, q: Query, k: int) {
    if ExactAt(prof, q, k) then
      forall j | 0 <= j < k :: !ExactAt(prof, q, j)
    else
      && (forall j | 0 <= j < LAST_SEARCHED :: !ExactAt(prof, q, j))
      && (forall j | k < j < LAST_SEARCHED :: !CandidateAt(prof, q, j))
      && (k == -1 || CandidateAt(prof, q, k))
  }

  lemma BestSlotIsUnique(prof: Profile, q: Query, a: int, b: int)
    requires IsBestSlot(prof, q, a) && IsBestSlot(prof, q, b)
    ensures a == b
  {
    assert ExactAt(prof, q, a) <==> ExactAt(prof, q, b);
    assert a < b ==> !CandidateAt(prof, q, b) || ExactAt(prof, q, a);
  }

  /** find_payload_type_number() and find_payload(): the loop with its candidate variable. */
  method SearchSlot(prof: Profile, q: Query) returns (k: int)
    ensures IsBestSlot(prof, q, k) && k == BestSlot(prof, q)
  {
    var candidate := -1;
    var i := 0;
    while i < LAST_SEARCHED
      invariant 0 <= i <= LAST_SEARCHED
      invariant -1 <= candidate < i
      invariant candidate == -1 || CandidateAt(prof, q, candidate)
      invariant forall j | 0 <= j < i :: !ExactAt(prof, q, j)
      invariant forall j | candidate < j < i :: !CandidateAt(prof, q, j)
    {
      if i in prof && Candidate(prof[i], q) {
        if Exact(prof[i], q) {
          assert ExactAt(prof, q, i);
          BestSlotIsUnique(prof, q, i, BestSlot(prof, q));
          return i;
        }
        candidate := i;
      }
      i := i + 1;
    }
    BestSlotIsUnique(prof, q, candidate, BestSlot(prof, q));
    return candidate;
  }

  function FirstExact(prof: Profile, q: Query, i: nat): (k: int)
    ensures k == -1 || (i <= k && ExactAt(prof, q, k))
    ensures forall j | i <= j < (if k == -1 then LAST_SEARCHED else k) :: !ExactAt(prof, q, j)
    decreases LAST_SEARCHED - i
  {
    if i >= LAST_SEARCHED then -1 else if ExactAt(prof, q, i) then i else FirstExact(prof, q, i + 1)
  }

  function LastCandidate(prof: Profile, q: Query, n: nat): (k: int)
    ensures k == -1 || (k < n && CandidateAt(prof, q, k))
    ensures forall j | k < j < n :: !CandidateAt(prof, q, j)
  {
    if n == 0 then -1 else if CandidateAt(prof, q, n - 1) then n - 1 else LastCandidate(prof, q, n - 1)
  }

  function BestSlot(prof: Profile, q: Query): (k: int)
    ensures IsBestSlot(prof, q, k)
  {
    var e := FirstExact(prof, q, 0);
    if e >= 0 then e else LastCandidate(prof, q, LAST_SEARCHED)
  }

  // ---- the H264 rule ----

  /** fmtp_get_value() with a 10-byte result buffer. */
  function FmtpValue(fmtp: string, name: string): Option<string> {
    match FindString(fmtp, name)
    case None => None
    case Some(k) =>
      var pos := fmtp[k..];
      var equal := FindChar(pos, '=');
      if equal == |pos| then None
      else
        var value := pos[equal + 1..];
        var end := FindChar(value, ';');
        Some(value[..if end < 9 then end else 9])
  }

  function PacketizationQuery(c: Codec, fmtp: Option<string>): Query {
    var value := if fmtp.Some? then FmtpValue(fmtp.value, "packetization-mode") else None;
    var mode := if value.Some? && Atoi(value.value) == 1 then Some("packetization-mode=1") else None;
    Query("H264", c.rate, mode, false)
  }

  /** find_payload_type_number_best_match(). */
  function BestMatch(prof: Profile, text: string, fmtp: Option<string>): (k: int)
    ensures k == -1 || (0 <= k < SLOTS && k in prof)
  {
    var k := NumberFromRtpmap(prof, text);
    if k < 0 then -1
    else if SameIgnoringCase(prof[k].mime, "H264") then BestSlot(prof, PacketizationQuery(prof[k], fmtp))
    else k
  }

  /** The slot found bears the name that was asked for, and the rate unless that is not positive. */
  lemma BestMatchFormat(prof: Profile, text: string, fmtp: Option<string>)
    ensures var k := BestMatch(prof, text, fmtp);
            var r := ParseRtpmap(text);
            k in prof && k >= 0 ==> SameIgnoringCase(prof[k].mime, r.mime) && (r.rate > 0 ==> prof[k].rate == r.rate)
  {
    var k := NumberFromRtpmap(prof, text);
    if k >= 0 && SameIgnoringCase(prof[k].mime, "H264") {
      var q := PacketizationQuery(prof[k], fmtp);
      var b := BestSlot(prof, q);
      assert b >= 0 ==> CandidateAt(prof, q, b);
    }
  }

  lemma {:induction false} ValueEnds(value: string, post: string)
    requires ';' !in value && (post != "" ==> post[0] == ';')
    ensures FindChar(value + post, ';') == |value| && (value + post)[..|value|] == value
  {
    if post != "" {
      assert value + post == value + [';'] + post[1..];
      FindCharAfter(value, ';', post[1..]);
    } else {
      assert value + post == value;
    }
  }

  lemma {:induction false} NameEnds(name: string, tail: string)
    requires '=' !in name
    ensures var pos := name + "=" + tail; FindChar(pos, '=') == |name| && pos[|name| + 1..] == tail
  {
    assert name + "=" + tail == name + ['='] + tail;
    FindCharAfter(name, '=', tail);
  }

  /** The value of a format parameter runs from its equals sign to the next semicolon, as far as it fits the buffer. */
  lemma {:induction false} FmtpValueIs(pre: string, name: string, value: string, post: string)
    requires '=' !in name && ';' !in value && |value| <= 9 && (post != "" ==> post[0] == ';')
    requires FindString(pre + (name + "=" + (value + post)), name) == Some(|pre|)
    ensures FmtpValue(pre + (name + "=" + (value + post)), name) == Some(value)
  {
    hide FindString, FindChar, OccursAt;
    var tail := value + post;
    ValueEnds(value, post);
    NameEnds(name, tail);
    AfterPrefix(pre, name + "=" + tail);
  }

  lemma AfterPrefix(pre: string, rest: string)
    ensures (pre + rest)[|pre|..] == rest
  {
  }

  /** Format parameters without the name give no value. */
  lemma NoFmtpValue(fmtp: string, name: string)
    requires forall i: nat :: !OccursAt(fmtp, name, i)
    ensures FmtpValue(fmtp, name) == None
  {
  }

  /** The peer asks for packetization mode 1. */
  predicate AsksModeOne(fmtp: Option<string>) {
    fmtp.Some? && match FmtpValue(fmtp.value, "packetization-mode") case Some(v) => Atoi(v) == 1 case None => false
  }

  /** As it does with "packetization-mode=1" among the parameters. */
  lemma {:induction false} ModeOneIsAsked(pre: string, post: string)
    requires post != "" ==> post[0] == ';'
    requires FindString(pre + ("packetization-mode" + "=" + ("1" + post)), "packetization-mode") == Some(|pre|)
    ensures AsksModeOne(Some(pre + ("packetization-mode" + "=" + ("1" + post))))
  {
    hide FindString, FmtpValue, Atoi;
    assert |"packetization-mode"| == 18 && '=' !in "packetization-mode";
    FmtpValueIs(pre, "packetization-mode", "1", post);
    assert IntToString(1) == "1";
    AtoiOfIntToString(1);
  }

  /** A searched H264 slot of that rate, where a rate that is not positive stands for any. */
  predicate H264Slot(prof: Profile, i: int, rate: int) {
    0 <= i < 127 && i in prof && SameIgnoringCase(prof[i].mime, "H264") && (rate == prof[i].rate || rate <= 0)
  }

  /** It is of packetization mode 1, or of the mode that goes without saying. */
  predicate ModeSlot(prof: Profile, i: int, rate: int, one: bool) {
    && H264Slot(prof, i, rate)
    && if one then prof[i].recvFmtp.Some? && SameIgnoringCase("packetization-mode=1", prof[i].recvFmtp.value)
       else prof[i].recvFmtp.None?
  }

  /**
   * The H264 rule does its work: the peer is answered with the first slot of the packetization mode it asked for, and
   * with another H264 slot of that rate, the last one, only when there is no slot of that mode.
   */
  lemma H264KeepsMode(prof: Profile, text: string, fmtp: Option<string>)
    requires var n := NumberFromRtpmap(prof, text); n >= 0 && SameIgnoringCase(prof[n].mime, "H264")
    ensures var k := BestMatch(prof, text, fmtp);
            var rate, one := prof[NumberFromRtpmap(prof, text)].rate, AsksModeOne(fmtp);
            if exists i :: 0 <= i < 127 && ModeSlot(prof, i, rate, one) then
              ModeSlot(prof, k, rate, one) && forall j | 0 <= j < k :: !ModeSlot(prof, j, rate, one)
            else
              && (k >= 0 ==> H264Slot(prof, k, rate))
              && forall j | k < j < 127 :: !H264Slot(prof, j, rate)
  {
    hide FindFormat, FirstExact, LastCandidate, ExactAt, CandidateAt, FmtpValue, ModeSlot, H264Slot, SameIgnoringCase;
    var n := NumberFromRtpmap(prof, text);
    var q := PacketizationQuery(prof[n], fmtp);
    forall i
      ensures ExactAt(prof, q, i) <==> ModeSlot(prof, i, prof[n].rate, AsksModeOne(fmtp))
      ensures CandidateAt(prof, q, i) <==> H264Slot(prof, i, prof[n].rate)
    {
      QueryIsMode(prof, prof[n], fmtp, i);
    }
    ExactIsCandidate(prof, q, BestSlot(prof, q));
  }

  lemma QueryIsMode(prof: Profile, c: Codec, fmtp: Option<string>, i: int)
    ensures ExactAt(prof, PacketizationQuery(c, fmtp), i) <==> ModeSlot(prof, i, c.rate, AsksModeOne(fmtp))
    ensures CandidateAt(prof, PacketizationQuery(c, fmtp), i) <==> H264Slot(prof, i, c.rate)
  {
    hide FmtpValue, Atoi;
  }

  lemma ExactIsCandidate(prof: Profile, q: Query, k: int)
    ensures ExactAt(prof, q, k) ==> CandidateAt(prof, q, k) && 0 <= k < LAST_SEARCHED
  {
  }
}
