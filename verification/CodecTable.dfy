/**
 * The assembly of the codec lists in Misc.cpp: profile slots are claimed for the configured codecs, then the rest is
 * added.
 */
module CodecTable {
  import opened Text
  import opened Rtp

  /** The media library: which codec names it supports, and the description of the encoder for a name. */
  datatype Filters = Filters(supported: string -> bool, text: string -> string)

  /** check_h264_packmode(): packetization mode 0 needs a multislicing x264. */
  predicate PackModeOk(fmtp: Option<string>, text: string) {
    (fmtp.None? || FindString(fmtp.value, "packetization-mode").None?) ==>
      !(FindString(text, "x264").Some? && FindString(text, "multislicing").None?)
  }

  predicate H264Blocked(f: Filters, mime: string, fmtp: Option<string>) {
    SameIgnoringCase(mime, "H264") && !PackModeOk(fmtp, (f.text)(mime))
  }

  function Claim(prof: Profile, slot: int, text: string, enabled: bool): Profile
    requires slot in prof
  {
    prof[slot := prof[slot].(description := Some(text), enabled := enabled)]
  }

  // ---- the configured codecs ----

  /** The profile, the slots claimed so far, and the configured codec each was claimed for. */
  datatype Fixed = Fixed(profile: Profile, slots: seq<int>, origin: seq<nat>)

  function QueryFor(conf: Codec): Query {
    Query(conf.mime, conf.rate, conf.recvFmtp, true)
  }

  /** The slot that a configured codec claims, if it claims one. */
  function ClaimedSlot(f: Filters, prof: Profile, conf: Codec): (r: Option<int>)
    ensures r.Some? ==> CandidateAt(prof, QueryFor(conf), r.value)
  {
    var k := BestSlot(prof, QueryFor(conf));
    if k < 0 || !(f.supported)(conf.mime) || H264Blocked(f, conf.mime, conf.recvFmtp) then None else Some(k)
  }

  /** fix_codec_list() on the first n configured codecs. */
  function FixTo(f: Filters, prof: Profile, conf: seq<Codec>, n: nat): (r: Fixed)
    requires n <= |conf|
    ensures |r.slots| == |r.origin| <= n
    ensures forall i | i in prof :: i in r.profile
  {
    if n == 0 then Fixed(prof, [], [])
    else
      var prev := FixTo(f, prof, conf, n - 1);
      match ClaimedSlot(f, prev.profile, conf[n - 1])
      case None => prev
      case Some(k) =>
        Fixed(Claim(prev.profile, k, (f.text)(conf[n - 1].mime), conf[n - 1].enabled), prev.slots + [k],
          prev.origin + [n - 1])
  }

  function Claimed(prof: Profile): set<int> {
    set i | i in prof && prof[i].description.Some?
  }

  /** Claiming changes descriptions and enabled flags only. */
  predicate SameShape(a: Profile, b: Profile) {
    a.Keys == b.Keys && forall i | i in a ::
      a[i].(description := None, enabled := true) == b[i].(description := None, enabled := true)
  }

  predicate NoDuplicates(s: seq<int>) {
    forall i, j | 0 <= i < j < |s| :: s[i] != s[j]
  }

  predicate Within(s: seq<int>, n: nat) {
    forall i | 0 <= i < |s| :: 0 <= s[i] < n
  }

  /** The slots claimed are new and distinct, and nothing else is claimed. */
  lemma {:induction false} FixClaims(f: Filters, prof: Profile, conf: seq<Codec>, n: nat)
    requires n <= |conf|
    ensures var r := FixTo(f, prof, conf, n);
            && SameShape(prof, r.profile)
            && NoDuplicates(r.slots) && Within(r.slots, LAST_SEARCHED)
            && (forall i :: i in Claimed(r.profile) <==> i in Claimed(prof) || i in r.slots)
            && (forall i | i in r.slots :: i !in Claimed(prof) && i in prof)
  {
    if n == 0 {
    } else {
      var prev := FixTo(f, prof, conf, n - 1);
      FixClaims(f, prof, conf, n - 1);
      var k := ClaimedSlot(f, prev.profile, conf[n - 1]);
      if k.Some? {
        assert k.value !in Claimed(prev.profile);
        ClaimStep(prof, prev, k.value, (f.text)(conf[n - 1].mime), conf[n - 1].enabled);
      }
    }
  }

  lemma ClaimStep(prof: Profile, prev: Fixed, k: int, text: string, enabled: bool)
    requires SameShape(prof, prev.profile) && k in prev.profile && k !in Claimed(prev.profile) && 0 <= k < LAST_SEARCHED
    requires NoDuplicates(prev.slots) && Within(prev.slots, LAST_SEARCHED)
    requires forall i :: i in Claimed(prev.profile) <==> i in Claimed(prof) || i in prev.slots
    requires forall i | i in prev.slots :: i !in Claimed(prof) && i in prof
    ensures var p, slots := Claim(prev.profile, k, text, enabled), prev.slots + [k];
            && SameShape(prof, p) && NoDuplicates(slots) && Within(slots, LAST_SEARCHED)
            && (forall i :: i in Claimed(p) <==> i in Claimed(prof) || i in slots)
            && (forall i | i in slots :: i !in Claimed(prof) && i in prof)
  {
    var p := Claim(prev.profile, k, text, enabled);
    assert forall i :: i in Claimed(p) <==> i in Claimed(prev.profile) || i == k;
  }

  predicate Increasing(s: seq<nat>) {
    forall i, j | 0 <= i < j < |s| :: s[i] < s[j]
  }

  /** What it means that a slot was claimed for a configured codec: same name, same rate unless any rate would do. */
  predicate ServesConfig(prof: Profile, slot: int, conf: Codec) {
    slot in prof && SameIgnoringCase(conf.mime, prof[slot].mime) && (conf.rate > 0 ==> prof[slot].rate == conf.rate)
  }

  ghost predicate InConfigOrder(f: Filters, prof: Profile, conf: seq<Codec>, r: Fixed) {
    && |r.slots| == |r.origin| && Increasing(r.origin)
    && forall k | 0 <= k < |r.slots| ::
         && r.origin[k] < |conf| && ServesConfig(prof, r.slots[k], conf[r.origin[k]])
         && r.slots[k] in r.profile && r.profile[r.slots[k]].enabled == conf[r.origin[k]].enabled
         && r.profile[r.slots[k]].description == Some((f.text)(conf[r.origin[k]].mime))
  }

  lemma OrderStep(f: Filters, prof: Profile, conf: seq<Codec>, prev: Fixed, k: int, n: nat, text: string)
    requires n < |conf| && InConfigOrder(f, prof, conf, prev) && forall l | 0 <= l < |prev.origin| :: prev.origin[l] < n
    requires k in prev.profile && ServesConfig(prof, k, conf[n]) && k !in prev.slots && text == (f.text)(conf[n].mime)
    ensures InConfigOrder(f, prof, conf,
            Fixed(Claim(prev.profile, k, text, conf[n].enabled), prev.slots + [k], prev.origin + [n]))
  {
    hide ServesConfig;
    assert forall l | 0 <= l < |prev.slots| :: prev.slots[l] in prev.slots;
  }

  /**
   * The claimed slots stand in the order of the configuration, each for a codec it serves, and enabled as configured.
   */
  lemma {:induction false} FixKeepsOrder(f: Filters, prof: Profile, conf: seq<Codec>, n: nat)
    requires n <= |conf|
    ensures var r := FixTo(f, prof, conf, n);
            InConfigOrder(f, prof, conf, r) && forall l | 0 <= l < |r.origin| :: r.origin[l] < n
  {
    hide BestSlot, SameIgnoringCase, Claimed, ClaimedSlot, InConfigOrder, NoDuplicates, Within;
    if n > 0 {
      var prev := FixTo(f, prof, conf, n - 1);
      FixKeepsOrder(f, prof, conf, n - 1);
      FixClaims(f, prof, conf, n - 1);
      var k := ClaimedSlot(f, prev.profile, conf[n - 1]);
      if k.Some? {
        assert CandidateAt(prev.profile, QueryFor(conf[n - 1]), k.value);
        ShapeServes(prof, prev.profile, k.value, conf[n - 1]);
        NotClaimedYet(prof, prev, k.value);
        OrderStep(f, prof, conf, prev, k.value, n - 1, (f.text)(conf[n - 1].mime));
      }
    } else {
      NothingFixed(f, prof, conf);
    }
  }

  lemma NothingFixed(f: Filters, prof: Profile, conf: seq<Codec>)
    ensures InConfigOrder(f, prof, conf, Fixed(prof, [], []))
  {
  }

  lemma ShapeServes(prof: Profile, p: Profile, k: int, conf: Codec)
    requires SameShape(prof, p) && CandidateAt(p, QueryFor(conf), k)
    ensures ServesConfig(prof, k, conf) && p[k].description.None?
  {
    assert prof[k].(description := None, enabled := true) == p[k].(description := None, enabled := true);
    assert prof[k].(description := None, enabled := true).mime == p[k].(description := None, enabled := true).mime;
    assert prof[k].(description := None, enabled := true).rate == p[k].(description := None, enabled := true).rate;
  }

  lemma NotClaimedYet(prof: Profile, prev: Fixed, k: int)
    requires k in prev.profile && prev.profile[k].description.None?
    requires forall i :: i in Claimed(prev.profile) <==> i in Claimed(prof) || i in prev.slots
    ensures k !in prev.slots
  {
  }

  // ---- the codecs that are not configured ----

  predicate IsMedium(kind: Kind, video: bool) {
    if video then kind.Video? else kind.AudioContinuous? || kind.AudioPacketized?
  }

  /** A slot that the second pass finds unclaimed and supported. */
  predicate New(f: Filters, prof: Profile, i: int) {
    i in prof && prof[i].description.None? && (f.supported)(prof[i].mime)
  }

  /** The second pass lists it in the audio or the video list. */
  predicate Added(f: Filters, prof: Profile, i: int, video: bool) {
    New(f, prof, i) && IsMedium(prof[i].kind, video) && !H264Blocked(f, prof[i].mime, prof[i].recvFmtp)
  }

  /** The favourites go on top of their list. */
  predicate OnTop(mime: string) {
    mime == "speex" || mime == "MP4V-ES" || SameIgnoringCase(mime, "H264")
  }

  /** The favourites among the first n slots, the last one first. */
  function Top(f: Filters, prof: Profile, video: bool, n: nat): seq<int> {
    if n == 0 then []
    else (if Added(f, prof, n - 1, video) && OnTop(prof[n - 1].mime) then [n - 1] else []) + Top(f, prof, video, n - 1)
  }

  /** The other added slots among the first n, in order. */
  function Bottom(f: Filters, prof: Profile, video: bool, n: nat): seq<int> {
    if n == 0 then []
    else Bottom(f, prof, video, n - 1) + if Added(f, prof, n - 1, video) && !OnTop(prof[n - 1].mime) then [n - 1]
      else []
  }

  /** A list after the second pass saw the first n slots. */
  function ListAfter(f: Filters, prof: Profile, fixed: seq<int>, video: bool, n: nat): seq<int> {
    Top(f, prof, video, n) + fixed + Bottom(f, prof, video, n)
  }

  /** The profile after the second pass saw the first n slots. */
  function ProfileAfter(f: Filters, prof: Profile, n: nat): (r: Profile)
    ensures forall i :: i in r <==> i in prof
    ensures forall i | i >= n && i in prof :: r[i] == prof[i]
  {
    if n == 0 then prof
    else
      var prev := ProfileAfter(f, prof, n - 1);
      if New(f, prof, n - 1) then Claim(prev, n - 1, (f.text)(prof[n - 1].mime), true) else prev
  }

  datatype Table = Table(profile: Profile, audio: seq<int>, video: seq<int>)

  /** linphone_core_setup_local_rtp_profile() on a fresh profile. */
  function Assemble(f: Filters, prof: Profile, audioConf: seq<Codec>, videoConf: seq<Codec>): Table {
    var a := FixTo(f, prof, audioConf, |audioConf|);
    var v := FixTo(f, a.profile, videoConf, |videoConf|);
    Table(ProfileAfter(f, v.profile, LAST_SEARCHED),
          ListAfter(f, v.profile, a.slots, false, LAST_SEARCHED),
          ListAfter(f, v.profile, v.slots, true, LAST_SEARCHED))
  }

  lemma FallsOnTop(x: int, t: seq<int>)
    requires (forall i | i in t :: i < x) && forall i, j | 0 <= i < j < |t| :: t[i] > t[j]
    ensures var u := [x] + t; (forall i :: i in u <==> i == x || i in t) && forall i, j | 0 <= i < j < |u| ::
            u[i] > u[j]
  {
    assert forall i | 0 <= i < |t| :: t[i] in t;
  }

  lemma RisesBelow(b: seq<int>, x: int)
    requires (forall i | i in b :: i < x) && forall i, j | 0 <= i < j < |b| :: b[i] < b[j]
    ensures var u := b + [x]; (forall i :: i in u <==> i == x || i in b) && forall i, j | 0 <= i < j < |u| ::
            u[i] < u[j]
  {
    assert forall i | 0 <= i < |b| :: b[i] in b;
  }

  lemma {:induction false} TopFalls(f: Filters, prof: Profile, video: bool, n: nat)
    ensures var t := Top(f, prof, video, n);
            && (forall i :: i in t <==> 0 <= i < n && Added(f, prof, i, video) && OnTop(prof[i].mime))
            && (forall i, j | 0 <= i < j < |t| :: t[i] > t[j])
  {
    if n == 0 {
    } else {
      hide Added, OnTop;
      TopFalls(f, prof, video, n - 1);
      FallsOnTop(n - 1, Top(f, prof, video, n - 1));
    }
  }

  lemma {:induction false} BottomRises(f: Filters, prof: Profile, video: bool, n: nat)
    ensures var b := Bottom(f, prof, video, n);
            && (forall i :: i in b <==> 0 <= i < n && Added(f, prof, i, video) && !OnTop(prof[i].mime))
            && (forall i, j | 0 <= i < j < |b| :: b[i] < b[j])
  {
    if n == 0 {
    } else {
      hide Added, OnTop;
      BottomRises(f, prof, video, n - 1);
      RisesBelow(Bottom(f, prof, video, n - 1), n - 1);
    }
  }

  /** The second pass lists each slot it adds once, favourites in falling and the others in rising order. */
  lemma AddedOnce(f: Filters, prof: Profile, video: bool, n: nat)
    ensures var t, b := Top(f, prof, video, n), Bottom(f, prof, video, n);
            && NoDuplicates(t) && NoDuplicates(b)
            && (forall i :: i in t <==> 0 <= i < n && Added(f, prof, i, video) && OnTop(prof[i].mime))
            && (forall i :: i in b <==> 0 <= i < n && Added(f, prof, i, video) && !OnTop(prof[i].mime))
  {
    hide Added, OnTop, Top, Bottom;
    TopFalls(f, prof, video, n);
    BottomRises(f, prof, video, n);
  }

  lemma NoDuplicatesJoin(a: seq<int>, b: seq<int>)
    requires NoDuplicates(a) && NoDuplicates(b) && forall i | i in a :: i !in b
    ensures NoDuplicates(a + b)
  {
    var s := a + b;
    forall i, j | 0 <= i < j < |s| ensures s[i] != s[j] {
      if i < |a| && |a| <= j { assert s[i] in a && s[j] in b; }
    }
  }

  lemma ListAfterOnce(f: Filters, prof: Profile, fixed: seq<int>, video: bool, n: nat)
    requires NoDuplicates(fixed) && forall i | i in fixed :: i in Claimed(prof)
    ensures var l := ListAfter(f, prof, fixed, video, n);
            && NoDuplicates(l)
            && (forall i :: i in l <==> i in fixed || (0 <= i < n && Added(f, prof, i, video)))
  {
    hide OnTop, IsMedium, H264Blocked;
    var t, b := Top(f, prof, video, n), Bottom(f, prof, video, n);
    AddedOnce(f, prof, video, n);
    NoDuplicatesJoin(t, fixed);
    NoDuplicatesJoin(t + fixed, b);
  }

  /** A slot of the fresh profile that the media library can run, in a list it belongs to. */
  predicate Runnable(f: Filters, c: Codec) {
    (f.supported)(c.mime) && (IsMedium(c.kind, false) || IsMedium(c.kind, true)) && !H264Blocked(f, c.mime, c.recvFmtp)
  }

  /** The slots stand together in the list, in their order. */
  predicate IsBlock(list: seq<int>, slots: seq<int>) {
    exists i :: 0 <= i <= |list| && StandsAt(list, slots, i)
  }

  predicate StandsAt(list: seq<int>, slots: seq<int>, i: nat) {
    i + |slots| <= |list| && list[i..i + |slots|] == slots
  }

  lemma FixedIsBlock(f: Filters, prof: Profile, fixed: seq<int>, video: bool)
    ensures IsBlock(ListAfter(f, prof, fixed, video, LAST_SEARCHED), fixed)
  {
    hide Top, Bottom;
    var i := |Top(f, prof, video, LAST_SEARCHED)|;
    assert StandsAt(ListAfter(f, prof, fixed, video, LAST_SEARCHED), fixed, i);
  }

  /**
   * From a profile nobody has claimed yet, the two lists together hold no slot twice, and hold a slot exactly when it
   * is one of the first 127 and was claimed for the configuration or can be run; the slots claimed for the
   * configuration form one block of their list.
   */
  lemma {:induction false} TableIsComplete(f: Filters, prof: Profile, audioConf: seq<Codec>, videoConf: seq<Codec>)
    requires ValidProfile(prof) && Claimed(prof) == {}
    ensures var t := Assemble(f, prof, audioConf, videoConf);
            var a := FixTo(f, prof, audioConf, |audioConf|);
            var v := FixTo(f, a.profile, videoConf, |videoConf|);
            && NoDuplicates(t.audio + t.video)
            && (forall i :: i in t.audio + t.video <==>
                  0 <= i < LAST_SEARCHED && i in prof && (i in a.slots || i in v.slots || Runnable(f, prof[i])))
            && IsBlock(t.audio, a.slots) && IsBlock(t.video, v.slots)
  {
    hide FixTo, ListAfter, H264Blocked, IsBlock;
    var a := FixTo(f, prof, audioConf, |audioConf|);
    var v := FixTo(f, a.profile, videoConf, |videoConf|);
    var t := Assemble(f, prof, audioConf, videoConf);
    FixClaims(f, prof, audioConf, |audioConf|);
    FixClaims(f, a.profile, videoConf, |videoConf|);
    FixedIsBlock(f, v.profile, a.slots, false);
    FixedIsBlock(f, v.profile, v.slots, true);
    ListAfterOnce(f, v.profile, a.slots, false, LAST_SEARCHED);
    ListAfterOnce(f, v.profile, v.slots, true, LAST_SEARCHED);
    forall i ensures i in t.audio + t.video <==>
                  0 <= i < LAST_SEARCHED && i in prof && (i in a.slots || i in v.slots || Runnable(f, prof[i]))
    {
      if i in prof {
        assert a.profile[i].(description := None, enabled := true) == prof[i].(description := None, enabled := true);
        assert v.profile[i].(description := None, enabled := true) ==
          a.profile[i].(description := None, enabled := true);
        SameRunnable(f, v.profile, prof, i);
      }
    }
    NoDuplicatesJoin(t.audio, t.video);
  }

  lemma SameRunnable(f: Filters, p: Profile, prof: Profile, i: int)
    requires i in p && i in prof &&
             p[i].(description := None, enabled := true) == prof[i].(description := None, enabled := true)
    ensures Runnable(f, prof[i]) && i !in Claimed(p) <==> Added(f, p, i, false) || Added(f, p, i, true)
  {
    hide H264Blocked;
    assert p[i].(description := None, enabled := true).mime == prof[i].(description := None, enabled := true).mime;
    assert p[i].(description := None, enabled := true).kind == prof[i].(description := None, enabled := true).kind;
    assert p[i].(description := None, enabled := true).recvFmtp ==
      prof[i].(description := None, enabled := true).recvFmtp;
  }

  // ---- what the lists mean ----

  predicate Mentions(s: string, word: string) {
    exists i :: 0 <= i <= |s| && OccursAt(s, word, i)
  }

  /** H264 without a packetization mode is left out with an encoder that is x264 but does not slice. */
  lemma BlockedIff(f: Filters, mime: string, fmtp: Option<string>)
    ensures H264Blocked(f, mime, fmtp) <==>
            && SameIgnoringCase(mime, "H264")
            && !(fmtp.Some? && Mentions(fmtp.value, "packetization-mode"))
            && Mentions((f.text)(mime), "x264") && !Mentions((f.text)(mime), "multislicing")
  {
    hide SameIgnoringCase, FindString, Mentions;
    FindStringMentions((f.text)(mime), "x264");
    FindStringMentions((f.text)(mime), "multislicing");
    if fmtp.Some? { FindStringMentions(fmtp.value, "packetization-mode"); }
  }

  lemma FindStringMentions(s: string, word: string)
    ensures FindString(s, word).Some? <==> Mentions(s, word)
  {
    hide FindString;
    if FindString(s, word).Some? { assert OccursAt(s, word, FindString(s, word).value); }
  }

  /** A slot nobody has claimed, of the name and rate configured, where a rate that is not positive stands for any. */
  predicate FreeMatch(prof: Profile, i: int, conf: Codec) {
    && 0 <= i < 127 && i in prof && prof[i].description.None?
    && SameIgnoringCase(conf.mime, prof[i].mime) && (conf.rate == prof[i].rate || conf.rate <= 0)
  }

  /** It has the format parameters configured, too. */
  predicate FormatMatch(prof: Profile, i: int, conf: Codec) {
    && FreeMatch(prof, i, conf)
    && match (conf.recvFmtp, prof[i].recvFmtp)
       case (Some(a), Some(b)) => SameIgnoringCase(a, b)
       case (None, None) => true
       case _ => false
  }

  lemma QueryIsMatch(prof: Profile, i: int, conf: Codec)
    ensures CandidateAt(prof, QueryFor(conf), i) <==> FreeMatch(prof, i, conf)
    ensures ExactAt(prof, QueryFor(conf), i) <==> FormatMatch(prof, i, conf)
  {
    hide SameIgnoringCase;
  }

  /**
   * A configured codec claims the first free slot with its format parameters, and the last free one of its name and
   * rate when there is none with them; it claims nothing when there is none at all, or the codec cannot be run.
   */
  lemma {:induction false} ClaimedSlotIsBest(f: Filters, prof: Profile, conf: Codec)
    ensures var r := ClaimedSlot(f, prof, conf);
            && (r.Some? <==>
                  && (f.supported)(conf.mime) && !H264Blocked(f, conf.mime, conf.recvFmtp)
                  && exists i :: 0 <= i < 127 && FreeMatch(prof, i, conf))
            && (r.Some? ==>
                  if exists i :: 0 <= i < 127 && FormatMatch(prof, i, conf) then
                    FormatMatch(prof, r.value, conf) && forall j | 0 <= j < r.value :: !FormatMatch(prof, j, conf)
                  else
                    FreeMatch(prof, r.value, conf) && forall j | r.value < j < 127 :: !FreeMatch(prof, j, conf))
  {
    hide FirstExact, LastCandidate, CandidateAt, ExactAt, FreeMatch, FormatMatch, H264Blocked;
    forall i
      ensures CandidateAt(prof, QueryFor(conf), i) <==> FreeMatch(prof, i, conf)
      ensures ExactAt(prof, QueryFor(conf), i) <==> FormatMatch(prof, i, conf)
    {
      QueryIsMatch(prof, i, conf);
    }
    ExactIsCandidate(prof, QueryFor(conf), BestSlot(prof, QueryFor(conf)));
    forall i | FormatMatch(prof, i, conf) ensures FreeMatch(prof, i, conf) {
      ExactIsCandidate(prof, QueryFor(conf), i);
    }
  }

  /**
   * The profile after the second pass: a slot it found unclaimed is enabled and described, the others are as before.
   */
  lemma {:induction false} ProfileAfterAt(f: Filters, prof: Profile, n: nat, i: int)
    requires i in prof
    ensures var r := ProfileAfter(f, prof, n);
            r[i] == if 0 <= i < n && New(f, prof, i)
                    then prof[i].(description := Some((f.text)(prof[i].mime)), enabled := true) else prof[i]
  {
    if n == 0 {
    } else {
      hide New;
      ProfileAfterAt(f, prof, n - 1, i);
    }
  }

  /** What the second pass lists: of the right medium, able to run, and from now on enabled and described. */
  predicate AddedRightly(f: Filters, prof: Profile, t: Table, i: int, video: bool) {
    && i in prof && i in t.profile && (f.supported)(prof[i].mime) && !H264Blocked(f, prof[i].mime, prof[i].recvFmtp)
    && (if video then prof[i].kind.Video? else prof[i].kind.AudioContinuous? || prof[i].kind.AudioPacketized?)
    && t.profile[i].enabled && t.profile[i].description == Some((f.text)(prof[i].mime))
  }

  /** Every listed slot that was not claimed for the configuration is there rightly. */
  lemma {:induction false} AddedSlots(f: Filters, prof: Profile, audioConf: seq<Codec>, videoConf: seq<Codec>, i: int)
    requires ValidProfile(prof) && Claimed(prof) == {}
    ensures var t := Assemble(f, prof, audioConf, videoConf);
            var a := FixTo(f, prof, audioConf, |audioConf|);
            var v := FixTo(f, a.profile, videoConf, |videoConf|);
            && (i in t.audio && i !in a.slots ==> AddedRightly(f, prof, t, i, false))
            && (i in t.video && i !in v.slots ==> AddedRightly(f, prof, t, i, true))
  {
    hide FixTo, ListAfter, H264Blocked, NoDuplicates, Within;
    var a := FixTo(f, prof, audioConf, |audioConf|);
    var v := FixTo(f, a.profile, videoConf, |videoConf|);
    FixClaims(f, prof, audioConf, |audioConf|);
    FixClaims(f, a.profile, videoConf, |videoConf|);
    ListAfterHolds(f, v.profile, a.slots, false, i);
    ListAfterHolds(f, v.profile, v.slots, true, i);
    if i in v.profile {
      ProfileAfterAt(f, v.profile, LAST_SEARCHED, i);
      SameShapeAt(prof, a.profile, i);
      SameShapeAt(a.profile, v.profile, i);
    }
  }

  lemma SameShapeAt(a: Profile, b: Profile, i: int)
    requires SameShape(a, b) && i in b
    ensures i in a && a[i].mime == b[i].mime && a[i].kind == b[i].kind && a[i].recvFmtp == b[i].recvFmtp
  {
    var c, d := a[i].(description := None, enabled := true), b[i].(description := None, enabled := true);
    assert c == d && c.mime == d.mime && c.kind == d.kind && c.recvFmtp == d.recvFmtp;
  }

  lemma ListAfterHolds(f: Filters, prof: Profile, fixed: seq<int>, video: bool, i: int)
    ensures i in ListAfter(f, prof, fixed, video, LAST_SEARCHED) <==>
            i in fixed || (0 <= i < LAST_SEARCHED && Added(f, prof, i, video))
  {
    hide Added, OnTop, Top, Bottom;
    AddedOnce(f, prof, video, LAST_SEARCHED);
  }

  /** Speex, MPEG-4 and H264 are put in front by default. */
  predicate Favourite(mime: string) {
    mime == "speex" || mime == "MP4V-ES" || SameIgnoringCase(mime, "H264")
  }

  /**
   * The block of claimed slots stands at i, with favourites in front of it, the last found first, and the rest behind.
   */
  predicate FavouritesInFront(prof: Profile, list: seq<int>, slots: seq<int>, i: nat) {
    && StandsAt(list, slots, i)
    && (forall k | 0 <= k < i :: list[k] in prof && Favourite(prof[list[k]].mime))
    && (forall k | i + |slots| <= k < |list| :: list[k] in prof && !Favourite(prof[list[k]].mime))
    && (forall k, l | 0 <= k < l < i :: list[k] > list[l])
    && (forall k, l | i + |slots| <= k < l < |list| :: list[k] < list[l])
  }

  lemma {:induction false} ListInOrder(f: Filters, prof: Profile, fixed: seq<int>, video: bool)
    ensures exists i: nat :: FavouritesInFront(prof, ListAfter(f, prof, fixed, video, LAST_SEARCHED), fixed, i)
  {
    hide Top, Bottom, SameIgnoringCase, Added, OnTop, Favourite;
    var t, b := Top(f, prof, video, LAST_SEARCHED), Bottom(f, prof, video, LAST_SEARCHED);
    TopFalls(f, prof, video, LAST_SEARCHED);
    BottomRises(f, prof, video, LAST_SEARCHED);
    var list := ListAfter(f, prof, fixed, video, LAST_SEARCHED);
    var n := |t| + |fixed|;
    forall k | 0 <= k < |t| ensures list[k] == t[k] && list[k] in prof && Favourite(prof[list[k]].mime) {
      assert t[k] in t;
      AddedIsThere(f, prof, t[k], video);
    }
    forall k | n <= k < |list| ensures list[k] == b[k - n] && list[k] in prof && !Favourite(prof[list[k]].mime) {
      assert b[k - n] in b;
      AddedIsThere(f, prof, b[k - n], video);
    }
    assert StandsAt(list, fixed, |t|) by { assert list[|t|..n] == fixed; }
    assert FavouritesInFront(prof, list, fixed, |t|);
  }

  lemma AddedIsThere(f: Filters, prof: Profile, i: int, video: bool)
    requires Added(f, prof, i, video)
    ensures i in prof && (Favourite(prof[i].mime) <==> OnTop(prof[i].mime))
  {
  }

  // ---- the object ----

  /** One more slot of the second pass, as the loop sees it. */
  lemma ListAfterStep(f: Filters, prof: Profile, fixed: seq<int>, video: bool, i: nat)
    ensures var before, after := ListAfter(f, prof, fixed, video, i), ListAfter(f, prof, fixed, video, i + 1);
            after == if !Added(f, prof, i, video) then before else if OnTop(prof[i].mime) then [i] + before
              else before + [i]
  {
    hide Added, OnTop;
    var t, b := Top(f, prof, video, i), Bottom(f, prof, video, i);
    if Added(f, prof, i, video) {
      assert [i] + (t + fixed + b) == ([i] + t) + fixed + b;
      assert (t + fixed + b) + [i] == t + fixed + (b + [i]);
    } else {
      assert Top(f, prof, video, i + 1) == t && Bottom(f, prof, video, i + 1) == b;
    }
  }

  /** lc->local_profile and lc->codecs_conf. */
  class CodecLists {
    const filters: Filters
    var profile: Profile
    var audioCodecs: seq<int>
    var videoCodecs: seq<int>

    constructor (filters: Filters)
      ensures this.filters == filters && profile == map[] && audioCodecs == [] && videoCodecs == []
    {
      this.filters, profile, audioCodecs, videoCodecs := filters, map[], [], [];
    }

    /** fix_codec_list(). */
    method FixCodecList(conf: seq<Codec>) returns (list: seq<int>)
      modifies this`profile
      ensures var r := FixTo(filters, old(profile), conf, |conf|); profile == r.profile && list == r.slots
    {
      hide BestSlot, H264Blocked, IsBestSlot;
      list := [];
      var n := 0;
      while n < |conf|
        invariant 0 <= n <= |conf|
        invariant var r := FixTo(filters, old(profile), conf, n); profile == r.profile && list == r.slots
      {
        var slot := SearchSlot(profile, QueryFor(conf[n]));
        assert ClaimedSlot(filters, profile, conf[n]).Some? ==> CandidateAt(profile, QueryFor(conf[n]), slot);
        if slot >= 0 {
          if (filters.supported)(conf[n].mime) {
            if !H264Blocked(filters, conf[n].mime, conf[n].recvFmtp) {
              profile := Claim(profile, slot, (filters.text)(conf[n].mime), conf[n].enabled);
              list := list + [slot];
            }
          }
        }
        n := n + 1;
      }
    }

    /** linphone_core_setup_local_rtp_profile() on a fresh clone of the library's profile. */
    method SetupLocalProfile(clone: Profile, audioConf: seq<Codec>, videoConf: seq<Codec>)
      modifies this
      ensures Table(profile, audioCodecs, videoCodecs) == Assemble(filters, clone, audioConf, videoConf)
    {
      hide FixTo, Added, OnTop, H264Blocked;
      profile := clone;
      audioCodecs := FixCodecList(audioConf);
      videoCodecs := FixCodecList(videoConf);
      ghost var start := profile;
      ghost var audio, video := audioCodecs, videoCodecs;
      var i := 0;
      while i < LAST_SEARCHED
        invariant 0 <= i <= LAST_SEARCHED
        invariant profile == ProfileAfter(filters, start, i)
        invariant audioCodecs == ListAfter(filters, start, audio, false, i)
        invariant videoCodecs == ListAfter(filters, start, video, true, i)
      {
        ListAfterStep(filters, start, audio, false, i);
        ListAfterStep(filters, start, video, true, i);
        AddSlot(i, start);
        i := i + 1;
      }
    }

    /** The body of the second loop for slot i. */
    method AddSlot(i: nat, ghost start: Profile)
      requires i in profile <==> i in start
      requires i in profile ==> profile[i] == start[i]
      modifies this
      ensures profile == if New(filters, start, i) then Claim(old(profile), i, (filters.text)(start[i].mime), true)
              else old(profile)
      ensures audioCodecs == Listed(filters, start, old(audioCodecs), i, false)
      ensures videoCodecs == Listed(filters, start, old(videoCodecs), i, true)
    {
      hide PackModeOk;
      if i !in profile { return; }
      var payload := profile[i];
      if payload.description.Some? { return; }
      if (filters.supported)(payload.mime) {
        profile := Claim(profile, i, (filters.text)(payload.mime), true);
        var prepend := false;
        if payload.mime == "speex" || payload.mime == "MP4V-ES" {
          prepend := true;
          NotH264(payload.mime);
        } else if SameIgnoringCase(payload.mime, "H264") {
          if PackModeOk(payload.recvFmtp, (filters.text)(payload.mime)) { prepend := true; } else { return; }
        }
        match payload.kind
        case AudioContinuous | AudioPacketized =>
          audioCodecs := if prepend then [i] + audioCodecs else audioCodecs + [i];
        case Video =>
          videoCodecs := if prepend then [i] + videoCodecs else videoCodecs + [i];
        case Other =>
      }
    }
  }

  function Listed(f: Filters, prof: Profile, list: seq<int>, i: nat, video: bool): seq<int> {
    if !Added(f, prof, i, video) then list else if OnTop(prof[i].mime) then [i] + list else list + [i]
  }

  lemma NotH264(mime: string)
    requires mime == "speex" || mime == "MP4V-ES"
    ensures !SameIgnoringCase(mime, "H264")
  {
    assert |mime| != |"H264"|;
  }
}
