/** Bandwidth arithmetic of Private.h and Misc.cpp; a negative limit means "no limit". */
module Bandwidth {

  /** C integer division truncates toward zero. */
  function CDiv(a: int, b: nat): (q: int)
    requires b > 0
    ensures a >= 0 ==> q * b <= a < (q + 1) * b
    ensures a < 0 ==> (q - 1) * b < a <= q * b
  {
    if a >= 0 then a / b else -((-a) / b)
  }

  function Min(a: int, b: int): int { if a < b then a else b }

  function Max(a: int, b: int): int { if a > b then a else b }

  function MinBandwidth(down: int, up: int): int {
    if down < 0 then up
    else if up < 0 then down
    else Min(down, up)
  }

  predicate IsGreater(bw1: int, bw2: int) {
    if bw1 < 0 then true
    else if bw2 < 0 then false
    else bw1 >= bw2
  }

  const UDP_HDR_SZ := 8
  const RTP_HDR_SZ := 12
  const IP4_HDR_SZ := 20

  /** get_audio_payload_bandwidth(): 50 packets a second, each with its headers; the doubles used are whole numbers. */
  function AudioBandwidth(bitrate: int): int {
    (CDiv(bitrate, 50 * 8) + UDP_HDR_SZ + RTP_HDR_SZ + IP4_HDR_SZ) * 8 * 50
  }

  /** The headers cost 16000 bit/s, from which the lost fraction of a byte per packet is saved. */
  lemma AudioBandwidthBounds(b: nat)
    ensures b + 15600 < AudioBandwidth(b) <= b + 16000
  {
  }

  lemma AudioBandwidthMonotone(a: int, b: int)
    requires a <= b
    ensures AudioBandwidth(a) <= AudioBandwidth(b)
  {
    var p, q := CDiv(a, 400), CDiv(b, 400);
    assert p <= q;
  }

  /** The audio branch of linphone_core_check_payload_type_usability(), where 0 in the settings means no limit. */
  predicate AudioFits(download: int, upload: int, bitrate: int) {
    var m := MinBandwidth(download, upload);
    IsGreater((if m == 0 then -1 else m) * 1000, AudioBandwidth(bitrate))
  }

  /** One limit on its own; negative means none. */
  predicate FitsLimit(limit: int, bandwidth: int) {
    limit < 0 || limit * 1000 >= bandwidth
  }

  /** What the two settings are meant to say: each non-zero limit is respected. */
  predicate FitsBoth(download: int, upload: int, bandwidth: int) {
    (download == 0 || FitsLimit(download, bandwidth)) && (upload == 0 || FitsLimit(upload, bandwidth))
  }

  /**
   * The test respects both limits exactly when it is not the case that one setting is 0 ("no limit"),
   * the other is positive, and the codec exceeds that other one: there the 0 hides the positive limit.
   */
  lemma AudioFitsIff(download: int, upload: int, bitrate: nat)
    ensures AudioFits(download, upload, bitrate) <==>
            FitsBoth(download, upload, AudioBandwidth(bitrate)) || (download == 0 && upload > 0) ||
              (upload == 0 && download > 0)
  {
    AudioBandwidthBounds(bitrate);
  }

  /** The smaller of two limits is the one that decides: what fits it fits both, and the other way round. */
  lemma MinBandwidthDecides(down: int, up: int, bandwidth: int)
    ensures FitsLimit(MinBandwidth(down, up), bandwidth) <==> FitsLimit(down, bandwidth) && FitsLimit(up, bandwidth)
    ensures MinBandwidth(down, up) == down || MinBandwidth(down, up) == up
  {
  }

  /** A 64 kbit/s codec passes a 32 kbit/s upload limit when the download limit is left at 0. */
  lemma ZeroHidesTheOtherLimit()
    ensures AudioFits(0, 32, 64000) && !FitsBoth(0, 32, AudioBandwidth(64000))
  {
  }

  /** linphone_core_set_download_bandwidth() and its upload twin: the audio and the video share of a setting. */
  datatype Share = Share(audio: int, video: int)

  function Split(bw: int, audioBw: int): Share {
    if bw == 0 then Share(-1, -1)
    else
      var audio := Min(audioBw, bw);
      Share(audio, Max(bw - audio - 10, 0))
  }

  /**
   * What the shares of a setting are: the audio codec's bandwidth as far as it fits, and the rest less 10 for video.
   */
  predicate ShareOf(share: Share, setting: int, audioBw: int) {
    if setting == 0 then share.audio == share.video == -1
    else
      && share.audio <= audioBw && share.audio <= setting && (share.audio == audioBw || share.audio == setting)
      && share.video >= 0
      && (share.video > 0 ==> share.audio + share.video + 10 == setting)
      && (share.video == 0 ==> setting - share.audio <= 10)
  }

  /** The two shares and the margin of 10 make up the setting, unless video gets nothing; 0 leaves both unlimited. */
  lemma SplitConserves(bw: int, audioBw: int)
    ensures ShareOf(Split(bw, audioBw), bw, audioBw)
  {
  }

  /** There is only one way to share a setting out. */
  lemma ShareIsUnique(a: Share, b: Share, setting: int, audioBw: int)
    requires ShareOf(a, setting, audioBw) && ShareOf(b, setting, audioBw)
    ensures a == b
  {
  }
}
