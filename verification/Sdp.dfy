/**
 * SDP messages and the answer and read-answer passes of SdpHandler.cpp, as functions. They work for any table of
 * callbacks on any session state `S`, as the original works through its table of callbacks.
 */
module Sdp {
  import opened Text

  datatype Medium = AudioLine | VideoLine

  /** sdp_payload_t without the relay fields and the protocol. */
  datatype Payload = Payload(
    line: int, pt: int, localport: int, remoteport: int, bandwidth: int, addr: string,
    rtpmap: Option<string>, fmtp: Option<string>, ptime: int)

  /** What a callback leaves behind: the session, the payload it was given, and whether it returned 0. */
  datatype Outcome<S> = Outcome(session: S, payload: Payload, ok: bool)

  /** sdp_handler_t: which accept and read callbacks are set, and what they do. */
  datatype Handler<!S> = Handler(
    accepts: set<Medium>, accept: (S, Medium, Payload) -> Outcome<S>,
    listens: set<Medium>, read: (S, Medium, Payload) -> S)

  /** An a= line: its field, the integer its value starts with if any, and the text after it. */
  datatype Attr = Attr(field: string, number: Option<int>, rest: string)

  datatype Bw = Bw(kind: string, value: int)

  /** An m= line with its own connection address if it has one. */
  datatype Media = Media(
    mtype: string, port: int, proto: string, payloads: seq<int>, attrs: seq<Attr>, bws: seq<Bw>, addr: Option<string>)

  datatype Message = Message(addr: string, lines: seq<Media>)

  /** keywordcmp() compares the keyword's length only. */
  function MediumOf(mtype: string): Option<Medium> {
    if "audio" <= mtype then Some(AudioLine)
    else if "video" <= mtype then Some(VideoLine)
    else None
  }

  /** sdp_message_a_attr_value_get_with_pt(). */
  function AttrValue(attrs: seq<Attr>, field: string, pt: int): (r: Option<string>)
    ensures r.Some? ==> r.value != ""
  {
    if attrs == [] then None
    else if field <= attrs[0].field && attrs[0].number == Some(pt) && attrs[0].rest != "" then Some(attrs[0].rest)
    else AttrValue(attrs[1..], field, pt)
  }

  /** _sdp_message_get_a_ptime(). */
  function Ptime(attrs: seq<Attr>): int {
    if attrs == [] then 0
    else if "ptime" <= attrs[0].field && attrs[0].number.Some? then attrs[0].number.value
    else Ptime(attrs[1..])
  }

  /** The last b=AS value, or 0. */
  function AsLimit(bws: seq<Bw>): int {
    if bws == [] then 0
    else
      var last := bws[|bws| - 1];
      if SameIgnoringCase(last.kind, "AS") then last.value else AsLimit(bws[..|bws| - 1])
  }

  /** The last b= line of kind AS, in any case. */
  predicate IsLastAs(bws: seq<Bw>, k: int) {
    0 <= k < |bws| && SameIgnoringCase(bws[k].kind, "AS") && forall l | k < l < |bws| ::
      !SameIgnoringCase(bws[l].kind, "AS")
  }

  lemma {:induction false} LastAsDecides(bws: seq<Bw>, k: nat)
    requires IsLastAs(bws, k)
    ensures AsLimit(bws) == bws[k].value
  {
    hide SameIgnoringCase;
    var n := |bws| - 1;
    if k == n {
    } else {
      assert !SameIgnoringCase(bws[n].kind, "AS");
      LastAsDecides(bws[..n], k);
    }
  }

  lemma {:induction false} NoAsNoLimit(bws: seq<Bw>)
    requires forall k | 0 <= k < |bws| :: !SameIgnoringCase(bws[k].kind, "AS")
    ensures AsLimit(bws) == 0
  {
    hide SameIgnoringCase;
    if bws == [] {
    } else {
      NoAsNoLimit(bws[..|bws| - 1]);
    }
  }

  /** Going back from the end, an AS line is met sooner or later if there is one. */
  lemma {:induction false} SomeLastAs(bws: seq<Bw>, k: nat) returns (last: nat)
    requires k < |bws| && SameIgnoringCase(bws[k].kind, "AS")
    ensures IsLastAs(bws, last)
  {
    hide SameIgnoringCase;
    var n := |bws| - 1;
    if SameIgnoringCase(bws[n].kind, "AS") {
      last := n;
    } else {
      last := SomeLastAs(bws[..n], k);
    }
  }

  /** The peer's limit is what its last b=AS line says, and 0 when there is none. */
  lemma {:induction false} AsLimitIsLastAs(bws: seq<Bw>)
    ensures forall k | IsLastAs(bws, k) :: AsLimit(bws) == bws[k].value
    ensures (forall k | 0 <= k < |bws| :: !SameIgnoringCase(bws[k].kind, "AS")) ==> AsLimit(bws) == 0
    ensures (exists k :: IsLastAs(bws, k)) || forall k | 0 <= k < |bws| :: !SameIgnoringCase(bws[k].kind, "AS")
  {
    hide AsLimit, SameIgnoringCase;
    if k: nat :| k < |bws| && SameIgnoringCase(bws[k].kind, "AS") {
      var last := SomeLastAs(bws, k);
      forall l | IsLastAs(bws, l) ensures AsLimit(bws) == bws[l].value {
        LastAsDecides(bws, l);
      }
    } else {
      NoAsNoLimit(bws);
    }
  }

  /** The k-th attribute is the first a= line of that field that gives the payload a text. */
  predicate IsFirstFor(attrs: seq<Attr>, field: string, pt: int, k: int) {
    && 0 <= k < |attrs| && Gives(attrs[k], field, pt)
    && forall l | 0 <= l < k :: !Gives(attrs[l], field, pt)
  }

  predicate Gives(attr: Attr, field: string, pt: int) {
    field <= attr.field && attr.number == Some(pt) && attr.rest != ""
  }

  /** The text of a payload is that of the first such line; without one there is none. */
  lemma {:induction false} AttrValueIsFirst(attrs: seq<Attr>, field: string, pt: int)
    ensures forall k | IsFirstFor(attrs, field, pt, k) :: AttrValue(attrs, field, pt) == Some(attrs[k].rest)
    ensures (forall k | 0 <= k < |attrs| :: !Gives(attrs[k], field, pt)) ==> AttrValue(attrs, field, pt) == None
  {
    if attrs == [] {
    } else {
      AttrValueIsFirst(attrs[1..], field, pt);
      if !Gives(attrs[0], field, pt) {
        forall k | IsFirstFor(attrs, field, pt, k) ensures AttrValue(attrs, field, pt) == Some(attrs[k].rest) {
          assert IsFirstFor(attrs[1..], field, pt, k - 1);
        }
      }
    }
  }

  /** The k-th attribute is the first a=ptime line with a number. */
  predicate IsFirstPtime(attrs: seq<Attr>, k: int) {
    && 0 <= k < |attrs| && "ptime" <= attrs[k].field && attrs[k].number.Some?
    && forall l | 0 <= l < k :: !("ptime" <= attrs[l].field && attrs[l].number.Some?)
  }

  /** The packet time is that of the first such line, and 0 when there is none. */
  lemma {:induction false} PtimeIsFirst(attrs: seq<Attr>)
    ensures forall k | IsFirstPtime(attrs, k) :: attrs[k].number == Some(Ptime(attrs))
    ensures (forall k | 0 <= k < |attrs| :: !("ptime" <= attrs[k].field && attrs[k].number.Some?)) ==> Ptime(attrs) == 0
  {
    if attrs == [] {
    } else {
      PtimeIsFirst(attrs[1..]);
      if !("ptime" <= attrs[0].field && attrs[0].number.Some?) {
        forall k | IsFirstPtime(attrs, k) ensures attrs[k].number == Some(Ptime(attrs)) {
          assert IsFirstPtime(attrs[1..], k - 1);
        }
      }
    }
  }

  // ---- building a line ----

  function PayloadAttrs(p: Payload): seq<Attr> {
    (if p.rtpmap.Some? then [Attr("rtpmap", Some(p.pt), p.rtpmap.value)] else []) +
    (if p.fmtp.Some? then [Attr("fmtp", Some(p.pt), p.fmtp.value)] else [])
  }

  function WithPayload(media: Media, p: Payload): Media {
    media.(payloads := media.payloads + [p.pt], attrs := media.attrs + PayloadAttrs(p),
           bws := if media.bws == [] && p.bandwidth != 0 then [Bw("AS", p.bandwidth)] else media.bws)
  }

  function EmptyLine(mtype: string, port: int, proto: string): Media {
    Media(mtype, port, proto, [], [], [], None)
  }

  /** The indexed appends on a message: nothing happens when there is no such line. */
  function PutPayload(lines: seq<Media>, at: nat, p: Payload): seq<Media> {
    if at < |lines| then lines[at := WithPayload(lines[at], p)] else lines
  }

  function PutNumber(lines: seq<Media>, at: nat, pt: int): seq<Media> {
    if at < |lines| then lines[at := lines[at].(payloads := lines[at].payloads + [pt])] else lines
  }

  /** A line holding these payloads, announced on the first one's port. */
  function LineOf(mtype: string, proto: string, ps: seq<Payload>): Media
    requires ps != []
  {
    var n := |ps| - 1;
    WithPayload(if n == 0 then EmptyLine(mtype, ps[0].localport, proto) else LineOf(mtype, proto, ps[..n]), ps[n])
  }

  /** refuse_mline(): port 0 and the payload 0. */
  function Refused(media: Media): Media {
    EmptyLine(media.mtype, 0, media.proto).(payloads := [0])
  }

  // ---- what a line holds ----

  function Numbers(ps: seq<Payload>): seq<int> {
    seq(|ps|, i requires 0 <= i < |ps| => ps[i].pt)
  }

  function FirstBandwidth(ps: seq<Payload>): int {
    if ps == [] then 0 else if ps[0].bandwidth != 0 then ps[0].bandwidth else FirstBandwidth(ps[1..])
  }

  lemma {:induction false} FirstBandwidthSnoc(ps: seq<Payload>, p: Payload)
    ensures FirstBandwidth(ps + [p]) == if FirstBandwidth(ps) != 0 then FirstBandwidth(ps) else p.bandwidth
  {
    if ps == [] {
      assert [] + [p] == [p];
    } else {
      assert (ps + [p])[1..] == ps[1..] + [p];
      FirstBandwidthSnoc(ps[1..], p);
    }
  }

  /** The first payload of that number that carries a usable rtpmap. */
  function RtpmapAmong(ps: seq<Payload>, pt: int): Option<string> {
    if ps == [] then None
    else if ps[0].pt == pt && ps[0].rtpmap.Some? && ps[0].rtpmap.value != "" then ps[0].rtpmap
    else RtpmapAmong(ps[1..], pt)
  }

  lemma {:induction false} RtpmapAmongSnoc(ps: seq<Payload>, p: Payload, pt: int)
    ensures RtpmapAmong(ps + [p], pt) == if RtpmapAmong(ps, pt).Some? then RtpmapAmong(ps, pt) else RtpmapAmong([p], pt)
  {
    if ps == [] {
      assert [] + [p] == [p];
    } else {
      assert (ps + [p])[1..] == ps[1..] + [p];
      RtpmapAmongSnoc(ps[1..], p, pt);
    }
  }

  lemma {:induction false} AttrValueSplit(a: seq<Attr>, b: seq<Attr>, field: string, pt: int)
    ensures AttrValue(a + b, field, pt) == if AttrValue(a, field, pt).Some? then AttrValue(a, field, pt)
            else AttrValue(b, field, pt)
  {
    if a == [] {
      assert a + b == b;
    } else {
      assert (a + b)[1..] == a[1..] + b;
      AttrValueSplit(a[1..], b, field, pt);
    }
  }

  lemma PayloadAttrsLookup(p: Payload, pt: int)
    ensures AttrValue(PayloadAttrs(p), "rtpmap", pt) == RtpmapAmong([p], pt)
  {
    assert |"rtpmap"| == 6 && |"fmtp"| == 4;
    var a := if p.rtpmap.Some? then [Attr("rtpmap", Some(p.pt), p.rtpmap.value)] else [];
    var b := if p.fmtp.Some? then [Attr("fmtp", Some(p.pt), p.fmtp.value)] else [];
    AttrValueSplit(a, b, "rtpmap", pt);
  }

  lemma EmptyAttrs(pt: int)
    ensures AttrValue([], "rtpmap", pt) == None
  {
  }

  /** The first payload of that number that carries usable format parameters. */
  function FormatAmong(ps: seq<Payload>, pt: int): Option<string> {
    if ps == [] then None
    else if ps[0].pt == pt && ps[0].fmtp.Some? && ps[0].fmtp.value != "" then ps[0].fmtp
    else FormatAmong(ps[1..], pt)
  }

  lemma {:induction false} FormatAmongSnoc(ps: seq<Payload>, p: Payload, pt: int)
    ensures FormatAmong(ps + [p], pt) == if FormatAmong(ps, pt).Some? then FormatAmong(ps, pt) else FormatAmong([p], pt)
  {
    if ps == [] {
      assert [] + [p] == [p];
    } else {
      assert (ps + [p])[1..] == ps[1..] + [p];
      FormatAmongSnoc(ps[1..], p, pt);
    }
  }

  lemma PayloadFormatLookup(p: Payload, pt: int)
    ensures AttrValue(PayloadAttrs(p), "fmtp", pt) == FormatAmong([p], pt)
  {
    assert |"rtpmap"| == 6 && |"fmtp"| == 4 && "rtpmap"[0] != "fmtp"[0];
    var a := if p.rtpmap.Some? then [Attr("rtpmap", Some(p.pt), p.rtpmap.value)] else [];
    var b := if p.fmtp.Some? then [Attr("fmtp", Some(p.pt), p.fmtp.value)] else [];
    AttrValueSplit(a, b, "fmtp", pt);
  }

  /** The format parameters of a line are those of its payloads. */
  lemma {:induction false} LineFormats(mtype: string, proto: string, ps: seq<Payload>, pt: int)
    requires ps != []
    ensures AttrValue(LineOf(mtype, proto, ps).attrs, "fmtp", pt) == FormatAmong(ps, pt)
  {
    hide AttrValue, PayloadAttrs;
    var n := |ps| - 1;
    assert ps == ps[..n] + [ps[n]];
    PayloadFormatLookup(ps[n], pt);
    FormatAmongSnoc(ps[..n], ps[n], pt);
    if n == 0 {
      assert ps[..n] == [];
      AttrValueSplit([], PayloadAttrs(ps[n]), "fmtp", pt);
      EmptyFormats(pt);
    } else {
      LineFormats(mtype, proto, ps[..n], pt);
      AttrValueSplit(LineOf(mtype, proto, ps[..n]).attrs, PayloadAttrs(ps[n]), "fmtp", pt);
    }
  }

  lemma EmptyFormats(pt: int)
    ensures AttrValue([], "fmtp", pt) == None
  {
  }

  /** The line says what its payloads say: numbers in order, the first port, each rtpmap, at most one bandwidth. */
  lemma {:induction false} LineContents(mtype: string, proto: string, ps: seq<Payload>, pt: int)
    requires ps != []
    ensures var line := LineOf(mtype, proto, ps);
            && line.mtype == mtype && line.proto == proto && line.port == ps[0].localport && line.addr == None
            && line.payloads == Numbers(ps)
            && line.bws == (if FirstBandwidth(ps) == 0 then [] else [Bw("AS", FirstBandwidth(ps))])
            && AttrValue(line.attrs, "rtpmap", pt) == RtpmapAmong(ps, pt)
  {
    hide AttrValue, PayloadAttrs;
    EmptyAttrs(pt);
    var n := |ps| - 1;
    assert ps == ps[..n] + [ps[n]];
    PayloadAttrsLookup(ps[n], pt);
    FirstBandwidthSnoc(ps[..n], ps[n]);
    RtpmapAmongSnoc(ps[..n], ps[n], pt);
    if n == 0 {
      assert ps[..n] == [];
      AttrValueSplit([], PayloadAttrs(ps[n]), "rtpmap", pt);
    } else {
      LineContents(mtype, proto, ps[..n], pt);
      AttrValueSplit(LineOf(mtype, proto, ps[..n]).attrs, PayloadAttrs(ps[n]), "rtpmap", pt);
    }
    assert Numbers(ps) == Numbers(ps[..n]) + [ps[n].pt];
  }

  lemma {:induction false} RtpmapAmongFound(ps: seq<Payload>, pt: int)
    ensures RtpmapAmong(ps, pt).Some? ==>
              exists i :: 0 <= i < |ps| && ps[i].pt == pt && ps[i].rtpmap == RtpmapAmong(ps, pt)
    ensures RtpmapAmong(ps, pt).Some? ==> RtpmapAmong(ps, pt).value != ""
  {
    if ps == [] {
    } else {
      RtpmapAmongFound(ps[1..], pt);
      if !(ps[0].pt == pt && ps[0].rtpmap.Some? && ps[0].rtpmap.value != "") && RtpmapAmong(ps, pt).Some? {
        var i :| 0 <= i < |ps[1..]| && ps[1..][i].pt == pt && ps[1..][i].rtpmap == RtpmapAmong(ps[1..], pt);
        assert ps[i + 1].pt == pt;
      }
    }
  }

  // ---- the payloads of an incoming message ----

  /** What the outer loop prepares for line i. */
  function LinePayload(msg: Message, i: nat): Payload
    requires i < |msg.lines|
  {
    var media := msg.lines[i];
    Payload(i, 0, 0, media.port, AsLimit(media.bws), media.addr.GetOr(msg.addr), None, None, Ptime(media.attrs))
  }

  /** What the inner loop hands to the callback for the j-th payload of line i. */
  function PayloadAt(msg: Message, i: nat, j: nat): Payload
    requires i < |msg.lines| && j < |msg.lines[i].payloads|
  {
    var media := msg.lines[i];
    var pt := media.payloads[j];
    LinePayload(msg, i).(pt := pt, rtpmap := AttrValue(media.attrs, "rtpmap", pt),
      fmtp := AttrValue(media.attrs, "fmtp", pt))
  }

  // ---- answering ----

  /** After some payloads of a line: the session, the payloads kept, and each callback's verdict. */
  datatype Scanned<S> = Scanned(session: S, kept: seq<Payload>, oks: seq<bool>)

  function Scan<S>(h: Handler<S>, s: S, m: Medium, msg: Message, i: nat, n: nat): (r: Scanned<S>)
    requires i < |msg.lines| && n <= |msg.lines[i].payloads|
    ensures |r.oks| == n && |r.kept| <= n
  {
    if n == 0 then Scanned(s, [], [])
    else
      var prev := Scan(h, s, m, msg, i, n - 1);
      var r := (h.accept)(prev.session, m, PayloadAt(msg, i, n - 1));
      Scanned(r.session, if r.ok then prev.kept + [r.payload] else prev.kept, prev.oks + [r.ok])
  }

  /** The payloads of a whole line; without a callback nothing is asked and nothing is kept. */
  function ScanLine<S>(h: Handler<S>, s: S, m: Medium, msg: Message, i: nat): (r: Scanned<S>)
    requires i < |msg.lines|
    ensures |r.oks| == |msg.lines[i].payloads|
  {
    var n := |msg.lines[i].payloads|;
    if m in h.accepts then Scan(h, s, m, msg, i, n) else Scanned(s, [], seq(n, _ => false))
  }

  /** A line added at the end is completed by the indexed appends only if its index is that of the offered line. */
  function Placed(line: Media, aligned: bool): Media {
    if aligned then line else line.(payloads := [], attrs := [], bws := [])
  }

  function AnswerLine(media: Media, kept: seq<Payload>, aligned: bool): Media {
    Placed(if kept == [] then Refused(media) else LineOf(media.mtype, media.proto, kept), aligned)
  }

  /**
   * After some lines: the session, the answer's lines, the verdicts by offered line, and how many lines were accepted.
   */
  datatype Answered<S> = Answered(session: S, lines: seq<Media>, verdicts: seq<seq<bool>>, accepted: nat)

  function AnswerTo<S>(h: Handler<S>, s: S, msg: Message, n: nat): (r: Answered<S>)
    requires n <= |msg.lines|
    ensures |r.verdicts| == n && |r.lines| <= n
  {
    if n == 0 then Answered(s, [], [], 0)
    else
      var prev := AnswerTo(h, s, msg, n - 1);
      var media := msg.lines[n - 1];
      match MediumOf(media.mtype)
      case None => prev.(verdicts := prev.verdicts + [[]])
      case Some(m) =>
        var sc := ScanLine(h, prev.session, m, msg, n - 1);
        Answered(sc.session, prev.lines + [AnswerLine(media, sc.kept, |prev.lines| == n - 1)], prev.verdicts + [sc.oks],
                 if sc.kept == [] then prev.accepted else prev.accepted + 1)
  }

  /** negoc_status. */
  function StatusOf<S>(a: Answered<S>): int {
    if a.accepted > 0 then 200 else 415
  }

  // ---- reading an answer ----

  function ReadLine<S>(h: Handler<S>, s: S, m: Medium, msg: Message, i: nat, n: nat): S
    requires i < |msg.lines| && n <= |msg.lines[i].payloads|
  {
    if n == 0 || m !in h.listens then s
    else (h.read)(ReadLine(h, s, m, msg, i, n - 1), m, PayloadAt(msg, i, n - 1))
  }

  /** The session after the first n lines of an answer are read. */
  function ReadTo<S>(h: Handler<S>, s: S, msg: Message, n: nat): S
    requires n <= |msg.lines|
  {
    if n == 0 then s
    else
      var prev := ReadTo(h, s, msg, n - 1);
      match MediumOf(msg.lines[n - 1].mtype)
      case None => prev
      case Some(m) => ReadLine(h, prev, m, msg, n - 1, |msg.lines[n - 1].payloads|)
  }
}
