/**
 * What sdp_context_get_answer() guarantees whatever the callbacks do: the answer lines up with the offer, and each
 * line lists exactly what was accepted.
 */
module Answers {
  import opened Text
  import opened Sdp

  // ---- alignment (section 6 of RFC 3264) ----

  predicate AllMedia(msg: Message) {
    forall i | 0 <= i < |msg.lines| :: MediumOf(msg.lines[i].mtype).Some?
  }

  /** The number of audio and video lines among the first n. */
  function MediaLines(msg: Message, n: nat): (r: nat)
    requires n <= |msg.lines|
    ensures r <= n
    ensures r == n <==> forall i | 0 <= i < n :: MediumOf(msg.lines[i].mtype).Some?
  {
    if n == 0 then 0 else MediaLines(msg, n - 1) + if MediumOf(msg.lines[n - 1].mtype).Some? then 1 else 0
  }

  /** The answer has one line per audio or video line offered, and lines of other media get none. */
  lemma {:induction false} AnswerLineCount<S>(h: Handler<S>, s: S, msg: Message, n: nat)
    requires n <= |msg.lines|
    ensures |AnswerTo(h, s, msg, n).lines| == MediaLines(msg, n)
  {
    hide ScanLine, AnswerLine;
    if n == 0 {
    } else {
      AnswerLineCount(h, s, msg, n - 1);
    }
  }

  /** The scan of line i as it happens during the whole pass. */
  function ScanOf<S>(h: Handler<S>, s: S, msg: Message, i: nat): Scanned<S>
    requires i < |msg.lines| && MediumOf(msg.lines[i].mtype).Some?
  {
    ScanLine(h, AnswerTo(h, s, msg, i).session, MediumOf(msg.lines[i].mtype).value, msg, i)
  }

  /** What one more audio or video line adds to an answer: one line, aligned as long as no other medium came before. */
  lemma AnswerStep<S>(h: Handler<S>, s: S, msg: Message, i: nat)
    requires i < |msg.lines| && MediumOf(msg.lines[i].mtype).Some?
    ensures var prev, next := AnswerTo(h, s, msg, i), AnswerTo(h, s, msg, i + 1);
            var sc := ScanOf(h, s, msg, i);
            && |prev.lines| == MediaLines(msg, i)
            && next.lines == prev.lines + [AnswerLine(msg.lines[i], sc.kept, MediaLines(msg, i) == i)]
            && next.verdicts == prev.verdicts + [sc.oks]
            && next.session == sc.session
            && next.accepted == prev.accepted + if sc.kept == [] then 0 else 1
  {
    AnswerLineCount(h, s, msg, i);
  }

  /** Where the answer of line i is found in the end. */
  lemma {:induction false} AnswerPrefix<S>(h: Handler<S>, s: S, msg: Message, n: nat, i: nat)
    requires i < n <= |msg.lines| && MediumOf(msg.lines[i].mtype).Some?
    ensures var r := AnswerTo(h, s, msg, n);
            && MediaLines(msg, i) < |r.lines|
            && r.lines[MediaLines(msg, i)] ==
              AnswerLine(msg.lines[i], ScanOf(h, s, msg, i).kept, MediaLines(msg, i) == i)
            && r.verdicts[i] == ScanOf(h, s, msg, i).oks
  {
    hide ScanLine, AnswerLine;
    if i == n - 1 {
      hide AnswerTo;
      AnswerStep(h, s, msg, i);
    } else {
      AnswerPrefix(h, s, msg, n - 1, i);
    }
  }

  lemma AnswerLineHeader(media: Media, kept: seq<Payload>)
    ensures var line := AnswerLine(media, kept, true);
            && line.mtype == media.mtype && line.proto == media.proto
            && line.port == (if kept == [] then 0 else kept[0].localport)
            && line.payloads == (if kept == [] then [0] else Numbers(kept))
            && line.addr == None
  {
    if kept != [] { LineContents(media.mtype, media.proto, kept, 0); }
  }

  /** The answer lines up with the offer, line by line, exactly when every offered line is audio or video. */
  lemma AnswerAligned<S>(h: Handler<S>, s: S, msg: Message)
    ensures var lines := AnswerTo(h, s, msg, |msg.lines|).lines;
            && (|lines| == |msg.lines| <==> AllMedia(msg))
            && (AllMedia(msg) ==>
                  forall i | 0 <= i < |msg.lines| :: lines[i].mtype == msg.lines[i].mtype &&
                    lines[i].proto == msg.lines[i].proto)
  {
    var lines := AnswerTo(h, s, msg, |msg.lines|).lines;
    AnswerLineCount(h, s, msg, |msg.lines|);
    if AllMedia(msg) {
      forall i | 0 <= i < |msg.lines|
        ensures lines[i].mtype == msg.lines[i].mtype && lines[i].proto == msg.lines[i].proto
      {
        AnswerPrefix(h, s, msg, |msg.lines|, i);
        AnswerLineHeader(msg.lines[i], ScanOf(h, s, msg, i).kept);
      }
    }
  }

  /** A line of another medium comes before line i. */
  predicate OtherMediumBefore(msg: Message, i: nat)
    requires i < |msg.lines|
  {
    exists k :: 0 <= k < i && MediumOf(msg.lines[k].mtype).None?
  }

  /**
   * The answer to an audio or video line loses all it should say exactly when a line of another medium comes before it.
   */
  lemma LostAfterOtherMedium<S>(h: Handler<S>, s: S, msg: Message, i: nat)
    requires i < |msg.lines| && MediumOf(msg.lines[i].mtype).Some?
    ensures var lines := AnswerTo(h, s, msg, |msg.lines|).lines;
            && MediaLines(msg, i) < |lines|
            && (lines[MediaLines(msg, i)].payloads == [] <==> OtherMediumBefore(msg, i))
            && (OtherMediumBefore(msg, i) ==>
                  lines[MediaLines(msg, i)].attrs == [] && lines[MediaLines(msg, i)].bws == [])
  {
    hide AnswerTo;
    var kept := ScanOf(h, s, msg, i).kept;
    AnswerPrefix(h, s, msg, |msg.lines|, i);
    AnswerLineHeader(msg.lines[i], kept);
    assert OtherMediumBefore(msg, i) <==> MediaLines(msg, i) != i;
  }

  /** An offer whose audio line comes after a line of another medium. */
  function ThirdMediumOffer(): Message {
    Message("", [EmptyLine("application", 9, "udp"), EmptyLine("audio", 9, "RTP/AVP").(payloads := [0])])
  }

  /** Its answer is one line short, and that line says nothing. */
  lemma ThirdMediumMisaligns<S>(h: Handler<S>, s: S)
    ensures var lines := AnswerTo(h, s, ThirdMediumOffer(), 2).lines;
            |lines| == 1 && lines[0].mtype == "audio" && lines[0].payloads == []
  {
    var msg := ThirdMediumOffer();
    assert "application"[1] != "audio"[1] && "application"[0] != "video"[0];
    assert MediaLines(msg, 1) == 0 && MediaLines(msg, 2) == 1;
    AnswerLineCount(h, s, msg, 2);
    AnswerPrefix(h, s, msg, 2, 1);
    AnswerLineHeader(msg.lines[1], ScanOf(h, s, msg, 1).kept);
    LostAfterOtherMedium(h, s, msg, 1);
  }

  // ---- contents (section 6.1 of RFC 3264) ----

  /** Callbacks that leave the payload's number and its rtpmap as they are. */
  ghost predicate Echoes<S(!new)>(h: Handler<S>) {
    forall s, m, p :: (h.accept)(s, m, p).payload.pt == p.pt && (h.accept)(s, m, p).payload.rtpmap == p.rtpmap
  }

  /** The numbers whose verdict is true, in order. */
  function Selected(pts: seq<int>, oks: seq<bool>): seq<int>
    requires |oks| <= |pts|
  {
    if oks == [] then [] else (if oks[0] then [pts[0]] else []) + Selected(pts[1..], oks[1..])
  }

  lemma {:induction false} SelectedSnoc(pts: seq<int>, oks: seq<bool>, ok: bool)
    requires |oks| < |pts|
    ensures Selected(pts, oks + [ok]) == Selected(pts, oks) + if ok then [pts[|oks|]] else []
  {
    if oks == [] {
      assert oks + [ok] == [ok];
      assert Selected(pts[1..], [ok][1..]) == [];
    } else {
      assert (oks + [ok])[1..] == oks[1..] + [ok];
      SelectedSnoc(pts[1..], oks[1..], ok);
    }
  }

  lemma {:induction false} SelectedNone(pts: seq<int>, oks: seq<bool>)
    requires |oks| <= |pts| && true !in oks
    ensures Selected(pts, oks) == []
  {
    if oks == [] {
    } else {
      assert oks[0] in oks;
      SelectedNone(pts[1..], oks[1..]);
    }
  }

  lemma {:induction false} ScanVerdicts<S>(h: Handler<S>, s: S, m: Medium, msg: Message, i: nat, n: nat, j: nat)
    requires i < |msg.lines| && j < n <= |msg.lines[i].payloads|
    ensures Scan(h, s, m, msg, i, n).oks[j] == (h.accept)(Scan(h, s, m, msg, i, j).session, m, PayloadAt(msg, i, j)).ok
  {
    if j == n - 1 {
    } else {
      ScanVerdicts(h, s, m, msg, i, n - 1, j);
    }
  }

  /** The rtpmap of every payload kept is the one the offer gives for its number. */
  predicate Faithful(kept: seq<Payload>, attrs: seq<Attr>) {
    forall k | 0 <= k < |kept| :: kept[k].rtpmap == AttrValue(attrs, "rtpmap", kept[k].pt)
  }

  lemma NumbersSnoc(kept: seq<Payload>, p: Payload)
    ensures Numbers(kept + [p]) == Numbers(kept) + [p.pt]
  {
  }

  lemma FaithfulSnoc(kept: seq<Payload>, attrs: seq<Attr>, p: Payload)
    requires Faithful(kept, attrs) && p.rtpmap == AttrValue(attrs, "rtpmap", p.pt)
    ensures Faithful(kept + [p], attrs)
  {
    hide AttrValue;
  }

  /** The payloads kept are the accepted ones, in offer order. */
  lemma {:induction false} ScanContents<S(!new)>(h: Handler<S>, s: S, m: Medium, msg: Message, i: nat, n: nat)
    requires Echoes(h) && i < |msg.lines| && n <= |msg.lines[i].payloads|
    ensures var r := Scan(h, s, m, msg, i, n);
            && Numbers(r.kept) == Selected(msg.lines[i].payloads, r.oks)
            && Faithful(r.kept, msg.lines[i].attrs)
            && (r.kept == [] <==> true !in r.oks)
  {
    hide Selected, Faithful, Numbers;
    var media := msg.lines[i];
    if n == 0 {
      SelectedNone(media.payloads, []);
      NothingKept(media.attrs);
    } else {
      var prev := Scan(h, s, m, msg, i, n - 1);
      var p := PayloadAt(msg, i, n - 1);
      var r := (h.accept)(prev.session, m, p);
      ScanContents(h, s, m, msg, i, n - 1);
      assert r.payload.pt == p.pt && r.payload.rtpmap == p.rtpmap;
      SelectedSnoc(media.payloads, prev.oks, r.ok);
      if r.ok {
        NumbersSnoc(prev.kept, r.payload);
        FaithfulSnoc(prev.kept, media.attrs, r.payload);
      }
    }
  }

  lemma NothingKept(attrs: seq<Attr>)
    ensures Numbers([]) == [] && Faithful([], attrs)
  {
  }

  lemma {:induction false} RtpmapAmongKept(ps: seq<Payload>, attrs: seq<Attr>, pt: int)
    requires Faithful(ps, attrs)
    ensures RtpmapAmong(ps, pt) == if pt in Numbers(ps) then AttrValue(attrs, "rtpmap", pt) else None
  {
    if ps == [] {
    } else {
      RtpmapAmongKept(ps[1..], attrs, pt);
      assert Numbers(ps) == [ps[0].pt] + Numbers(ps[1..]);
    }
  }

  /**
   * One line of an answer: refused with port 0 and the payload 0 when nothing was accepted, otherwise the accepted
   * numbers in offer order, each with its offered rtpmap, and at most one bandwidth.
   */
  predicate AnswersLine(line: Media, media: Media, oks: seq<bool>)
    requires |oks| == |media.payloads|
  {
    if true !in oks then
      line == EmptyLine(media.mtype, 0, media.proto).(payloads := [0])
    else
      && line.payloads == Selected(media.payloads, oks)
      && (forall pt | pt in line.payloads ::
        AttrValue(line.attrs, "rtpmap", pt) == AttrValue(media.attrs, "rtpmap", pt))
      && |line.bws| <= 1
  }

  lemma LineOfAnswers(media: Media, kept: seq<Payload>, oks: seq<bool>)
    requires |oks| == |media.payloads| && true in oks && kept != []
    requires Numbers(kept) == Selected(media.payloads, oks) && Faithful(kept, media.attrs)
    ensures AnswersLine(LineOf(media.mtype, media.proto, kept), media, oks)
  {
    var line := LineOf(media.mtype, media.proto, kept);
    LineContents(media.mtype, media.proto, kept, 0);
    forall pt | pt in line.payloads
      ensures AttrValue(line.attrs, "rtpmap", pt) == AttrValue(media.attrs, "rtpmap", pt) {
      LineContents(media.mtype, media.proto, kept, pt);
      RtpmapAmongKept(kept, media.attrs, pt);
    }
  }

  lemma ScanLineContents<S(!new)>(h: Handler<S>, s: S, m: Medium, msg: Message, i: nat)
    requires Echoes(h) && i < |msg.lines|
    ensures var sc := ScanLine(h, s, m, msg, i);
            && Numbers(sc.kept) == Selected(msg.lines[i].payloads, sc.oks)
            && Faithful(sc.kept, msg.lines[i].attrs)
            && (sc.kept == [] <==> true !in sc.oks)
  {
    if m in h.accepts {
      ScanContents(h, s, m, msg, i, |msg.lines[i].payloads|);
    } else {
      SelectedNone(msg.lines[i].payloads, ScanLine(h, s, m, msg, i).oks);
    }
  }

  /** The callback is set and returned 0 for the j-th payload of line i. */
  predicate AcceptedAt<S>(h: Handler<S>, s: S, msg: Message, i: nat, j: nat)
    requires i < |msg.lines| && MediumOf(msg.lines[i].mtype).Some? && j < |msg.lines[i].payloads|
  {
    var m := MediumOf(msg.lines[i].mtype).value;
    m in h.accepts && (h.accept)(Scan(h, AnswerTo(h, s, msg, i).session, m, msg, i, j).session, m,
      PayloadAt(msg, i, j)).ok
  }

  /** The verdicts of line i are those of its callbacks. */
  lemma LineVerdicts<S(!new)>(h: Handler<S>, s: S, msg: Message, i: nat, j: nat)
    requires i < |msg.lines| && MediumOf(msg.lines[i].mtype).Some? && j < |msg.lines[i].payloads|
    ensures ScanOf(h, s, msg, i).oks[j] <==> AcceptedAt(h, s, msg, i, j)
  {
    hide AnswerTo, Scan;
    var m := MediumOf(msg.lines[i].mtype).value;
    if m in h.accepts { ScanVerdicts(h, AnswerTo(h, s, msg, i).session, m, msg, i, |msg.lines[i].payloads|, j); }
  }

  /**
   * Every line of the answer lists exactly the accepted payloads of its offered line, or is refused, as long as no line
   * of another medium comes before.
   */
  lemma {:induction false} AnswerContents<S(!new)>(h: Handler<S>, s: S, msg: Message, i: nat)
    requires Echoes(h) && i < |msg.lines| && MediumOf(msg.lines[i].mtype).Some?
    ensures var r := AnswerTo(h, s, msg, |msg.lines|);
            && |r.verdicts[i]| == |msg.lines[i].payloads|
            && (forall j | 0 <= j < |msg.lines[i].payloads| :: r.verdicts[i][j] <==> AcceptedAt(h, s, msg, i, j))
            && (!OtherMediumBefore(msg, i) ==> i < |r.lines| && AnswersLine(r.lines[i], msg.lines[i], r.verdicts[i]))
  {
    hide AnswerTo, Scan, AnswersLine, AcceptedAt, Echoes, Selected, AnswerLine;
    var media := msg.lines[i];
    var sc := ScanOf(h, s, msg, i);
    AnswerPrefix(h, s, msg, |msg.lines|, i);
    ScanLineContents(h, AnswerTo(h, s, msg, i).session, MediumOf(media.mtype).value, msg, i);
    AnswerLineAnswers(media, sc.kept, sc.oks);
    forall j | 0 <= j < |media.payloads| ensures sc.oks[j] <==> AcceptedAt(h, s, msg, i, j) {
      LineVerdicts(h, s, msg, i, j);
    }
    assert OtherMediumBefore(msg, i) <==> MediaLines(msg, i) != i;
  }

  lemma AnswerLineAnswers(media: Media, kept: seq<Payload>, oks: seq<bool>)
    requires |oks| == |media.payloads| && (kept == [] <==> true !in oks)
    requires Numbers(kept) == Selected(media.payloads, oks) && Faithful(kept, media.attrs)
    ensures AnswersLine(AnswerLine(media, kept, true), media, oks)
  {
    hide Selected, LineOf;
    if kept != [] { LineOfAnswers(media, kept, oks); }
  }

  /** One more line counts as accepted exactly when one of its payloads is. */
  lemma {:induction false} AcceptedStep<S(!new)>(h: Handler<S>, s: S, msg: Message, n: nat)
    requires Echoes(h) && n < |msg.lines|
    ensures var prev, next := AnswerTo(h, s, msg, n), AnswerTo(h, s, msg, n + 1);
            && next.verdicts == prev.verdicts + [next.verdicts[n]]
            && next.accepted == prev.accepted + if true in next.verdicts[n] then 1 else 0
  {
    hide ScanLine, AnswerLine, Echoes, Selected;
    var medium := MediumOf(msg.lines[n].mtype);
    if medium.Some? { ScanLineContents(h, AnswerTo(h, s, msg, n).session, medium.value, msg, n); }
  }

  /** Some verdict is positive. */
  predicate SomethingAccepted(verdicts: seq<seq<bool>>) {
    exists i :: 0 <= i < |verdicts| && true in verdicts[i]
  }

  lemma SomethingAcceptedSnoc(verdicts: seq<seq<bool>>, oks: seq<bool>)
    ensures SomethingAccepted(verdicts + [oks]) <==> SomethingAccepted(verdicts) || true in oks
  {
    var all := verdicts + [oks];
    assert forall i | 0 <= i < |verdicts| :: all[i] == verdicts[i];
    assert all[|verdicts|] == oks;
  }

  /** The status is 200 exactly when some callback accepted something, and 415 otherwise. */
  lemma {:induction false} StatusIff<S(!new)>(h: Handler<S>, s: S, msg: Message, n: nat)
    requires Echoes(h) && n <= |msg.lines|
    ensures var r := AnswerTo(h, s, msg, n);
            StatusOf(r) == if SomethingAccepted(r.verdicts) then 200 else 415
  {
    if n == 0 {
    } else {
      hide AnswerTo, Echoes, SomethingAccepted;
      StatusIff(h, s, msg, n - 1);
      AcceptedStep(h, s, msg, n - 1);
      SomethingAcceptedSnoc(AnswerTo(h, s, msg, n - 1).verdicts, AnswerTo(h, s, msg, n).verdicts[n - 1]);
    }
  }
}
