/**
 * The text form of the store: the printer and the line parser of Configure.cpp, and exactly when
 * they undo each other.
 */
module IniText {
  import opened Text
  import opened Store

  /** fgets() with a 1024-byte buffer takes at most this many characters. */
  const FGETS_MAX: nat := 1023

  // ---- printing ----

  function PrintItem(item: Item): string {
    item.key + "=" + item.value + "\n"
  }

  function PrintItems(items: seq<Item>): string {
    if items == [] then "" else PrintItem(items[0]) + PrintItems(items[1..])
  }

  function PrintSection(sec: Section): string {
    "[" + sec.name + "]\n" + PrintItems(sec.items) + "\n"
  }

  /** What lp_config_sync() writes. */
  function Print(secs: Sections): string {
    if secs == [] then "" else PrintSection(secs[0]) + Print(secs[1..])
  }

  // ---- parsing ----

  /** What one buffer contributes: a section header, a key/value pair, or nothing. */
  datatype Event = Header(name: string) | Pair(key: string, value: string)

  /** The length of the next fgets() chunk: up to and with the newline, at most FGETS_MAX. */
  function ChunkLength(t: string): (n: nat)
    requires t != ""
    ensures 0 < n <= |t| && n <= FGETS_MAX
    ensures '\n' !in t[..n - 1]
    ensures t[n - 1] == '\n' || n == FGETS_MAX || n == |t|
  {
    var k := FindChar(t, '\n');
    var n := if k < |t| then k + 1 else |t|;
    if n <= FGETS_MAX then n
    else
      assert t[..FGETS_MAX - 1] == t[..k][..FGETS_MAX - 1];
      FGETS_MAX
  }

  /** The trailing-space loop: the first character of a value always survives. */
  function TrimEnd(v: string): (r: string)
    ensures r <= v && (v != "" ==> r != "")
    ensures |r| > 1 ==> r[|r| - 1] != ' '
    ensures forall i | |r| <= i < |v| :: v[i] == ' '
    ensures r == v <==> |v| <= 1 || v[|v| - 1] != ' '
  {
    if |v| > 1 && v[|v| - 1] == ' ' then TrimEnd(v[..|v| - 1]) else v
  }

  /** is_first_char(): only blanks before position b. */
  predicate OnlyBlanks(s: string) {
    forall c | c in s :: c == ' '
  }

  function HeaderEvent(s: string, b: nat): seq<Event>
    requires b < |s|
  {
    var e := b + FindChar(s[b..], ']');
    if e == |s| then []
    else if b < e then
      var name := Token(s[b + 1..e]);
      if name == "" then [] else [Header(name)]
    else []
  }

  function PairEvent(s: string, q: nat): seq<Event>
    requires q < |s|
  {
    var key := Token(s[..q]);
    var v := s[q + 1..];
    var n := FindChar(v, '\n');
    if key == "" then []
    else if n == |v| then [Pair(key, v)]
    else if n == 0 then []
    else [Pair(key, TrimEnd(v[..n]))]
  }

  /** The body of the parse loop on one buffer; at most one event. */
  function LineEvents(line: string): (ev: seq<Event>)
    ensures |ev| <= 1
  {
    var s := CString(line);
    var b := FindChar(s, '[');
    if b < |s| && OnlyBlanks(s[..b]) then HeaderEvent(s, b)
    else
      var q := FindChar(s, '=');
      if q < |s| then PairEvent(s, q) else []
  }

  /** The events of a whole file, chunk by chunk. */
  function Events(t: string): seq<Event>
    decreases |t|
  {
    if t == "" then []
    else
      var n := ChunkLength(t);
      LineEvents(t[..n]) + Events(t[n..])
  }

  /** A header opens a section; a pair goes to the section opened last, and is lost before the first one. */
  function Apply(secs: Sections, ev: Event): Sections {
    match ev
    case Header(name) => secs + [Section(name, [])]
    case Pair(key, value) =>
      if secs == [] then []
      else
        var last := secs[|secs| - 1];
        secs[..|secs| - 1] + [last.(items := last.items + [Item(key, value)])]
  }

  function Build(secs: Sections, evs: seq<Event>): Sections
    decreases |evs|
  {
    if evs == [] then secs else Build(Apply(secs, evs[0]), evs[1..])
  }

  /** lp_config_parse() on a whole file, starting without sections. */
  function Parse(t: string): Sections {
    Build([], Events(t))
  }

  // ---- the events a store ought to print ----

  function IdealItems(items: seq<Item>): seq<Event> {
    if items == [] then [] else [Pair(items[0].key, items[0].value)] + IdealItems(items[1..])
  }

  function Ideal(secs: Sections): seq<Event> {
    if secs == [] then [] else [Header(secs[0].name)] + IdealItems(secs[0].items) + Ideal(secs[1..])
  }

  lemma {:induction false} IdealItemsSplit(a: seq<Item>, b: seq<Item>)
    ensures IdealItems(a + b) == IdealItems(a) + IdealItems(b)
  {
    if a == [] {
      assert a + b == b;
    } else {
      assert (a + b)[1..] == a[1..] + b;
      IdealItemsSplit(a[1..], b);
    }
  }

  lemma {:induction false} IdealSplit(a: Sections, b: Sections)
    ensures Ideal(a + b) == Ideal(a) + Ideal(b)
  {
    if a == [] {
      assert a + b == b;
    } else {
      assert (a + b)[1..] == a[1..] + b;
      IdealSplit(a[1..], b);
    }
  }

  lemma IdealOfApply(secs: Sections, ev: Event)
    requires secs == [] ==> ev.Header?
    ensures Ideal(Apply(secs, ev)) == Ideal(secs) + [ev] && Apply(secs, ev) != []
  {
    match ev
    case Header(name) =>
      IdealSplit(secs, [Section(name, [])]);
    case Pair(key, value) =>
      var init, last := secs[..|secs| - 1], secs[|secs| - 1];
      var last' := last.(items := last.items + [Item(key, value)]);
      assert secs == init + [last];
      IdealSplit(init, [last]);
      IdealSplit(init, [last']);
      IdealItemsSplit(last.items, [Item(key, value)]);
  }

  /** Building loses no event, provided no pair comes before the first header. */
  lemma {:induction false} IdealOfBuild(secs: Sections, evs: seq<Event>)
    requires secs == [] && evs != [] ==> evs[0].Header?
    ensures Ideal(Build(secs, evs)) == Ideal(secs) + evs
    decreases |evs|
  {
    hide Apply, Ideal;
    if evs == [] {
    } else {
      IdealOfApply(secs, evs[0]);
      IdealOfBuild(Apply(secs, evs[0]), evs[1..]);
      assert [evs[0]] + evs[1..] == evs;
    }
  }

  lemma {:induction false} BuildSplit(secs: Sections, a: seq<Event>, b: seq<Event>)
    ensures Build(secs, a + b) == Build(Build(secs, a), b)
    decreases |a|
  {
    if a == [] {
      assert a + b == b;
    } else {
      assert (a + b)[1..] == a[1..] + b;
      BuildSplit(Apply(secs, a[0]), a[1..], b);
    }
  }

  lemma {:induction false} BuildIdealItems(secs: Sections, sec: Section, items: seq<Item>)
    ensures Build(secs + [sec], IdealItems(items)) == secs + [sec.(items := sec.items + items)]
    decreases |items|
  {
    if items == [] {
      assert sec.items + items == sec.items;
    } else {
      var sec' := sec.(items := sec.items + [items[0]]);
      assert Apply(secs + [sec], Pair(items[0].key, items[0].value)) == secs + [sec'];
      BuildIdealItems(secs, sec', items[1..]);
      assert sec'.items + items[1..] == sec.items + items;
    }
  }

  lemma {:induction false} BuildIdeal(secs: Sections, more: Sections)
    ensures Build(secs, Ideal(more)) == secs + more
    decreases |more|
  {
    if more == [] {
      assert secs + more == secs;
    } else {
      var sec := more[0];
      var empty := Section(sec.name, []);
      assert [] + sec.items == sec.items;
      BuildSplit(secs, [Header(sec.name)], IdealItems(sec.items));
      BuildSplit(secs, [Header(sec.name)] + IdealItems(sec.items), Ideal(more[1..]));
      BuildIdealItems(secs, empty, sec.items);
      BuildIdeal(secs + [sec], more[1..]);
      assert Build(secs, [Header(sec.name)]) == secs + [empty];
      assert secs + [sec] + more[1..] == secs + more;
    }
  }

  // ---- which names and items the parser can produce, and which survive printing ----

  predicate NameOk(name: string) {
    && name != "" && NoSpace(name) && ']' !in name && '\0' !in name
    && |name| + 2 <= FGETS_MAX
  }

  /** What every parsed item satisfies. */
  predicate ItemParsed(item: Item) {
    && item.key != "" && NoSpace(item.key) && '=' !in item.key && '\0' !in item.key
    && '\n' !in item.value && '\0' !in item.value
    && |item.key| + 1 + |item.value| <= FGETS_MAX
  }

  /**
   * What an item needs on top to be read back: a key not taken for a section header, and a value
   * that is not empty and does not end in a blank unless it is one character. A line that fills the
   * buffer exactly is cut before its newline, and then the value is taken as it is.
   */
  predicate ItemOk(item: Item) {
    && ItemParsed(item)
    && item.key[0] != '['
    && (|item.key| + 1 + |item.value| < FGETS_MAX ==> item.value != "" && TrimEnd(item.value) == item.value)
  }

  predicate Parsed(secs: Sections) {
    forall sec | sec in secs :: NameOk(sec.name) && forall it | it in sec.items :: ItemParsed(it)
  }

  predicate WellFormed(secs: Sections) {
    forall sec | sec in secs :: NameOk(sec.name) && forall it | it in sec.items :: ItemOk(it)
  }

  predicate EventParsed(ev: Event) {
    match ev
    case Header(name) => NameOk(name)
    case Pair(key, value) => ItemParsed(Item(key, value))
  }

  lemma HeaderEventParsed(s: string, b: nat)
    requires b < |s| <= FGETS_MAX && '\0' !in s
    ensures forall ev | ev in HeaderEvent(s, b) :: EventParsed(ev)
  {
    hide Token, FindChar, NoSpace;
    var f := FindChar(s[b..], ']');
    if 0 < f < |s[b..]| {
      var inner := s[b + 1..b + f];
      assert s[b..][..f][1..] == inner;
      assert ']' !in inner && '\0' !in inner;
    }
  }

  lemma PairEventParsed(s: string, q: nat)
    requires q < |s| <= FGETS_MAX && '\0' !in s && '=' !in s[..q] && '\n' !in s[..|s| - 1]
    ensures forall ev | ev in PairEvent(s, q) :: EventParsed(ev)
  {
    hide Token, FindChar, NoSpace, TrimEnd;
    var v := s[q + 1..];
    var n := FindChar(v, '\n');
    assert '\0' !in v;
    assert forall c | c in Token(s[..q]) :: c in s[..q];
    assert '\n' !in TrimEnd(v[..n]) && '\0' !in TrimEnd(v[..n]);
  }

  lemma {:induction false} LineEventsParsed(line: string)
    requires line != "" && |line| <= FGETS_MAX && '\n' !in line[..|line| - 1]
    ensures forall ev | ev in LineEvents(line) :: EventParsed(ev)
  {
    var s := CString(line);
    var b := FindChar(s, '[');
    var q := FindChar(s, '=');
    if b < |s| && OnlyBlanks(s[..b]) {
      HeaderEventParsed(s, b);
    } else if q < |s| {
      assert s[..|s| - 1] == line[..|line| - 1][..|s| - 1];
      PairEventParsed(s, q);
    }
  }

  lemma {:induction false} EventsParsed(t: string)
    ensures forall ev | ev in Events(t) :: EventParsed(ev)
    decreases |t|
  {
    if t == "" {
    } else {
      var n := ChunkLength(t);
      LineEventsParsed(t[..n]);
      EventsParsed(t[n..]);
    }
  }

  lemma {:induction false} BuildParsed(secs: Sections, evs: seq<Event>)
    requires Parsed(secs) && forall ev | ev in evs :: EventParsed(ev)
    ensures Parsed(Build(secs, evs))
    decreases |evs|
  {
    if evs == [] {
    } else {
      assert EventParsed(evs[0]);
      assert Parsed(Apply(secs, evs[0]));
      BuildParsed(Apply(secs, evs[0]), evs[1..]);
    }
  }

  /** Whatever the text, a parsed store satisfies `Parsed`. */
  lemma ParseIsParsed(t: string)
    ensures Parsed(Parse(t))
  {
    EventsParsed(t);
    BuildParsed([], Events(t));
  }

  // ---- the events of printed text ----

  /** A printed line costs one chunk, or two when its newline does not fit in the buffer. */
  lemma {:induction false} EventsOfLine(line: string, rest: string)
    requires '\n' !in line && '\0' !in line && |line| <= FGETS_MAX
    ensures Events(line + "\n" + rest) ==
            LineEvents(if |line| < FGETS_MAX then line + "\n" else line) + Events(rest)
  {
    var t := line + "\n" + rest;
    FindCharAfter(line, '\n', rest);
    if |line| < FGETS_MAX {
      assert ChunkLength(t) == |line| + 1;
      assert t[..|line| + 1] == line + "\n" && t[|line| + 1..] == rest;
    } else {
      assert ChunkLength(t) == |line|;
      assert t[..|line|] == line && t[|line|..] == "\n" + rest;
      BlankLine(rest);
      assert LineEvents(line) + ([] + Events(rest)) == LineEvents(line) + Events(rest);
    }
  }

  lemma BlankLine(rest: string)
    ensures Events("\n" + rest) == Events(rest)
  {
    var t := "\n" + rest;
    assert ChunkLength(t) == 1;
    assert t[..1] == "\n" && t[1..] == rest;
    assert LineEvents("\n") == [];
    assert [] + Events(rest) == Events(rest);
  }

  /** The event a printed item yields when it is read back. */
  function ItemEvents(item: Item): (ev: seq<Event>)
    ensures |ev| <= 1
  {
    var line := item.key + "=" + item.value;
    LineEvents(if |line| < FGETS_MAX then line + "\n" else line)
  }

  function ItemsEvents(items: seq<Item>): seq<Event> {
    if items == [] then [] else ItemEvents(items[0]) + ItemsEvents(items[1..])
  }

  function SectionsEvents(secs: Sections): seq<Event> {
    if secs == [] then [] else [Header(secs[0].name)] + ItemsEvents(secs[0].items) + SectionsEvents(secs[1..])
  }

  lemma HeaderLine(name: string)
    requires NameOk(name)
    ensures var line := "[" + name + "]";
            LineEvents(if |line| < FGETS_MAX then line + "\n" else line) == [Header(name)]
  {
    var line := "[" + name + "]";
    var tail := if |line| < FGETS_MAX then "\n" else "";
    var buf := line + tail;
    assert '\0' !in buf && buf == (if |line| < FGETS_MAX then line + "\n" else line);
    assert buf[0] == '[' && buf[..0] == "" && buf[0..] == buf;
    assert buf == ("[" + name) + [']'] + tail;
    FindCharAfter("[" + name, ']', tail);
    assert buf[1..|name| + 1] == name;
    assert HeaderEvent(buf, 0) == [Header(name)];
  }

  lemma {:induction false} EventsOfItems(items: seq<Item>, rest: string)
    requires forall it | it in items :: ItemParsed(it)
    ensures Events(PrintItems(items) + rest) == ItemsEvents(items) + Events(rest)
  {
    hide LineEvents, Events;
    if items == [] {
      assert PrintItems(items) + rest == rest;
    } else {
      var it := items[0];
      assert it in items;
      assert IsSpace('\n');
      var line := it.key + "=" + it.value;
      var tail := PrintItems(items[1..]) + rest;
      assert PrintItems(items) + rest == line + "\n" + tail;
      EventsOfLine(line, tail);
      EventsOfItems(items[1..], rest);
      assert ItemEvents(it) + (ItemsEvents(items[1..]) + Events(rest)) == ItemsEvents(items) + Events(rest);
    }
  }

  lemma {:induction false} EventsOfHeader(name: string, rest: string)
    requires NameOk(name)
    ensures Events("[" + name + "]" + "\n" + rest) == [Header(name)] + Events(rest)
  {
    assert IsSpace('\n');
    EventsOfLine("[" + name + "]", rest);
    HeaderLine(name);
  }

  lemma {:induction false} EventsOfSection(sec: Section, rest: string)
    requires NameOk(sec.name) && forall it | it in sec.items :: ItemParsed(it)
    ensures Events(PrintSection(sec) + rest) == [Header(sec.name)] + ItemsEvents(sec.items) + Events(rest)
  {
    hide LineEvents, Events, PrintItems, ItemsEvents;
    var tail := PrintItems(sec.items) + ("\n" + rest);
    calc {
      Events(PrintSection(sec) + rest);
      { assert PrintSection(sec) + rest == "[" + sec.name + "]" + "\n" + tail; }
      Events("[" + sec.name + "]" + "\n" + tail);
      { EventsOfHeader(sec.name, tail); }
      [Header(sec.name)] + Events(tail);
      { EventsOfItems(sec.items, "\n" + rest); BlankLine(rest); }
      [Header(sec.name)] + (ItemsEvents(sec.items) + Events(rest));
      [Header(sec.name)] + ItemsEvents(sec.items) + Events(rest);
    }
  }

  lemma {:induction false} EventsOfPrint(secs: Sections)
    requires Parsed(secs)
    ensures Events(Print(secs)) == SectionsEvents(secs)
  {
    if secs == [] {
    } else {
      assert secs[0] in secs;
      EventsOfSection(secs[0], Print(secs[1..]));
      EventsOfPrint(secs[1..]);
    }
  }

  // ---- when the events are the ideal ones ----

  /** A printed item is read back as itself exactly when it is `ItemOk`. */
  lemma {:induction false} ItemEventsIdeal(it: Item)
    requires ItemParsed(it)
    ensures ItemEvents(it) == [Pair(it.key, it.value)] <==> ItemOk(it)
  {
    var line := it.key + "=" + it.value;
    var buf := if |line| < FGETS_MAX then line + "\n" else line;
    assert '\0' !in buf;
    assert CString(buf) == buf;
    if it.key[0] == '[' {
      assert buf[0] == '[' && buf[..0] == "";
      assert FindChar(buf, '[') == 0;
    } else {
      ItemLineIsPair(it, buf);
    }
  }

  lemma {:induction false} PairOfCutLine(key: string, v: string)
    requires key != "" && NoSpace(key) && '=' !in key
    ensures FindChar(key + "=" + v, '=') == |key|
    ensures PairEvent(key + "=" + v, |key|) ==
            var n := FindChar(v, '\n');
            if n == |v| then [Pair(key, v)] else if n == 0 then [] else [Pair(key, TrimEnd(v[..n]))]
  {
    hide Token, FindChar, TrimEnd, NoSpace;
    var s := key + "=" + v;
    assert s == key + ['='] + v;
    FindCharAfter(key, '=', v);
    assert s[..|key|] == key && s[|key| + 1..] == v;
  }

  lemma NewlineAfterValue(value: string)
    requires '\n' !in value
    ensures FindChar(value, '\n') == |value| && FindChar(value + "\n", '\n') == |value| &&
            (value + "\n")[..|value|] == value
  {
    hide FindChar;
    assert value + "\n" == value + ['\n'] + "";
    FindCharAfter(value, '\n', "");
  }

  lemma {:induction false} ItemLineIsPair(it: Item, buf: string)
    requires ItemParsed(it) && it.key[0] != '['
    requires var line := it.key + "=" + it.value; buf == if |line| < FGETS_MAX then line + "\n" else line
    ensures CString(buf) == buf
    ensures LineEvents(buf) ==
            if |it.key| + 1 + |it.value| == FGETS_MAX then [Pair(it.key, it.value)]
            else if it.value == "" then [] else [Pair(it.key, TrimEnd(it.value))]
  {
    hide Token, FindChar, CString, TrimEnd, OnlyBlanks, PairEvent;
    var v := if |it.key| + 1 + |it.value| == FGETS_MAX then it.value else it.value + "\n";
    assert buf == it.key + "=" + v && '\0' !in buf;
    assert buf[0] == it.key[0] && it.key[0] in it.key;
    NotHeaderLine(buf);
    PairOfCutLine(it.key, v);
    NewlineAfterValue(it.value);
  }

  /** A line that starts with neither a blank nor a bracket is not taken for a header. */
  lemma NotHeaderLine(buf: string)
    requires buf != "" && !IsSpace(buf[0]) && buf[0] != '['
    ensures var b := FindChar(buf, '['); !(b < |buf| && OnlyBlanks(buf[..b]))
  {
    var b := FindChar(buf, '[');
    if b < |buf| {
      assert buf[0] in buf[..b] && buf[0] != ' ';
    }
  }

  lemma {:induction false} ItemsEventsIdeal(items: seq<Item>)
    requires forall it | it in items :: ItemParsed(it)
    ensures |ItemsEvents(items)| <= |IdealItems(items)| == |items|
    ensures |ItemsEvents(items)| < |items| || ItemsEvents(items) != IdealItems(items) <==>
            exists it | it in items :: !ItemOk(it)
  {
    if items == [] {
    } else {
      var it := items[0];
      assert items == [it] + items[1..];
      ItemEventsIdeal(it);
      ItemsEventsIdeal(items[1..]);
      if |ItemsEvents(items)| == |items| {
        assert |ItemEvents(it)| == 1;
        assert ItemsEvents(items)[0] == ItemEvents(it)[0] && ItemsEvents(items)[1..] == ItemsEvents(items[1..]);
        assert IdealItems(items)[0] == Pair(it.key, it.value) && IdealItems(items)[1..] == IdealItems(items[1..]);
      }
    }
  }

  lemma {:induction false} SectionsEventsIdeal(secs: Sections)
    requires Parsed(secs)
    ensures |SectionsEvents(secs)| <= |Ideal(secs)|
    ensures SectionsEvents(secs) == Ideal(secs) <==> WellFormed(secs)
  {
    if secs == [] {
    } else {
      var sec := secs[0];
      assert secs == [sec] + secs[1..] && sec in secs;
      ItemsEventsIdeal(sec.items);
      SectionsEventsIdeal(secs[1..]);
      var ev, id := [Header(sec.name)] + ItemsEvents(sec.items), [Header(sec.name)] + IdealItems(sec.items);
      var n := |id|;
      if SectionsEvents(secs) == Ideal(secs) {
        assert |ev| == n;
        assert ev == SectionsEvents(secs)[..n] && id == Ideal(secs)[..n];
        assert SectionsEvents(secs[1..]) == SectionsEvents(secs)[n..] && Ideal(secs[1..]) == Ideal(secs)[n..];
        assert ItemsEvents(sec.items) == ev[1..] && IdealItems(sec.items) == id[1..];
        assert forall it | it in sec.items :: ItemOk(it);
        assert WellFormed(secs[1..]);
      }
      if WellFormed(secs) {
        assert forall it | it in sec.items :: ItemOk(it);
        assert WellFormed(secs[1..]);
        assert SectionsEvents(secs) == Ideal(secs);
      }
    }
  }

  // ---- main results ----

  /** For every store: printing then parsing gives the same store exactly when the store is well formed. */
  lemma RoundTripIff(secs: Sections)
    ensures Parse(Print(secs)) == secs <==> WellFormed(secs)
  {
    if Parse(Print(secs)) == secs {
      ParseIsParsed(Print(secs));
    }
    if Parsed(secs) {
      EventsOfPrint(secs);
      SectionsEventsIdeal(secs);
      BuildIdeal([], secs);
      IdealOfBuild([], SectionsEvents(secs));
      assert [] + secs == secs && Ideal([]) + SectionsEvents(secs) == SectionsEvents(secs);
    }
  }

  /** A whole line without NUL, whose leading white space before a '[' is made of blanks only. */
  predicate PlainLine(line: string) {
    && line != "" && line[|line| - 1] == '\n' && '\0' !in line
    && (var b := LeadingSpaces(line); b < |line| && line[b] == '[' ==> OnlyBlanks(line[..b]))
  }

  /** Every fgets() chunk of the text is such a line. */
  predicate PlainText(t: string)
    decreases |t|
  {
    t != "" ==> var n := ChunkLength(t); PlainLine(t[..n]) && PlainText(t[n..])
  }

  predicate EventOk(ev: Event) {
    match ev
    case Header(name) => NameOk(name)
    case Pair(key, value) => ItemOk(Item(key, value))
  }

  lemma PlainPairEvent(s: string, q: nat)
    requires q < |s| && s[|s| - 1] == '\n' && s[q] == '='
    requires Token(s[..q]) != "" ==> Token(s[..q])[0] != '['
    ensures forall ev | ev in PairEvent(s, q) && EventParsed(ev) :: EventOk(ev)
  {
    hide Token, NoSpace, FindChar;
    var v := s[q + 1..];
    assert v != "" && v[|v| - 1] == '\n';
    var w := v[..FindChar(v, '\n')];
    assert TrimEnd(TrimEnd(w)) == TrimEnd(w);
  }

  lemma {:induction false} PlainLineEvents(line: string)
    requires PlainLine(line) && |line| <= FGETS_MAX && '\n' !in line[..|line| - 1]
    ensures forall ev | ev in LineEvents(line) :: EventOk(ev)
  {
    hide Token, FindChar, NoSpace, PairEvent, OnlyBlanks;
    LineEventsParsed(line);
    var b := FindChar(line, '[');
    var q := FindChar(line, '=');
    if b < |line| && OnlyBlanks(line[..b]) {
      assert forall ev | ev in HeaderEvent(line, b) :: ev.Header?;
    } else if q < |line| {
      if Token(line[..q]) != "" { FirstOfKey(line, q); }
      PlainPairEvent(line, q);
    }
  }

  /** On a plain line, the key does not start with a bracket. */
  lemma {:induction false} FirstOfKey(s: string, q: nat)
    requires q < |s| && Token(s[..q]) != ""
    requires var b := LeadingSpaces(s); b < |s| && s[b] == '[' ==> OnlyBlanks(s[..b])
    requires var b := FindChar(s, '['); !(b < |s| && OnlyBlanks(s[..b]))
    ensures Token(s[..q])[0] != '['
  {
    SameLeading(s, q);
  }

  lemma {:induction false} SameLeading(s: string, q: nat)
    requires q <= |s| && LeadingSpaces(s[..q]) < q
    ensures LeadingSpaces(s) == LeadingSpaces(s[..q])
  {
    if !IsSpace(s[0]) {
    } else {
      assert s[..q][1..] == s[1..][..q - 1];
      SameLeading(s[1..], q - 1);
    }
  }

  lemma {:induction false} PlainEvents(t: string)
    requires PlainText(t)
    ensures forall ev | ev in Events(t) :: EventOk(ev)
    decreases |t|
  {
    if t == "" {
    } else {
      var n := ChunkLength(t);
      PlainLineEvents(t[..n]);
      PlainEvents(t[n..]);
    }
  }

  lemma {:induction false} BuildWellFormed(secs: Sections, evs: seq<Event>)
    requires WellFormed(secs) && forall ev | ev in evs :: EventOk(ev)
    ensures WellFormed(Build(secs, evs))
    decreases |evs|
  {
    if evs == [] {
    } else {
      assert EventOk(evs[0]);
      assert WellFormed(Apply(secs, evs[0]));
      BuildWellFormed(Apply(secs, evs[0]), evs[1..]);
    }
  }

  /** Loading a plain text, saving it and loading it again changes nothing. */
  lemma {:induction false} NormalForm(t: string)
    requires PlainText(t)
    ensures WellFormed(Parse(t)) && Parse(Print(Parse(t))) == Parse(t)
  {
    PlainEvents(t);
    BuildWellFormed([], Events(t));
    RoundTripIff(Parse(t));
  }

  // ---- what is written, and what a hand-written line yields ----

  /** The printed form of a section: its name in brackets, one line per item, and a blank line. */
  lemma PrintedForm(name: string, key: string, value: string)
    ensures Print([Section(name, [Item(key, value)])]) == "[" + name + "]\n" + (key + "=" + value + "\n") + "\n"
  {
    var items := [Item(key, value)];
    assert PrintItems(items) == PrintItem(items[0]) + PrintItems(items[1..]) == PrintItem(items[0]);
    assert Print([Section(name, items)][1..]) == "";
  }

  predicate AllSpaces(s: string) {
    forall c | c in s :: IsSpace(c)
  }

  lemma {:induction false} WordStops(word: string, rest: string)
    requires NoSpace(word) && (rest != "" ==> IsSpace(rest[0]))
    ensures Word(word + rest) == word
  {
    if word == "" {
      assert word + rest == rest;
    } else {
      assert word[0] in word && (word + rest)[1..] == word[1..] + rest;
      WordStops(word[1..], rest);
    }
  }

  /** White space before a word does not count, nor does all that follows white space after it. */
  lemma {:induction false} TokenOfSpaced(lead: string, word: string, gap: string)
    requires AllSpaces(lead) && word != "" && NoSpace(word) && (gap != "" ==> IsSpace(gap[0]))
    ensures Token(lead + (word + gap)) == word
  {
    assert word[0] in word;
    LeadingSpacesSkip(lead, word + gap);
    WordStops(word, gap);
  }

  lemma {:induction false} TrailingBlanksGo(value: string, trail: string)
    requires value != "" && value[|value| - 1] != ' ' && OnlyBlanks(trail)
    ensures TrimEnd(value + trail) == value
  {
    if trail == "" {
      assert value + trail == value;
    } else {
      var n := |trail| - 1;
      assert trail[n] in trail && (value + trail)[..|value| + n] == value + trail[..n];
      assert forall c | c in trail[..n] :: c in trail;
      TrailingBlanksGo(value, trail[..n]);
    }
  }

  lemma {:induction false} HeadAndTail(head: string, tail: string)
    requires '=' !in head && '\n' !in tail
    ensures var line := head + "=" + tail + "\n";
            && FindChar(line, '=') == |head| && |head| < |line|
            && line[..|head|] == head && line[|head| + 1..] == tail + "\n"
  {
    assert head + "=" + tail + "\n" == head + ['='] + (tail + "\n");
    FindCharAfter(head, '=', tail + "\n");
  }

  /** A line whose head holds a key and whose tail a value. */
  lemma {:induction false} PairLine(head: string, tail: string)
    requires '=' !in head && '\n' !in tail && '\0' !in head && '\0' !in tail && Token(head) != "" && tail != ""
    requires var line := head + "=" + tail + "\n"; var b := FindChar(line, '['); b < |line| ==> !OnlyBlanks(line[..b])
    ensures LineEvents(head + "=" + tail + "\n") == [Pair(Token(head), TrimEnd(tail))]
  {
    hide Token, TrimEnd, FindChar, NoSpace, OnlyBlanks;
    var line := head + "=" + tail + "\n";
    HeadAndTail(head, tail);
    NewlineAfterValue(tail);
    assert '\0' !in line;
    assert CString(line) == line;
  }

  /**
   * White space before the key, further words after it, and blanks after the value do not count; what comes before the
   * value does.
   */
  lemma {:induction false} SpacedPair(lead: string, key: string, gap: string, value: string, trail: string)
    requires AllSpaces(lead) && (gap != "" ==> IsSpace(gap[0])) && '=' !in gap && OnlyBlanks(trail)
    requires key != "" && NoSpace(key) && '=' !in key && key[0] != '['
    requires value != "" && value[|value| - 1] != ' ' && '\n' !in value
    requires '\0' !in lead + (key + gap) && '\0' !in value
    ensures LineEvents(lead + (key + gap) + "=" + (value + trail) + "\n") == [Pair(key, value)]
  {
    hide Token, TrimEnd, FindChar, NoSpace, LineEvents, AllSpaces;
    var head, tail := lead + (key + gap), value + trail;
    var line := head + "=" + tail + "\n";
    NoEqualsInHead(lead, key, gap);
    TokenOfSpaced(lead, key, gap);
    TrailingBlanksGo(value, trail);
    assert lead + key <= line;
    KeyComesFirst(lead, key, line, FindChar(line, '['));
    PairLine(head, tail);
  }

  lemma NoEqualsInHead(lead: string, key: string, gap: string)
    requires AllSpaces(lead) && '=' !in gap && '=' !in key
    ensures '=' !in lead + (key + gap)
  {
  }

  lemma KeyComesFirst(lead: string, key: string, line: string, b: nat)
    requires AllSpaces(lead) && key != "" && NoSpace(key) && key[0] != '[' && lead + key <= line
    requires b < |line| ==> line[b] == '['
    ensures b < |line| ==> !OnlyBlanks(line[..b])
  {
    if b < |line| {
      assert key[0] in key && line[|lead|] == key[0];
      assert forall i | 0 <= i < |lead| :: line[i] == lead[i] && line[i] in lead;
      assert !IsSpace('[') && IsSpace(' ');
      assert b > |lead|;
      assert !IsSpace(key[0]) && line[..b][|lead|] == key[0] && key[0] in line[..b];
    }
  }

  /** Blanks before a section header, white space before its name, and all that follows the name do not count. */
  lemma {:induction false} SpacedHeader(blanks: string, pad: string, name: string, pad2: string, rest: string)
    requires OnlyBlanks(blanks) && AllSpaces(pad) && (pad2 != "" ==> IsSpace(pad2[0])) && ']' !in pad2
    requires name != "" && NoSpace(name) && ']' !in name && '[' !in blanks
    requires '\0' !in pad + (name + pad2) && '\0' !in rest
    ensures LineEvents(blanks + "[" + (pad + (name + pad2)) + "]" + rest) == [Header(name)]
  {
    hide Token, FindChar, NoSpace, AllSpaces, OnlyBlanks, IsSpace;
    var inner := pad + (name + pad2);
    NoBracketInside(pad, name, pad2);
    TokenOfSpaced(pad, name, pad2);
    HeaderLineShape(blanks, inner, rest);
    NoNul(blanks, inner, rest);
    HeaderLineYields(blanks + "[" + inner + "]" + rest, |blanks|, |inner|, name);
  }

  lemma NoNul(blanks: string, inner: string, rest: string)
    requires OnlyBlanks(blanks) && '\0' !in inner && '\0' !in rest
    ensures '\0' !in blanks + "[" + inner + "]" + rest
  {
  }

  lemma {:induction false} HeaderLineYields(line: string, b: nat, n: nat, name: string)
    requires '\0' !in line && FindChar(line, '[') == b < |line| && OnlyBlanks(line[..b])
    requires FindChar(line[b..], ']') == n + 1 < |line[b..]| && Token(line[b + 1..b + n + 1]) == name != ""
    ensures LineEvents(line) == [Header(name)]
  {
    hide Token, FindChar, OnlyBlanks;
    assert CString(line) == line;
  }

  lemma {:induction false} HeaderLineShape(blanks: string, inner: string, rest: string)
    requires '[' !in blanks && ']' !in "[" + inner
    ensures var line := blanks + "[" + inner + "]" + rest;
            && FindChar(line, '[') == |blanks| < |line| && line[..|blanks|] == blanks
            && FindChar(line[|blanks|..], ']') == |inner| + 1
            && line[|blanks| + 1..|blanks| + |inner| + 1] == inner
  {
    hide FindChar;
    var line := blanks + "[" + inner + "]" + rest;
    assert line == blanks + ['['] + (inner + "]" + rest);
    FindCharAfter(blanks, '[', inner + "]" + rest);
    assert line[|blanks|..] == ("[" + inner) + [']'] + rest;
    FindCharAfter("[" + inner, ']', rest);
  }

  lemma NoBracketInside(pad: string, name: string, pad2: string)
    requires AllSpaces(pad) && ']' !in pad2 && ']' !in name
    ensures ']' !in "[" + (pad + (name + pad2))
  {
  }

  /** A header that is not closed yields nothing, not even a pair. */
  lemma UnclosedHeader(blanks: string, rest: string)
    requires OnlyBlanks(blanks) && '[' !in blanks && ']' !in rest && '\0' !in blanks && '\0' !in rest
    ensures LineEvents(blanks + "[" + rest) == []
  {
    hide FindChar;
    var line := blanks + "[" + rest;
    assert line == blanks + ['['] + rest;
    FindCharAfter(blanks, '[', rest);
    assert line[..|blanks|] == blanks && line[|blanks|..] == "[" + rest;
    assert '\0' !in line;
    assert CString(line) == line;
  }

  /** A key without a value is dropped on a whole line, and kept with an empty value at the end of a file. */
  lemma {:induction false} EmptyValue(key: string)
    requires key != "" && NoSpace(key) && '=' !in key && '\0' !in key && key[0] != '['
    ensures LineEvents(key + "=" + "\n") == [] && LineEvents(key + "=" + "") == [Pair(key, "")]
  {
    hide FindChar, NoSpace, PairEvent;
    PairOfCutLine(key, "\n");
    PairOfCutLine(key, "");
    assert FindChar("\n", '\n') == 0;
    KeyComesFirst("", key, key + "=" + "\n", FindChar(key + "=" + "\n", '['));
    KeyComesFirst("", key, key + "=" + "", FindChar(key + "=" + "", '['));
    assert '\0' !in key + "=" + "\n" && '\0' !in key + "=" + "";
    assert CString(key + "=" + "\n") == key + "=" + "\n" && CString(key + "=" + "") == key + "=" + "";
  }

  /** A buffer takes a line with its newline, and at most 1023 characters. */
  lemma ChunkIs(t: string)
    requires t != ""
    ensures ChunkLength(t) <= 1023 && (|t| >= 1023 && '\n' !in t[..1023] ==> ChunkLength(t) == 1023)
    ensures forall k | 0 <= k < 1023 && k < |t| && t[k] == '\n' && '\n' !in t[..k] :: ChunkLength(t) == k + 1
  {
  }

  /** A line that is neither yields nothing. */
  lemma OtherLine(line: string)
    requires '=' !in line && '[' !in line
    ensures LineEvents(line) == []
  {
    hide FindChar;
  }

  // ---- updates that keep a store well formed ----

  lemma SetKeepsWellFormed(secs: Sections, s: string, key: string, value: string)
    requires WellFormed(secs) && NameOk(s) && ItemOk(Item(key, value))
    ensures WellFormed(SetString(secs, s, key, Some(value)))
  {
    hide NameOk, ItemOk;
    var k := FindSection(secs, s);
    if k < |secs| {
      SetItemKeepsOk(secs[k].items, key, value);
    }
  }

  lemma SetItemKeepsOk(items: seq<Item>, key: string, value: string)
    requires ItemOk(Item(key, value)) && forall it | it in items :: ItemOk(it)
    ensures forall it | it in SetItem(items, key, Some(value)) :: ItemOk(it)
  {
    hide ItemOk;
    var k := FindItem(items, key);
    if k < |items| {
      assert items[k].(value := value) == Item(key, value);
    }
  }

  lemma CleanKeepsWellFormed(secs: Sections, s: string)
    requires WellFormed(secs)
    ensures WellFormed(CleanSection(secs, s))
  {
    hide NameOk, ItemOk;
  }

  /** A short word under a short key is read back. */
  lemma WordItemOk(key: string, value: string)
    requires key != "" && NoSpace(key) && '=' !in key && '\0' !in key && key[0] != '[' && |key| <= 100
    requires value != "" && NoSpace(value) && '\0' !in value && |value| <= 100
    ensures ItemOk(Item(key, value))
  {
    assert value[|value| - 1] in value;
  }
}
