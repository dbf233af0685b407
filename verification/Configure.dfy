/** The CConfigure object: the in-memory store, the edit counter and the file behind it. */
module Configure {
  import opened Text
  import opened Store
  import opened IniText

  /** The object's fields as a value; `disk` is what the file holds. */
  datatype State = State(sections: Sections, modified: int, disk: string)

  datatype Op =
    | PutString(section: string, key: string, value: Option<string>)
    | PutInt(section: string, key: string, number: int)
    | Clean(section: string)
    | Sync(writable: bool)

  predicate NeedsCommit(st: State) {
    st.modified > 0
  }

  /** The effect of one call; set_int counts twice, because set_string counts too. */
  function Step(st: State, op: Op): State {
    match op
    case PutString(s, k, v) => st.(sections := Store.SetString(st.sections, s, k, v), modified := st.modified + 1)
    case PutInt(s, k, n) => st.(sections := Store.SetInt(st.sections, s, k, n), modified := st.modified + 2)
    case Clean(s) => st.(sections := Store.CleanSection(st.sections, s), modified := st.modified + 1)
    case Sync(writable) => if writable then State(st.sections, 0, Print(st.sections)) else st
  }

  function Run(st: State, ops: seq<Op>): State
    decreases |ops|
  {
    if ops == [] then st else Run(Step(st, ops[0]), ops[1..])
  }

  /** When no commit is needed, parsing the file gives the sections in memory. */
  predicate InSync(st: State) {
    st.modified >= 0 && (!NeedsCommit(st) ==> Parse(st.disk) == st.sections)
  }

  /** Every successful write of the run writes a well-formed store. */
  predicate WritesWellFormed(st: State, ops: seq<Op>)
    decreases |ops|
  {
    ops != [] ==>
      && (ops[0] == Sync(true) ==> WellFormed(st.sections))
      && WritesWellFormed(Step(st, ops[0]), ops[1..])
  }

  /** One call keeps the promise exactly when it does not write an ill-formed store. */
  lemma {:induction false} StepKeepsSync(st: State, op: Op)
    requires InSync(st)
    ensures InSync(Step(st, op)) <==> (op == Sync(true) ==> WellFormed(st.sections))
  {
    RoundTripIff(st.sections);
  }

  /** Clean means in sync, over every run that writes only well-formed stores. */
  lemma {:induction false} CleanMeansInSync(st: State, ops: seq<Op>)
    requires InSync(st) && WritesWellFormed(st, ops)
    ensures InSync(Run(st, ops))
    decreases |ops|
  {
    if ops == [] {
    } else {
      StepKeepsSync(st, ops[0]);
      CleanMeansInSync(Step(st, ops[0]), ops[1..]);
    }
  }

  /** After a final write, the next start reads the store written exactly when it is well formed. */
  lemma {:induction false} NextStartReadsLastWrite(st: State, ops: seq<Op>)
    ensures Parse(Run(st, ops + [Sync(true)]).disk) == Run(st, ops).sections <==> WellFormed(Run(st, ops).sections)
    decreases |ops|
  {
    hide Parse, Print, WellFormed;
    if ops == [] {
      RoundTripIff(st.sections);
      assert ops + [Sync(true)] == [Sync(true)];
      assert Run(st, [Sync(true)]) == Run(Step(st, Sync(true)), []);
    } else {
      assert (ops + [Sync(true)])[1..] == ops[1..] + [Sync(true)];
      NextStartReadsLastWrite(Step(st, ops[0]), ops[1..]);
    }
  }

  /** Some call of the run edits the store after its last successful write. */
  predicate EditedSinceWrite(ops: seq<Op>) {
    exists i :: 0 <= i < |ops| && !ops[i].Sync? && forall j | i < j < |ops| :: ops[j] != Sync(true)
  }

  lemma {:induction false} RunSnoc(st: State, ops: seq<Op>, op: Op)
    ensures Run(st, ops + [op]) == Step(Run(st, ops), op)
    decreases |ops|
  {
    hide Step;
    if ops == [] {
      assert ops + [op] == [op];
      assert Run(st, [op]) == Run(Step(st, op), [op][1..]);
    } else {
      assert (ops + [op])[1..] == ops[1..] + [op];
      RunSnoc(Step(st, ops[0]), ops[1..], op);
    }
  }

  /** A commit is needed exactly when something was set or cleaned since the last successful write. */
  lemma {:induction false} NeedsCommitIff(st: State, ops: seq<Op>)
    requires st.modified == 0
    ensures Run(st, ops).modified >= 0
    ensures NeedsCommit(Run(st, ops)) <==> EditedSinceWrite(ops)
    decreases |ops|
  {
    if ops == [] {
    } else {
      hide Run, SetString, CleanSection, Print;
      var n := |ops| - 1;
      var op := ops[n];
      assert ops[..n] + [op] == ops;
      NeedsCommitIff(st, ops[..n]);
      RunSnoc(st, ops[..n], op);
      EditedSnoc(ops[..n], op);
    }
  }

  lemma {:induction false} EditedSnoc(ops: seq<Op>, op: Op)
    ensures EditedSinceWrite(ops + [op]) <==> !op.Sync? || (EditedSinceWrite(ops) && op != Sync(true))
  {
    var all := ops + [op];
    var n := |ops|;
    assert all[n] == op && forall i | 0 <= i < n :: all[i] == ops[i];
    if EditedSinceWrite(ops) && op != Sync(true) {
      var i :| 0 <= i < n && !ops[i].Sync? && forall j | i < j < n :: ops[j] != Sync(true);
      assert !all[i].Sync?;
    }
    if !op.Sync? { assert !all[n].Sync?; }
    if EditedSinceWrite(all) && op.Sync? {
      var i :| 0 <= i < |all| && !all[i].Sync? && forall j | i < j < |all| :: all[j] != Sync(true);
      assert !ops[i].Sync? && all[n] != Sync(true);
    }
  }

  class Config {
    var named: bool          // filename != NULL
    var sections: Sections
    var modified: int
    var disk: string

    ghost function Abs(): State
      reads this
    {
      State(sections, modified, disk)
    }

    /** Opens the file. The counter is reset only when the file could be opened: `junk` is its value otherwise. */
    constructor (named: bool, file: Option<string>, junk: int)
      ensures named && file.Some? ==>
                InSync(Abs()) && sections == Parse(file.value) && disk == file.value && modified == 0
      ensures !(named && file.Some?) ==> sections == [] && modified == junk
      ensures this.named == named
    {
      this.named, sections, modified, disk := named, [], junk, file.GetOr("");
      new;
      if named && file.Some? {
        ParseFile();
        modified := 0;
      }
    }

    /** lp_config_parse(). */
    method ParseFile()
      requires sections == []
      modifies this`sections
      ensures sections == Parse(disk)
    {
      hide LineEvents, Apply;
      var rest := disk;
      while rest != ""
        invariant Build(sections, Events(rest)) == Parse(disk)
        decreases |rest|
      {
        var n := ChunkLength(rest);
        var ev := ScanLine(rest[..n]);
        BuildSplit(sections, ev, Events(rest[n..]));
        if |ev| == 1 {
          assert ev == [ev[0]];
          AddEvent(ev[0]);
        }
        rest := rest[n..];
      }
    }

    /** The trailing-space loop on the n characters before the newline. */
    static method TrimTail(value: string, n: nat) returns (r: string)
      requires n <= |value|
      ensures r == TrimEnd(value[..n])
    {
      var end := n;
      while end > 1 && value[end - 1] == ' '
        invariant 0 <= end <= n
        invariant TrimEnd(value[..end]) == TrimEnd(value[..n])
      {
        assert value[..end][..end - 1] == value[..end - 1];
        end := end - 1;
      }
      return value[..end];
    }

    /** One buffer of the parse loop. */
    static method ScanLine(line: string) returns (ev: seq<Event>)
      ensures ev == LineEvents(line)
    {
      hide Token, FindChar, CString, TrimEnd, OnlyBlanks;
      var s := CString(line);
      var b := FindChar(s, '[');
      if b < |s| && OnlyBlanks(s[..b]) {
        ev := HeaderEvent(s, b);
        return;
      }
      var q := FindChar(s, '=');
      ev := [];
      if q == |s| { return; }
      var key := Token(s[..q]);
      var value := s[q + 1..];
      if key != "" {
        var n := FindChar(value, '\n');
        if n == |value| {
          ev := [Pair(key, value)];
        } else {
          var kept := TrimTail(value, n);
          if n > 0 { ev := [Pair(key, kept)]; }
        }
      }
    }

    method AddEvent(ev: Event)
      modifies this`sections
      ensures sections == Apply(old(sections), ev)
    {
      match ev
      case Header(name) =>
        sections := sections + [Section(name, [])];
      case Pair(key, value) =>
        if sections != [] {
          var cur := |sections| - 1;
          sections := sections[cur := sections[cur].(items := sections[cur].items + [Item(key, value)])];
        }
    }

    /** lp_config_find_section(): -1 stands for NULL. */
    method FindSectionIndex(name: string) returns (k: int)
      ensures k == if HasSection(sections, name) then FindSection(sections, name) else -1
    {
      k := 0;
      while k < |sections|
        invariant 0 <= k <= |sections|
        invariant forall i | 0 <= i < k :: sections[i].name != name
      {
        if sections[k].name == name {
          FindSectionIs(sections, name, k);
          return;
        }
        k := k + 1;
      }
      FindSectionIs(sections, name, k);
      k := -1;
    }

    /** lp_section_find_item(). */
    static method FindItemIndex(items: seq<Item>, key: string) returns (k: int)
      ensures k == if FindItem(items, key) < |items| then FindItem(items, key) else -1
    {
      k := 0;
      while k < |items|
        invariant 0 <= k <= |items|
        invariant forall i | 0 <= i < k :: items[i].key != key
      {
        if items[k].key == key {
          FindItemIs(items, key, k);
          return;
        }
        k := k + 1;
      }
      FindItemIs(items, key, k);
      k := -1;
    }

    /** lp_config_get_string(). */
    method GetValue(section: string, key: string, default: Option<string>) returns (r: Option<string>)
      ensures r == match GetString(sections, section, key) case Some(v) => Some(v) case None => default
    {
      var sec := FindSectionIndex(section);
      if sec >= 0 {
        var item := FindItemIndex(sections[sec].items, key);
        if item >= 0 { return Some(sections[sec].items[item].value); }
      }
      return default;
    }

    /** lp_config_set_string(). */
    method SetValue(section: string, key: string, value: Option<string>)
      modifies this`sections, this`modified
      ensures Abs() == Step(old(Abs()), PutString(section, key, value))
    {
      var sec := FindSectionIndex(section);
      if sec >= 0 {
        var items := sections[sec].items;
        var item := FindItemIndex(items, key);
        if item >= 0 {
          items := if value.Some? then items[item := items[item].(value := value.value)]
            else items[..item] + items[item + 1..];
        } else if value.Some? {
          items := items + [Item(key, value.value)];
        }
        sections := sections[sec := sections[sec].(items := items)];
      } else if value.Some? {
        sections := sections + [Section(section, [Item(key, value.value)])];
      }
      modified := modified + 1;
    }

    /** lp_config_set_int(). */
    method SetNumber(section: string, key: string, number: int)
      modifies this`sections, this`modified
      ensures Abs() == Step(old(Abs()), PutInt(section, key, number))
    {
      SetValue(section, key, Some(IntToString(number)));
      modified := modified + 1;
    }

    /** lp_config_clean_section(). */
    method CleanSection(section: string)
      modifies this`sections, this`modified
      ensures Abs() == Step(old(Abs()), Clean(section))
    {
      hide FindSection;
      var sec := FindSectionIndex(section);
      if sec >= 0 {
        sections := sections[..sec] + sections[sec + 1..];
      }
      assert sections == Store.CleanSection(old(sections), section);
      modified := modified + 1;
    }

    /** lp_section_write(). */
    static method WriteSection(sec: Section) returns (out: string)
      ensures out == PrintSection(sec)
    {
      var head := "[" + sec.name + "]\n";
      out := head;
      for j := 0 to |sec.items|
        invariant out + PrintItems(sec.items[j..]) == head + PrintItems(sec.items)
      {
        var line := sec.items[j].key + "=" + sec.items[j].value + "\n";
        assert sec.items[j..][1..] == sec.items[j + 1..];
        assert out + (line + PrintItems(sec.items[j + 1..])) == (out + line) + PrintItems(sec.items[j + 1..]);
        out := out + line;
      }
      assert out + "" == out;
      out := out + "\n";
    }

    /** lp_config_sync(). */
    method Commit(writable: bool) returns (err: int)
      modifies this`disk, this`modified
      ensures Abs() == Step(old(Abs()), Sync(named && writable))
      ensures err == if named && writable then 0 else -1
    {
      if !named || !writable { return -1; }
      var out := "";
      for i := 0 to |sections|
        invariant out + Print(sections[i..]) == Print(sections)
      {
        var text := WriteSection(sections[i]);
        assert sections[i..][1..] == sections[i + 1..];
        out := out + text;
      }
      disk := out;
      modified := 0;
      return 0;
    }
  }
}
