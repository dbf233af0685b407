/** The contact list of Friend.cpp and its mirror in the numbered sections friend_0, friend_1, ... */
module Friends {
  import opened Text
  import opened Store
  import opened IniText
  import opened Configure

  datatype Policy = Wait | Deny | Accept

  /** The SIP address library: printing an address and parsing one, which may fail. */
  datatype Osip<!Url> = Osip(format: Url -> string, parse: string -> Option<Url>)

  ghost predicate Faithful<Url(!new)>(osip: Osip<Url>) {
    forall u :: osip.parse(osip.format(u)) == Some(u)
  }

  /** The persisted fields of a contact; a proxy is known by its identity. */
  datatype Entry<Url> = Entry(url: Option<Url>, policy: Policy, subscribe: bool, proxy: Option<nat>)

  /** A contact in the list; `id` stands for the record's address. */
  datatype Friend<Url> = Friend(id: nat, entry: Entry<Url>)

  function PolicyToString(p: Policy): string {
    match p
    case Accept => "accept"
    case Deny => "deny"
    case Wait => "wait"
  }

  function StringToPolicy(s: string): Policy {
    if s == "accept" then Accept
    else if s == "deny" then Deny
    else Wait
  }

  lemma PolicyRoundTrip(p: Policy)
    ensures StringToPolicy(PolicyToString(p)) == p
  {
  }

  /** Only the two words are policies of their own; every other text means to wait. */
  lemma PolicyWords(s: string)
    ensures StringToPolicy(s) == Accept <==> s == "accept"
    ensures StringToPolicy(s) == Deny <==> s == "deny"
  {
    assert "accept"[0] != "deny"[0];
  }

  function FriendKey(i: nat): string {
    "friend_" + IntToString(i)
  }

  lemma FriendKeysDiffer(i: nat, j: nat)
    requires i != j
    ensures FriendKey(i) != FriendKey(j)
  {
    IntToStringInjective(i, j);
    assert FriendKey(i)[7..] == IntToString(i) && FriendKey(j)[7..] == IntToString(j);
  }

  /** ms_list_index(): the first position, or -1. */
  function ProxyIndex(proxies: seq<nat>, proxy: nat): (k: int)
    ensures -1 <= k < |proxies|
    ensures k >= 0 ==> proxies[k] == proxy
    ensures k == -1 <==> proxy !in proxies
  {
    if proxies == [] then -1
    else if proxies[0] == proxy then 0
    else
      assert proxies == [proxies[0]] + proxies[1..];
      var k := ProxyIndex(proxies[1..], proxy);
      if k < 0 then -1 else k + 1
  }

  /** __index_to_proxy(). */
  function IndexToProxy(proxies: seq<nat>, index: int): Option<nat> {
    if 0 <= index < |proxies| then Some(proxies[index]) else None
  }

  /** What can come back from the store: a proxy that is not listed is lost. */
  function Storable<Url>(proxies: seq<nat>, e: Entry<Url>): Entry<Url> {
    e.(proxy := if e.proxy.Some? && e.proxy.value in proxies then e.proxy else None)
  }

  /** linphone_friend_write_to_config_file() for a contact. */
  function WriteFriend<Url>(osip: Osip<Url>, proxies: seq<nat>, secs: Sections, e: Entry<Url>, i: nat): Sections {
    var key := FriendKey(i);
    var s1 := if e.url.Some? then SetString(secs, key, "url", Some((osip.format)(e.url.value))) else secs;
    var s2 := SetString(s1, key, "pol", Some(PolicyToString(e.policy)));
    var s3 := SetInt(s2, key, "subscribe", if e.subscribe then 1 else 0);
    SetInt(s3, key, "proxy", if e.proxy.Some? then ProxyIndex(proxies, e.proxy.value) else -1)
  }

  /** A contact from the four values of its section; the flag is narrowed to one byte. */
  function Decode<Url>(osip: Osip<Url>, proxies: seq<nat>, text: string, pol: Option<string>, sub: int,
    index: int): Option<Entry<Url>> {
    match (osip.parse)(text)
    case None => None
    case Some(url) =>
      Some(Entry(Some(url), if pol.None? then Wait else StringToPolicy(pol.value), sub % 256 != 0,
                 if index == -1 then None else IndexToProxy(proxies, index)))
  }

  /** linphone_friend_new_from_config_file(). */
  function ReadFriend<Url>(osip: Osip<Url>, proxies: seq<nat>, secs: Sections, i: nat): Option<Entry<Url>> {
    var key := FriendKey(i);
    var text := GetString(secs, key, "url");
    if !HasSection(secs, key) || text.None? then None
    else Decode(osip, proxies, text.value, GetString(secs, key, "pol"),
                GetInt(secs, key, "subscribe", 0), GetInt(secs, key, "proxy", -1))
  }

  /** The store after the first n contacts are written. */
  function Written<Url>(osip: Osip<Url>, proxies: seq<nat>, secs: Sections, friends: seq<Friend<Url>>, n: nat): Sections
    requires n <= |friends|
  {
    if n == 0 then secs
    else WriteFriend(osip, proxies, Written(osip, proxies, secs, friends, n - 1), friends[n - 1].entry, n - 1)
  }

  /** linphone_core_write_friends_config(): write them all, then clear the section after the last. */
  function WriteFriends<Url>(osip: Osip<Url>, proxies: seq<nat>, secs: Sections, friends: seq<Friend<Url>>): Sections {
    CleanSection(Written(osip, proxies, secs, friends, |friends|), FriendKey(|friends|))
  }

  /** Reading at 0, 1, 2, .. until the first miss yields exactly these entries, in this order. */
  ghost predicate ReadsBackAs<Url>(osip: Osip<Url>, proxies: seq<nat>, secs: Sections, entries: seq<Entry<Url>>) {
    && (forall i | 0 <= i < |entries| :: ReadFriend(osip, proxies, secs, i) == Some(entries[i]))
    && ReadFriend(osip, proxies, secs, |entries|) == None
  }

  function Storables<Url>(proxies: seq<nat>, friends: seq<Friend<Url>>): seq<Entry<Url>> {
    seq(|friends|, i requires 0 <= i < |friends| => Storable(proxies, friends[i].entry))
  }

  function Entries<Url>(friends: seq<Friend<Url>>): seq<Entry<Url>> {
    seq(|friends|, i requires 0 <= i < |friends| => friends[i].entry)
  }

  ghost predicate AllHaveUrl<Url>(friends: seq<Friend<Url>>) {
    forall f | f in friends :: f.entry.url.Some?
  }

  lemma {:induction false} ReadDependsOnNamed<Url>(osip: Osip<Url>, proxies: seq<nat>, a: Sections, b: Sections, i: nat)
    requires Named(a, FriendKey(i)) == Named(b, FriendKey(i))
    ensures ReadFriend(osip, proxies, a, i) == ReadFriend(osip, proxies, b, i)
  {
    NamedFirst(a, FriendKey(i));
    NamedFirst(b, FriendKey(i));
  }

  lemma WriteFriendElsewhere<Url>(osip: Osip<Url>, proxies: seq<nat>, secs: Sections, e: Entry<Url>, i: nat,
    name: string)
    requires name != FriendKey(i)
    ensures Named(WriteFriend(osip, proxies, secs, e, i), name) == Named(secs, name)
  {
    var key := FriendKey(i);
    var url := if e.url.Some? then Some((osip.format)(e.url.value)) else None;
    var s1 := if e.url.Some? then SetString(secs, key, "url", url) else secs;
    NamedAfterSet(secs, key, "url", url, name);
    var pol := Some(PolicyToString(e.policy));
    NamedAfterSet(s1, key, "pol", pol, name);
    var s2 := SetString(s1, key, "pol", pol);
    var sub := Some(IntToString(if e.subscribe then 1 else 0));
    NamedAfterSet(s2, key, "subscribe", sub, name);
    var s3 := SetString(s2, key, "subscribe", sub);
    NamedAfterSet(s3, key, "proxy",
      Some(IntToString(if e.proxy.Some? then ProxyIndex(proxies, e.proxy.value) else -1)), name);
  }

  lemma {:induction false} FieldsAfterWrite(secs: Sections, key: string, url: string, pol: string, sub: string,
    index: string)
    ensures var s2 := SetString(SetString(secs, key, "url", Some(url)), key, "pol", Some(pol));
            var res := SetString(SetString(s2, key, "subscribe", Some(sub)), key, "proxy", Some(index));
            && GetString(res, key, "url") == Some(url)
            && GetString(res, key, "pol") == Some(pol)
            && GetString(res, key, "subscribe") == Some(sub)
            && GetString(res, key, "proxy") == Some(index)
  {
    var s1 := SetString(secs, key, "url", Some(url));
    var s2 := SetString(s1, key, "pol", Some(pol));
    var s3 := SetString(s2, key, "subscribe", Some(sub));
    assert |"url"| == |"pol"| == 3 && "url"[0] != "pol"[0] && |"subscribe"| == 9 && |"proxy"| == 5;
    GetAfterSet(secs, key, "url", Some(url), key, "url");
    GetAfterSet(s1, key, "pol", Some(pol), key, "url");
    GetAfterSet(s1, key, "pol", Some(pol), key, "pol");
    GetAfterSet(s2, key, "subscribe", Some(sub), key, "url");
    GetAfterSet(s2, key, "subscribe", Some(sub), key, "pol");
    GetAfterSet(s2, key, "subscribe", Some(sub), key, "subscribe");
    GetAfterSet(s3, key, "proxy", Some(index), key, "url");
    GetAfterSet(s3, key, "proxy", Some(index), key, "pol");
    GetAfterSet(s3, key, "proxy", Some(index), key, "subscribe");
    GetAfterSet(s3, key, "proxy", Some(index), key, "proxy");
  }

  /** A written contact reads back, whatever an older section of that name held. */
  lemma {:induction false} WriteThenRead<Url(!new)>(osip: Osip<Url>, proxies: seq<nat>, secs: Sections, e: Entry<Url>,
    i: nat)
    requires Faithful(osip) && e.url.Some?
    ensures ReadFriend(osip, proxies, WriteFriend(osip, proxies, secs, e, i), i) == Some(Storable(proxies, e))
  {
    var url := (osip.format)(e.url.value);
    var sub := if e.subscribe then 1 else 0;
    var index := if e.proxy.Some? then ProxyIndex(proxies, e.proxy.value) else -1;
    var res := WriteFriend(osip, proxies, secs, e, i);
    FieldsAfterWrite(secs, FriendKey(i), url, PolicyToString(e.policy), IntToString(sub), IntToString(index));
    AtoiOfIntToString(sub);
    AtoiOfIntToString(index);
    assert GetInt(res, FriendKey(i), "subscribe", 0) == sub;
    assert GetInt(res, FriendKey(i), "proxy", -1) == index;
    DecodeStorable(osip, proxies, e, sub, index);
  }

  lemma DecodeStorable<Url(!new)>(osip: Osip<Url>, proxies: seq<nat>, e: Entry<Url>, sub: int, index: int)
    requires Faithful(osip) && e.url.Some?
    requires sub == if e.subscribe then 1 else 0
    requires index == if e.proxy.Some? then ProxyIndex(proxies, e.proxy.value) else -1
    ensures Decode(osip, proxies, (osip.format)(e.url.value), Some(PolicyToString(e.policy)), sub, index) ==
            Some(Storable(proxies, e))
  {
    assert (osip.parse)((osip.format)(e.url.value)) == Some(e.url.value);
    PolicyRoundTrip(e.policy);
  }

  lemma {:induction false} WrittenReads<Url(!new)>(osip: Osip<Url>, proxies: seq<nat>, secs: Sections,
    friends: seq<Friend<Url>>, n: nat)
    requires Faithful(osip) && AllHaveUrl(friends) && n <= |friends|
    ensures forall i | 0 <= i < n ::
              ReadFriend(osip, proxies, Written(osip, proxies, secs, friends, n), i) ==
                Some(Storable(proxies, friends[i].entry))
    ensures forall m: nat | m >= n ::
              Named(Written(osip, proxies, secs, friends, n), FriendKey(m)) == Named(secs, FriendKey(m))
  {
    hide ReadFriend, WriteFriend, Storable, Named, FriendKey, Faithful;
    if n == 0 {
    } else {
      var before := Written(osip, proxies, secs, friends, n - 1);
      var e := friends[n - 1].entry;
      var after := WriteFriend(osip, proxies, before, e, n - 1);
      WrittenReads(osip, proxies, secs, friends, n - 1);
      WriteThenRead(osip, proxies, before, e, n - 1);
      forall m: nat | m != n - 1 ensures Named(after, FriendKey(m)) == Named(before, FriendKey(m)) {
        FriendKeysDiffer(m, n - 1);
        WriteFriendElsewhere(osip, proxies, before, e, n - 1, FriendKey(m));
      }
      forall i | 0 <= i < n - 1
        ensures ReadFriend(osip, proxies, after, i) == ReadFriend(osip, proxies, before, i)
      {
        ReadDependsOnNamed(osip, proxies, after, before, i);
      }
    }
  }

  /**
   * The mirror: after writing, the numbered sections read back as the list, whatever they held before,
   * exactly when no readable section of the next number is left behind the one that is cleared.
   */
  lemma {:induction false} WriteMirrors<Url(!new)>(osip: Osip<Url>, proxies: seq<nat>, secs: Sections,
    friends: seq<Friend<Url>>)
    requires Faithful(osip) && AllHaveUrl(friends)
    ensures ReadsBackAs(osip, proxies, WriteFriends(osip, proxies, secs, friends), Storables(proxies, friends)) <==>
            ReadFriend(osip, proxies, CleanSection(secs, FriendKey(|friends|)), |friends|) == None
    ensures |Named(secs, FriendKey(|friends|))| <= 1 ==>
              ReadsBackAs(osip, proxies, WriteFriends(osip, proxies, secs, friends), Storables(proxies, friends))
  {
    hide ReadFriend, Written, Storable, Named, FriendKey, Faithful, AllHaveUrl;
    var n := |friends|;
    var key := FriendKey(n);
    var all := Written(osip, proxies, secs, friends, n);
    var res := WriteFriends(osip, proxies, secs, friends);
    WrittenReads(osip, proxies, secs, friends, n);
    NamedAfterClean(all, key, key);
    NamedAfterClean(secs, key, key);
    ReadDependsOnNamed(osip, proxies, res, CleanSection(secs, key), n);
    NamedFirst(CleanSection(secs, key), key);
    if Named(CleanSection(secs, key), key) == [] { MissingReadsNone(osip, proxies, CleanSection(secs, key), n); }
    forall i | 0 <= i < n
      ensures ReadFriend(osip, proxies, res, i) == Some(Storable(proxies, friends[i].entry))
    {
      FriendKeysDiffer(i, n);
      NamedAfterClean(all, key, FriendKey(i));
      ReadDependsOnNamed(osip, proxies, res, all, i);
    }
  }

  /** Two sections of one number: clearing the first leaves the second, and an empty list reads back as one contact. */
  lemma {:induction false} DoubledSectionReturns<Url(!new)>(osip: Osip<Url>, proxies: seq<nat>, u: Url)
    requires Faithful(osip)
    ensures var sec := Section(FriendKey(0), [Item("url", (osip.format)(u))]);
            && ReadFriend(osip, proxies, WriteFriends(osip, proxies, [sec, sec], []), 0).Some?
            && !ReadsBackAs(osip, proxies, WriteFriends(osip, proxies, [sec, sec], []), Storables(proxies, []))
  {
    hide FriendKey, IntToString, GetInt;
    var sec := Section(FriendKey(0), [Item("url", (osip.format)(u))]);
    assert WriteFriends(osip, proxies, [sec, sec], []) == CleanSection([sec, sec], FriendKey(0)) == [sec];
    assert (osip.parse)((osip.format)(u)) == Some(u);
    assert GetString([sec], FriendKey(0), "url") == Some((osip.format)(u));
  }

  /** With every proxy listed, nothing at all is lost. */
  lemma ListedProxyIsKept<Url>(proxies: seq<nat>, e: Entry<Url>)
    ensures Storable(proxies, e) == e <==> (e.proxy.Some? ==> e.proxy.value in proxies)
  {
  }

  // ---- the form of a section ----

  /** The items of a contact's section. */
  function SectionForm<Url>(address: string, e: Entry<Url>, place: int): seq<Item> {
    [Item("url", address),
     Item("pol", match e.policy case Accept => "accept" case Deny => "deny" case Wait => "wait"),
     Item("subscribe", if e.subscribe then "1" else "0"),
     Item("proxy", IntToString(place))]
  }

  /** What a section without items of these keys holds after one more is set. */
  lemma SetInNewSection(secs: Sections, s: string, items: seq<Item>, key: string, value: string)
    requires Named(secs, s) == if items == [] then [] else [Section(s, items)]
    requires forall it | it in items :: it.key != key
    ensures Named(SetString(secs, s, key, Some(value)), s) == [Section(s, items + [Item(key, value)])]
  {
    NamedAfterSet(secs, s, key, Some(value), s);
    if items == [] {
      assert items + [Item(key, value)] == [Item(key, value)];
    } else {
      assert FindSection([Section(s, items)], s) == 0 && FindItem(items, key) == |items|;
    }
  }

  /**
   * What is written for a contact where no section of its number was: its address, its policy by name, its subscription
   * as 1 or 0, and the position of its proxy among the configured ones, -1 when it has none of them.
   */
  lemma {:induction false} NewSectionForm<Url>(osip: Osip<Url>, proxies: seq<nat>, secs: Sections, e: Entry<Url>,
    i: nat)
    requires Named(secs, FriendKey(i)) == [] && e.url.Some?
    ensures FriendKey(i) == "friend_" + IntToString(i)
    ensures Named(WriteFriend(osip, proxies, secs, e, i), FriendKey(i)) ==
            [Section(FriendKey(i), SectionForm((osip.format)(e.url.value), e, ProxyPlace(proxies, e)))]
  {
    hide Named, SetString, IntToString, FriendKey;
    assert FriendKey(i) == "friend_" + IntToString(i) by { KeyForm(i); }
    var key := FriendKey(i);
    var i1 := [Item("url", (osip.format)(e.url.value))];
    var i2 := i1 + [Item("pol", PolicyToString(e.policy))];
    var i3 := i2 + [Item("subscribe", IntToString(if e.subscribe then 1 else 0))];
    var s1 := SetString(secs, key, "url", Some((osip.format)(e.url.value)));
    var s2 := SetString(s1, key, "pol", Some(PolicyToString(e.policy)));
    var s3 := SetString(s2, key, "subscribe", Some(IntToString(if e.subscribe then 1 else 0)));
    assert |"url"| == |"pol"| == 3 && "url"[0] != "pol"[0] && |"subscribe"| == 9 && |"proxy"| == 5;
    assert [] + i1 == i1;
    SetInNewSection(secs, key, [], "url", (osip.format)(e.url.value));
    SetInNewSection(s1, key, i1, "pol", PolicyToString(e.policy));
    SetInNewSection(s2, key, i2, "subscribe", IntToString(if e.subscribe then 1 else 0));
    SetInNewSection(s3, key, i3, "proxy", IntToString(ProxyPlace(proxies, e)));
    OneDigit();
    assert WriteFriend(osip, proxies, secs, e, i) ==
      SetString(s3, key, "proxy", Some(IntToString(ProxyPlace(proxies, e))));
    assert i3 + [Item("proxy", IntToString(ProxyPlace(proxies, e)))] ==
           SectionForm((osip.format)(e.url.value), e, ProxyPlace(proxies, e));
  }

  lemma KeyForm(i: nat)
    ensures FriendKey(i) == "friend_" + IntToString(i)
  {
  }

  lemma OneDigit()
    ensures IntToString(0) == "0" && IntToString(1) == "1"
  {
  }

  /** The position of the contact's proxy, or -1. */
  function ProxyPlace<Url>(proxies: seq<nat>, e: Entry<Url>): (k: int)
    ensures k >= 0 ==> k < |proxies| && e.proxy == Some(proxies[k])
    ensures k < 0 ==> k == -1 && (e.proxy.Some? ==> e.proxy.value !in proxies)
  {
    if e.proxy.Some? then ProxyIndex(proxies, e.proxy.value) else -1
  }

  /** A section with nothing but an address reads as a contact that waits, is not subscribed to and has no proxy. */
  lemma {:induction false} BareSectionReads<Url(!new)>(osip: Osip<Url>, proxies: seq<nat>, secs: Sections, u: Url,
    i: nat)
    requires Faithful(osip) && Named(secs, FriendKey(i)) == [Section(FriendKey(i), [Item("url", (osip.format)(u))])]
    ensures ReadFriend(osip, proxies, secs, i) == Some(Entry(Some(u), Wait, false, None))
  {
    hide Named, FriendKey;
    NamedFirst(secs, FriendKey(i));
    var items := [Item("url", (osip.format)(u))];
    assert (osip.parse)((osip.format)(u)) == Some(u);
    assert |"pol"| == 3 && |"subscribe"| == 9 && |"proxy"| == 5 && |"url"| == 3 && "url"[0] != "pol"[0];
    assert GetItem(items, "pol") == GetItem(items, "subscribe") == GetItem(items, "proxy") == None;
  }

  // ---- one section of each number ----

  /** No numbered section is doubled. */
  ghost predicate OneEach(secs: Sections) {
    forall k: nat :: |Named(secs, FriendKey(k))| <= 1
  }

  lemma WriteFriendKeepsSingle<Url>(
    osip: Osip<Url>, proxies: seq<nat>, secs: Sections, e: Entry<Url>, i: nat, name: string)
    requires |Named(secs, name)| <= 1
    ensures |Named(WriteFriend(osip, proxies, secs, e, i), name)| <= 1
  {
    hide SetString, Named, FriendKey, IntToString;
    var key := FriendKey(i);
    var url := if e.url.Some? then Some((osip.format)(e.url.value)) else None;
    var pol := Some(PolicyToString(e.policy));
    var sub := Some(IntToString(if e.subscribe then 1 else 0));
    var index := Some(IntToString(if e.proxy.Some? then ProxyIndex(proxies, e.proxy.value) else -1));
    var s1 := if e.url.Some? then SetString(secs, key, "url", url) else secs;
    var s2 := SetString(s1, key, "pol", pol);
    SetKeepsSingle(secs, key, "url", url, name);
    SetKeepsSingle(s1, key, "pol", pol, name);
    SetKeepsSingle(s2, key, "subscribe", sub, name);
    SetKeepsSingle(SetString(s2, key, "subscribe", sub), key, "proxy", index, name);
  }

  lemma {:induction false} WrittenKeepsSingle<Url>(
    osip: Osip<Url>, proxies: seq<nat>, secs: Sections, friends: seq<Friend<Url>>, n: nat, name: string)
    requires n <= |friends| && |Named(secs, name)| <= 1
    ensures |Named(Written(osip, proxies, secs, friends, n), name)| <= 1
  {
    hide WriteFriend, Named;
    if n == 0 {
    } else {
      WrittenKeepsSingle(osip, proxies, secs, friends, n - 1, name);
      WriteFriendKeepsSingle(osip, proxies, Written(osip, proxies, secs, friends, n - 1), friends[n - 1].entry, n - 1,
        name);
    }
  }

  /** Writing the list keeps the numbered sections single, so that the mirror holds after every write. */
  lemma WriteKeepsOneEach<Url>(osip: Osip<Url>, proxies: seq<nat>, secs: Sections, friends: seq<Friend<Url>>)
    requires OneEach(secs)
    ensures OneEach(WriteFriends(osip, proxies, secs, friends))
  {
    hide Written, Named, FriendKey, CleanSection;
    var all := Written(osip, proxies, secs, friends, |friends|);
    forall k: nat ensures |Named(WriteFriends(osip, proxies, secs, friends), FriendKey(k))| <= 1 {
      WrittenKeepsSingle(osip, proxies, secs, friends, |friends|, FriendKey(k));
      NamedAfterClean(all, FriendKey(|friends|), FriendKey(k));
    }
  }

  // ---- over a restart ----

  /** The printed address survives in the file. */
  ghost predicate AddressesSurvive<Url>(osip: Osip<Url>, friends: seq<Friend<Url>>) {
    forall f | f in friends && f.entry.url.Some? :: ItemOk(Item("url", (osip.format)(f.entry.url.value)))
  }

  lemma FriendKeyOk(i: nat)
    requires i <= INT_MAX
    ensures NameOk(FriendKey(i))
  {
    IntToStringLength(i);
    var prefix := "friend_";
    assert FriendKey(i) == prefix + IntToString(i);
    assert NoSpace(prefix) && ']' !in prefix && '\0' !in prefix;
    assert forall c | c in FriendKey(i) :: c in prefix || c in IntToString(i);
  }

  lemma NumberItemOk(key: string, n: int)
    requires -1 <= n <= INT_MAX && key in {"subscribe", "proxy"}
    ensures ItemOk(Item(key, IntToString(n)))
  {
    IntToStringLength(n);
    assert "subscribe"[0] != '[' && "proxy"[0] != '[' && |"subscribe"| == 9 && |"proxy"| == 5;
    assert NoSpace(key) && '=' !in key && '\0' !in key;
    WordItemOk(key, IntToString(n));
  }

  lemma PolicyItemOk(p: Policy)
    ensures ItemOk(Item("pol", PolicyToString(p)))
  {
    assert "pol"[0] != '[' && |"pol"| == 3;
    assert NoSpace("pol") && '=' !in "pol" && '\0' !in "pol";
    assert NoSpace("accept") && NoSpace("deny") && NoSpace("wait") && |"accept"| == 6 && |"deny"| == |"wait"| == 4;
    WordItemOk("pol", PolicyToString(p));
  }

  lemma {:induction false} WriteFriendWellFormed<Url>(
    osip: Osip<Url>, proxies: seq<nat>, secs: Sections, e: Entry<Url>, i: nat)
    requires WellFormed(secs) && i <= INT_MAX && |proxies| <= INT_MAX
    requires e.url.Some? ==> ItemOk(Item("url", (osip.format)(e.url.value)))
    ensures WellFormed(WriteFriend(osip, proxies, secs, e, i))
  {
    hide WellFormed, SetString, NameOk, ItemOk, FriendKey, IntToString, PolicyToString;
    var key := FriendKey(i);
    var pol := PolicyToString(e.policy);
    var sub := if e.subscribe then 1 else 0;
    var index := if e.proxy.Some? then ProxyIndex(proxies, e.proxy.value) else -1;
    FriendKeyOk(i);
    if e.url.Some? { SetKeepsWellFormed(secs, key, "url", (osip.format)(e.url.value)); }
    var s1 := if e.url.Some? then SetString(secs, key, "url", Some((osip.format)(e.url.value))) else secs;
    PolicyItemOk(e.policy);
    SetKeepsWellFormed(s1, key, "pol", pol);
    var s2 := SetString(s1, key, "pol", Some(pol));
    NumberItemOk("subscribe", sub);
    SetKeepsWellFormed(s2, key, "subscribe", IntToString(sub));
    NumberItemOk("proxy", index);
    SetKeepsWellFormed(SetString(s2, key, "subscribe", Some(IntToString(sub))), key, "proxy", IntToString(index));
  }

  lemma {:induction false} WrittenWellFormed<Url>(
    osip: Osip<Url>, proxies: seq<nat>, secs: Sections, friends: seq<Friend<Url>>, n: nat)
    requires n <= |friends| <= INT_MAX && |proxies| <= INT_MAX
    requires WellFormed(secs) && AddressesSurvive(osip, friends)
    ensures WellFormed(Written(osip, proxies, secs, friends, n))
  {
    hide WellFormed, WriteFriend, ItemOk;
    if n == 0 {
    } else {
      WrittenWellFormed(osip, proxies, secs, friends, n - 1);
      assert friends[n - 1] in friends;
      WriteFriendWellFormed(osip, proxies, Written(osip, proxies, secs, friends, n - 1), friends[n - 1].entry, n - 1);
    }
  }

  lemma StorablesAreEntries<Url>(proxies: seq<nat>, friends: seq<Friend<Url>>)
    requires forall f | f in friends && f.entry.proxy.Some? :: f.entry.proxy.value in proxies
    ensures Storables(proxies, friends) == Entries(friends)
  {
    forall i | 0 <= i < |friends| ensures Storable(proxies, friends[i].entry) == friends[i].entry {
      assert friends[i] in friends;
      ListedProxyIsKept(proxies, friends[i].entry);
    }
  }

  /**
   * Written into a well-formed store, saved and read by the next start, the contact list comes back whole, as long as
   * each printed address survives in the file and each proxy is listed.
   */
  lemma {:induction false} RestartRestores<Url(!new)>(
    osip: Osip<Url>, proxies: seq<nat>, secs: Sections, friends: seq<Friend<Url>>)
    requires Faithful(osip) && AllHaveUrl(friends) && AddressesSurvive(osip, friends)
    requires forall f | f in friends && f.entry.proxy.Some? :: f.entry.proxy.value in proxies
    requires |friends| <= INT_MAX && |proxies| <= INT_MAX
    requires WellFormed(secs) && |Named(secs, FriendKey(|friends|))| <= 1
    ensures ReadsBackAs(osip, proxies, Parse(Print(WriteFriends(osip, proxies, secs, friends))), Entries(friends))
  {
    hide WellFormed, Written, ReadsBackAs, Faithful, Parse, Print, Named, FriendKey, Storables, Entries;
    WriteMirrors(osip, proxies, secs, friends);
    WrittenWellFormed(osip, proxies, secs, friends, |friends|);
    CleanKeepsWellFormed(Written(osip, proxies, secs, friends, |friends|), FriendKey(|friends|));
    RoundTripIff(WriteFriends(osip, proxies, secs, friends));
    StorablesAreEntries(proxies, friends);
  }

  /** A finite store misses some number, so reading stops. */
  lemma {:induction false} SomeNumberIsMissing(secs: Sections) returns (end: nat)
    ensures !HasSection(secs, FriendKey(end)) && end <= |secs|
    decreases |secs|
  {
    var key := FriendKey(|secs|);
    if !HasSection(secs, key) {
      end := |secs|;
    } else {
      var fewer := CleanSection(secs, key);
      end := SomeNumberIsMissing(fewer);
      FriendKeysDiffer(end, |secs|);
      NamedAfterClean(secs, key, FriendKey(end));
      NamedFirst(secs, FriendKey(end));
      NamedFirst(fewer, FriendKey(end));
    }
  }

  predicate Listed<Url(==)>(friends: seq<Friend<Url>>, id: nat) {
    exists f | f in friends :: f.id == id
  }

  /** lc->friends together with the store it is mirrored in. */
  class ContactList<Url(==, !new)> {
    const osip: Osip<Url>
    const config: Config
    var friends: seq<Friend<Url>>
    var proxies: seq<nat>
    var ready: bool

    constructor (osip: Osip<Url>, config: Config, proxies: seq<nat>)
      ensures this.osip == osip && this.config == config && this.proxies == proxies
      ensures friends == [] && !ready
    {
      this.osip, this.config, this.proxies := osip, config, proxies;
      friends, ready := [], false;
    }

    ghost predicate Valid()
      reads this
    {
      AllHaveUrl(friends) && forall i, j | 0 <= i < j < |friends| :: friends[i].id != friends[j].id
    }

    /** Once the core is ready, the numbered sections read back as the list; none of them is ever doubled. */
    ghost predicate Mirrored()
      reads this, config
    {
      && Faithful(osip) && OneEach(config.sections)
      && (ready ==> ReadsBackAs(osip, proxies, config.sections, Storables(proxies, friends)))
    }

    /** linphone_friend_write_to_config_file(). */
    method WriteOne(e: Entry<Url>, i: nat)
      modifies config
      ensures config.sections == WriteFriend(osip, proxies, old(config.sections), e, i)
    {
      var key := FriendKey(i);
      if e.url.Some? {
        config.SetValue(key, "url", Some((osip.format)(e.url.value)));
      }
      config.SetValue(key, "pol", Some(PolicyToString(e.policy)));
      config.SetNumber(key, "subscribe", if e.subscribe then 1 else 0);
      if e.proxy.Some? {
        config.SetNumber(key, "proxy", ProxyIndex(proxies, e.proxy.value));
      } else {
        config.SetNumber(key, "proxy", -1);
      }
    }

    /** linphone_core_write_friends_config(): nothing is written before the core is ready. */
    method WriteFriendsConfig()
      modifies config
      ensures config.sections ==
              if ready then WriteFriends(osip, proxies, old(config.sections), friends) else old(config.sections)
      ensures AllHaveUrl(friends) && Faithful(osip) && OneEach(old(config.sections)) ==> Mirrored()
    {
      hide ReadFriend, WriteFriend, Named, FriendKey, Faithful, AllHaveUrl, Storable, CleanSection;
      if !ready { return; }
      if AllHaveUrl(friends) && Faithful(osip) && OneEach(config.sections) {
        WriteMirrors(osip, proxies, config.sections, friends);
        WriteKeepsOneEach(osip, proxies, config.sections, friends);
      }
      var i := 0;
      while i < |friends|
        invariant 0 <= i <= |friends|
        invariant config.sections == Written(osip, proxies, old(config.sections), friends, i)
      {
        WriteOne(friends[i].entry, i);
        i := i + 1;
      }
      config.CleanSection(FriendKey(i));
    }

    /** linphone_core_add_friend(): refused when already listed or without an address. */
    method AddFriend(f: Friend<Url>)
      requires Valid()
      modifies this`friends, config
      ensures Valid() && (old(Mirrored()) ==> Mirrored())
      ensures friends ==
              if Listed(old(friends), f.id) || f.entry.url.None? then old(friends) else old(friends) + [f]
      ensures friends != old(friends) && ready ==>
                config.sections == WriteFriends(osip, proxies, old(config.sections), friends)
      ensures !ready || friends == old(friends) ==> config.sections == old(config.sections)
    {
      hide WriteFriends, ReadsBackAs, OneEach, Faithful, Storables;
      if Listed(friends, f.id) || f.entry.url.None? { return; }
      assert forall i | 0 <= i < |friends| :: friends[i] in friends;
      friends := friends + [f];
      WriteFriendsConfig();
    }

    /** ms_list_find(): the position of a record, or the length. */
    method FindFriend(id: nat) returns (k: nat)
      ensures k <= |friends| && (k < |friends| ==> friends[k].id == id)
      ensures forall i | 0 <= i < k :: friends[i].id != id
    {
      k := 0;
      while k < |friends| && friends[k].id != id
        invariant 0 <= k <= |friends|
        invariant forall i | 0 <= i < k :: friends[i].id != id
      {
        k := k + 1;
      }
    }

    /** linphone_core_remove_friend(). */
    method RemoveFriend(id: nat)
      requires Valid()
      modifies this`friends, config
      ensures Valid() && (old(Mirrored()) ==> Mirrored())
      ensures (forall f | f in old(friends) :: f.id != id) ==>
                friends == old(friends) && config.sections == old(config.sections)
      ensures forall k | 0 <= k < |old(friends)| && old(friends)[k].id == id ::
                && friends == old(friends)[..k] + old(friends)[k + 1..]
                && (ready ==> config.sections == WriteFriends(osip, proxies, old(config.sections), friends))
    {
      hide WriteFriends, ReadsBackAs, OneEach, Faithful, Storables;
      var k := FindFriend(id);
      if k < |friends| {
        WithoutOne(friends, k);
        assert friends[k] in friends;
        friends := friends[..k] + friends[k + 1..];
        WriteFriendsConfig();
      }
    }

    /** One turn of the start-up loop: read the next number and list what was read. */
    method LoadNext(firstId: nat) returns (more: bool)
      requires !ready && LoadedFrom(osip, proxies, config.sections, friends, firstId)
      modifies this`friends, config
      ensures config.sections == old(config.sections)
      ensures LoadedFrom(osip, proxies, config.sections, friends, firstId)
      ensures more <==> ReadFriend(osip, proxies, config.sections, |old(friends)|).Some?
      ensures |friends| == if more then |old(friends)| + 1 else |old(friends)|
    {
      hide ReadFriend, AllHaveUrl, Listed, WriteFriends;
      var i := |friends|;
      var next := ReadFriend(osip, proxies, config.sections, i);
      more := next.Some?;
      if more {
        LoadedIsValid(osip, proxies, config.sections, friends, firstId);
        ReadHasUrl(osip, proxies, config.sections, i);
        AddFriend(Friend(firstId + i, next.value));
      }
    }

    /** ui_config_read(): read the numbered sections at start-up, until the first miss. */
    method LoadFriends(firstId: nat)
      requires Valid() && !ready && friends == []
      modifies this`friends, config
      ensures Valid() && config.sections == old(config.sections)
      ensures ReadsBackAs(osip, proxies, config.sections, Entries(friends)) &&
              Storables(proxies, friends) == Entries(friends)
    {
      ghost var secs := config.sections;
      ghost var end := SomeNumberIsMissing(secs);
      MissingReadsNone(osip, proxies, secs, end);
      var more := true;
      while more
        invariant config.sections == secs && |friends| <= end
        invariant LoadedFrom(osip, proxies, secs, friends, firstId)
        invariant !more ==> ReadFriend(osip, proxies, secs, |friends|) == None
        decreases end - |friends|, more
      {
        more := LoadNext(firstId);
      }
      LoadedIsValid(osip, proxies, secs, friends, firstId);
      LoadedIsStorable(osip, proxies, secs, friends, firstId);
    }

    /** The end of linphone_core_init(): the contacts are read, and from then on changes are written back. */
    method Start(firstId: nat)
      requires Valid() && !ready && friends == []
      modifies this, config
      ensures Valid() && ready && proxies == old(proxies) && config.sections == old(config.sections)
      ensures Faithful(osip) && OneEach(config.sections) ==> Mirrored()
    {
      hide ReadsBackAs, OneEach, Faithful, Storables, Entries;
      LoadFriends(firstId);
      ready := true;
    }
  }

  /** A valid list stays valid without one of its records. */
  lemma WithoutOne<Url>(friends: seq<Friend<Url>>, k: nat)
    requires k < |friends| && AllHaveUrl(friends)
    requires forall i, j | 0 <= i < j < |friends| :: friends[i].id != friends[j].id
    ensures AllHaveUrl(friends[..k] + friends[k + 1..])
    ensures var rest := friends[..k] + friends[k + 1..]; forall i, j | 0 <= i < j < |rest| :: rest[i].id != rest[j].id
  {
  }

  /** What was read from the sections can be stored as it is: its proxy is a listed one. */
  lemma LoadedIsStorable<Url>(
    osip: Osip<Url>, proxies: seq<nat>, secs: Sections, friends: seq<Friend<Url>>, firstId: nat)
    requires LoadedFrom(osip, proxies, secs, friends, firstId)
    ensures Storables(proxies, friends) == Entries(friends)
  {
    forall f | f in friends && f.entry.proxy.Some? ensures f.entry.proxy.value in proxies {
      var k :| 0 <= k < |friends| && friends[k] == f;
      assert ReadFriend(osip, proxies, secs, k) == Some(f.entry);
    }
    StorablesAreEntries(proxies, friends);
  }

  lemma MissingReadsNone<Url>(osip: Osip<Url>, proxies: seq<nat>, secs: Sections, end: nat)
    requires !HasSection(secs, FriendKey(end))
    ensures ReadFriend(osip, proxies, secs, end) == None
  {
  }

  lemma ReadHasUrl<Url>(osip: Osip<Url>, proxies: seq<nat>, secs: Sections, i: nat)
    requires ReadFriend(osip, proxies, secs, i).Some?
    ensures ReadFriend(osip, proxies, secs, i).value.url.Some?
  {
    hide GetString, GetInt;
  }

  ghost predicate LoadedFrom<Url>(osip: Osip<Url>, proxies: seq<nat>, secs: Sections, friends: seq<Friend<Url>>,
    firstId: nat) {
    forall k | 0 <= k < |friends| ::
      friends[k].id == firstId + k && ReadFriend(osip, proxies, secs, k) == Some(friends[k].entry)
  }

  lemma LoadedIsValid<Url>(osip: Osip<Url>, proxies: seq<nat>, secs: Sections, friends: seq<Friend<Url>>, firstId: nat)
    requires LoadedFrom(osip, proxies, secs, friends, firstId)
    ensures AllHaveUrl(friends)
    ensures forall i, j | 0 <= i < j < |friends| :: friends[i].id != friends[j].id
    ensures !Listed(friends, firstId + |friends|)
  {
    forall f | f in friends ensures f.entry.url.Some? && f.id < firstId + |friends| {
      var k :| 0 <= k < |friends| && friends[k] == f;
    }
  }
}
