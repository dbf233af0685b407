/** The credential list of Private.cpp and its numbered sections auth_info_0, auth_info_1, ... */
module Credentials {
  import opened Text
  import opened Store
  import opened Configure

  datatype Credential = Credential(
    username: Option<string>, userid: Option<string>, passwd: Option<string>, ha1: Option<string>,
      realm: Option<string>)

  function NonEmpty(s: Option<string>): Option<string> {
    if s == Some("") then None else s
  }

  /** linphone_auth_info_new(): an empty string counts as absent. */
  function NewCredential(username: Option<string>, userid: Option<string>, passwd: Option<string>,
                         ha1: Option<string>, realm: Option<string>): (c: Credential)
    ensures Normal(c)
  {
    Credential(NonEmpty(username), NonEmpty(userid), NonEmpty(passwd), NonEmpty(ha1), NonEmpty(realm))
  }

  predicate Normal(c: Credential) {
    Some("") !in {c.username, c.userid, c.passwd, c.ha1, c.realm}
  }

  // ---- matching ----

  /** Realms are compared in 128-byte buffers whose last byte is never written. */
  const REALM_LIMIT: nat := 127

  predicate Fits(realm: Option<string>) {
    realm.Some? ==> |realm.value| < REALM_LIMIT
  }

  /** remove_quotes(): skip one opening quote, cut at the next quote. */
  function RemoveQuotes(s: string): string {
    var t := if s != "" && s[0] == '"' then s[1..] else s;
    t[..FindChar(t, '"')]
  }

  /** realm_match(). */
  predicate RealmMatch(a: Option<string>, b: Option<string>)
    requires Fits(a) && Fits(b)
  {
    match (a, b)
    case (None, None) => true
    case (Some(x), Some(y)) => x == y || RemoveQuotes(x) == RemoveQuotes(y)
    case _ => false
  }

  /** auth_info_compare() == 0. */
  predicate Matches(c: Credential, realm: Option<string>, username: Option<string>)
    requires Fits(c.realm) && Fits(realm)
  {
    RealmMatch(c.realm, realm) && c.username == username
  }

  // ---- quotes do not matter ----

  function Quoted(x: string): string {
    "\"" + x + "\""
  }

  lemma QuotesAreRemoved(x: string)
    requires '"' !in x
    ensures RemoveQuotes(x) == x && RemoveQuotes(Quoted(x)) == x
  {
    hide FindChar;
    assert Quoted(x)[1..] == x + ['"'] + "";
    FindCharAfter(x, '"', "");
  }

  /**
   * A challenge may quote its realm, and so may an entry: however the two are written, they match when they are equal.
   */
  lemma {:induction false} QuotesDoNotMatter(x: string, y: string)
    requires '"' !in x && '"' !in y && |x| + 2 < REALM_LIMIT && |y| + 2 < REALM_LIMIT
    ensures RealmMatch(Some(x), Some(y)) <==> x == y
    ensures RealmMatch(Some(Quoted(x)), Some(y)) <==> x == y
    ensures RealmMatch(Some(x), Some(Quoted(y))) <==> x == y
    ensures RealmMatch(Some(Quoted(x)), Some(Quoted(y))) <==> x == y
  {
    hide RemoveQuotes;
    QuotesAreRemoved(x);
    QuotesAreRemoved(y);
  }

  /** An entry is the one asked for exactly when realm, quotes aside, and user name are the same. */
  lemma {:induction false} MatchesIff(c: Credential, x: string, y: string, username: Option<string>)
    requires '"' !in x && '"' !in y && |x| + 2 < REALM_LIMIT && |y| + 2 < REALM_LIMIT
    requires c.realm == Some(x) || c.realm == Some(Quoted(x))
    ensures Matches(c, Some(y), username) <==> x == y && c.username == username
    ensures Matches(c, Some(Quoted(y)), username) <==> x == y && c.username == username
  {
    hide RealmMatch, RemoveQuotes;
    QuotesDoNotMatter(x, y);
  }

  predicate AllFit(list: seq<Credential>) {
    forall i | 0 <= i < |list| :: Fits(list[i].realm)
  }

  lemma MatchesIsEquivalence(a: Credential, b: Credential, c: Credential)
    requires Fits(a.realm) && Fits(b.realm) && Fits(c.realm)
    ensures Matches(a, a.realm, a.username)
    ensures Matches(a, b.realm, b.username) ==> Matches(b, a.realm, a.username)
    ensures Matches(a, b.realm, b.username) && Matches(b, c.realm, c.username) ==> Matches(a, c.realm, c.username)
  {
  }

  /** The first entry with the realm and the user name, or |list|. */
  function FirstMatch(list: seq<Credential>, realm: Option<string>, username: Option<string>): (k: nat)
    requires AllFit(list) && Fits(realm)
    ensures k <= |list|
    ensures k < |list| ==> Matches(list[k], realm, username)
    ensures forall i | 0 <= i < k :: !Matches(list[i], realm, username)
  {
    if list == [] || Matches(list[0], realm, username) then 0 else 1 + FirstMatch(list[1..], realm, username)
  }

  /** The first entry with the realm, or |list|. */
  function FirstRealm(list: seq<Credential>, realm: Option<string>): (k: nat)
    requires AllFit(list) && Fits(realm)
    ensures k <= |list|
    ensures k < |list| ==> RealmMatch(list[k].realm, realm)
    ensures forall i | 0 <= i < k :: !RealmMatch(list[i].realm, realm)
  {
    if list == [] || RealmMatch(list[0].realm, realm) then 0 else 1 + FirstRealm(list[1..], realm)
  }

  lemma FirstMatchIs(list: seq<Credential>, realm: Option<string>, username: Option<string>, k: nat)
    requires AllFit(list) && Fits(realm) && k <= |list| && (k < |list| ==> Matches(list[k], realm, username))
    requires forall i | 0 <= i < k :: !Matches(list[i], realm, username)
    ensures FirstMatch(list, realm, username) == k
  {
    var f := FirstMatch(list, realm, username);
    if f < k { assert false; }
  }

  lemma FirstRealmIs(list: seq<Credential>, realm: Option<string>, k: nat)
    requires AllFit(list) && Fits(realm) && k <= |list| && (k < |list| ==> RealmMatch(list[k].realm, realm))
    requires forall i | 0 <= i < k :: !RealmMatch(list[i].realm, realm)
    ensures FirstRealm(list, realm) == k
  {
    var f := FirstRealm(list, realm);
    if f < k { assert false; }
  }

  /** linphone_core_find_auth_info(): the exact match first, the realm alone otherwise. */
  function Find(list: seq<Credential>, realm: Option<string>, username: Option<string>): Option<nat>
    requires AllFit(list) && Fits(realm)
  {
    var k := FirstMatch(list, realm, username);
    if k < |list| then Some(k)
    else
      var r := FirstRealm(list, realm);
      if r < |list| then Some(r) else None
  }

  /** linphone_core_add_auth_info() on the list: replace the matching entry, or append. */
  function Add(list: seq<Credential>, c: Credential): (r: seq<Credential>)
    requires AllFit(list) && Fits(c.realm)
    ensures AllFit(r)
  {
    var k := FirstMatch(list, c.realm, c.username);
    if k < |list| then list[k := c] else list + [c]
  }

  /** No two entries match each other. */
  predicate Distinct(list: seq<Credential>)
    requires AllFit(list)
  {
    forall i, j | 0 <= i < j < |list| :: !Matches(list[i], list[j].realm, list[j].username)
  }

  lemma AddKeepsDistinct(list: seq<Credential>, c: Credential)
    requires AllFit(list) && Fits(c.realm) && Distinct(list)
    ensures Distinct(Add(list, c))
  {
    var k := FirstMatch(list, c.realm, c.username);
    var r := Add(list, c);
    forall i, j | 0 <= i < j < |r| ensures !Matches(r[i], r[j].realm, r[j].username) {
      if k < |list| {
        if i == k { MatchesIsEquivalence(list[k], c, r[j]); }
        if j == k { MatchesIsEquivalence(r[i], c, list[k]); MatchesIsEquivalence(list[k], c, r[i]); }
      }
    }
  }

  lemma RemoveKeepsDistinct(list: seq<Credential>, k: nat)
    requires AllFit(list) && Distinct(list) && k < |list|
    ensures AllFit(list[..k] + list[k + 1..]) && Distinct(list[..k] + list[k + 1..])
  {
  }

  /** In a duplicate-free list an exact match is unique and is the one found; otherwise the first of the realm. */
  lemma FindIsExact(list: seq<Credential>, realm: Option<string>, username: Option<string>)
    requires AllFit(list) && Fits(realm) && Distinct(list)
    ensures forall i | 0 <= i < |list| && Matches(list[i], realm, username) :: Find(list, realm, username) == Some(i)
    ensures (forall i | 0 <= i < |list| :: !Matches(list[i], realm, username)) ==>
              match Find(list, realm, username)
              case Some(r) =>
                r < |list| && RealmMatch(list[r].realm, realm) && forall i | 0 <= i < r ::
                  !RealmMatch(list[i].realm, realm)
              case None => forall i | 0 <= i < |list| :: !RealmMatch(list[i].realm, realm)
  {
    forall i | 0 <= i < |list| && Matches(list[i], realm, username) ensures Find(list, realm, username) == Some(i) {
      var k := FirstMatch(list, realm, username);
      var ref := Credential(username, None, None, None, realm);
      MatchesIsEquivalence(list[i], ref, list[k]);
      MatchesIsEquivalence(list[k], ref, list[i]);
    }
  }

  /** A challenge with a quoted realm finds the entry stored without quotes, and one without finds it stored with. */
  lemma {:induction false} QuotedRealmIsFound(list: seq<Credential>, i: nat, x: string)
    requires AllFit(list) && Distinct(list) && i < |list| && '"' !in x && |x| + 2 < REALM_LIMIT
    requires list[i].realm == Some(x) || list[i].realm == Some(Quoted(x))
    ensures Find(list, Some(x), list[i].username) == Some(i)
    ensures Find(list, Some(Quoted(x)), list[i].username) == Some(i)
  {
    hide Find, Matches, Quoted, Distinct;
    MatchesIff(list[i], x, x, list[i].username);
    QuotedFits(x);
    FindIsExact(list, Some(x), list[i].username);
    FindIsExact(list, Some(Quoted(x)), list[i].username);
  }

  lemma QuotedFits(x: string)
    requires |x| + 2 < REALM_LIMIT
    ensures Fits(Some(x)) && Fits(Some(Quoted(x)))
  {
  }

  /** Adding such an entry again, quoted or not, replaces it and lists nothing twice. */
  lemma {:induction false} QuotedRealmIsReplaced(list: seq<Credential>, i: nat, x: string, c: Credential)
    requires AllFit(list) && Distinct(list) && i < |list| && '"' !in x && |x| + 2 < REALM_LIMIT
    requires list[i].realm == Some(x) || list[i].realm == Some(Quoted(x))
    requires (c.realm == Some(x) || c.realm == Some(Quoted(x))) && c.username == list[i].username
    ensures Fits(c.realm) && Add(list, c) == list[i := c]
  {
    hide Matches, Quoted, Distinct, Fits;
    QuotedFits(x);
    MatchesIff(list[i], x, x, c.username);
    FindIsExact(list, c.realm, c.username);
    assert Find(list, c.realm, c.username) == Some(i);
    assert Matches(list[i], c.realm, c.username);
  }

  // ---- the numbered sections ----

  function AuthKey(i: nat): string {
    "auth_info_" + IntToString(i)
  }

  lemma AuthKeysDiffer(i: nat, j: nat)
    requires i != j
    ensures AuthKey(i) != AuthKey(j)
  {
    IntToStringInjective(i, j);
    assert AuthKey(i)[10..] == IntToString(i) && AuthKey(j)[10..] == IntToString(j);
  }

  function SetIfAny(secs: Sections, section: string, key: string, value: Option<string>): Sections {
    if value.Some? then SetString(secs, section, key, value) else secs
  }

  /** The five conditional writes of linphone_auth_info_write_config(). */
  function SetFields(secs: Sections, s: string, c: Credential): Sections {
    var s1 := SetIfAny(secs, s, "username", c.username);
    var s2 := SetIfAny(s1, s, "userid", c.userid);
    var s3 := SetIfAny(s2, s, "passwd", c.passwd);
    var s4 := SetIfAny(s3, s, "ha1", c.ha1);
    SetIfAny(s4, s, "realm", c.realm)
  }

  /** linphone_auth_info_write_config(): clear the section, then write the fields that are there. */
  function WriteAuth(secs: Sections, c: Credential, i: nat): Sections {
    SetFields(CleanSection(secs, AuthKey(i)), AuthKey(i), c)
  }

  /** linphone_auth_info_new_from_config_file(). */
  function ReadAuth(secs: Sections, i: nat): Option<Credential> {
    var key := AuthKey(i);
    if !HasSection(secs, key) then None
    else Some(NewCredential(GetString(secs, key, "username"), GetString(secs, key, "userid"),
      GetString(secs, key, "passwd"),
                            GetString(secs, key, "ha1"), GetString(secs, key, "realm")))
  }

  function Field(key: string, value: Option<string>): seq<Item> {
    if value.Some? then [Item(key, value.value)] else []
  }

  /** The items a credential is stored as. */
  function FieldItems(c: Credential): seq<Item> {
    Field("username", c.username) + Field("userid", c.userid) + Field("passwd", c.passwd) + Field("ha1", c.ha1) +
    Field("realm", c.realm)
  }

  /** One section with these items, or none at all when there are none. */
  function Only(s: string, items: seq<Item>): Sections {
    if items == [] then [] else [Section(s, items)]
  }

  lemma SetOnly(s: string, items: seq<Item>, key: string, value: string)
    requires forall it | it in items :: it.key != key
    ensures SetString(Only(s, items), s, key, Some(value)) == Only(s, items + [Item(key, value)])
  {
    if items != [] {
      assert FindItem(items, key) == |items|;
      assert FindSection(Only(s, items), s) == 0;
    } else {
      assert items + [Item(key, value)] == [Item(key, value)];
    }
  }

  lemma SetIfAnyAppends(secs: Sections, s: string, items: seq<Item>, key: string, value: Option<string>)
    requires Named(secs, s) == Only(s, items) && forall it | it in items :: it.key != key
    ensures Named(SetIfAny(secs, s, key, value), s) == Only(s, items + Field(key, value))
  {
    hide Named, SetString, Only;
    if value.Some? {
      NamedAfterSet(secs, s, key, value, s);
      SetOnly(s, items, key, value.value);
    } else {
      assert items + [] == items;
    }
  }

  lemma SetFieldsStores(secs: Sections, s: string, c: Credential)
    requires Named(secs, s) == []
    ensures Named(SetFields(secs, s, c), s) == Only(s, FieldItems(c))
  {
    hide SetIfAny, Named;
    assert |"username"| == 8 && |"userid"| == |"passwd"| == 6 && "userid"[0] != "passwd"[0] && |"ha1"| == 3 &&
      |"realm"| == 5;
    var i1 := Field("username", c.username);
    var i2 := i1 + Field("userid", c.userid);
    var i3 := i2 + Field("passwd", c.passwd);
    var i4 := i3 + Field("ha1", c.ha1);
    var s1 := SetIfAny(secs, s, "username", c.username);
    var s2 := SetIfAny(s1, s, "userid", c.userid);
    var s3 := SetIfAny(s2, s, "passwd", c.passwd);
    var s4 := SetIfAny(s3, s, "ha1", c.ha1);
    assert [] + i1 == i1;
    SetIfAnyAppends(secs, s, [], "username", c.username);
    SetIfAnyAppends(s1, s, i1, "userid", c.userid);
    SetIfAnyAppends(s2, s, i2, "passwd", c.passwd);
    SetIfAnyAppends(s3, s, i3, "ha1", c.ha1);
    SetIfAnyAppends(s4, s, i4, "realm", c.realm);
  }

  lemma SetIfAnyElsewhere(secs: Sections, s: string, key: string, value: Option<string>, name: string)
    requires name != s
    ensures Named(SetIfAny(secs, s, key, value), name) == Named(secs, name)
  {
    NamedAfterSet(secs, s, key, value, name);
  }

  lemma WriteAuthHere(secs: Sections, c: Credential, i: nat)
    requires |Named(secs, AuthKey(i))| <= 1
    ensures Named(WriteAuth(secs, c, i), AuthKey(i)) == Only(AuthKey(i), FieldItems(c))
  {
    hide AuthKey, Named, FieldItems, SetFields, CleanSection;
    NamedAfterClean(secs, AuthKey(i), AuthKey(i));
    SetFieldsStores(CleanSection(secs, AuthKey(i)), AuthKey(i), c);
  }

  lemma WriteAuthElsewhere(secs: Sections, c: Credential, i: nat, name: string)
    requires name != AuthKey(i)
    ensures Named(WriteAuth(secs, c, i), name) == Named(secs, name)
  {
    var s := AuthKey(i);
    var s0 := CleanSection(secs, s);
    var s1 := SetIfAny(s0, s, "username", c.username);
    var s2 := SetIfAny(s1, s, "userid", c.userid);
    var s3 := SetIfAny(s2, s, "passwd", c.passwd);
    var s4 := SetIfAny(s3, s, "ha1", c.ha1);
    NamedAfterClean(secs, s, name);
    SetIfAnyElsewhere(s0, s, "username", c.username, name);
    SetIfAnyElsewhere(s1, s, "userid", c.userid, name);
    SetIfAnyElsewhere(s2, s, "passwd", c.passwd, name);
    SetIfAnyElsewhere(s3, s, "ha1", c.ha1, name);
    SetIfAnyElsewhere(s4, s, "realm", c.realm, name);
  }

  lemma {:induction false} GetItemSplit(a: seq<Item>, b: seq<Item>, key: string)
    ensures GetItem(a + b, key) == if GetItem(a, key).Some? then GetItem(a, key) else GetItem(b, key)
  {
    if a == [] {
      assert a + b == b;
    } else {
      assert (a + b)[1..] == a[1..] + b;
      GetItemSplit(a[1..], b, key);
    }
  }

  /** Every key of the stored items reads back as its field. */
  lemma FieldItemsReadBack(c: Credential, key: string)
    ensures GetItem(FieldItems(c), key) ==
            if key == "username" then c.username else if key == "userid" then c.userid else if key == "passwd"
              then c.passwd
            else if key == "ha1" then c.ha1 else if key == "realm" then c.realm else None
  {
    var f1 := Field("username", c.username);
    var f2 := f1 + Field("userid", c.userid);
    var f3 := f2 + Field("passwd", c.passwd);
    var f4 := f3 + Field("ha1", c.ha1);
    GetItemSplit(f1, Field("userid", c.userid), key);
    GetItemSplit(f2, Field("passwd", c.passwd), key);
    GetItemSplit(f3, Field("ha1", c.ha1), key);
    GetItemSplit(f4, Field("realm", c.realm), key);
    FieldGet("username", c.username, key);
    FieldGet("userid", c.userid, key);
    FieldGet("passwd", c.passwd, key);
    FieldGet("ha1", c.ha1, key);
    FieldGet("realm", c.realm, key);
  }

  lemma FieldGet(key: string, value: Option<string>, k: string)
    ensures GetItem(Field(key, value), k) == if k == key then value else None
  {
  }

  /** The store with the first n numbered sections cleared. */
  function Cleared(secs: Sections, n: nat): Sections {
    if n == 0 then secs else CleanSection(Cleared(secs, n - 1), AuthKey(n - 1))
  }

  function WrittenAuths(secs: Sections, list: seq<Credential>, n: nat): Sections
    requires n <= |list|
  {
    if n == 0 then secs else WriteAuth(WrittenAuths(secs, list, n - 1), list[n - 1], n - 1)
  }

  /** The store after linphone_core_remove_auth_info(): `len` sections cleared, the rest written again. */
  function Reindexed(secs: Sections, len: nat, rest: seq<Credential>): Sections {
    WrittenAuths(Cleared(secs, len), rest, |rest|)
  }

  function Tail(s: Sections): Sections {
    if s == [] then [] else s[1..]
  }

  lemma {:induction false} NamedAfterCleared(secs: Sections, n: nat, i: nat)
    ensures Named(Cleared(secs, n), AuthKey(i)) ==
            if i < n then Tail(Named(secs, AuthKey(i))) else Named(secs, AuthKey(i))
  {
    hide Named, AuthKey;
    if n == 0 {
    } else {
      NamedAfterCleared(secs, n - 1, i);
      NamedAfterClean(Cleared(secs, n - 1), AuthKey(n - 1), AuthKey(i));
      if i != n - 1 { AuthKeysDiffer(i, n - 1); }
    }
  }

  lemma {:induction false} NamedAfterWritten(secs: Sections, list: seq<Credential>, n: nat, i: nat)
    requires n <= |list|
    requires i < n ==> |Named(secs, AuthKey(i))| <= 1
    ensures Named(WrittenAuths(secs, list, n), AuthKey(i)) ==
            if i < n then Only(AuthKey(i), FieldItems(list[i])) else Named(secs, AuthKey(i))
  {
    hide AuthKey, Named, FieldItems, WriteAuth, Only;
    if n == 0 {
    } else {
      var before := WrittenAuths(secs, list, n - 1);
      NamedAfterWritten(secs, list, n - 1, i);
      if i == n - 1 {
        WriteAuthHere(before, list[i], i);
      } else {
        AuthKeysDiffer(i, n - 1);
        WriteAuthElsewhere(before, list[n - 1], n - 1, AuthKey(i));
      }
    }
  }

  lemma ReadAuthOfFields(secs: Sections, i: nat, c: Credential)
    requires Named(secs, AuthKey(i)) == [Section(AuthKey(i), FieldItems(c))] && Normal(c)
    ensures ReadAuth(secs, i) == Some(c)
  {
    NamedFirst(secs, AuthKey(i));
    forall key ensures GetString(secs, AuthKey(i), key) == GetItem(FieldItems(c), key) {
    }
    FieldItemsReadBack(c, "username");
    FieldItemsReadBack(c, "userid");
    FieldItemsReadBack(c, "passwd");
    FieldItemsReadBack(c, "ha1");
    FieldItemsReadBack(c, "realm");
  }

  /**
   * Reindexing: every remaining entry has exactly its own section at its new index (none when it has no
   * field to store), the old indices beyond are gone, and reading restores the entry. The store may even
   * hold a doubled section where an entry is written again, because writing clears once more.
   */
  lemma {:induction false} ReindexingIsExact(secs: Sections, len: nat, rest: seq<Credential>, i: nat)
    requires |rest| <= len && i < len
    requires |Named(secs, AuthKey(i))| <= if i < |rest| then 2 else 1
    requires i < |rest| ==> Normal(rest[i])
    ensures Named(Reindexed(secs, len, rest), AuthKey(i)) == if i < |rest| then Only(AuthKey(i), FieldItems(rest[i]))
            else []
    ensures ReadAuth(Reindexed(secs, len, rest), i) ==
            if i < |rest| && FieldItems(rest[i]) != [] then Some(rest[i]) else None
  {
    var res := Reindexed(secs, len, rest);
    NamedAfterCleared(secs, len, i);
    NamedAfterWritten(Cleared(secs, len), rest, |rest|, i);
    NamedFirst(res, AuthKey(i));
    if i < |rest| && FieldItems(rest[i]) != [] {
      ReadAuthOfFields(res, i, rest[i]);
    }
  }

  /** Sections of any other name are left alone. */
  lemma ReindexingElsewhere(secs: Sections, len: nat, rest: seq<Credential>, name: string)
    requires |rest| <= len && forall i: nat | i < len :: name != AuthKey(i)
    ensures Named(Reindexed(secs, len, rest), name) == Named(secs, name)
  {
    ClearedElsewhere(secs, len, name);
    WrittenElsewhere(Cleared(secs, len), rest, |rest|, name);
  }

  lemma {:induction false} ClearedElsewhere(secs: Sections, n: nat, name: string)
    requires forall i: nat | i < n :: name != AuthKey(i)
    ensures Named(Cleared(secs, n), name) == Named(secs, name)
  {
    hide AuthKey, Named, CleanSection;
    if n == 0 {
    } else {
      ClearedElsewhere(secs, n - 1, name);
      NamedAfterClean(Cleared(secs, n - 1), AuthKey(n - 1), name);
    }
  }

  lemma {:induction false} WrittenElsewhere(secs: Sections, list: seq<Credential>, n: nat, name: string)
    requires n <= |list| && forall i: nat | i < n :: name != AuthKey(i)
    ensures Named(WrittenAuths(secs, list, n), name) == Named(secs, name)
  {
    hide AuthKey, Named, WriteAuth;
    if n == 0 {
    } else {
      WrittenElsewhere(secs, list, n - 1, name);
      WriteAuthElsewhere(WrittenAuths(secs, list, n - 1), list[n - 1], n - 1, name);
    }
  }

  // ---- the objects ----

  class AuthInfo {
    const cred: Credential
    var works: bool
    var firstTime: bool

    constructor (cred: Credential)
      ensures this.cred == cred && !works && firstTime
    {
      this.cred, works, firstTime := cred, false, true;
    }
  }

  function Creds(infos: seq<AuthInfo>): (r: seq<Credential>)
    ensures |r| == |infos| && forall i | 0 <= i < |r| :: r[i] == infos[i].cred
  {
    seq(|infos|, i requires 0 <= i < |infos| => infos[i].cred)
  }

  /** lc->auth_info with the counter that suspends automatic answers. */
  class AuthList {
    const config: Config
    var infos: seq<AuthInfo>
    var automaticAction: nat

    constructor (config: Config)
      ensures this.config == config && infos == [] && automaticAction == 0
    {
      this.config, infos, automaticAction := config, [], 0;
    }

    ghost predicate Valid()
      reads this
    {
      AllFit(Creds(infos)) && Distinct(Creds(infos))
    }

    /** linphone_core_find_auth_info(): two passes over the list. */
    method FindInfo(realm: Option<string>, username: Option<string>) returns (k: Option<nat>)
      requires Valid() && Fits(realm)
      ensures k == Find(Creds(infos), realm, username)
      ensures k.Some? ==> k.value < |infos|
    {
      hide Matches, RealmMatch, Distinct;
      var i := 0;
      while i < |infos|
        invariant 0 <= i <= |infos|
        invariant forall j | 0 <= j < i :: !Matches(Creds(infos)[j], realm, username)
      {
        assert Creds(infos)[i] == infos[i].cred;
        if Matches(infos[i].cred, realm, username) {
          FirstMatchIs(Creds(infos), realm, username, i);
          return Some(i);
        }
        i := i + 1;
      }
      FirstMatchIs(Creds(infos), realm, username, i);
      i := 0;
      while i < |infos|
        invariant 0 <= i <= |infos|
        invariant forall j | 0 <= j < i :: !RealmMatch(Creds(infos)[j].realm, realm)
      {
        assert Creds(infos)[i] == infos[i].cred;
        if RealmMatch(infos[i].cred.realm, realm) {
          FirstRealmIs(Creds(infos), realm, i);
          return Some(i);
        }
        i := i + 1;
      }
      FirstRealmIs(Creds(infos), realm, i);
      return None;
    }

    /** The first entry that matches, or the length of the list. */
    method FindPlace(realm: Option<string>, username: Option<string>) returns (k: nat)
      requires Valid() && Fits(realm)
      ensures k == FirstMatch(Creds(infos), realm, username)
    {
      hide Matches, Distinct;
      k := 0;
      ghost var creds := Creds(infos);
      while k < |infos| && !Matches(infos[k].cred, realm, username)
        invariant 0 <= k <= |infos|
        invariant forall j | 0 <= j < k :: !Matches(creds[j], realm, username)
      {
        k := k + 1;
      }
      FirstMatchIs(creds, realm, username, k);
    }

    /** linphone_core_add_auth_info(). */
    method AddInfo(info: AuthInfo)
      requires Valid() && Fits(info.cred.realm)
      modifies this
      ensures Valid() && Creds(infos) == Add(Creds(old(infos)), info.cred)
      ensures info in infos
      ensures automaticAction == if old(automaticAction) > 0 then old(automaticAction) - 1 else 0
    {
      hide Distinct, FirstMatch;
      if automaticAction > 0 { automaticAction := automaticAction - 1; }
      ghost var creds := Creds(infos);
      AddKeepsDistinct(creds, info.cred);
      var i := FindPlace(info.cred.realm, info.cred.username);
      if i < |infos| {
        infos := infos[i := info];
        assert infos[i] == info && Creds(infos) == creds[i := info.cred];
      } else {
        infos := infos + [info];
        assert infos[|infos| - 1] == info && Creds(infos) == creds + [info.cred];
      }
    }

    /** linphone_core_remove_auth_info(): unlink the record, clear every old section, write the rest again. */
    method RemoveInfo(info: AuthInfo)
      requires Valid()
      modifies this`infos, config
      ensures Valid()
      ensures info !in old(infos) ==> infos == old(infos)
      ensures info in old(infos) ==>
                exists k :: 0 <= k < |old(infos)| && old(infos)[k] == info &&
                  infos == old(infos)[..k] + old(infos)[k + 1..]
      ensures config.sections == Reindexed(old(config.sections), |old(infos)|, Creds(infos))
    {
      var len := |infos|;
      Unlink(info);
      RewriteSections(len);
    }

    /** ms_list_remove(): the first link that points to the record. */
    method Unlink(info: AuthInfo)
      requires Valid()
      modifies this`infos
      ensures Valid()
      ensures info !in old(infos) ==> infos == old(infos)
      ensures info in old(infos) ==>
                exists k :: 0 <= k < |old(infos)| && old(infos)[k] == info &&
                  infos == old(infos)[..k] + old(infos)[k + 1..]
    {
      var k := 0;
      while k < |infos| && infos[k] != info
        invariant 0 <= k <= |infos| && info !in infos[..k]
      {
        k := k + 1;
      }
      if k < |infos| {
        RemoveKeepsDistinct(Creds(infos), k);
        assert Creds(infos[..k] + infos[k + 1..]) == Creds(infos)[..k] + Creds(infos)[k + 1..];
        infos := infos[..k] + infos[k + 1..];
      }
    }

    method RewriteSections(len: nat)
      modifies config
      ensures config.sections == Reindexed(old(config.sections), len, Creds(infos))
    {
      var i := 0;
      while i < len
        invariant 0 <= i <= len && config.sections == Cleared(old(config.sections), i)
      {
        config.CleanSection(AuthKey(i));
        i := i + 1;
      }
      WriteAll();
    }

    method WriteAll()
      modifies config
      ensures config.sections == WrittenAuths(old(config.sections), Creds(infos), |infos|)
    {
      hide WriteAuth;
      ghost var creds := Creds(infos);
      ghost var start := config.sections;
      var i := 0;
      while i < |infos|
        invariant 0 <= i <= |infos| == |creds|
        invariant config.sections == WrittenAuths(start, creds, i)
      {
        WriteInfo(infos[i].cred, i);
        assert creds[i] == infos[i].cred;
        i := i + 1;
      }
    }

    method WriteInfo(c: Credential, i: nat)
      modifies config
      ensures config.sections == WriteAuth(old(config.sections), c, i)
    {
      var key := AuthKey(i);
      config.CleanSection(key);
      if c.username.Some? { config.SetValue(key, "username", c.username); }
      if c.userid.Some? { config.SetValue(key, "userid", c.userid); }
      if c.passwd.Some? { config.SetValue(key, "passwd", c.passwd); }
      if c.ha1.Some? { config.SetValue(key, "ha1", c.ha1); }
      if c.realm.Some? { config.SetValue(key, "realm", c.realm); }
    }

    /**
     * linphone_core_find_or_ask_for_auth_info(): the user is asked when nothing is known, or when what is
     * known was already tried and never worked.
     */
    method FindOrAsk(username: Option<string>, realm: Option<string>) returns (asked: bool)
      requires Valid() && Fits(realm)
      modifies this`automaticAction, set a | a in infos
      ensures Valid() && infos == old(infos)
      ensures var k := Find(Creds(infos), realm, username);
              && (asked <==> k.None? || old(!infos[k.value].works && !infos[k.value].firstTime))
              && (k.Some? ==> !infos[k.value].firstTime && infos[k.value].works == old(infos[k.value].works))
      ensures automaticAction == old(automaticAction) + if asked then 1 else 0
      ensures forall a | a in infos && a.firstTime != old(a.firstTime) ::
                var k := Find(Creds(infos), realm, username); k.Some? && infos[k.value] == a
    {
      var k := FindInfo(realm, username);
      asked := k.None? || (!infos[k.value].works && !infos[k.value].firstTime);
      if asked { automaticAction := automaticAction + 1; }
      if k.Some? { infos[k.value].firstTime := false; }
    }
  }
}
