/**
 * The INI configuration store of Configure.cpp as a value: an ordered list of sections, each an
 * ordered list of key/value items. Duplicates are possible, because the parser keeps them.
 */
module Store {
  import opened Text

  datatype Item = Item(key: string, value: string)

  datatype Section = Section(name: string, items: seq<Item>)

  type Sections = seq<Section>

  /** lp_config_find_section(): the first section of that name, or |secs|. */
  function FindSection(secs: Sections, name: string): (k: nat)
    ensures k <= |secs|
    ensures k < |secs| ==> secs[k].name == name
    ensures forall i | 0 <= i < k :: secs[i].name != name
  {
    if secs == [] || secs[0].name == name then 0 else 1 + FindSection(secs[1..], name)
  }

  /** lp_section_find_item(): the first item with that key, or |items|. */
  function FindItem(items: seq<Item>, key: string): (k: nat)
    ensures k <= |items|
    ensures k < |items| ==> items[k].key == key
    ensures forall i | 0 <= i < k :: items[i].key != key
  {
    if items == [] || items[0].key == key then 0 else 1 + FindItem(items[1..], key)
  }

  predicate HasSection(secs: Sections, name: string) {
    FindSection(secs, name) < |secs|
  }

  function GetItem(items: seq<Item>, key: string): Option<string> {
    var k := FindItem(items, key);
    if k < |items| then Some(items[k].value) else None
  }

  /** lp_config_get_string() with a NULL default. */
  function GetString(secs: Sections, section: string, key: string): Option<string> {
    var k := FindSection(secs, section);
    if k < |secs| then GetItem(secs[k].items, key) else None
  }

  /** lp_config_get_int(). */
  function GetInt(secs: Sections, section: string, key: string, default: int): int {
    match GetString(secs, section, key)
    case Some(s) => Atoi(s)
    case None => default
  }

  function SetItem(items: seq<Item>, key: string, value: Option<string>): seq<Item> {
    var k := FindItem(items, key);
    if k < |items| then
      if value.Some? then items[k := items[k].(value := value.value)] else items[..k] + items[k + 1..]
    else
      if value.Some? then items + [Item(key, value.value)] else items
  }

  /** lp_config_set_string(); None stands for the NULL value that removes the item. */
  function SetString(secs: Sections, section: string, key: string, value: Option<string>): Sections {
    var k := FindSection(secs, section);
    if k < |secs| then secs[k := secs[k].(items := SetItem(secs[k].items, key, value))]
    else if value.Some? then secs + [Section(section, [Item(key, value.value)])]
    else secs
  }

  function SetInt(secs: Sections, section: string, key: string, value: int): Sections {
    SetString(secs, section, key, Some(IntToString(value)))
  }

  /** lp_config_clean_section(): only the first section of that name goes. */
  function CleanSection(secs: Sections, name: string): Sections {
    var k := FindSection(secs, name);
    if k < |secs| then secs[..k] + secs[k + 1..] else secs
  }

  // ---- first-match lookups after an update ----

  lemma FindSectionIs(secs: Sections, name: string, k: nat)
    requires k <= |secs| && (k < |secs| ==> secs[k].name == name)
    requires forall i | 0 <= i < k :: secs[i].name != name
    ensures FindSection(secs, name) == k
  {
    var f := FindSection(secs, name);
    if f < k { assert false; }
  }

  lemma FindItemIs(items: seq<Item>, key: string, k: nat)
    requires k <= |items| && (k < |items| ==> items[k].key == key)
    requires forall i | 0 <= i < k :: items[i].key != key
    ensures FindItem(items, key) == k
  {
    var f := FindItem(items, key);
    if f < k { assert false; }
  }

  lemma GetItemAfterReplace(items: seq<Item>, key: string, value: string, other: string)
    ensures GetItem(SetItem(items, key, Some(value)), other) == if other == key then Some(value)
            else GetItem(items, other)
  {
    hide FindItem;
    var k := FindItem(items, key);
    var f := FindItem(items, other);
    var res := SetItem(items, key, Some(value));
    FindItemIs(res, other, if other == key then k else if f < |items| then f else |res|);
  }

  lemma GetItemAfterRemove(items: seq<Item>, key: string, other: string)
    requires other != key
    ensures GetItem(SetItem(items, key, None), other) == GetItem(items, other)
  {
    hide FindItem;
    var k := FindItem(items, key);
    var f := FindItem(items, other);
    var res := SetItem(items, key, None);
    if k < |items| {
      assert forall i | 0 <= i < |res| :: res[i] == items[if i < k then i else i + 1];
      FindItemIs(res, other, if k < f then f - 1 else f);
    }
  }

  lemma GetItemAfterSet(items: seq<Item>, key: string, value: Option<string>, other: string)
    requires value.Some? || other != key
    ensures GetItem(SetItem(items, key, value), other) == if other == key then value else GetItem(items, other)
  {
    hide GetItem, SetItem;
    if value.Some? { GetItemAfterReplace(items, key, value.value, other); }
    else { GetItemAfterRemove(items, key, other); }
  }

  // ---- the sections of one name ----

  /** The sections bearing a name, in order; lookups see the first, cleaning removes the first. */
  function Named(secs: Sections, name: string): Sections {
    if secs == [] then []
    else (if secs[0].name == name then [secs[0]] else []) + Named(secs[1..], name)
  }

  lemma {:induction false} NamedSplit(a: Sections, b: Sections, name: string)
    ensures Named(a + b, name) == Named(a, name) + Named(b, name)
  {
    if a == [] {
      assert a + b == b;
    } else {
      var t := a + b;
      assert t[0] == a[0] && t[1..] == a[1..] + b;
      NamedSplit(a[1..], b, name);
      var h := if a[0].name == name then [a[0]] else [];
      assert h + (Named(a[1..], name) + Named(b, name)) == (h + Named(a[1..], name)) + Named(b, name);
    }
  }

  lemma {:induction false} NamedFirst(secs: Sections, name: string)
    ensures HasSection(secs, name) <==> Named(secs, name) != []
    ensures HasSection(secs, name) ==> Named(secs, name)[0] == secs[FindSection(secs, name)]
  {
    if secs == [] {
    } else {
      NamedFirst(secs[1..], name);
    }
  }

  /** The sections of a name, cut at position k, before and after that position is replaced. */
  lemma NamedAround(secs: Sections, k: nat, mid: Sections, name: string)
    requires k < |secs|
    ensures Named(secs, name) ==
            Named(secs[..k], name) + (if secs[k].name == name then [secs[k]] else []) + Named(secs[k + 1..], name)
    ensures Named(secs[..k] + mid + secs[k + 1..], name) ==
            Named(secs[..k], name) + Named(mid, name) + Named(secs[k + 1..], name)
  {
    assert secs == secs[..k] + [secs[k]] + secs[k + 1..];
    NamedSplit(secs[..k] + [secs[k]], secs[k + 1..], name);
    NamedSplit(secs[..k], [secs[k]], name);
    NamedSplit(secs[..k] + mid, secs[k + 1..], name);
    NamedSplit(secs[..k], mid, name);
  }

  lemma {:induction false} NamedNone(secs: Sections, name: string)
    requires forall i | 0 <= i < |secs| :: secs[i].name != name
    ensures Named(secs, name) == []
  {
    if secs == [] {
    } else {
      NamedNone(secs[1..], name);
    }
  }

  /** Setting a key touches only the sections of that name, and only the first of them. */
  lemma NamedAfterSet(secs: Sections, s: string, key: string, value: Option<string>, name: string)
    ensures Named(SetString(secs, s, key, value), name) ==
            if name == s then SetString(Named(secs, s), s, key, value) else Named(secs, name)
  {
    var k := FindSection(secs, s);
    if k < |secs| {
      NamedAfterEdit(secs, s, SetItem(secs[k].items, key, value), name);
      NamedFirst(secs, s);
    } else if value.Some? {
      NamedFirst(secs, s);
      NamedSplit(secs, [Section(s, [Item(key, value.value)])], name);
    } else {
      NamedFirst(secs, s);
    }
  }

  /** Setting a key adds a section of a name only when there is none. */
  lemma SetKeepsSingle(secs: Sections, s: string, key: string, value: Option<string>, name: string)
    requires |Named(secs, name)| <= 1
    ensures |Named(SetString(secs, s, key, value), name)| <= 1
  {
    NamedAfterSet(secs, s, key, value, name);
    NamedFirst(secs, s);
    assert Named(secs, s) != [] ==> FindSection(Named(secs, s), s) == 0;
  }

  lemma NamedAfterEdit(secs: Sections, s: string, items: seq<Item>, name: string)
    requires HasSection(secs, s)
    ensures Named(secs, s) != []
    ensures var k := FindSection(secs, s);
            Named(secs[k := secs[k].(items := items)], name) ==
            if name == s then [secs[k].(items := items)] + Named(secs, s)[1..] else Named(secs, name)
  {
    var k := FindSection(secs, s);
    var sec := secs[k].(items := items);
    assert secs[k := sec] == secs[..k] + [sec] + secs[k + 1..];
    NamedAround(secs, k, [sec], name);
    NamedAround(secs, k, [sec], s);
    NamedNone(secs[..k], s);
    calc {
      Named(secs, s)[1..];
      ([] + [secs[k]] + Named(secs[k + 1..], s))[1..];
      Named(secs[k + 1..], s);
    }
  }

  /** Cleaning drops the first section of that name and nothing else. */
  lemma NamedAfterClean(secs: Sections, s: string, name: string)
    ensures Named(CleanSection(secs, s), name) ==
            if name == s && Named(secs, s) != [] then Named(secs, s)[1..] else Named(secs, name)
  {
    var k := FindSection(secs, s);
    NamedFirst(secs, s);
    if k < |secs| {
      assert secs[..k] + [] + secs[k + 1..] == secs[..k] + secs[k + 1..];
      NamedAround(secs, k, [], name);
      NamedNone(secs[..k], s);
    }
  }

  /** What a lookup sees after an update, for every store, duplicates or not. */
  lemma GetAfterSet(secs: Sections, s: string, key: string, value: Option<string>, s': string, key': string)
    requires value.Some? || (s', key') != (s, key)
    ensures GetString(SetString(secs, s, key, value), s', key') ==
            if (s', key') == (s, key) then value else GetString(secs, s', key')
  {
    NamedAfterSet(secs, s, key, value, s');
    NamedFirst(secs, s');
    NamedFirst(SetString(secs, s, key, value), s');
    if s' == s && HasSection(secs, s) {
      GetItemAfterSet(secs[FindSection(secs, s)].items, key, value, key');
    }
  }

  lemma GetIntAfterSetInt(secs: Sections, s: string, key: string, n: int, default: int)
    ensures GetInt(SetInt(secs, s, key, n), s, key, default) == n
  {
    GetAfterSet(secs, s, key, Some(IntToString(n)), s, key);
    AtoiOfIntToString(n);
  }

  // ---- the store as a nested map ----

  type View = map<string, map<string, string>>

  function At<K, V>(m: map<K, V>, k: K): Option<V> {
    if k in m then Some(m[k]) else None
  }

  function ItemsView(items: seq<Item>): (m: map<string, string>)
    ensures forall k :: At(m, k) == GetItem(items, k)
  {
    if items == [] then map[]
    else
      assert forall k :: GetItem(items, k) == if k == items[0].key then Some(items[0].value)
        else GetItem(items[1..], k);
      ItemsView(items[1..])[items[0].key := items[0].value]
  }

  function SectionView(secs: Sections, name: string): Option<map<string, string>> {
    var k := FindSection(secs, name);
    if k < |secs| then Some(ItemsView(secs[k].items)) else None
  }

  /** The nested map of first matches: what every lookup can see. */
  function StoreView(secs: Sections): (m: View)
    ensures forall n :: At(m, n) == SectionView(secs, n)
  {
    if secs == [] then map[]
    else
      assert forall n :: SectionView(secs, n) == if n == secs[0].name then Some(ItemsView(secs[0].items))
        else SectionView(secs[1..], n);
      StoreView(secs[1..])[secs[0].name := ItemsView(secs[0].items)]
  }

  lemma MapsEqual<K, V>(m: map<K, V>, m': map<K, V>)
    requires forall k :: At(m, k) == At(m', k)
    ensures m == m'
  {
    forall k
      ensures k in m <==> k in m'
      ensures k in m ==> m[k] == m'[k]
    {
      assert At(m, k) == At(m', k);
    }
  }

  /** lp_config_get_string() is lookup in the nested map. */
  lemma GetStringIsLookup(secs: Sections, section: string, key: string)
    ensures GetString(secs, section, key) ==
            match At(StoreView(secs), section) case Some(m) => At(m, key) case None => None
  {
    assert At(StoreView(secs), section) == SectionView(secs, section);
  }

  ghost predicate UniqueKeys(items: seq<Item>) {
    forall i, j | 0 <= i < j < |items| :: items[i].key != items[j].key
  }

  /** Section names are unique, and keys are unique within every section. */
  ghost predicate Unique(secs: Sections) {
    && (forall i, j | 0 <= i < j < |secs| :: secs[i].name != secs[j].name)
    && (forall i | 0 <= i < |secs| :: UniqueKeys(secs[i].items))
  }

  lemma SetItemRefines(items: seq<Item>, key: string, value: string)
    ensures ItemsView(SetItem(items, key, Some(value))) == ItemsView(items)[key := value]
  {
    var res := SetItem(items, key, Some(value));
    var m := ItemsView(items)[key := value];
    forall o ensures At(ItemsView(res), o) == At(m, o) {
      GetItemAfterSet(items, key, Some(value), o);
      assert At(ItemsView(items), o) == GetItem(items, o);
    }
    MapsEqual(ItemsView(res), m);
  }

  lemma {:induction false} SectionViewAfterSet(secs: Sections, s: string, key: string, value: Option<string>, n: string)
    ensures SectionView(SetString(secs, s, key, value), n) ==
            if n != s || (value.None? && !HasSection(secs, s)) then SectionView(secs, n)
            else Some(ItemsView(SetItem(if HasSection(secs, s) then secs[FindSection(secs, s)].items else [], key,
              value)))
  {
    NamedAfterSet(secs, s, key, value, n);
    NamedFirst(secs, n);
    NamedFirst(SetString(secs, s, key, value), n);
    if n == s && value.Some? && !HasSection(secs, s) {
      assert SetItem([], key, value) == [Item(key, value.value)];
    }
  }

  /** Setting a value updates the nested map, on every store. */
  lemma SetRefinesUpdate(secs: Sections, s: string, key: string, value: string)
    ensures StoreView(SetString(secs, s, key, Some(value))) ==
            StoreView(secs)[s := At(StoreView(secs), s).GetOr(map[])[key := value]]
  {
    var res := SetString(secs, s, key, Some(value));
    var v := StoreView(secs);
    var m := v[s := At(v, s).GetOr(map[])[key := value]];
    forall n ensures At(StoreView(res), n) == At(m, n) {
      assert At(StoreView(res), n) == SectionView(res, n) && At(v, n) == SectionView(secs, n);
      SectionViewAfterSet(secs, s, key, Some(value), n);
      SetItemRefines(if HasSection(secs, s) then secs[FindSection(secs, s)].items else [], key, value);
    }
    MapsEqual(StoreView(res), m);
  }

  /** The key occurs at most once among the items. */
  ghost predicate AtMostOnce(items: seq<Item>, key: string) {
    forall i, j | 0 <= i < j < |items| && items[i].key == key :: items[j].key != key
  }

  lemma RemoveItemIsGone(items: seq<Item>, key: string)
    ensures GetItem(SetItem(items, key, None), key).None? <==> AtMostOnce(items, key)
  {
    var k := FindItem(items, key);
    var res := SetItem(items, key, None);
    var f := FindItem(res, key);
    if k < |items| {
      assert forall i | 0 <= i < |res| :: res[i] == items[if i < k then i else i + 1];
      if f < |res| {
        assert f >= k && items[k].key == key && items[f + 1].key == key;
      } else {
        forall i, j | 0 <= i < j < |items| && items[i].key == key ensures items[j].key != key {
          assert k <= i < j && res[j - 1] == items[j];
        }
      }
    }
  }

  lemma RemoveItemRefines(items: seq<Item>, key: string)
    ensures ItemsView(SetItem(items, key, None)) == ItemsView(items) - {key} <==> AtMostOnce(items, key)
  {
    var v := ItemsView(SetItem(items, key, None));
    var m := ItemsView(items) - {key};
    RemoveItemIsGone(items, key);
    assert At(v, key) == GetItem(SetItem(items, key, None), key);
    if AtMostOnce(items, key) {
      forall o ensures At(v, o) == At(m, o) {
        if o != key {
          GetItemAfterSet(items, key, None, o);
          assert At(ItemsView(items), o) == GetItem(items, o);
        }
      }
      MapsEqual(v, m);
    }
  }

  /** Setting NULL removes exactly that key, if and only if the section lists the key at most once. */
  lemma {:induction false} RemoveRefinesRemoval(secs: Sections, s: string, key: string)
    requires HasSection(secs, s)
    ensures s in StoreView(secs)
    ensures StoreView(SetString(secs, s, key, None)) == StoreView(secs)[s := StoreView(secs)[s] - {key}] <==>
            AtMostOnce(secs[FindSection(secs, s)].items, key)
  {
    var items := secs[FindSection(secs, s)].items;
    var res := SetString(secs, s, key, None);
    var v := StoreView(secs);
    assert At(v, s) == SectionView(secs, s);
    var m := v[s := v[s] - {key}];
    RemoveItemRefines(items, key);
    SectionViewAfterSet(secs, s, key, None, s);
    assert At(StoreView(res), s) == SectionView(res, s);
    if AtMostOnce(items, key) {
      forall n ensures At(StoreView(res), n) == At(m, n) {
        assert At(StoreView(res), n) == SectionView(res, n) && At(v, n) == SectionView(secs, n);
        SectionViewAfterSet(secs, s, key, None, n);
      }
      MapsEqual(StoreView(res), m);
    }
  }

  lemma SectionViewAfterClean(secs: Sections, name: string, n: string)
    requires n != name
    ensures SectionView(CleanSection(secs, name), n) == SectionView(secs, n)
  {
    NamedAfterClean(secs, name, n);
    NamedFirst(secs, n);
    NamedFirst(CleanSection(secs, name), n);
  }

  /** Cleaning removes the section from the map, if and only if the name occurs at most once. */
  lemma CleanRefinesRemoval(secs: Sections, name: string)
    ensures StoreView(CleanSection(secs, name)) == StoreView(secs) - {name} <==> |Named(secs, name)| <= 1
  {
    var res := CleanSection(secs, name);
    var v := StoreView(secs);
    var m := v - {name};
    NamedAfterClean(secs, name, name);
    NamedFirst(secs, name);
    NamedFirst(res, name);
    assert At(StoreView(res), name) == SectionView(res, name);
    if |Named(secs, name)| <= 1 {
      forall n ensures At(StoreView(res), n) == At(m, n) {
        assert At(StoreView(res), n) == SectionView(res, n) && At(v, n) == SectionView(secs, n);
        if n != name { SectionViewAfterClean(secs, name, n); }
      }
      MapsEqual(StoreView(res), m);
    }
  }

  /** Every update of a duplicate-free store leaves it duplicate-free. */
  lemma {:induction false} UpdatesKeepUnique(secs: Sections, s: string, key: string, value: Option<string>)
    requires Unique(secs)
    ensures Unique(SetString(secs, s, key, value))
    ensures Unique(CleanSection(secs, s))
  {
    hide Unique, SetItem, UniqueKeys;
    var k := FindSection(secs, s);
    UniqueWithout(secs, s);
    if k < |secs| {
      UniqueItems(secs, k);
      SetItemKeepsUnique(secs[k].items, key, value);
      UniqueWithItems(secs, k, SetItem(secs[k].items, key, value));
    } else if value.Some? {
      OneItemIsUnique(Item(key, value.value));
      UniqueWithSection(secs, Section(s, [Item(key, value.value)]));
    }
  }

  lemma UniqueItems(secs: Sections, k: nat)
    requires Unique(secs) && k < |secs|
    ensures UniqueKeys(secs[k].items)
  {
  }

  lemma UniqueWithItems(secs: Sections, k: nat, items: seq<Item>)
    requires Unique(secs) && k < |secs| && UniqueKeys(items)
    ensures Unique(secs[k := secs[k].(items := items)])
  {
    hide UniqueKeys;
  }

  lemma UniqueWithSection(secs: Sections, sec: Section)
    requires Unique(secs) && UniqueKeys(sec.items) && forall i | 0 <= i < |secs| :: secs[i].name != sec.name
    ensures Unique(secs + [sec])
  {
    hide UniqueKeys;
  }

  lemma UniqueWithout(secs: Sections, s: string)
    requires Unique(secs)
    ensures Unique(CleanSection(secs, s))
  {
    hide UniqueKeys;
  }

  lemma SetItemKeepsUnique(items: seq<Item>, key: string, value: Option<string>)
    requires UniqueKeys(items)
    ensures UniqueKeys(SetItem(items, key, value))
  {
    hide FindItem;
  }

  lemma OneItemIsUnique(item: Item)
    ensures UniqueKeys([item])
  {
  }
}
