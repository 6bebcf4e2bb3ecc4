/**
 Translations come in layers: a built-in catalog and a table of overrides, each
 with entries shared by all applications and entries of one application scope, for
 the requested and for the default locale (server/translations.go,
 server/localization/product_catalog.go, server/localization/translator.go,
 server/postgres/localization.go:34-115, server/worker.go:204-223).

 Locales, scopes and keys are only compared, so numbers stand for them.  Locales
 are normalized and scopes valid.
 */
module Translations {
  import opened Wrappers

  type Locale = nat
  type Scope = nat
  type Key = nat

  const SHARED: Scope := 0

  datatype Translation = Translation(locale: Locale, scope: Scope, key: Key, value: string)

  datatype Bundle = Bundle(locale: Locale, translations: seq<Translation>)

  /** The override table; its primary key is locale, scope and key. */
  datatype OverrideKey = OverrideKey(locale: Locale, scope: Scope, key: Key)
  type Overrides = map<OverrideKey, string>

  datatype Error = TranslationNotFound

  // ----- looking a key up in a list

  /** The first entry with the key, which is what a reader of a list finds. */
  function Find(list: seq<Translation>, key: Key): (found: Option<Translation>)
    ensures found.Some? ==> found.value in list && found.value.key == key
    ensures found.None? <==> forall t :: t in list ==> t.key != key
  {
    if list == [] then None else if list[0].key == key then Some(list[0]) else Find(list[1..], key)
  }

  /** The last one, which is what assigning the entries to a map one after the other leaves. */
  function FindLast(list: seq<Translation>, key: Key): (found: Option<Translation>)
    ensures found.Some? ==> found.value in list && found.value.key == key
    ensures found.None? <==> forall t :: t in list ==> t.key != key
  {
    if list == [] then None
    else if list[|list| - 1].key == key then Some(list[|list| - 1])
    else FindLast(list[..|list| - 1], key)
  }

  function Or<T>(preferred: Option<T>, otherwise: Option<T>): Option<T> {
    if preferred.Some? then preferred else otherwise
  }

  predicate UniqueKeys(list: seq<Translation>) {
    forall i, j :: 0 <= i < j < |list| ==> list[i].key != list[j].key
  }

  predicate AscendingKeys(list: seq<Translation>) {
    forall i, j :: 0 <= i < j < |list| ==> list[i].key < list[j].key
  }

  lemma {:induction false} FindAt(list: seq<Translation>, i: nat)
    requires i < |list| && UniqueKeys(list)
    ensures Find(list, list[i].key) == Some(list[i])
  {
    if i > 0 {
      FindAt(list[1..], i - 1);
    }
  }

  lemma {:induction false} FindLastAt(list: seq<Translation>, i: nat)
    requires i < |list| && UniqueKeys(list)
    ensures FindLast(list, list[i].key) == Some(list[i])
  {
    if i < |list| - 1 {
      FindLastAt(list[..|list| - 1], i);
    }
  }

  lemma FirstIsLast(list: seq<Translation>, key: Key)
    requires UniqueKeys(list)
    ensures Find(list, key) == FindLast(list, key)
  {
    if Find(list, key).Some? {
      var i :| 0 <= i < |list| && list[i] == Find(list, key).value;
      FindLastAt(list, i);
    }
  }

  lemma FindLastAppend(list: seq<Translation>, t: Translation, key: Key)
    ensures FindLast(list + [t], key) == if t.key == key then Some(t) else FindLast(list, key)
  {
    assert (list + [t])[..|list|] == list;
  }

  // ----- from a map to a sorted list

  predicate KeyedByKey(byKey: map<Key, Translation>) {
    forall key :: key in byKey ==> byKey[key].key == key
  }

  function Lookup(byKey: map<Key, Translation>, key: Key): Option<Translation> {
    if key in byKey then Some(byKey[key]) else None
  }

  function Insert(t: Translation, sorted: seq<Translation>): (r: seq<Translation>)
    requires AscendingKeys(sorted) && Find(sorted, t.key).None?
    ensures AscendingKeys(r) && forall other :: other in r <==> other == t || other in sorted
  {
    if sorted == [] then [t]
    else if t.key < sorted[0].key then
      var r := [t] + sorted;
      assert forall i :: 0 <= i < |sorted| ==> sorted[0].key <= sorted[i].key;
      r
    else
      var rest := Insert(t, sorted[1..]);
      assert sorted == [sorted[0]] + sorted[1..];
      assert forall i :: 0 <= i < |rest| ==> rest[i] in rest;
      [sorted[0]] + rest
  }

  /** The library sort by key, for lists whose keys differ. */
  function SortByKey(list: seq<Translation>): (r: seq<Translation>)
    requires UniqueKeys(list)
    ensures AscendingKeys(r) && forall t :: t in r <==> t in list
  {
    if list == [] then []
    else
      assert list == [list[0]] + list[1..];
      var rest := SortByKey(list[1..]);
      assert forall t :: t in rest ==> t in list[1..];
      Insert(list[0], rest)
  }

  /** The entries of the map, each once, by ascending key, in whatever order the map is walked. */
  method SortedTranslations(byKey: map<Key, Translation>) returns (r: seq<Translation>)
    requires KeyedByKey(byKey)
    ensures AscendingKeys(r)
    ensures forall key :: Find(r, key) == Lookup(byKey, key)
  {
    var translations: seq<Translation> := [];
    var todo := byKey.Keys;
    while todo != {}
      invariant todo <= byKey.Keys && UniqueKeys(translations)
      invariant forall t :: t in translations <==> t.key in byKey && t.key !in todo && byKey[t.key] == t
    {
      var key :| key in todo;
      translations := translations + [byKey[key]];
      todo := todo - {key};
    }
    r := SortByKey(translations);
    forall key ensures Find(r, key) == Lookup(byKey, key) {
      if key in byKey {
        assert byKey[key] in r;
      }
    }
  }

  // ----- the merge by map and sort

  method MergeByKey(baseline: seq<Translation>, overrides: seq<Translation>) returns (r: seq<Translation>)
    ensures AscendingKeys(r)
    ensures forall key :: Find(r, key) == Or(FindLast(overrides, key), FindLast(baseline, key))
  {
    var byKey: map<Key, Translation> := map[];
    for i := 0 to |baseline|
      invariant KeyedByKey(byKey)
      invariant forall key :: Lookup(byKey, key) == FindLast(baseline[..i], key)
    {
      byKey := byKey[baseline[i].key := baseline[i]];
      assert baseline[..i + 1] == baseline[..i] + [baseline[i]];
      forall key ensures Lookup(byKey, key) == FindLast(baseline[..i + 1], key) {
        FindLastAppend(baseline[..i], baseline[i], key);
      }
    }
    assert baseline[..|baseline|] == baseline;
    for i := 0 to |overrides|
      invariant KeyedByKey(byKey)
      invariant forall key :: Lookup(byKey, key) == Or(FindLast(overrides[..i], key), FindLast(baseline, key))
    {
      byKey := byKey[overrides[i].key := overrides[i]];
      assert overrides[..i + 1] == overrides[..i] + [overrides[i]];
      forall key ensures Lookup(byKey, key) == Or(FindLast(overrides[..i + 1], key), FindLast(baseline, key)) {
        FindLastAppend(overrides[..i], overrides[i], key);
      }
    }
    assert overrides[..|overrides|] == overrides;
    r := SortedTranslations(byKey);
  }

  // ----- the merge that keeps positions

  function LastIndex(list: seq<Translation>, key: Key): (index: Option<nat>)
    ensures index.Some? ==> index.value < |list| && list[index.value].key == key
                            && forall j :: index.value < j < |list| ==> list[j].key != key
    ensures index.None? ==> forall j :: 0 <= j < |list| ==> list[j].key != key
  {
    if list == [] then None
    else if list[|list| - 1].key == key then Some(|list| - 1)
    else LastIndex(list[..|list| - 1], key)
  }

  /** One override goes to the last place of its key, or to the end. */
  function Put(list: seq<Translation>, t: Translation): seq<Translation> {
    var index := LastIndex(list, t.key);
    if index.Some? then list[index.value := t] else list + [t]
  }

  function Indexed(fallback: seq<Translation>, overrides: seq<Translation>): seq<Translation> {
    if overrides == [] then fallback
    else Put(Indexed(fallback, overrides[..|overrides| - 1]), overrides[|overrides| - 1])
  }

  predicate Indexes(indexByKey: map<Key, nat>, list: seq<Translation>, key: Key) {
    LastIndex(list, key) == if key in indexByKey then Some(indexByKey[key]) else None
  }

  lemma LastIndexAppend(list: seq<Translation>, t: Translation, key: Key)
    ensures LastIndex(list + [t], key) == if key == t.key then Some(|list|) else LastIndex(list, key)
  {
    assert (list + [t])[..|list|] == list;
  }

  lemma LastIndexPut(list: seq<Translation>, t: Translation, key: Key)
    ensures LastIndex(Put(list, t), key) ==
              if LastIndex(list, t.key).None? && key == t.key then Some(|list|) else LastIndex(list, key)
  {
    var index := LastIndex(list, t.key);
    if index.None? {
      LastIndexAppend(list, t, key);
    } else {
      var r := list[index.value := t];
      assert forall i :: 0 <= i < |list| ==> r[i].key == list[i].key;
      if LastIndex(list, key).Some? {
        assert r[LastIndex(list, key).value].key == key;
      }
    }
  }

  method MergeByIndex(fallback: seq<Translation>, overrides: seq<Translation>) returns (result: seq<Translation>)
    ensures result == Indexed(fallback, overrides)
  {
    result := fallback;
    var indexByKey: map<Key, nat> := map[];
    for i := 0 to |fallback|
      invariant forall key :: Indexes(indexByKey, fallback[..i], key)
    {
      ghost var before := indexByKey;
      indexByKey := indexByKey[fallback[i].key := i];
      ghost var seen := fallback[..i + 1];
      assert seen == fallback[..i] + [fallback[i]];
      forall key ensures Indexes(indexByKey, seen, key) {
        assert Indexes(before, fallback[..i], key);
        LastIndexAppend(fallback[..i], fallback[i], key);
      }
    }
    assert fallback[..|fallback|] == fallback;
    for i := 0 to |overrides|
      invariant result == Indexed(fallback, overrides[..i])
      invariant forall key :: Indexes(indexByKey, result, key)
    {
      ghost var before, indexBefore := result, indexByKey;
      var override := overrides[i];
      assert Indexes(indexByKey, result, override.key);
      if override.key in indexByKey {
        result := result[indexByKey[override.key] := override];
      } else {
        indexByKey := indexByKey[override.key := |result|];
        result := result + [override];
      }
      assert result == Put(before, override);
      forall key ensures Indexes(indexByKey, result, key) {
        assert Indexes(indexBefore, before, key);
        LastIndexPut(before, override, key);
      }
      assert overrides[..i + 1][..i] == overrides[..i];
    }
    assert overrides[..|overrides|] == overrides;
  }

  lemma PutKeepsPlaces(list: seq<Translation>, t: Translation)
    requires UniqueKeys(list)
    ensures UniqueKeys(Put(list, t)) && |list| <= |Put(list, t)|
    ensures forall i :: 0 <= i < |list| ==> Put(list, t)[i].key == list[i].key
  {
  }

  lemma PutLookup(list: seq<Translation>, t: Translation, key: Key)
    requires UniqueKeys(list)
    ensures Find(Put(list, t), key) == if t.key == key then Some(t) else Find(list, key)
  {
    var result := Put(list, t);
    PutKeepsPlaces(list, t);
    if t.key == key {
      FindAt(result, if LastIndex(list, key).Some? then LastIndex(list, key).value else |list|);
    } else if Find(list, key).Some? {
      var i: nat :| i < |list| && list[i] == Find(list, key).value;
      assert result[i] == list[i];
      FindAt(result, i);
    }
  }

  /**
   On lists without duplicate keys: the fallback's keys keep their places, and the last
   override of a key is found.
   */
  lemma {:induction false} IndexedLookup(fallback: seq<Translation>, overrides: seq<Translation>, key: Key)
    requires UniqueKeys(fallback)
    ensures var result := Indexed(fallback, overrides);
            && UniqueKeys(result)
            && |fallback| <= |result|
            && (forall i :: 0 <= i < |fallback| ==> result[i].key == fallback[i].key)
            && Find(result, key) == Or(FindLast(overrides, key), Find(fallback, key))
  {
    if overrides != [] {
      var before := Indexed(fallback, overrides[..|overrides| - 1]);
      IndexedLookup(fallback, overrides[..|overrides| - 1], key);
      PutKeepsPlaces(before, overrides[|overrides| - 1]);
      PutLookup(before, overrides[|overrides| - 1], key);
    }
  }

  /** What the merge by map gives for a key. */
  function Merged(baseline: seq<Translation>, overrides: seq<Translation>, key: Key): Option<Translation> {
    Or(FindLast(overrides, key), FindLast(baseline, key))
  }

  ghost predicate MergesAgree(fallback: seq<Translation>) {
    forall overrides, key :: Find(Indexed(fallback, overrides), key) == Merged(fallback, overrides, key)
  }

  /**
   The two merges give the same entry for every key and all overrides exactly if
   the list merged into has no duplicate keys.
   */
  lemma MergesAgreeExactly(fallback: seq<Translation>)
    ensures MergesAgree(fallback) <==> UniqueKeys(fallback)
  {
    if UniqueKeys(fallback) {
      forall overrides, key ensures Find(Indexed(fallback, overrides), key) == Merged(fallback, overrides, key) {
        IndexedLookup(fallback, overrides, key);
        FirstIsLast(fallback, key);
      }
    } else {
      var i, j :| 0 <= i < j < |fallback| && fallback[i].key == fallback[j].key;
      DuplicateHidesOverride(fallback, i, j);
    }
  }

  /** With two entries of one key, an override replaces the second one only, and the first one is found. */
  lemma DuplicateHidesOverride(fallback: seq<Translation>, i: nat, j: nat)
    requires i < j < |fallback| && fallback[i].key == fallback[j].key
    ensures !MergesAgree(fallback)
  {
    var key := fallback[i].key;
    var override := Find(fallback, key).value.(value := Find(fallback, key).value.value + "x");
    var overrides := [override];
    assert override != Find(fallback, key).value by {
      assert |override.value| > |Find(fallback, key).value.value|;
    }
    assert overrides[..0] == [] && Indexed(fallback, overrides) == Put(fallback, override);
    var index := LastIndex(fallback, key).value;
    FindBefore(fallback, override, index, i);
    FindLastAppend([], override, key);
    assert [] + [override] == overrides;
    assert Find(Indexed(fallback, overrides), key) != Merged(fallback, overrides, key);
  }

  lemma {:induction false} FindBefore(list: seq<Translation>, t: Translation, index: nat, i: nat)
    requires i < index < |list| && list[i].key == list[index].key == t.key
    ensures Find(list[index := t], t.key) == Find(list, t.key)
  {
    if i > 0 && list[0].key != t.key {
      assert list[index := t][1..] == list[1..][index - 1 := t];
      FindBefore(list[1..], t, index - 1, i - 1);
    }
  }
}
