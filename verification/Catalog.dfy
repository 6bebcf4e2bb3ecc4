/**
 The layers of translations put together: the built-in catalog, the overrides read
 from the table, the bundle an application loads, and the lookup of one message.
 All of them resolve a key by the same layers.
 (server/localization/product_catalog.go:100-242, server/localization/translator.go:93-138,
 server/postgres/localization.go:34-115, server/translations.go:28-89,
 server/worker.go:204-223.)
 */
module Catalog {
  import opened Wrappers
  import opened Translations

  // ----- one layer each

  function InScope(entries: seq<Translation>, locale: Locale, scope: Scope): (r: seq<Translation>)
    ensures forall t :: t in r <==> t in entries && t.locale == locale && t.scope == scope
  {
    if entries == [] then []
    else
      var last := entries[|entries| - 1];
      var rest := InScope(entries[..|entries| - 1], locale, scope);
      if last.locale == locale && last.scope == scope then rest + [last] else rest
  }

  function CatalogLayer(entries: seq<Translation>, locale: Locale, scope: Scope, key: Key): Option<Translation> {
    FindLast(InScope(entries, locale, scope), key)
  }

  function OverrideLayer(overrides: Overrides, locale: Locale, scope: Scope, key: Key): Option<Translation> {
    var id := OverrideKey(locale, scope, key);
    if id in overrides then Some(Translation(locale, scope, key, overrides[id])) else None
  }

  // ----- the layers of one locale, and of a request

  /** Overrides before the catalog, and within each the scope before the shared entries. */
  function Layered(entries: seq<Translation>, overrides: Overrides, locale: Locale, scope: Scope,
          key: Key): Option<Translation> {
    Or(OverrideLayer(overrides, locale, scope, key),
       Or(OverrideLayer(overrides, locale, SHARED, key),
          Or(CatalogLayer(entries, locale, scope, key), CatalogLayer(entries, locale, SHARED, key))))
  }

  lemma InScopeStep(entries: seq<Translation>, i: nat, locale: Locale, scope: Scope, key: Key)
    requires i < |entries|
    ensures CatalogLayer(entries[..i + 1], locale, scope, key) ==
              if entries[i].locale == locale && entries[i].scope == scope && entries[i].key == key then Some(entries[i])
              else CatalogLayer(entries[..i], locale, scope, key)
  {
    assert entries[..i + 1][..i] == entries[..i];
    FindLastAppend(InScope(entries[..i], locale, scope), entries[i], key);
  }

  /** The two passes over the built-in entries. */
  method ProductTranslations(entries: seq<Translation>, locale: Locale, scope: Scope) returns (r: seq<Translation>)
    ensures AscendingKeys(r)
    ensures forall key :: Find(r, key) ==
              Or(CatalogLayer(entries, locale, scope, key), CatalogLayer(entries, locale, SHARED, key))
  {
    var byKey: map<Key, Translation> := map[];
    for i := 0 to |entries|
      invariant KeyedByKey(byKey)
      invariant forall key :: Lookup(byKey, key) == CatalogLayer(entries[..i], locale, SHARED, key)
    {
      ghost var before := byKey;
      if entries[i].locale == locale && entries[i].scope == SHARED {
        byKey := byKey[entries[i].key := entries[i]];
      }
      ghost var seen := entries[..i + 1];
      forall key ensures Lookup(byKey, key) == CatalogLayer(seen, locale, SHARED, key) {
        assert Lookup(before, key) == CatalogLayer(entries[..i], locale, SHARED, key);
        InScopeStep(entries, i, locale, SHARED, key);
      }
    }
    assert entries[..|entries|] == entries;
    if scope != SHARED {
      for i := 0 to |entries|
        invariant KeyedByKey(byKey)
        invariant forall key :: Lookup(byKey, key) ==
                    Or(CatalogLayer(entries[..i], locale, scope, key), CatalogLayer(entries, locale, SHARED, key))
      {
        ghost var before := byKey;
        if entries[i].locale == locale && entries[i].scope == scope {
          byKey := byKey[entries[i].key := entries[i]];
        }
        ghost var seen := entries[..i + 1];
        forall key
          ensures Lookup(byKey, key) ==
                    Or(CatalogLayer(seen, locale, scope, key), CatalogLayer(entries, locale, SHARED, key))
        {
          assert Lookup(before, key) ==
              Or(CatalogLayer(entries[..i], locale, scope, key), CatalogLayer(entries, locale, SHARED, key));
          InScopeStep(entries, i, locale, scope, key);
        }
      }
    }
    r := SortedTranslations(byKey);
  }

  // ----- overrides

  /** The rows of the locale, shared or in the scope, ordered by key with the shared row first. */
  ghost predicate IsSelection(overrides: Overrides, locale: Locale, scope: Scope, rows: seq<Translation>) {
    && (forall t :: t in rows <==>
          OverrideKey(t.locale, t.scope, t.key) in overrides
              && overrides[OverrideKey(t.locale, t.scope, t.key)] == t.value
          && t.locale == locale && (t.scope == scope || t.scope == SHARED))
    && (forall i, j :: 0 <= i < j < |rows| && rows[i].key == rows[j].key ==>
        rows[i].scope == SHARED && rows[j].scope != SHARED)
  }

  lemma SelectionLast(overrides: Overrides, locale: Locale, scope: Scope, rows: seq<Translation>, key: Key)
    requires IsSelection(overrides, locale, scope, rows)
    ensures FindLast(rows, key) ==
              Or(OverrideLayer(overrides, locale, scope, key), OverrideLayer(overrides, locale, SHARED, key))
  {
    var scoped, shared := OverrideLayer(overrides, locale, scope, key), OverrideLayer(overrides, locale, SHARED, key);
    if scoped.Some? {
      assert scoped.value in rows;
      var j :| 0 <= j < |rows| && rows[j] == scoped.value;
      assert scope != SHARED ==> forall i :: j < i < |rows| ==> rows[i].key != key;
      assert scope == SHARED ==> forall i :: 0 <= i < |rows| && i != j ==> rows[i].key != key;
      LastAt(rows, j);
    } else if shared.Some? {
      assert shared.value in rows;
      var j :| 0 <= j < |rows| && rows[j] == shared.value;
      forall i | j < i < |rows| ensures rows[i].key != key {
        assert rows[i] in rows;
      }
      LastAt(rows, j);
    } else {
      forall t | t in rows ensures t.key != key {
      }
    }
  }

  lemma {:induction false} LastAt(list: seq<Translation>, j: nat)
    requires j < |list| && forall i :: j < i < |list| ==> list[i].key != list[j].key
    ensures FindLast(list, list[j].key) == Some(list[j])
  {
    if j < |list| - 1 {
      LastAt(list[..|list| - 1], j);
    }
  }

  /** The store's merge of the rows that the query returned. */
  method StoredTranslations(rows: seq<Translation>, ghost overrides: Overrides, ghost locale: Locale,
          ghost scope: Scope)
    returns (r: seq<Translation>)
    requires IsSelection(overrides, locale, scope, rows)
    ensures AscendingKeys(r)
    ensures forall key :: Find(r, key) ==
              Or(OverrideLayer(overrides, locale, scope, key), OverrideLayer(overrides, locale, SHARED, key))
  {
    var merged: map<Key, Translation> := map[];
    for i := 0 to |rows|
      invariant KeyedByKey(merged)
      invariant forall key :: Lookup(merged, key) == FindLast(rows[..i], key)
    {
      merged := merged[rows[i].key := rows[i]];
      ghost var seen := rows[..i + 1];
      assert seen == rows[..i] + [rows[i]];
      forall key ensures Lookup(merged, key) == FindLast(seen, key) {
        FindLastAppend(rows[..i], rows[i], key);
      }
    }
    assert rows[..|rows|] == rows;
    r := SortedTranslations(merged);
    forall key
      ensures Find(r, key) == Or(OverrideLayer(overrides, locale, scope, key),
                                OverrideLayer(overrides, locale, SHARED, key))
    {
      SelectionLast(overrides, locale, scope, rows, key);
    }
  }

  lemma AscendingIsUnique(list: seq<Translation>)
    requires AscendingKeys(list)
    ensures UniqueKeys(list)
  {
  }

  predicate HasEntryIn(entries: seq<Translation>, locale: Locale, scope: Scope, key: Key) {
    exists t :: t in entries && t.locale == locale && t.scope == scope && t.key == key
  }

  predicate IsEntryIn(entries: seq<Translation>, locale: Locale, scope: Scope, key: Key, found: Option<Translation>) {
    && found.Some? && found.value in entries
    && found.value.locale == locale && found.value.scope == scope && found.value.key == key
  }

  /**
   What is found for a key of one locale, read off the tables: the override of the
   scope, else the shared override, else an entry of the scope, else a shared entry.
   */
  predicate Decides(entries: seq<Translation>, overrides: Overrides, locale: Locale, scope: Scope, key: Key,
                    found: Option<Translation>)
  {
    if OverrideKey(locale, scope, key) in overrides then
      found == Some(Translation(locale, scope, key, overrides[OverrideKey(locale, scope, key)]))
    else if OverrideKey(locale, SHARED, key) in overrides then
      found == Some(Translation(locale, SHARED, key, overrides[OverrideKey(locale, SHARED, key)]))
    else if HasEntryIn(entries, locale, scope, key) then IsEntryIn(entries, locale, scope, key, found)
    else if HasEntryIn(entries, locale, SHARED, key) then IsEntryIn(entries, locale, SHARED, key, found)
    else found == None
  }

  lemma EntryOfLayer(entries: seq<Translation>, locale: Locale, scope: Scope, key: Key)
    ensures if HasEntryIn(entries, locale, scope, key)
            then IsEntryIn(entries, locale, scope, key, CatalogLayer(entries, locale, scope, key))
            else CatalogLayer(entries, locale, scope, key).None?
  {
    var layer := InScope(entries, locale, scope);
    assert forall t :: t in layer <==> t in entries && t.locale == locale && t.scope == scope;
  }

  lemma LayeredDecides(entries: seq<Translation>, overrides: Overrides, locale: Locale, scope: Scope, key: Key)
    ensures Decides(entries, overrides, locale, scope, key, Layered(entries, overrides, locale, scope, key))
  {
    EntryOfLayer(entries, locale, scope, key);
    EntryOfLayer(entries, locale, SHARED, key);
  }

  /** Of two locales the requested one decides, and the default one only where that has nothing. */
  ghost predicate DecidesInOrder(entries: seq<Translation>, overrides: Overrides, locale: Locale, later: Overrides,
                                 defaultLocale: Locale, scope: Scope, key: Key, found: Option<Translation>)
  {
    if found.Some? && Decides(entries, overrides, locale, scope, key, found) then true
    else
      && Decides(entries, overrides, locale, scope, key, None)
      && (if locale == defaultLocale then found == None else Decides(entries, later, defaultLocale, scope, key, found))
  }

  lemma ResolvedDecides(entries: seq<Translation>, overrides: Overrides, locale: Locale, later: Overrides,
          defaultLocale: Locale, scope: Scope, key: Key)
    ensures DecidesInOrder(entries, overrides, locale, later, defaultLocale, scope, key,
                           Resolved(entries, overrides, locale, later, defaultLocale, scope, key))
  {
    LayeredDecides(entries, overrides, locale, scope, key);
    LayeredDecides(entries, later, defaultLocale, scope, key);
  }

  method CatalogTranslations(entries: seq<Translation>, ghost overrides: Overrides, rows: seq<Translation>,
          locale: Locale, scope: Scope)
    returns (r: seq<Translation>)
    requires IsSelection(overrides, locale, scope, rows)
    ensures AscendingKeys(r)
    ensures forall key :: Find(r, key) == Layered(entries, overrides, locale, scope, key)
    ensures forall key :: Decides(entries, overrides, locale, scope, key, Find(r, key))
  {
    var baseline := ProductTranslations(entries, locale, scope);
    var stored := StoredTranslations(rows, overrides, locale, scope);
    r := MergeByKey(baseline, stored);
    forall key
      ensures Find(r, key) == Layered(entries, overrides, locale, scope, key)
      ensures Decides(entries, overrides, locale, scope, key, Find(r, key))
    {
      FirstIsLast(baseline, key);
      FirstIsLast(stored, key);
      LayeredDecides(entries, overrides, locale, scope, key);
    }
  }

  // ----- bundles

  /**
   The resolution of a key in a request: the layers of the locale and, where they
   have nothing, those of the default locale.
   */
  function Resolved(entries: seq<Translation>, overrides: Overrides, locale: Locale, later: Overrides,
          defaultLocale: Locale, scope: Scope, key: Key): Option<Translation> {
    if locale == defaultLocale then Layered(entries, overrides, locale, scope, key)
    else Or(Layered(entries, overrides, locale, scope, key), Layered(entries, later, defaultLocale, scope, key))
  }

  /**
   The bundle of a locale and scope: each key once, resolved through the layers.
   The overrides are read once for each locale and may have changed in between.
   */
  method TranslationBundle(entries: seq<Translation>, locale: Locale, defaultLocale: Locale, scope: Scope,
                           ghost overrides: Overrides, rows: seq<Translation>,
                           ghost later: Overrides, defaultRows: seq<Translation>) returns (bundle: Bundle)
    requires IsSelection(overrides, locale, scope, rows) && IsSelection(later, defaultLocale, scope, defaultRows)
    ensures UniqueKeys(bundle.translations)
    ensures forall key :: Find(bundle.translations, key) ==
              Resolved(entries, overrides, locale, later, defaultLocale, scope, key)
    ensures forall key :: DecidesInOrder(entries, overrides, locale, later, defaultLocale, scope, key,
                                         Find(bundle.translations, key))
    ensures bundle.locale ==
              if locale == defaultLocale || exists key :: Layered(entries, overrides, locale, scope, key).Some?
              then locale else defaultLocale
  {
    forall key
      ensures DecidesInOrder(entries, overrides, locale, later, defaultLocale, scope, key,
                             Resolved(entries, overrides, locale, later, defaultLocale, scope, key))
    {
      ResolvedDecides(entries, overrides, locale, later, defaultLocale, scope, key);
    }
    var translations := CatalogTranslations(entries, overrides, rows, locale, scope);
    AscendingIsUnique(translations);
    if locale == defaultLocale {
      return Bundle(locale, translations);
    }
    var fallback := CatalogTranslations(entries, later, defaultRows, defaultLocale, scope);
    AscendingIsUnique(fallback);
    if |translations| == 0 {
      assert forall key :: Find(translations, key).None?;
      return Bundle(defaultLocale, fallback);
    }
    assert Layered(entries, overrides, locale, scope, translations[0].key).Some?;
    var merged := MergeByIndex(fallback, translations);
    IndexedLookup(fallback, translations, 0);
    forall key
      ensures Find(merged, key) ==
                Or(Layered(entries, overrides, locale, scope, key), Layered(entries, later, defaultLocale, scope, key))
    {
      IndexedLookup(fallback, translations, key);
      FirstIsLast(translations, key);
    }
    return Bundle(locale, merged);
  }

  // ----- one message

  predicate UniqueEntries(entries: seq<Translation>) {
    forall i, j :: 0 <= i < j < |entries| ==>
      !(entries[i].locale == entries[j].locale && entries[i].scope == entries[j].scope
          && entries[i].key == entries[j].key)
  }

  lemma {:induction false} UniqueLayer(entries: seq<Translation>, i: nat)
    requires UniqueEntries(entries) && i < |entries|
    ensures CatalogLayer(entries, entries[i].locale, entries[i].scope, entries[i].key) == Some(entries[i])
  {
    var n := |entries| - 1;
    InScopeStep(entries, n, entries[i].locale, entries[i].scope, entries[i].key);
    assert entries[..n + 1] == entries;
    var rest := entries[..n];
    if i < n {
      assert rest[i] == entries[i];
      UniqueLayer(rest, i);
    }
  }

  function ValueOf(found: Option<Translation>): Option<string> {
    match found case Some(t) => Some(t.value) case None => None
  }

  /** What the single pass over the built-in entries answers: an empty shared text counts as none. */
  function ProductValue(entries: seq<Translation>, locale: Locale, scope: Scope, key: Key): Option<string> {
    var scoped, shared := CatalogLayer(entries, locale, scope, key), CatalogLayer(entries, locale, SHARED, key);
    if scoped.Some? then Some(scoped.value.value)
    else if shared.Some? && shared.value.value != "" then Some(shared.value.value)
    else None
  }

  method ProductMessage(entries: seq<Translation>, locale: Locale, scope: Scope, key: Key) returns (r: Option<string>)
    requires UniqueEntries(entries)
    ensures r == ProductValue(entries, locale, scope, key)
  {
    var shared := "";
    for i := 0 to |entries|
      invariant CatalogLayer(entries[..i], locale, scope, key).None?
      invariant var found := CatalogLayer(entries[..i], locale, SHARED, key);
                shared == if found.Some? then found.value.value else ""
    {
      InScopeStep(entries, i, locale, scope, key);
      InScopeStep(entries, i, locale, SHARED, key);
      if entries[i].locale == locale && entries[i].key == key {
        if entries[i].scope == scope {
          UniqueLayer(entries, i);
          return Some(entries[i].value);
        } else if entries[i].scope == SHARED {
          shared := entries[i].value;
        }
      }
    }
    assert entries[..|entries|] == entries;
    if shared != "" {
      return Some(shared);
    }
    return None;
  }

  /** What the two passes answer. */
  function BundledValue(entries: seq<Translation>, locale: Locale, scope: Scope, key: Key): Option<string> {
    ValueOf(Or(CatalogLayer(entries, locale, scope, key), CatalogLayer(entries, locale, SHARED, key)))
  }

  /** An entry of the scope, or a shared one with some text. */
  predicate SaysSomething(entries: seq<Translation>, locale: Locale, scope: Scope, key: Key) {
    exists t :: t in entries && t.locale == locale && t.key == key
                && (t.scope == scope || (t.scope == SHARED && t.value != ""))
  }

  predicate HasEntry(entries: seq<Translation>, locale: Locale, scope: Scope, key: Key) {
    exists t :: t in entries && t.locale == locale && t.key == key && (t.scope == scope || t.scope == SHARED)
  }

  lemma LayerHasEntry(entries: seq<Translation>, locale: Locale, scope: Scope, key: Key)
    ensures CatalogLayer(entries, locale, scope, key).None? <==>
            forall t :: t in entries && t.locale == locale && t.scope == scope ==> t.key != key
  {
    var layer := InScope(entries, locale, scope);
    assert forall t :: t in layer <==> t in entries && t.locale == locale && t.scope == scope;
  }

  /**
   With unique entries, the single pass and the two passes differ exactly when the
   only entry for the key is a shared one with an empty text.
   */
  lemma ProductMessageAgrees(entries: seq<Translation>, locale: Locale, scope: Scope, key: Key)
    requires UniqueEntries(entries)
    ensures ProductValue(entries, locale, scope, key) == BundledValue(entries, locale, scope, key) <==>
            (HasEntry(entries, locale, scope, key) ==> SaysSomething(entries, locale, scope, key))
  {
    var scoped, shared := CatalogLayer(entries, locale, scope, key), CatalogLayer(entries, locale, SHARED, key);
    LayerHasEntry(entries, locale, scope, key);
    LayerHasEntry(entries, locale, SHARED, key);
    forall t | t in entries && t.locale == locale && t.key == key && t.scope == SHARED ensures shared == Some(t) {
      var i :| 0 <= i < |entries| && entries[i] == t;
      UniqueLayer(entries, i);
    }
  }

  /** In the shared scope, the only one the program asks for, both give the one entry there is, whatever its text. */
  lemma SharedTextsAgree(entries: seq<Translation>, locale: Locale, key: Key, text: string)
    requires UniqueEntries(entries)
    ensures ProductValue(entries, locale, SHARED, key) == BundledValue(entries, locale, SHARED, key)
    ensures BundledValue(entries, locale, SHARED, key) == Some(text) <==>
              Translation(locale, SHARED, key, text) in entries
  {
    var t := Translation(locale, SHARED, key, text);
    if t in entries {
      var i :| 0 <= i < |entries| && entries[i] == t;
      UniqueLayer(entries, i);
    }
  }

  /** In another scope a shared entry with an empty text is found by the two passes and not by the single one. */
  lemma EmptySharedText(locale: Locale, scope: Scope, key: Key)
    requires scope != SHARED
    ensures var entries := [Translation(locale, SHARED, key, "")];
            && UniqueEntries(entries)
            && ProductValue(entries, locale, scope, key) == None
            && BundledValue(entries, locale, scope, key) == Some("")
  {
    var entries := [Translation(locale, SHARED, key, "")];
    UniqueLayer(entries, 0);
    LayerHasEntry(entries, locale, scope, key);
  }

  method TranslationMessage(translations: seq<Translation>, key: Key) returns (r: Option<string>)
    ensures r == ValueOf(Find(translations, key))
  {
    for i := 0 to |translations|
      invariant Find(translations, key) == Find(translations[i..], key)
    {
      if translations[i].key == key {
        return Some(translations[i].value);
      }
      assert translations[i..][1..] == translations[i + 1..];
    }
    return None;
  }

  /** One message of one locale: the shared overrides, then the shared entries. */
  method Message(entries: seq<Translation>, ghost overrides: Overrides, rows: seq<Translation>, locale: Locale,
          key: Key)
    returns (r: Result<string, Error>)
    requires UniqueEntries(entries) && IsSelection(overrides, locale, SHARED, rows)
    ensures r == match Layered(entries, overrides, locale, SHARED, key)
                 case Some(t) => Ok(t.value)
                 case None => Err(TranslationNotFound)
    ensures r.Ok? ==> exists t: Translation | t.value == r.value ::
              Decides(entries, overrides, locale, SHARED, key, Some(t))
    ensures r.Err? ==> Decides(entries, overrides, locale, SHARED, key, None)
  {
    LayeredDecides(entries, overrides, locale, SHARED, key);
    var stored := StoredTranslations(rows, overrides, locale, SHARED);
    var message := TranslationMessage(stored, key);
    if message.Some? {
      return Ok(message.value);
    }
    message := ProductMessage(entries, locale, SHARED, key);
    if message.Some? {
      return Ok(message.value);
    }
    return Err(TranslationNotFound);
  }

  /**
   A message with the fallback to the default locale: found exactly if the
   shared-scope bundle of the locale contains the key, and then with the bundle's value.
   */
  method ResolveMessage(entries: seq<Translation>, locale: Locale, defaultLocale: Locale, key: Key,
                        ghost overrides: Overrides, rows: seq<Translation>,
                        ghost later: Overrides, defaultRows: seq<Translation>) returns (r: Result<string, Error>)
    requires UniqueEntries(entries)
    requires IsSelection(overrides, locale, SHARED, rows) && IsSelection(later, defaultLocale, SHARED, defaultRows)
    ensures r == match Resolved(entries, overrides, locale, later, defaultLocale, SHARED, key)
                 case Some(t) => Ok(t.value)
                 case None => Err(TranslationNotFound)
    ensures r.Ok? ==> exists t: Translation | t.value == r.value ::
              DecidesInOrder(entries, overrides, locale, later, defaultLocale, SHARED, key, Some(t))
    ensures r.Err? ==> DecidesInOrder(entries, overrides, locale, later, defaultLocale, SHARED, key, None)
  {
    ResolvedDecides(entries, overrides, locale, later, defaultLocale, SHARED, key);
    r := Message(entries, overrides, rows, locale, key);
    if r.Err? && locale != defaultLocale {
      r := Message(entries, later, defaultRows, defaultLocale, key);
    }
  }

  /** The worker's lookup asks the default locale again even if it was the one requested. */
  method LocalizedMessage(entries: seq<Translation>, locale: Locale, defaultLocale: Locale, key: Key,
                          ghost overrides: Overrides, rows: seq<Translation>,
                          ghost later: Overrides, defaultRows: seq<Translation>) returns (r: Result<string, Error>)
    requires UniqueEntries(entries)
    requires IsSelection(overrides, locale, SHARED, rows) && IsSelection(later, defaultLocale, SHARED, defaultRows)
    ensures r == match Or(Layered(entries, overrides, locale, SHARED, key),
                            Layered(entries, later, defaultLocale, SHARED, key))
                 case Some(t) => Ok(t.value)
                 case None => Err(TranslationNotFound)
    ensures overrides == later ==>
              (r.Ok? <==> Resolved(entries, overrides, locale, later, defaultLocale, SHARED, key).Some?)
  {
    r := Message(entries, overrides, rows, locale, key);
    if r.Err? {
      r := Message(entries, later, defaultRows, defaultLocale, key);
    }
  }
}
