/**
 The row comparison (sort column, id) of the listings, under the byte-wise order of
 texts, is one of the orders that `Keyset` quantifies over; for translation
 overrides it has the four parts of server/postgres/localization.go:320-322.
 */
module Collation {
  import opened Cursor
  import opened Keyset

  predicate TextLess(a: string, b: string) {
    b != "" && (a == "" || a[0] < b[0] || (a[0] == b[0] && TextLess(a[1..], b[1..])))
  }

  lemma {:induction false} TextLessIsTotal(a: string, b: string)
    ensures TextLess(a, b) ==> !TextLess(b, a)
    ensures a != b ==> TextLess(a, b) || TextLess(b, a)
  {
    if a != "" && b != "" {
      TextLessIsTotal(a[1..], b[1..]);
      assert a == [a[0]] + a[1..] && b == [b[0]] + b[1..];
    }
  }

  lemma {:induction false} TextLessComposes(a: string, b: string, c: string)
    requires TextLess(a, b) && TextLess(b, c)
    ensures TextLess(a, c)
  {
    if a != "" && a[0] == b[0] == c[0] {
      TextLessComposes(a[1..], b[1..], c[1..]);
    }
  }

  predicate SortLess(a: SortText, b: SortText) {
    match (a, b)
    case (Word(s), Word(t)) => TextLess(s, t)
    case (Word(_), Stamp(_)) => true
    case (Stamp(_), Word(_)) => false
    case (Stamp(s), Stamp(t)) => s < t
  }

  predicate IdTextLess(a: IdText, b: IdText) {
    match (a, b)
    case (UuidText(m), UuidText(n)) => m < n
    case (UuidText(_), Plain(_)) => true
    case (Plain(_), UuidText(_)) => false
    case (Plain(s), Plain(t)) => TextLess(s, t)
  }

  predicate PartsLess(a: RowId, b: RowId)
    requires a.Override? && b.Override?
  {
    || TextLess(a.locale, b.locale)
    || (a.locale == b.locale && TextLess(a.scope, b.scope))
    || (a.locale == b.locale && a.scope == b.scope && TextLess(a.key, b.key))
  }

  /** The ids of one listing have one form; the others are put in the order of their forms. */
  predicate IdLess(a: RowId, b: RowId) {
    if a.Uuid? && b.Uuid? then a.number < b.number
    else if a.Code? && b.Code? then IdTextLess(a.text, b.text)
    else if a.Override? && b.Override? then PartsLess(a, b)
    else FormOf(a) < FormOf(b)
  }

  function FormOf(id: RowId): nat {
    match id case Uuid(_) => 0 case Code(_) => 1 case Override(_, _, _) => 2
  }

  predicate RowLess(a: Key, b: Key) {
    SortLess(a.sort, b.sort) || (a.sort == b.sort && IdLess(a.id, b.id))
  }

  lemma RowLessIsTotal(a: Key, b: Key)
    ensures RowLess(a, b) ==> !RowLess(b, a)
    ensures a != b ==> RowLess(a, b) || RowLess(b, a)
  {
    if a.sort.Word? && b.sort.Word? {
      TextLessIsTotal(a.sort.text, b.sort.text);
    }
    if a.id.Code? && b.id.Code? && a.id.text.Plain? && b.id.text.Plain? {
      TextLessIsTotal(a.id.text.text, b.id.text.text);
    }
    if a.id.Override? && b.id.Override? {
      TextLessIsTotal(a.id.locale, b.id.locale);
      TextLessIsTotal(a.id.scope, b.id.scope);
      TextLessIsTotal(a.id.key, b.id.key);
    }
  }

  lemma SortLessComposes(a: SortText, b: SortText, c: SortText)
    requires SortLess(a, b) && SortLess(b, c)
    ensures SortLess(a, c)
  {
    if a.Word? && b.Word? && c.Word? {
      TextLessComposes(a.text, b.text, c.text);
    }
  }

  lemma IdLessComposes(a: RowId, b: RowId, c: RowId)
    requires IdLess(a, b) && IdLess(b, c)
    ensures IdLess(a, c)
  {
    if a.Code? && b.Code? && c.Code? && a.text.Plain? && b.text.Plain? && c.text.Plain? {
      TextLessComposes(a.text.text, b.text.text, c.text.text);
    }
    if a.Override? && b.Override? && c.Override? {
      if TextLess(a.locale, b.locale) && TextLess(b.locale, c.locale) {
        TextLessComposes(a.locale, b.locale, c.locale);
      } else if a.locale == b.locale == c.locale {
        if TextLess(a.scope, b.scope) && TextLess(b.scope, c.scope) {
          TextLessComposes(a.scope, b.scope, c.scope);
        } else if a.scope == b.scope == c.scope {
          TextLessComposes(a.key, b.key, c.key);
        }
      }
    }
  }

  lemma RowLessComposes(a: Key, b: Key, c: Key)
    requires RowLess(a, b) && RowLess(b, c)
    ensures RowLess(a, c)
  {
    if SortLess(a.sort, b.sort) && SortLess(b.sort, c.sort) {
      SortLessComposes(a.sort, b.sort, c.sort);
    } else if a.sort == b.sort == c.sort {
      IdLessComposes(a.id, b.id, c.id);
    }
  }

  lemma RowOrderIsStrictTotal()
    ensures StrictTotal(RowLess)
  {
    forall a, b ensures (RowLess(a, b) ==> !RowLess(b, a)) && (a != b ==> RowLess(a, b) || RowLess(b, a)) {
      RowLessIsTotal(a, b);
    }
    forall a, b, c | RowLess(a, b) && RowLess(b, c) ensures RowLess(a, c) {
      RowLessComposes(a, b, c);
    }
  }

  /** The texts agree up to k, where the first one ends or has the smaller character. */
  predicate LessAt(a: string, b: string, k: nat) {
    && k <= |a| && k < |b|
    && (forall i :: 0 <= i < k ==> a[i] == b[i])
    && (k == |a| || a[k] < b[k])
  }

  /** What the order of texts is: decided at the first difference, a text coming before its continuations. */
  lemma {:induction false} TextLessExactly(a: string, b: string)
    ensures TextLess(a, b) <==> exists k: nat :: LessAt(a, b, k)
  {
    if a != "" && b != "" && a[0] == b[0] {
      TextLessExactly(a[1..], b[1..]);
      if k: nat :| LessAt(a[1..], b[1..], k) {
        assert forall i :: 0 < i <= k ==> a[i] == a[1..][i - 1] && b[i] == b[1..][i - 1];
        assert LessAt(a, b, k + 1);
      }
      if k: nat :| LessAt(a, b, k) {
        assert LessAt(a[1..], b[1..], k - 1);
      }
    } else if TextLess(a, b) {
      assert LessAt(a, b, 0);
    }
  }

  ghost predicate Before(a: string, b: string) {
    exists k: nat :: LessAt(a, b, k)
  }

  /**
   Which of two rows comes first: the earlier time or the smaller text; then the
   smaller UUID; for overrides then locale, scope and key.
   */
  lemma RowLessExactly(a: Key, b: Key)
    ensures a.sort.Stamp? && b.sort.Stamp? && a.sort != b.sort ==> (RowLess(a, b) <==> a.sort.time < b.sort.time)
    ensures a.sort.Word? && b.sort.Word? && a.sort != b.sort ==>
              (RowLess(a, b) <==> Before(a.sort.text, b.sort.text))
    ensures a.sort == b.sort && a.id.Uuid? && b.id.Uuid? ==> (RowLess(a, b) <==> a.id.number < b.id.number)
    ensures a.sort == b.sort && a.id.Override? && b.id.Override? ==>
              (RowLess(a, b) <==>
                 if a.id.locale != b.id.locale then Before(a.id.locale, b.id.locale)
                 else if a.id.scope != b.id.scope then Before(a.id.scope, b.id.scope)
                 else Before(a.id.key, b.id.key))
    ensures a.sort == b.sort && a.id.Code? && b.id.Code? && a.id.text.Plain? && b.id.text.Plain? ==>
              (RowLess(a, b) <==> Before(a.id.text.text, b.id.text.text))
  {
    if a.sort.Word? && b.sort.Word? {
      TextLessExactly(a.sort.text, b.sort.text);
      TextLessIsTotal(a.sort.text, b.sort.text);
    }
    if a.id.Code? && b.id.Code? && a.id.text.Plain? && b.id.text.Plain? {
      TextLessExactly(a.id.text.text, b.id.text.text);
    }
    RowLessIsTotal(a, b);
    if a.id.Override? && b.id.Override? {
      TextLessExactly(a.id.locale, b.id.locale);
      TextLessExactly(a.id.scope, b.id.scope);
      TextLessExactly(a.id.key, b.id.key);
      TextLessIsTotal(a.id.locale, b.id.locale);
      TextLessIsTotal(a.id.scope, b.id.scope);
    }
  }
}
