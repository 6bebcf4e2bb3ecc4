/**
 Opaque cursors: what a page hands out to continue after its last row, and what is
 accepted back (server/postgres/cursor.go:16-85, localization.go:296-348).

 JSON, base64url (section 5 of RFC 4648), timestamps (section 5.6 of RFC 3339) and
 the fingerprint hash are taken to give back what was put in, so a cursor is the
 record it carries and a fingerprint is the filter it was computed from.
 */
module Cursor {
  import opened Wrappers

  /** Texts, split into those that are written timestamps and the others. */
  datatype SortText = Word(text: string) | Stamp(time: int)

  /** Texts, split into those that are UUIDs and the others. */
  datatype IdText = UuidText(number: nat) | Plain(text: string)

  datatype RowId = Uuid(number: nat) | Code(text: IdText) | Override(locale: string, scope: string, key: string)

  /** The sort column and the primary key of a row. */
  datatype Key = Key(sort: SortText, id: RowId)

  datatype Kind = Tenants | Memberships | Roles | Invitations | Languages | TranslationOverrides

  datatype Sort = ByText(column: nat) | ByTime(column: nat)

  datatype Fingerprint = Fingerprint(filter: nat, sort: Sort, descending: bool)

  datatype Query = Query(kind: Kind, fingerprint: Fingerprint)

  datatype Cursor =
    | NoCursor
    | Garbled
    | Record(version: int, kind: Kind, fingerprint: Fingerprint, sortValue: SortText, id: IdText)

  datatype Error = Validation

  const NUL: char := '\0'

  // ----- the joined id of a translation override

  function Join(locale: string, scope: string, key: string): string {
    locale + [NUL] + scope + [NUL] + key
  }

  function Split(text: string): (parts: seq<string>)
    ensures |parts| >= 1
  {
    if text == "" then [""]
    else
      var rest := Split(text[1..]);
      if text[0] == NUL then [""] + rest else [[text[0]] + rest[0]] + rest[1..]
  }

  lemma {:induction false} SplitAtFirst(head: string, tail: string)
    requires NUL !in head
    ensures Split(head + [NUL] + tail) == [head] + Split(tail)
  {
    var text := head + [NUL] + tail;
    if head == "" {
      assert text[1..] == tail;
    } else {
      assert text[1..] == head[1..] + [NUL] + tail;
      SplitAtFirst(head[1..], tail);
      assert text[0] == head[0] && head == [head[0]] + head[1..];
      assert ([head[1..]] + Split(tail))[1..] == Split(tail);
    }
  }

  lemma {:induction false} SplitWhole(text: string)
    requires NUL !in text
    ensures Split(text) == [text]
  {
    if text != "" {
      SplitWhole(text[1..]);
      assert text == [text[0]] + text[1..];
    }
  }

  lemma {:induction false} NoPartContainsNul(text: string)
    ensures forall part :: part in Split(text) ==> NUL !in part
  {
    if text != "" {
      NoPartContainsNul(text[1..]);
    }
  }

  /** Splitting gives back the three parts exactly if none of them contains the separator. */
  lemma SplitJoin(locale: string, scope: string, key: string)
    ensures Split(Join(locale, scope, key)) == [locale, scope, key] <==> NUL !in locale && NUL !in scope && NUL !in key
  {
    if NUL !in locale && NUL !in scope && NUL !in key {
      assert Join(locale, scope, key) == locale + [NUL] + (scope + [NUL] + key);
      SplitAtFirst(locale, scope + [NUL] + key);
      SplitAtFirst(scope, key);
      SplitWhole(key);
    }
    if Split(Join(locale, scope, key)) == [locale, scope, key] {
      NoPartContainsNul(Join(locale, scope, key));
      assert locale in [locale, scope, key] && scope in [locale, scope, key] && key in [locale, scope, key];
    }
  }

  // ----- encoding and decoding

  function TextOf(id: RowId): IdText {
    match id
    case Uuid(number) => UuidText(number)
    case Code(text) => text
    case Override(locale, scope, key) => Plain(Join(locale, scope, key))
  }

  function Encode(query: Query, last: Key): Cursor {
    Record(1, query.kind, query.fingerprint, last.sort, TextOf(last.id))
  }

  function DecodeId(kind: Kind, id: IdText): Option<RowId> {
    match kind
    case Languages => Some(Code(id))
    case TranslationOverrides =>
      if id.UuidText? then None
      else
        var parts := Split(id.text);
        if |parts| == 3 then Some(Override(parts[0], parts[1], parts[2])) else None
    case _ => if id.UuidText? then Some(Uuid(id.number)) else None
  }

  function Decode(query: Query, cursor: Cursor): Result<Key, Error>
    requires !cursor.NoCursor?
  {
    if cursor.Garbled? then Err(Validation)
    else if cursor.version != 1 || cursor.kind != query.kind || cursor.fingerprint != query.fingerprint then
      Err(Validation)
    else if cursor.sortValue == Word("") || cursor.id == Plain("") then Err(Validation)
    else if query.fingerprint.sort.ByTime? && cursor.sortValue.Word? then Err(Validation)
    else match DecodeId(query.kind, cursor.id)
      case Some(id) => Ok(Key(cursor.sortValue, id))
      case None => Err(Validation)
  }

  /** Rows of the listed table: ids of its form, timestamps in time columns, no NUL character in a text. */
  predicate Fits(query: Query, key: Key) {
    && (query.fingerprint.sort.ByTime? ==> key.sort.Stamp?)
    && match key.id
       case Uuid(_) => query.kind != TranslationOverrides && query.kind != Languages
       case Code(text) => query.kind == Languages && text != Plain("")
       case Override(locale, scope, text) =>
         query.kind == TranslationOverrides && NUL !in locale && NUL !in scope && NUL !in text
  }

  /**
   A cursor leads back to the row it was made from exactly if the row's sort value
   is not the empty text; otherwise it is refused.
   */
  lemma CursorRoundTrip(query: Query, key: Key)
    requires Fits(query, key)
    ensures Decode(query, Encode(query, key)) == Ok(key) <==> key.sort != Word("")
    ensures Decode(query, Encode(query, key)).Err? <==> key.sort == Word("")
  {
    if key.id.Override? {
      SplitJoin(key.id.locale, key.id.scope, key.id.key);
      assert Join(key.id.locale, key.id.scope, key.id.key)[|key.id.locale|] == NUL;
    }
  }

  /** Whatever a client sends: an accepted cursor is one that the query itself could have handed out. */
  lemma AcceptedCursorsAreOurs(query: Query, cursor: Cursor)
    requires !cursor.NoCursor? && Decode(query, cursor).Ok?
    ensures cursor == Encode(query, Decode(query, cursor).value) && Fits(query, Decode(query, cursor).value)
    ensures cursor.version == 1 && cursor.kind == query.kind && cursor.fingerprint == query.fingerprint
    ensures cursor.sortValue == Decode(query, cursor).value.sort
  {
    if query.kind.TranslationOverrides? {
      var text := cursor.id.text;
      JoinSplit(text);
      NoPartContainsNul(text);
      var parts := Split(text);
      assert parts[0] in parts && parts[1] in parts && parts[2] in parts;
    }
  }

  /**
   A cursor is accepted by the query it was made for, when its row has a sort value,
   and by no other listing, filter, sort or direction.
   */
  lemma ForeignCursorRefused(made: Query, used: Query, key: Key)
    ensures made != used ==> Decode(used, Encode(made, key)) == Err(Validation)
    ensures Fits(made, key) ==> (Decode(used, Encode(made, key)).Ok? <==> made == used && key.sort != Word(""))
  {
    if Decode(used, Encode(made, key)).Ok? {
      AcceptedCursorsAreOurs(used, Encode(made, key));
    }
    if Fits(made, key) {
      CursorRoundTrip(made, key);
    }
  }

  function Joined(parts: seq<string>): string
    requires |parts| >= 1
  {
    if |parts| == 1 then parts[0] else parts[0] + [NUL] + Joined(parts[1..])
  }

  lemma {:induction false} JoinSplit(text: string)
    ensures Joined(Split(text)) == text
    ensures |Split(text)| == 3 ==> Join(Split(text)[0], Split(text)[1], Split(text)[2]) == text
  {
    if text != "" {
      JoinSplit(text[1..]);
      var rest := Split(text[1..]);
      assert text == [text[0]] + text[1..];
      if text[0] != NUL {
        assert Split(text)[1..] == rest[1..];
      } else {
        assert Split(text)[1..] == rest;
      }
    }
    var parts := Split(text);
    if |parts| == 3 {
      assert Joined(parts) == parts[0] + [NUL] + Joined(parts[1..]);
      assert Joined(parts[1..]) == parts[1] + [NUL] + Joined(parts[1..][1..]);
      assert Join(parts[0], parts[1], parts[2]) == parts[0] + [NUL] + (parts[1] + [NUL] + parts[2]);
    }
  }
}
