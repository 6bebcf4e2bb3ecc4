/**
 Optimistic writes: a writer presents the revision it has read, and its statement
 matches no row when someone else has written in between.  Creating, updating and
 deleting are single statements (server/postgres/localization.go:127-191 and 352-373,
 tenants.go:186-203, roles.go:161-212, memberships.go:271-284, invitations.go:474-489).

 The rows of one table: languages, tenants, roles, memberships or translation
 overrides.  Only the overrides reuse the key of a deleted row.
 */
module Revisions {
  import opened Wrappers

  type Key = nat
  type Value = nat

  datatype Error = Conflict

  datatype Row = Row(revision: nat, value: Value)

  datatype Event = Created(key: Key) | Changed(key: Key) | Removed(key: Key)

  /** `history` lists the committed writes. */
  datatype Table = Table(rows: map<Key, Row>, history: seq<Event>)

  const EMPTY: Table := Table(map[], [])

  /** An upsert with revision 0 creates; `Reactivate` writes without a revision, as acceptance does. */
  datatype Write =
    | Upsert(key: Key, revision: nat, value: Value)
    | Delete(key: Key, revision: nat)
    | Reactivate(key: Key, value: Value)

  predicate Commits(t: Table, w: Write) {
    match w
    case Upsert(key, revision, _) =>
      if revision == 0 then key !in t.rows else key in t.rows && t.rows[key].revision == revision
    case Delete(key, revision) => key in t.rows && t.rows[key].revision == revision
    case Reactivate(key, _) => key in t.rows
  }

  /** The event that a committed write appends to the history. */
  function EventOf(w: Write): Event {
    match w
    case Upsert(key, revision, _) => if revision == 0 then Created(key) else Changed(key)
    case Delete(key, _) => Removed(key)
    case Reactivate(key, _) => Changed(key)
  }

  function RowsAfter(t: Table, w: Write): map<Key, Row>
    requires Commits(t, w)
  {
    match w
    case Upsert(key, revision, value) => t.rows[key := Row(revision + 1, value)]
    case Delete(key, _) => t.rows - {key}
    case Reactivate(key, value) => t.rows[key := Row(t.rows[key].revision + 1, value)]
  }

  function Next(t: Table, w: Write): Table {
    if Commits(t, w) then Table(RowsAfter(t, w), t.history + [EventOf(w)]) else t
  }

  /** The row that a write leaves; a creation is the update of revision 0. */
  predicate Leaves(before: map<Key, Row>, w: Write, after: map<Key, Row>) {
    match w
    case Upsert(key, revision, value) => key in after && after[key] == Row(revision + 1, value)
    case Delete(key, _) => key !in after
    case Reactivate(key, value) =>
      key in before && key in after && after[key] == Row(before[key].revision + 1, value)
  }

  /** A write adds its event, leaves its row with the next revision and its value, and touches no other row. */
  lemma WritesOneRow(t: Table, w: Write)
    requires Commits(t, w)
    ensures Leaves(t.rows, w, Next(t, w).rows)
    ensures Next(t, w).history == t.history + [EventOf(w)]
    ensures EventOf(w).key == w.key
    ensures forall key :: key != w.key ==> (key in Next(t, w).rows <==> key in t.rows)
    ensures forall key :: key != w.key && key in t.rows ==> Next(t, w).rows[key] == t.rows[key]
  {
  }

  // ----- counting in the history

  /** How often the key was created. */
  function Births(history: seq<Event>, key: Key): nat {
    if history == [] then 0
    else Births(history[..|history| - 1], key) + if history[|history| - 1] == Created(key) then 1 else 0
  }

  /** The committed changes since the key was last created. */
  function Changes(history: seq<Event>, key: Key): nat {
    if history == [] || history[|history| - 1] == Created(key) then 0
    else Changes(history[..|history| - 1], key) + if history[|history| - 1] == Changed(key) then 1 else 0
  }

  /** Every committed write of the key. */
  function Writes(history: seq<Event>, key: Key): nat {
    if history == [] then 0
    else Writes(history[..|history| - 1], key) + if history[|history| - 1].key == key then 1 else 0
  }

  lemma Recorded(history: seq<Event>, event: Event, key: Key)
    ensures Writes(history + [event], key) == Writes(history, key) + if event.key == key then 1 else 0
    ensures Births(history + [event], key) == Births(history, key) + if event == Created(key) then 1 else 0
    ensures Changes(history + [event], key) ==
              if event == Created(key) then 0 else Changes(history, key) + if event == Changed(key) then 1 else 0
  {
    assert (history + [event])[..|history|] == history;
  }

  predicate Counted(t: Table, key: Key) {
    key in t.rows ==> t.rows[key].revision == 1 + Changes(t.history, key)
  }

  // ----- runs

  predicate Run(states: seq<Table>, writes: seq<Write>) {
    && |states| == |writes| + 1
    && states[0] == EMPTY
    && forall k :: 0 <= k < |writes| ==> StepAt(states, writes, k)
  }

  predicate StepAt(states: seq<Table>, writes: seq<Write>, k: nat)
    requires k < |writes| && k + 1 < |states|
  {
    states[k + 1] == Next(states[k], writes[k])
  }

  lemma StepCounts(t: Table, w: Write, key: Key)
    requires Counted(t, key)
    ensures Counted(Next(t, w), key)
    ensures Births(t.history, key) <= Births(Next(t, w).history, key)
  {
    if Commits(t, w) {
      Recorded(t.history, EventOf(w), key);
      WritesOneRow(t, w);
    }
  }

  /** In every run a record's revision is one plus the changes committed since it was created. */
  lemma {:induction false} RevisionCountsChanges(states: seq<Table>, writes: seq<Write>, k: nat, key: Key)
    requires Run(states, writes) && k < |states|
    ensures Counted(states[k], key)
  {
    if k > 0 {
      RevisionCountsChanges(states, writes, k - 1, key);
      StepCounts(states[k - 1], writes[k - 1], key);
      assert StepAt(states, writes, k - 1);
    }
  }

  /** What a later state says of a row read earlier. */
  predicate Later(before: Table, after: Table, key: Key)
    requires key in before.rows
  {
    && Births(before.history, key) <= Births(after.history, key)
    && Births(after.history, key) - Births(before.history, key) <=
       Writes(after.history, key) - Writes(before.history, key)
    && (key in after.rows && Births(before.history, key) == Births(after.history, key) ==>
          before.rows[key].revision <= after.rows[key].revision
          && (before.rows[key].revision == after.rows[key].revision ==>
                before.rows[key] == after.rows[key] && Writes(before.history, key) == Writes(after.history, key)))
  }

  lemma StepIsLater(start: Table, t: Table, w: Write, key: Key)
    requires key in start.rows && Later(start, t, key)
    ensures Later(start, Next(t, w), key)
  {
    if Commits(t, w) {
      Recorded(t.history, EventOf(w), key);
      WritesOneRow(t, w);
    }
  }

  lemma {:induction false} RunIsLater(states: seq<Table>, writes: seq<Write>, i: nat, j: nat, key: Key)
    requires Run(states, writes) && i <= j < |states| && key in states[i].rows
    ensures Later(states[i], states[j], key)
  {
    if i < j {
      RunIsLater(states, writes, i, j - 1, key);
      StepIsLater(states[i], states[j - 1], writes[j - 1], key);
      assert StepAt(states, writes, j - 1);
    }
  }

  // ----- promises

  /** Of two updates presenting the same revision of a key both commit only if the key was created anew in between. */
  lemma OneCommitPerRevision(states: seq<Table>, writes: seq<Write>, i: nat, j: nat)
    requires Run(states, writes) && i < j < |writes|
    requires writes[i].Upsert? && writes[j].Upsert? && writes[i].key == writes[j].key
    requires writes[i].revision == writes[j].revision > 0
    requires Commits(states[i], writes[i]) && Commits(states[j], writes[j])
    ensures Births(states[i].history, writes[i].key) < Births(states[j].history, writes[i].key)
  {
    var key := writes[i].key;
    assert StepAt(states, writes, i);
    Recorded(states[i].history, Changed(key), key);
    RunIsLater(states, writes, i + 1, j, key);
  }

  /**
   A writer read a row, and later its update with the revision of that row commits.
   No other write of the key came in between, exactly if the key was not created
   anew since; the update then replaces the very row that was read.
   */
  lemma UpdateReplacesWhatWasRead(states: seq<Table>, writes: seq<Write>, i: nat, j: nat)
    requires Run(states, writes) && i <= j < |writes|
    requires writes[j].Upsert? && writes[j].revision > 0 && Commits(states[j], writes[j])
    requires writes[j].key in states[i].rows && states[i].rows[writes[j].key].revision == writes[j].revision
    ensures Writes(states[i].history, writes[j].key) == Writes(states[j].history, writes[j].key) <==>
            Births(states[i].history, writes[j].key) == Births(states[j].history, writes[j].key)
    ensures Births(states[i].history, writes[j].key) == Births(states[j].history, writes[j].key) ==>
              states[j].rows[writes[j].key] == states[i].rows[writes[j].key]
  {
    RunIsLater(states, writes, i, j, writes[j].key);
  }

  lemma {:induction false} NoDeletionNoRebirth(states: seq<Table>, writes: seq<Write>, i: nat, j: nat, key: Key)
    requires Run(states, writes) && i <= j < |states| && key in states[i].rows
    requires forall k :: i <= k < j ==> !writes[k].Delete? || writes[k].key != key
    ensures key in states[j].rows && Births(states[i].history, key) == Births(states[j].history, key)
  {
    if i < j {
      NoDeletionNoRebirth(states, writes, i, j - 1, key);
      var t, w := states[j - 1], writes[j - 1];
      assert StepAt(states, writes, j - 1);
      if Commits(t, w) {
        Recorded(t.history, EventOf(w), key);
        WritesOneRow(t, w);
      }
    }
  }

  /** Where rows of a key are not deleted, as memberships, tenants and languages are not, no update is ever lost. */
  lemma NoUpdateIsLost(states: seq<Table>, writes: seq<Write>, i: nat, j: nat)
    requires Run(states, writes) && i <= j < |writes|
    requires writes[j].Upsert? && writes[j].revision > 0 && Commits(states[j], writes[j])
    requires writes[j].key in states[i].rows && states[i].rows[writes[j].key].revision == writes[j].revision
    requires forall k :: i <= k < j ==> !writes[k].Delete? || writes[k].key != writes[j].key
    ensures states[j].rows[writes[j].key] == states[i].rows[writes[j].key]
  {
    NoDeletionNoRebirth(states, writes, i, j, writes[j].key);
    UpdateReplacesWhatWasRead(states, writes, i, j);
  }

  /**
   An override deleted and created again starts at revision 1 again: an update made
   against the deleted one commits, and replaces a text its writer never saw.
   */
  lemma RecreationLosesUpdate(key: Key, first: Value, second: Value, third: Value)
    returns (states: seq<Table>, writes: seq<Write>)
    requires first != second
    ensures Run(states, writes) && |writes| == 4
    ensures states[1].rows == map[key := Row(1, first)] && states[3].rows == map[key := Row(1, second)]
    ensures writes[3] == Upsert(key, 1, third) && Commits(states[3], writes[3])
    ensures states[4].rows == map[key := Row(2, third)]
  {
    writes := [Upsert(key, 0, first), Delete(key, 1), Upsert(key, 0, second), Upsert(key, 1, third)];
    var s1 := Next(EMPTY, writes[0]);
    var s2 := Next(s1, writes[1]);
    var s3 := Next(s2, writes[2]);
    assert s2.rows == map[];
    states := [EMPTY, s1, s2, s3, Next(s3, writes[3])];
  }

  // ----- the statements

  class Store {
    var rows: map<Key, Row>
    ghost var history: seq<Event>

    ghost function Abstract(): Table
      reads this
    {
      Table(rows, history)
    }

    constructor ()
      ensures Abstract() == EMPTY
    {
      rows, history := map[], [];
    }

    /** Inserts, or updates under the presented revision, and answers the new revision. */
    method UpsertRow(key: Key, revision: nat, value: Value) returns (r: Result<nat, Error>)
      modifies this
      ensures Abstract() == Next(old(Abstract()), Upsert(key, revision, value))
      ensures r.Ok? <==> Commits(old(Abstract()), Upsert(key, revision, value))
      ensures r.Ok? <==>
              if revision == 0 then key !in old(rows)
              else key in old(rows) && old(rows)[key].revision == revision
      ensures rows == if r.Ok? then old(rows)[key := Row(revision + 1, value)] else old(rows)
      ensures r.Ok? ==> key in rows && rows[key] == Row(r.value, value)
    {
      if revision == 0 {
        if key in rows {
          return Err(Conflict);
        }
        rows := rows[key := Row(1, value)];
        history := history + [Created(key)];
        return Ok(1);
      }
      if key !in rows || rows[key].revision != revision {
        return Err(Conflict);
      }
      rows := rows[key := Row(rows[key].revision + 1, value)];
      history := history + [Changed(key)];
      return Ok(rows[key].revision);
    }

    method DeleteRow(key: Key, revision: nat) returns (r: Result<(), Error>)
      modifies this
      ensures Abstract() == Next(old(Abstract()), Delete(key, revision))
      ensures r.Ok? <==> Commits(old(Abstract()), Delete(key, revision))
      ensures r.Ok? <==> key in old(rows) && old(rows)[key].revision == revision
      ensures rows == if r.Ok? then old(rows) - {key} else old(rows)
    {
      if key !in rows || rows[key].revision != revision {
        return Err(Conflict);
      }
      rows := rows - {key};
      history := history + [Removed(key)];
      return Ok(());
    }
  }
}
