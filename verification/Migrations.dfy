/**
 Schema migrations: the files in order of their names, each executed and recorded
 in one transaction, over any number of runs that may be cut off at any point
 (server/postgres/migrations.go:38-128).

 An advisory lock keeps runs apart.  The checksum is taken to be injective, so it
 stands for the text of the file.
 */
module Migrations {
  import opened Wrappers

  type Version = nat
  type Checksum = nat

  datatype Entry = Entry(version: Version, checksum: Checksum, directory: bool)

  datatype Error = ChecksumMismatch(version: Version) | Interrupted(version: Version)

  /** `effects` are the files whose statements took effect, in that order. */
  datatype Schema = Schema(ledger: map<Version, Checksum>, effects: seq<Entry>)

  const EMPTY: Schema := Schema(map[], [])

  // ----- the files in order

  predicate Ascending(files: seq<Entry>) {
    forall i, j :: 0 <= i < j < |files| ==> files[i].version < files[j].version
  }

  predicate DistinctNames(entries: seq<Entry>) {
    forall i, j :: 0 <= i < j < |entries| ==> entries[i].version != entries[j].version
  }

  function Insert(entry: Entry, sorted: seq<Entry>): (r: seq<Entry>)
    requires Ascending(sorted) && forall other :: other in sorted ==> other.version != entry.version
    ensures Ascending(r) && forall other :: other in r <==> other == entry || other in sorted
  {
    if sorted == [] || entry.version < sorted[0].version then
      assert forall i :: 0 <= i < |sorted| ==> sorted[0].version <= sorted[i].version;
      [entry] + sorted
    else
      var rest := Insert(entry, sorted[1..]);
      assert sorted == [sorted[0]] + sorted[1..];
      assert forall i :: 0 <= i < |rest| ==> rest[i] in rest;
      [sorted[0]] + rest
  }

  /** The library sort by name. */
  function SortByName(entries: seq<Entry>): (r: seq<Entry>)
    requires DistinctNames(entries)
    ensures Ascending(r) && forall entry :: entry in r <==> entry in entries
  {
    if entries == [] then []
    else
      assert entries == [entries[0]] + entries[1..];
      var rest := SortByName(entries[1..]);
      assert forall entry :: entry in rest ==> entry in entries[1..];
      Insert(entries[0], rest)
  }

  function Files(entries: seq<Entry>): (files: seq<Entry>)
    ensures |files| <= |entries|
  {
    if entries == [] then []
    else
      var rest := Files(entries[..|entries| - 1]);
      if entries[|entries| - 1].directory then rest else rest + [entries[|entries| - 1]]
  }

  lemma {:induction false} FilesAreEntries(entries: seq<Entry>)
    ensures forall entry :: entry in Files(entries) <==> entry in entries && !entry.directory
  {
    if entries != [] {
      var n := |entries| - 1;
      FilesAreEntries(entries[..n]);
      assert entries == entries[..n] + [entries[n]];
    }
  }

  lemma {:induction false} FilesAscend(entries: seq<Entry>)
    requires Ascending(entries)
    ensures Ascending(Files(entries))
  {
    if entries != [] {
      var n := |entries| - 1;
      FilesAscend(entries[..n]);
      FilesAreEntries(entries[..n]);
      var rest := Files(entries[..n]);
      assert forall i :: 0 <= i < |rest| ==> rest[i] in entries[..n];
    }
  }

  lemma FilesStep(entries: seq<Entry>, i: nat)
    requires i < |entries|
    ensures Files(entries[..i + 1]) ==
            if entries[i].directory then Files(entries[..i]) else Files(entries[..i]) + [entries[i]]
  {
    assert entries[..i + 1][..i] == entries[..i];
  }

  lemma {:induction false} FilesPrefix(entries: seq<Entry>, i: nat)
    requires i <= |entries|
    ensures Files(entries[..i]) <= Files(entries)
  {
    if i == |entries| {
      assert entries[..i] == entries;
    } else {
      var shorter := entries[..|entries| - 1];
      FilesPrefix(shorter, i);
      assert shorter[..i] == entries[..i];
      assert Files(shorter) <= Files(entries);
    }
  }

  // ----- what a run does

  predicate Mismatch(ledger: map<Version, Checksum>, file: Entry) {
    file.version in ledger && ledger[file.version] != file.checksum
  }

  function Process(schema: Schema, file: Entry): Schema {
    if file.version in schema.ledger then schema
    else Schema(schema.ledger[file.version := file.checksum], schema.effects + [file])
  }

  function ProcessAll(schema: Schema, files: seq<Entry>): Schema {
    if files == [] then schema else Process(ProcessAll(schema, files[..|files| - 1]), files[|files| - 1])
  }

  /** A run that got through the first `stop` files. */
  predicate RunsTo(before: Schema, files: seq<Entry>, stop: nat, after: Schema) {
    && stop <= |files|
    && (forall k :: 0 <= k < stop ==> !Mismatch(before.ledger, files[k]))
    && after == ProcessAll(before, files[..stop])
  }

  lemma {:induction false} ProcessedLedger(schema: Schema, files: seq<Entry>, version: Version)
    ensures var after := ProcessAll(schema, files).ledger;
            && (version in schema.ledger ==> version in after && after[version] == schema.ledger[version])
            && (version in after && version !in schema.ledger ==>
                exists k :: 0 <= k < |files| && files[k].version == version)
    ensures schema.effects <= ProcessAll(schema, files).effects
  {
    if files != [] {
      ProcessedLedger(schema, files[..|files| - 1], version);
    }
  }

  class Database {
    var ledger: map<Version, Checksum>
    ghost var effects: seq<Entry>

    ghost function Abstract(): Schema
      reads this
    {
      Schema(ledger, effects)
    }

    constructor ()
      ensures Abstract() == EMPTY
    {
      ledger, effects := map[], [];
    }

    /**
     Executes and records the file in one transaction, unless it is recorded already.
     Its statements may fail, or the process die, which rolls the transaction back; or
     the commit takes effect and its confirmation is lost.
     */
    method ApplyMigration(file: Entry, fails: bool, lost: bool) returns (r: Result<(), Error>)
      modifies this
      ensures r == if file.version in old(ledger) then
                     (if old(ledger)[file.version] == file.checksum then Ok(())
                      else Err(ChecksumMismatch(file.version)))
                   else if fails || lost then Err(Interrupted(file.version)) else Ok(())
      ensures Abstract() == if file.version in old(ledger) || fails then old(Abstract())
                            else Schema(old(ledger)[file.version := file.checksum], old(effects) + [file])
    {
      if file.version in ledger {
        if ledger[file.version] == file.checksum {
          return Ok(());
        }
        return Err(ChecksumMismatch(file.version));
      }
      if fails {
        return Err(Interrupted(file.version));
      }
      effects := effects + [file];
      ledger := ledger[file.version := file.checksum];
      if lost {
        return Err(Interrupted(file.version));
      }
      return Ok(());
    }

    /**
     Gets through a number of files from the start.  It succeeds exactly if every file
     is recorded unchanged or can be executed, and then it got through all of them.
     Otherwise it stops at the first file of which that is not true, with its error.
     */
    method Migrate(entries: seq<Entry>, fails: Version -> bool, lost: Version -> bool)
      returns (r: Result<(), Error>, ghost stop: nat)
      requires DistinctNames(entries)
      modifies this
      ensures RunsTo(old(Abstract()), Files(SortByName(entries)), stop, Abstract())
      ensures r.Ok? ==> stop == |Files(SortByName(entries))|
      ensures r.Ok? <==> forall file :: file in entries && !file.directory ==>
                           if file.version in old(ledger) then old(ledger)[file.version] == file.checksum
                           else !fails(file.version) && !lost(file.version)
      ensures r.Err? ==> StopsAt(Files(SortByName(entries)), old(ledger), fails, lost, stop, r.error)
    {
      var sorted := SortByName(entries);
      r, stop := ApplyInOrder(sorted, fails, lost);
      if r.Ok? {
        AllPass(entries, old(ledger), fails, lost);
      } else {
        Stopped(entries, old(ledger), fails, lost, stop, r.error);
      }
    }

    method ApplyInOrder(sorted: seq<Entry>, fails: Version -> bool, lost: Version -> bool)
      returns (r: Result<(), Error>, ghost stop: nat)
      requires Ascending(sorted)
      modifies this
      ensures RunsTo(old(Abstract()), Files(sorted), stop, Abstract())
      ensures r.Ok? ==> stop == |Files(sorted)| && GotTo(old(Abstract()), Files(sorted), fails, lost, stop, Abstract())
      ensures r.Err? ==> StopsAt(Files(sorted), old(ledger), fails, lost, stop, r.error)
    {
      ghost var start, files := Abstract(), Files(sorted);
      FilesAscend(sorted);
      stop := 0;
      for i := 0 to |sorted|
        invariant stop == |Files(sorted[..i])|
        invariant GotTo(start, files, fails, lost, stop, Abstract())
      {
        NextFile(sorted, i);
        if !sorted[i].directory {
          ghost var before := Abstract();
          var applied := ApplyMigration(sorted[i], fails(sorted[i].version), lost(sorted[i].version));
          NextApplied(start, files, fails, lost, stop, before, applied, Abstract());
          if applied.Err? {
            stop := if Abstract() == before then stop else stop + 1;
            return Err(applied.error), stop;
          }
          stop := stop + 1;
        }
      }
      assert sorted[..|sorted|] == sorted;
      return Ok(()), stop;
    }
  }

  predicate Passes(ledger: map<Version, Checksum>, file: Entry, fails: Version -> bool, lost: Version -> bool) {
    if file.version in ledger then ledger[file.version] == file.checksum
    else !fails(file.version) && !lost(file.version)
  }

  /** The file stops the run, itself committed only if just its confirmation was lost, and all files before it pass. */
  predicate FailsAt(files: seq<Entry>, ledger: map<Version, Checksum>, fails: Version -> bool, lost: Version -> bool,
                    at: nat, stop: nat, error: Error)
  {
    && at < |files| && (forall k :: 0 <= k < at ==> Passes(ledger, files[k], fails, lost))
    && var version := files[at].version;
       if version in ledger
       then ledger[version] != files[at].checksum && error == ChecksumMismatch(version) && stop == at
       else error == Interrupted(version)
            && ((fails(version) && stop == at) || (!fails(version) && lost(version) && stop == at + 1))
  }

  ghost predicate StopsAt(files: seq<Entry>, ledger: map<Version, Checksum>, fails: Version -> bool,
                          lost: Version -> bool, stop: nat, error: Error)
  {
    exists at: nat :: FailsAt(files, ledger, fails, lost, at, stop, error)
  }

  predicate GotTo(start: Schema, files: seq<Entry>, fails: Version -> bool, lost: Version -> bool, stop: nat,
                  now: Schema)
  {
    RunsTo(start, files, stop, now) && forall k :: 0 <= k < stop ==> Passes(start.ledger, files[k], fails, lost)
  }

  lemma NextApplied(start: Schema, files: seq<Entry>, fails: Version -> bool, lost: Version -> bool, stop: nat,
                    before: Schema, applied: Result<(), Error>, after: Schema)
    requires Ascending(files) && stop < |files| && GotTo(start, files, fails, lost, stop, before)
    requires var file := files[stop];
             && applied == (if file.version in before.ledger
                            then if before.ledger[file.version] == file.checksum then Ok(())
                                 else Err(ChecksumMismatch(file.version))
                            else if fails(file.version) || lost(file.version) then Err(Interrupted(file.version))
                            else Ok(()))
             && after == (if file.version in before.ledger || fails(file.version) then before
                          else Schema(before.ledger[file.version := file.checksum], before.effects + [file]))
    ensures applied.Ok? ==> GotTo(start, files, fails, lost, stop + 1, after)
    ensures var end := if after == before then stop else stop + 1;
            applied.Err? ==> RunsTo(start, files, end, after)
                             && StopsAt(files, start.ledger, fails, lost, end, applied.error)
  {
    NewVersion(start, files, stop);
    OneMore(start, files, stop, before);
    ProcessedLedger(start, files[..stop], files[stop].version);
    assert |before.effects + [files[stop]]| != |before.effects|;
    if applied.Err? {
      assert FailsAt(files, start.ledger, fails, lost, stop, if after == before then stop else stop + 1, applied.error);
    }
  }

  lemma Stopped(entries: seq<Entry>, ledger: map<Version, Checksum>, fails: Version -> bool, lost: Version -> bool,
                stop: nat, error: Error)
    requires DistinctNames(entries) && StopsAt(Files(SortByName(entries)), ledger, fails, lost, stop, error)
    ensures exists file :: file in entries && !file.directory && !Passes(ledger, file, fails, lost)
  {
    var files := Files(SortByName(entries));
    var at: nat :| FailsAt(files, ledger, fails, lost, at, stop, error);
    FilesAreEntries(SortByName(entries));
    assert files[at] in files;
  }

  lemma AllPass(entries: seq<Entry>, ledger: map<Version, Checksum>, fails: Version -> bool, lost: Version -> bool)
    requires DistinctNames(entries)
    requires forall k :: 0 <= k < |Files(SortByName(entries))| ==>
               Passes(ledger, Files(SortByName(entries))[k], fails, lost)
    ensures forall file :: file in entries && !file.directory ==> Passes(ledger, file, fails, lost)
  {
    FilesAreEntries(SortByName(entries));
    forall file | file in entries && !file.directory ensures Passes(ledger, file, fails, lost) {
      assert file in Files(SortByName(entries));
    }
  }

  lemma NextFile(sorted: seq<Entry>, i: nat)
    requires i < |sorted|
    ensures var n, files := |Files(sorted[..i])|, Files(sorted);
            && |Files(sorted[..i + 1])| == (if sorted[i].directory then n else n + 1) <= |files|
            && (!sorted[i].directory ==> files[n] == sorted[i])
  {
    FilesStep(sorted, i);
    FilesPrefix(sorted, i + 1);
  }

  /** A file is in the ledger when its turn comes only if it was there before the run. */
  lemma NewVersion(schema: Schema, files: seq<Entry>, i: nat)
    requires Ascending(files) && i < |files|
    ensures files[i].version in ProcessAll(schema, files[..i]).ledger <==> files[i].version in schema.ledger
    ensures Mismatch(ProcessAll(schema, files[..i]).ledger, files[i]) <==> Mismatch(schema.ledger, files[i])
  {
    ProcessedLedger(schema, files[..i], files[i].version);
  }

  lemma OneMore(start: Schema, files: seq<Entry>, stop: nat, before: Schema)
    requires Ascending(files) && stop < |files| && RunsTo(start, files, stop, before)
    ensures !Mismatch(before.ledger, files[stop]) ==> RunsTo(start, files, stop + 1, Process(before, files[stop]))
  {
    NewVersion(start, files, stop);
    assert files[..stop + 1][..stop] == files[..stop];
  }

  // ----- any number of runs over the same files

  predicate Recorded(ledger: map<Version, Checksum>, files: seq<Entry>) {
    && (forall k :: 0 <= k < |files| ==> files[k].version in ledger && ledger[files[k].version] == files[k].checksum)
    && (forall v :: v in ledger ==> exists k :: 0 <= k < |files| && files[k].version == v)
  }

  /** The first n files, each executed once and recorded with its checksum, and nothing else. */
  predicate PrefixApplied(schema: Schema, files: seq<Entry>, n: nat) {
    n <= |files| && schema.effects == files[..n] && Recorded(schema.ledger, files[..n])
  }

  lemma RecordOne(ledger: map<Version, Checksum>, files: seq<Entry>, file: Entry)
    requires Recorded(ledger, files) && file.version !in ledger
    ensures Recorded(ledger[file.version := file.checksum], files + [file])
  {
    var after := ledger[file.version := file.checksum];
    forall v | v in after ensures exists k :: 0 <= k < |files + [file]| && (files + [file])[k].version == v {
      if v == file.version {
        assert (files + [file])[|files|].version == v;
      } else {
        var k :| 0 <= k < |files| && files[k].version == v;
        assert (files + [file])[k].version == v;
      }
    }
  }

  lemma {:induction false} FromEmpty(files: seq<Entry>, n: nat)
    requires Ascending(files) && n <= |files|
    ensures PrefixApplied(ProcessAll(EMPTY, files[..n]), files, n)
  {
    if n > 0 {
      FromEmpty(files, n - 1);
      NewVersion(EMPTY, files, n - 1);
      assert files[..n][..n - 1] == files[..n - 1];
      assert files[..n] == files[..n - 1] + [files[n - 1]];
      RecordOne(ProcessAll(EMPTY, files[..n - 1]).ledger, files[..n - 1], files[n - 1]);
    }
  }

  lemma {:induction false} RunExtends(files: seq<Entry>, n: nat, stop: nat)
    requires Ascending(files) && n <= |files| && stop <= |files|
    ensures ProcessAll(ProcessAll(EMPTY, files[..n]), files[..stop]) ==
            ProcessAll(EMPTY, files[..if stop <= n then n else stop])
  {
    if stop > 0 {
      RunExtends(files, n, stop - 1);
      ProcessLast(ProcessAll(EMPTY, files[..n]), files, stop);
      if stop <= n {
        AppliedStays(files, n, stop - 1);
      } else {
        ProcessLast(EMPTY, files, stop);
      }
    }
  }

  lemma ProcessLast(schema: Schema, files: seq<Entry>, n: nat)
    requires 0 < n <= |files|
    ensures ProcessAll(schema, files[..n]) == Process(ProcessAll(schema, files[..n - 1]), files[n - 1])
  {
    assert files[..n][..n - 1] == files[..n - 1];
  }

  lemma AppliedStays(files: seq<Entry>, n: nat, k: nat)
    requires Ascending(files) && k < n <= |files|
    ensures Process(ProcessAll(EMPTY, files[..n]), files[k]) == ProcessAll(EMPTY, files[..n])
  {
    FromEmpty(files, n);
    assert files[..n][k] == files[k];
  }

  ghost predicate SomeRun(before: Schema, files: seq<Entry>, after: Schema) {
    exists stop :: RunsTo(before, files, stop, after)
  }

  /** Runs one after the other, each cut off anywhere. */
  ghost predicate Runs(states: seq<Schema>, files: seq<Entry>) {
    && |states| > 0 && states[0] == EMPTY
    && forall k :: 0 <= k < |states| - 1 ==> SomeRun(states[k], files, states[k + 1])
  }

  lemma {:induction false} RunsReachPrefix(states: seq<Schema>, files: seq<Entry>, k: nat) returns (n: nat)
    requires Ascending(files) && Runs(states, files) && k < |states|
    ensures n <= |files| && states[k] == ProcessAll(EMPTY, files[..n])
  {
    if k == 0 {
      n := 0;
    } else {
      var before := RunsReachPrefix(states, files, k - 1);
      assert SomeRun(states[k - 1], files, states[k - 1 + 1]);
      var stop :| RunsTo(states[k - 1], files, stop, states[k]);
      RunExtends(files, before, stop);
      n := if stop <= before then before else stop;
    }
  }

  /**
   However often and wherever runs were cut off, exactly a prefix of the files took
   effect, each once and in order.
   */
  lemma LedgerIsPrefix(states: seq<Schema>, files: seq<Entry>, k: nat)
    requires Ascending(files) && Runs(states, files) && k < |states|
    ensures exists n: nat :: PrefixApplied(states[k], files, n)
  {
    var n := RunsReachPrefix(states, files, k);
    FromEmpty(files, n);
  }

  /** With the files unchanged no run stops on a checksum. */
  lemma UnchangedFilesMatch(states: seq<Schema>, files: seq<Entry>, k: nat, i: nat)
    requires Ascending(files) && Runs(states, files) && k < |states| && i < |files|
    ensures !Mismatch(states[k].ledger, files[i])
  {
    LedgerIsPrefix(states, files, k);
    var n: nat :| PrefixApplied(states[k], files, n);
    if files[i].version in states[k].ledger {
      var j :| 0 <= j < n && files[..n][j].version == files[i].version;
      assert files[j].version == files[i].version && i == j;
    }
  }

  /** A changed file stops every run before it, so no later file takes effect. */
  lemma ChangedFileStops(before: Schema, files: seq<Entry>, stop: nat, after: Schema, i: nat, k: nat)
    requires Ascending(files) && RunsTo(before, files, stop, after)
    requires i <= k < |files| && Mismatch(before.ledger, files[i])
    ensures stop <= i
    ensures files[k].version in after.ledger <==> files[k].version in before.ledger
    ensures files[k] in after.effects ==> files[k] in before.effects
  {
    ProcessedLedger(before, files[..stop], files[k].version);
    EffectsAreFiles(before, files[..stop], files[k]);
  }

  lemma {:induction false} EffectsAreFiles(schema: Schema, files: seq<Entry>, file: Entry)
    ensures file in ProcessAll(schema, files).effects ==> file in schema.effects || file in files
    ensures |schema.effects| <= |ProcessAll(schema, files).effects|
  {
    if files != [] {
      EffectsAreFiles(schema, files[..|files| - 1], file);
    }
  }
}
