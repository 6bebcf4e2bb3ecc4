/**
 The limiter when clock readings come out of order: a call reads the clock before it
 takes the mutex (server/web/rate_limit.go:41-45), so a call that read earlier may be
 recorded later.  Two runs show that the answers then differ from those of the
 full-history counter, in both directions, and the theorems say exactly when.
 */
module LimiterClock {
  import opened Wrappers
  import opened RateLimit

  /** The calls in the order in which they took the mutex, with any clock readings. */
  function Played(calls: seq<Call>, limit: int, window: int): State {
    if calls == [] then INITIAL
    else Next(Played(calls[..|calls| - 1], limit, window), calls[|calls| - 1], limit, window)
  }

  lemma {:induction false} PlayedKeepsTheEnd(calls: seq<Call>, limit: int, window: int)
    ensures Suffixes(Played(calls, limit, window))
  {
    if calls != [] {
      PlayedKeepsTheEnd(calls[..|calls| - 1], limit, window);
      NextKeepsTheEnd(Played(calls[..|calls| - 1], limit, window), calls[|calls| - 1], limit, window);
    }
  }

  /** What the limiter can be after some calls. */
  ghost predicate Reached(s: State, limit: int, window: int) {
    exists calls :: s == Played(calls, limit, window)
  }

  lemma ReachedKeepsTheEnd(s: State, limit: int, window: int, key: Key)
    requires Reached(s, limit, window)
    ensures KeepsTheEnd(AllowedSince(s.history, key), TimesOf(s.entries, key))
  {
    var calls :| s == Played(calls, limit, window);
    PlayedKeepsTheEnd(calls, limit, window);
    assert KeepsTheEnd(AllowedSince(s.history, key), TimesOf(s.entries, key));
  }

  // ----- lists of times

  predicate NoneLater(times: seq<int>, cutoff: int) {
    forall i :: 0 <= i < |times| ==> times[i] <= cutoff
  }

  predicate AllLater(times: seq<int>, cutoff: int) {
    forall i :: 0 <= i < |times| ==> times[i] > cutoff
  }

  /** How many of the times are not later than the cutoff. */
  function Expired(times: seq<int>, cutoff: int): nat {
    if times == [] then 0 else Expired(times[1..], cutoff) + if times[0] <= cutoff then 1 else 0
  }

  lemma {:induction false} AfterAndExpired(times: seq<int>, cutoff: int)
    ensures |After(times, cutoff)| + Expired(times, cutoff) == |times|
    ensures AllLater(After(times, cutoff), cutoff)
    ensures Expired(times, cutoff) == 0 <==> AllLater(times, cutoff)
    ensures Expired(times, cutoff) == 0 <==> After(times, cutoff) == times
    ensures After(times, cutoff) == [] <==> NoneLater(times, cutoff)
  {
    if times != [] {
      AfterAndExpired(times[1..], cutoff);
      assert times == [times[0]] + times[1..];
    }
  }

  lemma {:induction false} TrimKeepsCounted(times: seq<int>, cutoff: int)
    ensures After(Trim(times, cutoff), cutoff) == After(times, cutoff)
  {
    if times != [] && times[0] <= cutoff {
      TrimKeepsCounted(times[1..], cutoff);
    }
  }

  // ----- one call

  /** What is counted of the whole list is what is counted of its two parts. */
  lemma CountedInParts(full: seq<int>, kept: seq<int>, cutoff: int)
    requires KeepsTheEnd(full, kept)
    ensures After(full, cutoff) == After(Forgotten(full, kept), cutoff) + After(Trim(kept, cutoff), cutoff)
  {
    var n := |full| - |kept|;
    assert full == full[..n] + full[n..];
    AfterConcat(full[..n], kept, cutoff);
    TrimKeepsCounted(kept, cutoff);
  }

  /**
   For every order of readings: a call counts exactly the times of the full history
   in its window if and only if no forgotten time is in its window and, of those
   kept, none behind the first one in the window is out of it.
   */
  lemma CountsAgreeExactly(full: seq<int>, kept: seq<int>, cutoff: int)
    requires KeepsTheEnd(full, kept)
    ensures Trim(kept, cutoff) == After(full, cutoff) <==>
            NoneLater(Forgotten(full, kept), cutoff) && AllLater(Trim(kept, cutoff), cutoff)
  {
    var forgotten, trimmed := Forgotten(full, kept), Trim(kept, cutoff);
    CountedInParts(full, kept, cutoff);
    AfterAndExpired(full, cutoff);
    AfterAndExpired(forgotten, cutoff);
    AfterAndExpired(trimmed, cutoff);
  }

  /** The times of a key that the limiter has forgotten though they are in the window of a call at `now`. */
  function Lost(s: State, key: Key, now: int, window: int): nat
    requires KeepsTheEnd(AllowedSince(s.history, key), TimesOf(s.entries, key))
  {
    |After(Forgotten(AllowedSince(s.history, key), TimesOf(s.entries, key)), now - window)|
  }

  /** The times that a call at `now` counts though they are out of its window. */
  function Stale(s: State, key: Key, now: int, window: int): nat {
    Expired(Counted(s, key, now, window), now - window)
  }

  /**
   After any calls with any readings, a call is allowed exactly if the calls in its
   window, with the stale times and without the lost ones, are fewer than the limit.
   So it gets through wrongly only by a lost time, and is denied wrongly only by a
   stale one.
   */
  lemma AnswersExactly(s: State, key: Key, now: int, limit: int, window: int)
    requires Reached(s, limit, window)
    ensures KeepsTheEnd(AllowedSince(s.history, key), TimesOf(s.entries, key))
    ensures var inWindow := |InWindow(s.history, key, now, window)|;
            var allowed := Answer(s, key, now, limit, window).Allowed?;
            && (allowed <==> inWindow + Stale(s, key, now, window) < limit + Lost(s, key, now, window))
            && (allowed && inWindow >= limit ==> Lost(s, key, now, window) > 0)
            && (!allowed && inWindow < limit ==> Stale(s, key, now, window) > 0)
  {
    ReachedKeepsTheEnd(s, limit, window, key);
    CountsDifferBy(AllowedSince(s.history, key), TimesOf(s.entries, key), now - window);
  }

  /** The event that a call adds to the history. */
  function Answer(s: State, key: Key, now: int, limit: int, window: int): (e: Event)
    ensures Next(s, Try(key, now), limit, window).history == s.history + [e]
  {
    if |Counted(s, key, now, window)| >= limit then Denied(key, now) else Allowed(key, now)
  }

  lemma CountsDifferBy(full: seq<int>, kept: seq<int>, cutoff: int)
    requires KeepsTheEnd(full, kept)
    ensures |Trim(kept, cutoff)| + |After(Forgotten(full, kept), cutoff)| ==
            |After(full, cutoff)| + Expired(Trim(kept, cutoff), cutoff)
  {
    CountedInParts(full, kept, cutoff);
    AfterAndExpired(Trim(kept, cutoff), cutoff);
  }

  // ----- all later calls

  /** From the time on, no later entry is earlier than one before it. */
  predicate OrderedFrom(times: seq<int>, from: int) {
    forall i, j :: 0 <= i < j < |times| && times[i] > from ==> times[i] <= times[j]
  }

  predicate NeverDecreasing(times: seq<int>) {
    forall i, j :: 0 <= i < j < |times| ==> times[i] <= times[j]
  }

  predicate TrimIsAfter(times: seq<int>, cutoff: int) {
    Trim(times, cutoff) == After(times, cutoff)
  }

  lemma {:induction false} OrderedTrims(times: seq<int>, from: int, cutoff: int)
    requires OrderedFrom(times, from) && from <= cutoff
    ensures TrimIsAfter(times, cutoff)
  {
    if times != [] {
      if times[0] > cutoff {
        AfterAndExpired(times, cutoff);
      } else {
        OrderedTrims(times[1..], from, cutoff);
      }
    }
  }

  lemma {:induction false} DisorderIsCounted(times: seq<int>, i: nat, j: nat, cutoff: int)
    requires i < j < |times| && times[j] <= cutoff < times[i]
    ensures !AllLater(Trim(times, cutoff), cutoff) && !TrimIsAfter(times, cutoff)
  {
    if times[0] <= cutoff {
      DisorderIsCounted(times[1..], i - 1, j - 1, cutoff);
      AfterAndExpired(times, cutoff);
    } else {
      AfterAndExpired(times, cutoff);
    }
  }

  /**
   Trimming the front drops what is out of the window, for all cutoffs from some time
   on, exactly if the list is in order from then on.
   */
  lemma TrimsFromExactly(times: seq<int>, from: int)
    ensures OrderedFrom(times, from) <==> forall cutoff :: from <= cutoff ==> TrimIsAfter(times, cutoff)
  {
    if OrderedFrom(times, from) {
      forall cutoff | from <= cutoff ensures TrimIsAfter(times, cutoff) {
        OrderedTrims(times, from, cutoff);
      }
    } else {
      var i, j :| 0 <= i < j < |times| && times[i] > from && times[i] > times[j];
      var cutoff := if times[j] < from then from else times[j];
      DisorderIsCounted(times, i, j, cutoff);
    }
  }

  /** And for all cutoffs exactly if the list never decreases. */
  lemma TrimsExactly(times: seq<int>)
    ensures NeverDecreasing(times) <==> forall cutoff :: TrimIsAfter(times, cutoff)
  {
    if NeverDecreasing(times) {
      forall cutoff ensures TrimIsAfter(times, cutoff) {
        TrimsFromExactly(times, cutoff);
      }
    } else {
      var i, j :| 0 <= i < j < |times| && times[i] > times[j];
      TrimsFromExactly(times, times[j]);
    }
  }

  predicate Agrees(s: State, key: Key, now: int, window: int) {
    Counted(s, key, now, window) == InWindow(s.history, key, now, window)
  }

  predicate AgreesAt(full: seq<int>, kept: seq<int>, cutoff: int) {
    Trim(kept, cutoff) == After(full, cutoff)
  }

  /** Where nothing forgotten is in the window, counting right is trimming right. */
  lemma AgreesByTrimming(full: seq<int>, kept: seq<int>, cutoff: int)
    requires KeepsTheEnd(full, kept)
    ensures AgreesAt(full, kept, cutoff) <==> NoneLater(Forgotten(full, kept), cutoff) && TrimIsAfter(kept, cutoff)
  {
    CountsAgreeExactly(full, kept, cutoff);
    TrimKeepsCounted(kept, cutoff);
    AfterAndExpired(Trim(kept, cutoff), cutoff);
  }

  /** The lists behind `LaterCallsAgreeExactly`. */
  lemma AgreeFromExactly(full: seq<int>, kept: seq<int>, from: int)
    requires KeepsTheEnd(full, kept)
    ensures (forall cutoff :: from <= cutoff ==> AgreesAt(full, kept, cutoff)) <==>
            NoneLater(Forgotten(full, kept), from) && OrderedFrom(kept, from)
  {
    TrimsFromExactly(kept, from);
    forall cutoff | from <= cutoff
      ensures AgreesAt(full, kept, cutoff) <==> NoneLater(Forgotten(full, kept), cutoff) && TrimIsAfter(kept, cutoff)
    {
      AgreesByTrimming(full, kept, cutoff);
    }
    assert forall cutoff :: from <= cutoff && NoneLater(Forgotten(full, kept), from) ==>
              NoneLater(Forgotten(full, kept), cutoff);
    assert AgreesAt(full, kept, from) ==> NoneLater(Forgotten(full, kept), from);
  }

  /**
   After any calls with any readings, the next call for a key counts what the
   counter counts, for every reading from `earliest` on, exactly if no time that was
   forgotten is in the window at `earliest`, and the times kept are in order from
   there on.
   */
  lemma LaterCallsAgreeExactly(s: State, key: Key, earliest: int, limit: int, window: int)
    requires Reached(s, limit, window)
    ensures KeepsTheEnd(AllowedSince(s.history, key), TimesOf(s.entries, key))
    ensures (forall now :: earliest <= now ==> Agrees(s, key, now, window)) <==>
            && NoneLater(Forgotten(AllowedSince(s.history, key), TimesOf(s.entries, key)), earliest - window)
            && OrderedFrom(TimesOf(s.entries, key), earliest - window)
  {
    ReachedKeepsTheEnd(s, limit, window, key);
    var full, kept, from := AllowedSince(s.history, key), TimesOf(s.entries, key), earliest - window;
    AgreeFromExactly(full, kept, from);
    if forall cutoff :: from <= cutoff ==> AgreesAt(full, kept, cutoff) {
      forall now | earliest <= now ensures Agrees(s, key, now, window) {
        assert AgreesAt(full, kept, now - window);
      }
    } else {
      var cutoff :| from <= cutoff && !AgreesAt(full, kept, cutoff);
      assert !Agrees(s, key, cutoff + window, window);
    }
  }

  // ----- resets and cleanups

  /** A reset forgets the key and leaves the times of all others, and the next cleanup, as they are. */
  lemma ResetForgets(s: State, key: Key, limit: int, window: int)
    ensures var after := Next(s, Forget(key), limit, window);
            && after.history == s.history + [Reset(key)] && after.nextCleanup == s.nextCleanup
            && key !in after.entries && after.entries.Keys == s.entries.Keys - {key}
            && (forall k :: k in after.entries ==> after.entries[k] == s.entries[k])
  {
  }

  /** Whatever came before, the first call of a key after its reset is allowed, at any reading. */
  lemma AllowedAfterReset(s: State, key: Key, now: int, limit: int, window: int)
    requires limit > 0
    ensures var reset := Next(s, Forget(key), limit, window);
            && Next(reset, Try(key, now), limit, window).history == s.history + [Reset(key)] + [Allowed(key, now)]
            && InWindow(reset.history, key, now, window) == []
  {
    ResetForgets(s, key, limit, window);
    TimesRecorded(s.history, Reset(key), key);
  }

  /** Other calls and resets of other keys in between do not count against the key. */
  lemma OthersDoNotCount(s: State, call: Call, key: Key, now: int, limit: int, window: int)
    requires call.key != key
    ensures Counted(Next(s, call, limit, window), key, now, window) ==
            if call.Try? && CleanupDue(s, call.now) then Trim(Counted(s, key, call.now, window), now - window)
            else Counted(s, key, now, window)
  {
    if call.Try? {
      TimesAfterTry(s, call.key, call.now, limit, window, key);
    }
  }

  /**
   A cleanup runs when there was none yet or half a window after the last one, and then
   no other key keeps a list that is empty or starts with an expired time.
   */
  lemma CleanupOnSchedule(s: State, key: Key, now: int, limit: int, window: int)
    ensures var after := Next(s, Try(key, now), limit, window);
            if s.nextCleanup == None || s.nextCleanup.value <= now then
              && after.nextCleanup == Some(now + window / 2)
              && forall k :: k in after.entries && k != key ==>
                   after.entries[k] != [] && after.entries[k][0] > now - window
            else
              after.nextCleanup == s.nextCleanup
              && forall k :: k in s.entries && k != key ==> k in after.entries && after.entries[k] == s.entries[k]
  {
  }

  // ----- two runs

  lemma FirstCall(key: Key, t: int, limit: int, window: int)
    requires limit > 0
    ensures var first := Next(INITIAL, Try(key, t), limit, window);
            && first.nextCleanup == Some(t + window / 2)
            && first.history == [Allowed(key, t)]
            && AllowedSince(first.history, key) == [t]
            && TimesOf(first.entries, key) == [t]
            && forall other :: other != key ==> TimesOf(first.entries, other) == []
  {
    var none: seq<int>, nothing: seq<Event> := [], [];
    assert TimesOf(INITIAL.entries, key) == none;
    TimesAfterTry(INITIAL, key, t, limit, window, key);
    forall other | other != key ensures TimesOf(Next(INITIAL, Try(key, t), limit, window).entries, other) == none {
      TimesAfterTry(INITIAL, key, t, limit, window, other);
    }
    assert none + [t] == [t] && nothing + [Allowed(key, t)] == [Allowed(key, t)];
    TimesRecorded(nothing, Allowed(key, t), key);
  }

  /**
   One call per window.  A key is allowed at t; another key's call a window later
   makes the cleanup forget it; a call that had read its clock before that, within
   the window of the first, is then allowed too.
   */
  lemma ForgottenCallGetsThrough(key: Key, other: Key, t: int, now: int, window: int)
    requires key != other && window > 0 && t <= now < t + window
    ensures var first := Next(INITIAL, Try(key, t), 1, window);
            var second := Next(first, Try(other, t + window), 1, window);
            && InWindow(second.history, key, now, window) == [t]
            && Next(second, Try(key, now), 1, window).history ==
               [Allowed(key, t)] + [Allowed(other, t + window)] + [Allowed(key, now)]
  {
    var first := Next(INITIAL, Try(key, t), 1, window);
    FirstCall(key, t, 1, window);
    var second := Next(first, Try(other, t + window), 1, window);
    TimesAfterTry(first, other, t + window, 1, window, key);
    assert [t][1..] == [] && Trim([t], t) == [];
    assert TimesOf(second.entries, key) == [];
    assert Counted(first, other, t + window, window) == [];
    TimesRecorded(first.history, Allowed(other, t + window), key);
    assert AllowedSince(second.history, key) == [t];
    AfterAndExpired([t], now - window);
    assert Counted(second, key, now, window) == [];
  }

  /**
   Two calls per window.  A call with an earlier reading is recorded behind a later
   one; a third call, when only the later one is in its window, counts both and is
   denied.
   */
  lemma LateCallIsCounted(key: Key, t: int, earlier: int, now: int, window: int)
    requires window > 0 && earlier < t && earlier + window <= now < t + window
    ensures var first := Next(INITIAL, Try(key, t), 2, window);
            var second := Next(first, Try(key, earlier), 2, window);
            && InWindow(second.history, key, now, window) == [t]
            && Next(second, Try(key, now), 2, window).history ==
               [Allowed(key, t)] + [Allowed(key, earlier)] + [Denied(key, now)]
  {
    var first := Next(INITIAL, Try(key, t), 2, window);
    FirstCall(key, t, 2, window);
    var second := Next(first, Try(key, earlier), 2, window);
    TimesAfterTry(first, key, earlier, 2, window, key);
    assert Counted(first, key, earlier, window) == [t];
    TimesRecorded(first.history, Allowed(key, earlier), key);
    var both := [t] + [earlier];
    assert TimesOf(second.entries, key) == both == AllowedSince(second.history, key);
    AfterConcat([t], [earlier], now - window);
    assert Trim(both, now - window) == both;
  }

  // ----- readings in order

  /** No reading is earlier than the one before it. */
  predicate ReadInOrder(calls: seq<Call>, now: int) {
    calls == [] ||
    (var last := calls[|calls| - 1];
     if last.Forget? then ReadInOrder(calls[..|calls| - 1], now)
     else last.now <= now && ReadInOrder(calls[..|calls| - 1], last.now))
  }

  lemma {:induction false} InOrderIsRecorded(calls: seq<Call>, now: int, limit: int, window: int)
    requires limit > 0 && window > 0 && ReadInOrder(calls, now)
    ensures var s := Played(calls, limit, window); Recorded(s.history, s.entries, now, limit, window)
  {
    if calls == [] {
    } else {
      var call := calls[|calls| - 1];
      var s := Played(calls[..|calls| - 1], limit, window);
      InOrderIsRecorded(calls[..|calls| - 1], if call.Forget? then now else call.now, limit, window);
      if call.Forget? {
        ForgetIsRecorded(s.history, s.entries, call.key, now, limit, window);
      } else {
        TryIsRecorded(s, call.key, call.now, limit, window);
        RecordedLater(Next(s, call, limit, window), call.now, now, limit, window);
      }
    }
  }

  lemma ForgetIsRecorded(history: seq<Event>, entries: map<Key, seq<int>>, key: Key, now: int, limit: int, window: int)
    requires Recorded(history, entries, now, limit, window)
    ensures Recorded(history + [Reset(key)], entries - {key}, now, limit, window)
  {
    KeepsRecorded(history, entries, Reset(key), entries - {key}, now - window);
    RecordConsistent(history, Reset(key), now, limit, window);
  }

  /** Readings in order are enough: the next call, too, then counts what the counter counts. */
  lemma OrderedReadingsAgree(calls: seq<Call>, key: Key, now: int, limit: int, window: int)
    requires limit > 0 && window > 0 && ReadInOrder(calls, now)
    ensures Agrees(Played(calls, limit, window), key, now, window)
  {
    InOrderIsRecorded(calls, now, limit, window);
    var s := Played(calls, limit, window);
    KeptIsCounted(s.history, s.entries, key, now, now - window, limit, window);
  }
}
