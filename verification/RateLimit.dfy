/**
 The sliding-window limiter of server/web/rate_limit.go.

 `RateLimiter` keeps, as the program does, only a trimmed list of timestamps per
 key and forgets keys in a periodic cleanup.  The specification keeps the whole
 history of calls instead and counts in it.  `InOrder` ties the two together: as
 long as the clock readings come in the order in which the calls take the mutex,
 every answer of the limiter is the answer of the full-history counter.

 A call reads the clock before it takes the mutex, so readings can come out of
 order.  `LimiterClock` says for every order of readings exactly when the answers
 still agree.  Times and durations are nanoseconds.
 */
module RateLimit {
  import opened Wrappers

  const DEFAULT_RATE_LIMIT := 5
  const DEFAULT_RATE_WINDOW := 10 * 60 * 1_000_000_000

  /** Limiter keys are only compared for equality, so a number stands for each. */
  type Key = nat

  datatype Event =
    | Allowed(key: Key, at: int)
    | Denied(key: Key, at: int)
    | Reset(key: Key)

  // ----- the full-history counter

  /** Times of the calls for `key` allowed since its last reset, oldest first. */
  function AllowedSince(history: seq<Event>, key: Key): seq<int> {
    if history == [] then []
    else
      var before := AllowedSince(history[..|history| - 1], key);
      match history[|history| - 1]
      case Allowed(k, at) => if k == key then before + [at] else before
      case Denied(_, _) => before
      case Reset(k) => if k == key then [] else before
  }

  /** The elements strictly later than `cutoff`, in their order. */
  function After(times: seq<int>, cutoff: int): seq<int> {
    if times == [] then []
    else if times[0] > cutoff then [times[0]] + After(times[1..], cutoff)
    else After(times[1..], cutoff)
  }

  /** The allowed calls that a call for `key` at `now` still has to count. */
  function InWindow(history: seq<Event>, key: Key, now: int, window: int): seq<int> {
    After(AllowedSince(history, key), now - window)
  }

  /** How long a call denied at `now` has to wait: until its oldest counted call leaves the window. */
  function RetryAfter(history: seq<Event>, key: Key, now: int, window: int): int
    requires InWindow(history, key, now, window) != []
  {
    InWindow(history, key, now, window)[0] + window - now
  }

  /** No recorded time is later than `now`. */
  ghost predicate NotAfter(history: seq<Event>, now: int) {
    history == [] ||
    (var last := history[|history| - 1];
     NotAfter(history[..|history| - 1], now) && (!last.Reset? ==> last.at <= now))
  }

  /** Every call of `history` got the answer of the full-history counter, under a clock that never goes back. */
  ghost predicate Consistent(history: seq<Event>, limit: int, window: int) {
    history == [] ||
    (var before, last := history[..|history| - 1], history[|history| - 1];
     && Consistent(before, limit, window)
     && (!last.Reset? ==> NotAfter(before, last.at))
     && (last.Allowed? ==> |InWindow(before, last.key, last.at, window)| < limit)
     && (last.Denied? ==> |InWindow(before, last.key, last.at, window)| >= limit))
  }

  // ----- sorted lists of times

  /** In order, and none later than `now`. */
  ghost predicate SortedUpTo(times: seq<int>, now: int) {
    times == [] || (times[|times| - 1] <= now && SortedUpTo(times[..|times| - 1], times[|times| - 1]))
  }

  lemma {:induction false} AfterConcat(a: seq<int>, b: seq<int>, cutoff: int)
    ensures After(a + b, cutoff) == After(a, cutoff) + After(b, cutoff)
  {
    if a == [] {
      assert a + b == b;
    } else {
      var whole, rest := a + b, a[1..];
      var kept := if a[0] > cutoff then [a[0]] else [];
      AfterConcat(rest, b, cutoff);
      assert whole[0] == a[0] && whole[1..] == rest + b;
      assert After(whole, cutoff) == kept + After(rest + b, cutoff);
      assert After(a, cutoff) == kept + After(rest, cutoff);
    }
  }

  lemma {:induction false} AfterLaterCutoff(times: seq<int>, early: int, late: int)
    requires early <= late
    ensures After(After(times, early), late) == After(times, late)
    ensures |After(times, late)| <= |After(times, early)|
  {
    if times != [] {
      AfterLaterCutoff(times[1..], early, late);
      AfterConcat(if times[0] > early then [times[0]] else [], After(times[1..], early), late);
    }
  }

  /** In a sorted list, once the last element is out of the window all are. */
  lemma {:induction false} AllExpired(times: seq<int>, now: int, cutoff: int)
    requires SortedUpTo(times, now) && now <= cutoff
    ensures After(times, cutoff) == []
  {
    if times != [] {
      var n := |times| - 1;
      AllExpired(times[..n], times[n], cutoff);
      AfterConcat(times[..n], [times[n]], cutoff);
      assert times == times[..n] + [times[n]];
    }
  }

  /** The head of a sorted list is its earliest: when it counts, everything does. */
  lemma {:induction false} NoneExpired(times: seq<int>, now: int, cutoff: int)
    requires SortedUpTo(times, now) && times != [] && times[0] > cutoff
    ensures After(times, cutoff) == times && now >= times[0]
  {
    var n := |times| - 1;
    assert times == times[..n] + [times[n]];
    AfterConcat(times[..n], [times[n]], cutoff);
    if n > 0 {
      NoneExpired(times[..n], times[n], cutoff);
    }
  }

  lemma {:induction false} SortedTail(times: seq<int>, now: int)
    requires SortedUpTo(times, now) && times != []
    ensures SortedUpTo(times[1..], now)
  {
    var n := |times| - 1;
    if n > 0 {
      SortedTail(times[..n], times[n]);
      assert times[1..][..n - 1] == times[..n][1..];
    }
  }

  lemma {:induction false} AllowedSinceSorted(history: seq<Event>, key: Key, now: int, limit: int, window: int)
    requires Consistent(history, limit, window) && NotAfter(history, now)
    ensures SortedUpTo(AllowedSince(history, key), now)
  {
    if history != [] {
      var before, last := history[..|history| - 1], history[|history| - 1];
      AllowedSinceSorted(before, key, now, limit, window);
      if last.Allowed? {
        AllowedSinceSorted(before, key, last.at, limit, window);
        assert (AllowedSince(before, key) + [last.at])[..|AllowedSince(before, key)|] == AllowedSince(before, key);
      }
    }
  }

  // ----- what the counter promises

  /**
   The limit holds in every window: in a consistent history no more than `limit`
   calls for a key, allowed since its last reset, are later than `t - window`.
   */
  lemma {:induction false} WindowHoldsAtMostLimit(history: seq<Event>, key: Key, t: int, limit: int, window: int)
    requires limit > 0 && window > 0
    requires Consistent(history, limit, window)
    requires NotAfter(history, t)
    ensures |InWindow(history, key, t, window)| <= limit
  {
    if history != [] {
      var before, last := history[..|history| - 1], history[|history| - 1];
      WindowHoldsAtMostLimit(before, key, t, limit, window);
      if last.Allowed? && last.key == key {
        AfterLaterCutoff(AllowedSince(before, key), last.at - window, t - window);
        AfterConcat(AllowedSince(before, key), [last.at], t - window);
      }
    }
  }

  /** Times of the allowed calls for `key` among `events`, whatever resets there are. */
  function AllowedTimes(events: seq<Event>, key: Key): seq<int> {
    if events == [] then []
    else
      var last := events[|events| - 1];
      AllowedTimes(events[..|events| - 1], key) + if last.Allowed? && last.key == key then [last.at] else []
  }

  lemma {:induction false} StretchIsTail(history: seq<Event>, i: nat, j: nat, key: Key)
    requires i <= j <= |history|
    requires Reset(key) !in history[i..j]
    ensures AllowedSince(history[..j], key) == AllowedSince(history[..i], key) + AllowedTimes(history[i..j], key)
  {
    if i < j {
      StretchIsTail(history, i, j - 1, key);
      assert history[..j][..j - 1] == history[..j - 1];
      assert history[i..j][..j - 1 - i] == history[i..j - 1];
      assert history[i..j][j - 1 - i] == history[j - 1];
    }
  }

  lemma {:induction false} ConsistentPrefix(history: seq<Event>, j: nat, limit: int, window: int)
    requires j <= |history|
    requires Consistent(history, limit, window)
    ensures Consistent(history[..j], limit, window)
    decreases |history|
  {
    if j == |history| {
      assert history[..j] == history;
    } else {
      var before := history[..|history| - 1];
      ConsistentPrefix(before, j, limit, window);
      assert before[..j] == history[..j];
    }
  }

  /**
   The promise over whole runs: any stretch of calls without a reset of the key,
   wherever it starts and ends, has at most `limit` allowed calls in
   `(t - window, t]`, where no call of the run up to its end is later than `t`.
   */
  lemma AnyStretchHoldsAtMostLimit(history: seq<Event>, i: nat, j: nat, key: Key, t: int, limit: int, window: int)
    requires limit > 0 && window > 0
    requires Consistent(history, limit, window)
    requires i <= j <= |history| && Reset(key) !in history[i..j]
    requires NotAfter(history[..j], t)
    ensures |After(AllowedTimes(history[i..j], key), t - window)| <= limit
  {
    ConsistentPrefix(history, j, limit, window);
    WindowHoldsAtMostLimit(history[..j], key, t, limit, window);
    StretchIsTail(history, i, j, key);
    AfterConcat(AllowedSince(history[..i], key), AllowedTimes(history[i..j], key), t - window);
  }

  /** Without calls allowed or resets in between, the times to count stay the same. */
  lemma {:induction false} DeniedChangesNothing(before: seq<Event>, later: seq<Event>, key: Key)
    requires Reset(key) !in later
    requires forall e :: e in later && e.Allowed? ==> e.key != key
    ensures AllowedSince(before + later, key) == AllowedSince(before, key)
  {
    if later == [] {
      assert before + later == before;
    } else {
      var n := |later| - 1;
      assert later[n] in later;
      DeniedChangesNothing(before, later[..n], key);
      assert (before + later)[..|before + later| - 1] == before + later[..n];
    }
  }

  /** Events without a reset of the key, whose allowed calls for it all happen in [from, until). */
  ghost predicate WithinDelay(later: seq<Event>, key: Key, from: int, until: int) {
    && Reset(key) !in later
    && forall e :: e in later && e.Allowed? && e.key == key ==> from <= e.at < until
  }

  lemma HeadDecides(times: seq<int>, now: int, early: int, late: int)
    requires SortedUpTo(times, now) && early <= late
    requires times != [] && times[0] > early
    ensures times[0] > late ==> After(times, late) == After(times, early)
    ensures times[0] <= late ==> |After(times, late)| < |After(times, early)|
  {
    if times[0] > late {
      NoneExpired(times, now, late);
      NoneExpired(times, now, early);
    } else {
      AfterLaterCutoff(times[1..], early, late);
    }
  }

  /** A later cutoff counts the same calls as long as it does not reach the oldest of them, then fewer. */
  lemma {:induction false} OldestDecides(times: seq<int>, now: int, early: int, late: int)
    requires SortedUpTo(times, now) && early <= late
    requires After(times, early) != []
    ensures After(times, early)[0] > early
    ensures After(times, early)[0] > late ==> After(times, late) == After(times, early)
    ensures After(times, early)[0] <= late ==> |After(times, late)| < |After(times, early)|
  {
    if times[0] > early {
      HeadDecides(times, now, early, late);
    } else {
      SortedTail(times, now);
      OldestDecides(times[1..], now, early, late);
    }
  }

  /**
   retryAfter is exact.  When the call for `key` at `now` is denied with delay r,
   r is positive, every call for the key in [now, now + r) is denied too, however
   the run goes on without a reset of that key, and a call at now + r is allowed.
   */
  lemma {:induction false} RetryAfterIsExact(
      before: seq<Event>, later: seq<Event>, key: Key, now: int, t: int, limit: int, window: int)
    requires limit > 0 && window > 0
    requires NotAfter(before, now) && |InWindow(before, key, now, window)| >= limit
    requires Consistent(before + later, limit, window)
    requires WithinDelay(later, key, now, now + RetryAfter(before, key, now, window))
    ensures RetryAfter(before, key, now, window) > 0
    ensures now <= t < now + RetryAfter(before, key, now, window) ==>
              |InWindow(before + later, key, t, window)| >= limit
    ensures t == now + RetryAfter(before, key, now, window) ==>
              |InWindow(before + later, key, t, window)| < limit
  {
    ConsistentPrefix(before + later, |before|, limit, window);
    assert (before + later)[..|before|] == before;
    AllowedSinceSorted(before, key, now, limit, window);
    WindowHoldsAtMostLimit(before, key, now, limit, window);
    NothingAllowedWithinDelay(before, later, key, now, limit, window);
    DeniedChangesNothing(before, later, key);
    OldestDecides(AllowedSince(before, key), now, now - window, if t >= now then t - window else now - window);
  }

  /** During the delay no call for the key gets through. */
  lemma {:induction false} NothingAllowedWithinDelay(
      before: seq<Event>, later: seq<Event>, key: Key, now: int, limit: int, window: int)
    requires limit > 0 && window > 0
    requires NotAfter(before, now) && |InWindow(before, key, now, window)| >= limit
    requires Consistent(before, limit, window) && Consistent(before + later, limit, window)
    requires WithinDelay(later, key, now, now + RetryAfter(before, key, now, window))
    ensures forall e :: e in later && e.Allowed? ==> e.key != key
  {
    if later != [] {
      var n := |later| - 1;
      var run := before + later;
      assert run[..|run| - 1] == before + later[..n] && run[|run| - 1] == later[n];
      assert forall e :: e in later[..n] ==> e in later;
      assert later[n] in later;
      NothingAllowedWithinDelay(before, later[..n], key, now, limit, window);
      if later[n].Allowed? && later[n].key == key {
        DeniedChangesNothing(before, later[..n], key);
        AllowedSinceSorted(before, key, now, limit, window);
        WindowHoldsAtMostLimit(before, key, now, limit, window);
        OldestDecides(AllowedSince(before, key), now, now - window, later[n].at - window);
        assert false;
      }
    }
  }

  // ----- trimming

  /** What remains of a list once times up to the cutoff are dropped from its front. */
  function Trim(entries: seq<int>, cutoff: int): (kept: seq<int>)
    ensures kept != [] ==> kept[0] > cutoff
  {
    if entries == [] || entries[0] > cutoff then entries else Trim(entries[1..], cutoff)
  }

  method TrimExpired(entries: seq<int>, cutoff: int) returns (kept: seq<int>)
    ensures kept == Trim(entries, cutoff)
  {
    for i := 0 to |entries|
      invariant Trim(entries, cutoff) == Trim(entries[i..], cutoff)
    {
      if entries[i] > cutoff {
        return entries[i..];
      }
    }
    return [];
  }

  /** `kept` is `full` without some leading times, none of them later than `cutoff`. */
  ghost predicate Trimmed(full: seq<int>, kept: seq<int>, cutoff: int) {
    full == kept || (full != [] && full[0] <= cutoff && Trimmed(full[1..], kept, cutoff))
  }

  lemma {:induction false} TrimmedAgain(full: seq<int>, kept: seq<int>, early: int, late: int)
    requires Trimmed(full, kept, early) && early <= late
    ensures Trimmed(full, kept, late)
    ensures Trimmed(full, Trim(kept, late), late)
    decreases |full|
  {
    if full != kept {
      TrimmedAgain(full[1..], kept, early, late);
    } else if kept != [] && kept[0] <= late {
      TrimmedAgain(full[1..], kept[1..], early, late);
    }
  }

  lemma {:induction false} TrimmedAppend(full: seq<int>, kept: seq<int>, cutoff: int, at: int)
    requires Trimmed(full, kept, cutoff)
    ensures Trimmed(full + [at], kept + [at], cutoff)
  {
    if full != kept {
      TrimmedAppend(full[1..], kept, cutoff, at);
      assert (full + [at])[1..] == full[1..] + [at];
    }
  }

  /** Counting the times later than the cutoff in the full list is trimming what was kept of it. */
  lemma {:induction false} TrimmedIsCounted(full: seq<int>, kept: seq<int>, now: int, early: int, cutoff: int)
    requires SortedUpTo(full, now) && Trimmed(full, kept, early) && early <= cutoff
    ensures After(full, cutoff) == Trim(kept, cutoff)
    decreases |full|
  {
    if full != kept {
      SortedTail(full, now);
      TrimmedIsCounted(full[1..], kept, now, early, cutoff);
    } else if full != [] {
      if full[0] > cutoff {
        NoneExpired(full, now, cutoff);
      } else {
        SortedTail(full, now);
        TrimmedIsCounted(full[1..], full[1..], now, early, cutoff);
      }
    }
  }

  // ----- what is kept

  /** A key that is not in the map has no times. */
  function TimesOf(entries: map<Key, seq<int>>, key: Key): seq<int> {
    if key in entries then entries[key] else []
  }

  /** For every key, what is kept is its full list without times that can no longer count. */
  ghost predicate Keeps(history: seq<Event>, entries: map<Key, seq<int>>, cutoff: int) {
    forall key {:trigger TimesOf(entries, key)} ::
      Trimmed(AllowedSince(history, key), TimesOf(entries, key), cutoff)
  }

  /** What trimming leaves of a kept list is what the counter counts. */
  lemma KeptIsCounted(history: seq<Event>, entries: map<Key, seq<int>>, key: Key, now: int, cutoff: int, limit: int,
          window: int)
    requires Consistent(history, limit, window) && NotAfter(history, now)
    requires Keeps(history, entries, cutoff)
    ensures After(AllowedSince(history, key), cutoff) == Trim(TimesOf(entries, key), cutoff)
  {
    AllowedSinceSorted(history, key, now, limit, window);
    assert Trimmed(AllowedSince(history, key), TimesOf(entries, key), cutoff);
    TrimmedIsCounted(AllowedSince(history, key), TimesOf(entries, key), now, cutoff, cutoff);
  }

  lemma KeepsLater(history: seq<Event>, entries: map<Key, seq<int>>, early: int, late: int)
    requires Keeps(history, entries, early) && early <= late
    ensures Keeps(history, entries, late)
  {
    forall key ensures Trimmed(AllowedSince(history, key), TimesOf(entries, key), late) {
      TrimmedAgain(AllowedSince(history, key), TimesOf(entries, key), early, late);
    }
  }

  /** Trimming the list of one key, or dropping the key when nothing is left, keeps every list. */
  lemma KeepsTrimmed(history: seq<Event>, entries: map<Key, seq<int>>, key: Key, after: map<Key, seq<int>>, cutoff: int)
    requires Keeps(history, entries, cutoff)
    requires TimesOf(after, key) == Trim(TimesOf(entries, key), cutoff)
    requires forall k :: k != key ==> TimesOf(after, k) == TimesOf(entries, k)
    ensures Keeps(history, after, cutoff)
  {
    forall k ensures Trimmed(AllowedSince(history, k), TimesOf(after, k), cutoff) {
      TrimmedAgain(AllowedSince(history, k), TimesOf(entries, k), cutoff, cutoff);
    }
  }

  /** How one more event moves the full lists and the kept ones together. */
  lemma KeepsRecorded(history: seq<Event>, entries: map<Key, seq<int>>, e: Event, after: map<Key, seq<int>>,
          cutoff: int)
    requires Keeps(history, entries, cutoff)
    requires match e
             case Allowed(key, at) => after == entries[key := TimesOf(entries, key) + [at]]
             case Denied(key, _) => after == entries
             case Reset(key) => after == entries - {key}
    ensures Keeps(history + [e], after, cutoff)
  {
    assert (history + [e])[..|history + [e]| - 1] == history;
    forall k ensures Trimmed(AllowedSince(history + [e], k), TimesOf(after, k), cutoff) {
      assert Trimmed(AllowedSince(history, k), TimesOf(entries, k), cutoff);
      if e.Allowed? && e.key == k {
        TrimmedAppend(AllowedSince(history, k), TimesOf(entries, k), cutoff, e.at);
      }
    }
  }

  /** A denied call adds no time, so both lists stay. */
  lemma DeniedRecorded(history: seq<Event>, entries: map<Key, seq<int>>, key: Key, current: seq<int>, now: int,
          limit: int, window: int)
    requires Recorded(history, entries, now, limit, window)
    requires current == Trim(TimesOf(entries, key), now - window) == InWindow(history, key, now, window)
    requires |current| >= limit
    ensures Recorded(history + [Denied(key, now)], entries[key := current], now, limit, window)
  {
    KeepsTrimmed(history, entries, key, entries[key := current], now - window);
    KeepsRecorded(history, entries[key := current], Denied(key, now), entries[key := current], now - window);
    RecordConsistent(history, Denied(key, now), now, limit, window);
  }

  /** An allowed call adds its time to both lists. */
  lemma AllowedRecorded(history: seq<Event>, entries: map<Key, seq<int>>, key: Key, current: seq<int>, now: int,
          limit: int, window: int)
    requires Recorded(history, entries, now, limit, window)
    requires current == Trim(TimesOf(entries, key), now - window) == InWindow(history, key, now, window)
    requires |current| < limit
    ensures Recorded(history + [Allowed(key, now)], entries[key := current + [now]], now, limit, window)
  {
    var trimmed, after := entries[key := current], entries[key := current + [now]];
    KeepsTrimmed(history, entries, key, trimmed, now - window);
    assert after == trimmed[key := TimesOf(trimmed, key) + [now]];
    KeepsRecorded(history, trimmed, Allowed(key, now), after, now - window);
    RecordConsistent(history, Allowed(key, now), now, limit, window);
  }

  /** The limiter's object invariant, as a relation between its history and its map. */
  ghost predicate Recorded(history: seq<Event>, entries: map<Key, seq<int>>, now: int, limit: int, window: int) {
    Consistent(history, limit, window) && NotAfter(history, now) && Keeps(history, entries, now - window)
  }

  // ----- one call as a function, whatever the clock says

  /** What the limiter keeps, and every call made so far. */
  datatype State = State(entries: map<Key, seq<int>>, nextCleanup: Option<int>, history: seq<Event>)

  datatype Call = Try(key: Key, now: int) | Forget(key: Key)

  const INITIAL: State := State(map[], None, [])

  /** Expired times dropped for every key, and keys that have none left. */
  function Cleaned(entries: map<Key, seq<int>>, cutoff: int): map<Key, seq<int>> {
    map key | key in entries && Trim(entries[key], cutoff) != [] :: Trim(entries[key], cutoff)
  }

  predicate CleanupDue(s: State, now: int) {
    s.nextCleanup.None? || now >= s.nextCleanup.value
  }

  /** The map and the next cleanup after the periodic cleanup of a call at `now`. */
  function AfterCleanup(s: State, now: int, window: int): State {
    if CleanupDue(s, now) then s.(entries := Cleaned(s.entries, now - window), nextCleanup := Some(now + window / 2))
    else s
  }

  /** The times that a call counts. */
  function Counted(s: State, key: Key, now: int, window: int): seq<int> {
    Trim(TimesOf(s.entries, key), now - window)
  }

  function Next(s: State, call: Call, limit: int, window: int): State {
    match call
    case Forget(key) => s.(entries := s.entries - {key}, history := s.history + [Reset(key)])
    case Try(key, now) =>
      var cleaned, counted := AfterCleanup(s, now, window), Counted(s, key, now, window);
      if |counted| >= limit then
        cleaned.(entries := cleaned.entries[key := counted], history := s.history + [Denied(key, now)])
      else
        cleaned.(entries := cleaned.entries[key := counted + [now]], history := s.history + [Allowed(key, now)])
  }

  /** What is kept of a key's times is always the end of the full list: only times at its front were forgotten. */
  predicate KeepsTheEnd(full: seq<int>, kept: seq<int>) {
    |kept| <= |full| && full[|full| - |kept|..] == kept
  }

  function Forgotten(full: seq<int>, kept: seq<int>): seq<int>
    requires KeepsTheEnd(full, kept)
  {
    full[..|full| - |kept|]
  }

  ghost predicate Suffixes(s: State) {
    forall key {:trigger TimesOf(s.entries, key)} :: KeepsTheEnd(AllowedSince(s.history, key), TimesOf(s.entries, key))
  }

  lemma {:induction false} TrimIsEnd(entries: seq<int>, cutoff: int)
    ensures KeepsTheEnd(entries, Trim(entries, cutoff))
  {
    if entries != [] && entries[0] <= cutoff {
      TrimIsEnd(entries[1..], cutoff);
      var kept := Trim(entries, cutoff);
      assert entries[|entries| - |kept|..] == entries[1..][|entries| - 1 - |kept|..];
    }
  }

  lemma EndOfEnd(full: seq<int>, middle: seq<int>, kept: seq<int>)
    requires KeepsTheEnd(full, middle) && KeepsTheEnd(middle, kept)
    ensures KeepsTheEnd(full, kept)
  {
    assert full[|full| - |kept|..] == full[|full| - |middle|..][|middle| - |kept|..];
  }

  lemma EndAppended(full: seq<int>, kept: seq<int>, at: int)
    requires KeepsTheEnd(full, kept)
    ensures KeepsTheEnd(full + [at], kept + [at])
  {
    assert (full + [at])[|full| - |kept|..] == full[|full| - |kept|..] + [at];
  }

  lemma {:induction false} TrimTwice(entries: seq<int>, cutoff: int)
    ensures Trim(Trim(entries, cutoff), cutoff) == Trim(entries, cutoff)
  {
    if entries != [] && entries[0] <= cutoff {
      TrimTwice(entries[1..], cutoff);
    }
  }

  lemma CleanedTimes(entries: map<Key, seq<int>>, cutoff: int, key: Key)
    ensures TimesOf(Cleaned(entries, cutoff), key) == Trim(TimesOf(entries, key), cutoff)
  {
  }

  lemma CountedAfterCleanup(s: State, now: int, window: int, key: Key)
    ensures Counted(AfterCleanup(s, now, window), key, now, window) == Counted(s, key, now, window)
  {
    CleanedTimes(s.entries, now - window, key);
    TrimTwice(TimesOf(s.entries, key), now - window);
  }

  lemma TimesRecorded(history: seq<Event>, e: Event, key: Key)
    ensures AllowedSince(history + [e], key) ==
            if e.key != key || e.Denied? then AllowedSince(history, key)
            else if e.Allowed? then AllowedSince(history, key) + [e.at]
            else []
  {
    assert (history + [e])[..|history|] == history;
  }

  /** What a call leaves of the times of a key, its own or another. */
  lemma TimesAfterTry(s: State, key: Key, now: int, limit: int, window: int, k: Key)
    ensures var kept, counted := TimesOf(s.entries, k), Counted(s, k, now, window);
            TimesOf(Next(s, Try(key, now), limit, window).entries, k) ==
            if k != key then (if CleanupDue(s, now) then counted else kept)
            else if |counted| >= limit then counted
            else counted + [now]
  {
    CleanedTimes(s.entries, now - window, k);
  }

  /** Every call, with whatever clock reading, forgets times at the front only. */
  lemma NextKeepsTheEnd(s: State, call: Call, limit: int, window: int)
    requires Suffixes(s)
    ensures Suffixes(Next(s, call, limit, window))
  {
    var after := Next(s, call, limit, window);
    forall key ensures KeepsTheEnd(AllowedSince(after.history, key), TimesOf(after.entries, key)) {
      assert KeepsTheEnd(AllowedSince(s.history, key), TimesOf(s.entries, key));
      if call.Forget? {
        TimesRecorded(s.history, Reset(call.key), key);
      } else {
        TryKeepsTheEnd(s, call.key, call.now, limit, window, key);
      }
    }
  }

  lemma TryKeepsTheEnd(s: State, key: Key, now: int, limit: int, window: int, k: Key)
    requires KeepsTheEnd(AllowedSince(s.history, k), TimesOf(s.entries, k))
    ensures var after := Next(s, Try(key, now), limit, window);
            KeepsTheEnd(AllowedSince(after.history, k), TimesOf(after.entries, k))
  {
    var full, kept, counted := AllowedSince(s.history, k), TimesOf(s.entries, k), Counted(s, k, now, window);
    TimesAfterTry(s, key, now, limit, window, k);
    TimesRecorded(s.history, Denied(key, now), k);
    TimesRecorded(s.history, Allowed(key, now), k);
    TrimIsEnd(kept, now - window);
    EndOfEnd(full, kept, counted);
    EndAppended(full, counted, now);
  }

  // ----- one call, when the clock does not go back

  lemma RecordedLater(s: State, early: int, late: int, limit: int, window: int)
    requires Recorded(s.history, s.entries, early, limit, window) && early <= late
    ensures Recorded(s.history, s.entries, late, limit, window)
  {
    NotAfterLater(s.history, early, late);
    KeepsLater(s.history, s.entries, early - window, late - window);
  }

  /** A call that does not read an earlier time than the calls before counts what the counter counts. */
  lemma TryIsRecorded(s: State, key: Key, now: int, limit: int, window: int)
    requires limit > 0 && window > 0 && Recorded(s.history, s.entries, now, limit, window)
    ensures Counted(s, key, now, window) == InWindow(s.history, key, now, window)
    ensures var after := Next(s, Try(key, now), limit, window);
            Recorded(after.history, after.entries, now, limit, window)
  {
    var cleaned, counted := AfterCleanup(s, now, window), Counted(s, key, now, window);
    KeepsCleaned(s.history, s.entries, now - window);
    KeptIsCounted(s.history, s.entries, key, now, now - window, limit, window);
    CountedAfterCleanup(s, now, window, key);
    if |counted| >= limit {
      DeniedRecorded(s.history, cleaned.entries, key, counted, now, limit, window);
    } else {
      AllowedRecorded(s.history, cleaned.entries, key, counted, now, limit, window);
    }
  }

  // ----- the limiter itself

  class RateLimiter {
    var entries: map<Key, seq<int>>
    const limit: int
    const window: int
    var nextCleanup: Option<int>

    /** Every call made so far, and the time of the latest one. */
    ghost var history: seq<Event>
    ghost var clock: int

    ghost function Abstract(): State
      reads this
    {
      State(entries, nextCleanup, history)
    }

    ghost predicate Valid()
      reads this
    {
      limit > 0 && window > 0 && Suffixes(Abstract())
    }

    /** No clock reading so far was earlier than the one before it. */
    ghost predicate InOrder()
      reads this
    {
      Recorded(history, entries, clock, limit, window)
    }

    constructor (requestedLimit: int, requestedWindow: int, ghost start: int)
      ensures Valid() && InOrder() && Abstract() == INITIAL && clock == start
      ensures limit == if requestedLimit <= 0 then 5 else requestedLimit
      ensures window == if requestedWindow <= 0 then 600_000_000_000 else requestedWindow
    {
      entries := map[];
      limit := if requestedLimit <= 0 then DEFAULT_RATE_LIMIT else requestedLimit;
      window := if requestedWindow <= 0 then DEFAULT_RATE_WINDOW else requestedWindow;
      nextCleanup := None;
      history := [];
      clock := start;
    }

    /**
     One call with any clock reading.  While the readings are in order it answers
     exactly as the full-history counter does, and exactly how long to wait.
     */
    method Allow(key: Key, now: int) returns (allowed: bool, retryAfter: int)
      requires Valid()
      modifies this
      ensures Valid() && Abstract() == Next(old(Abstract()), Try(key, now), limit, window)
      ensures history == old(history) + [if allowed then Allowed(key, now) else Denied(key, now)]
      ensures allowed ==> retryAfter == 0
      ensures !allowed ==>
                var counted := Counted(old(Abstract()), key, now, window);
                counted != [] && retryAfter == counted[0] + window - now > 0
      ensures old(InOrder()) && old(clock) <= now ==> InOrder() && clock == now
      ensures old(InOrder()) && old(clock) <= now ==>
                (allowed <==> |InWindow(old(history), key, now, window)| < limit)
      ensures old(InOrder()) && old(clock) <= now && !allowed ==>
                InWindow(old(history), key, now, window) != []
                && retryAfter == RetryAfter(old(history), key, now, window)
    {
      ghost var before, last, inOrder := Abstract(), clock, InOrder() && clock <= now;
      allowed, retryAfter := AllowLocked(key, now);
      clock := now;
      NextKeepsTheEnd(before, Try(key, now), limit, window);
      if inOrder {
        RecordedLater(before, last, now, limit, window);
        TryIsRecorded(before, key, now, limit, window);
      }
    }

    /** The part under the mutex. */
    method AllowLocked(key: Key, now: int) returns (allowed: bool, retryAfter: int)
      requires limit > 0
      modifies this`entries, this`nextCleanup, this`history
      ensures Abstract() == Next(old(Abstract()), Try(key, now), limit, window)
      ensures allowed <==> |Counted(old(Abstract()), key, now, window)| < limit
      ensures allowed ==> retryAfter == 0
      ensures !allowed ==>
                var counted := Counted(old(Abstract()), key, now, window);
                counted != [] && retryAfter == counted[0] + window - now > 0
    {
      ghost var before := Abstract();
      var cutoff := now - window;
      CleanupIfDue(now, cutoff);
      var current := TrimExpired(TimesOf(entries, key), cutoff);
      CountedAfterCleanup(before, now, window, key);
      if |current| >= limit {
        entries := entries[key := current];
        history := history + [Denied(key, now)];
        return false, if current[0] + window - now > 0 then current[0] + window - now else 0;
      }
      entries := entries[key := current + [now]];
      history := history + [Allowed(key, now)];
      return true, 0;
    }

    /** Every so often expired times of all keys are dropped. */
    method CleanupIfDue(now: int, cutoff: int)
      requires cutoff == now - window
      modifies this`entries, this`nextCleanup
      ensures Abstract() == AfterCleanup(old(Abstract()), now, window)
    {
      if nextCleanup.None? || now >= nextCleanup.value {
        CleanupLocked(cutoff);
        nextCleanup := Some(now + window / 2);
      }
    }

    /** Forgets the key; the counter starts again from nothing. */
    method ResetKey(key: Key)
      requires Valid()
      modifies this
      ensures Valid() && Abstract() == Next(old(Abstract()), Forget(key), limit, window)
      ensures history == old(history) + [Reset(key)]
      ensures key !in entries && entries.Keys == old(entries).Keys - {key} && nextCleanup == old(nextCleanup)
      ensures forall k :: k in entries ==> entries[k] == old(entries)[k]
      ensures old(InOrder()) ==> InOrder() && clock == old(clock)
    {
      NextKeepsTheEnd(Abstract(), Forget(key), limit, window);
      if InOrder() {
        KeepsRecorded(history, entries, Reset(key), entries - {key}, clock - window);
        RecordConsistent(history, Reset(key), clock, limit, window);
      }
      entries := entries - {key};
      history := history + [Reset(key)];
    }

    /** Drops expired times of every key, and keys that have none left. */
    method CleanupLocked(cutoff: int)
      modifies this`entries
      ensures entries == Cleaned(old(entries), cutoff)
    {
      ghost var before := entries;
      var remaining := entries.Keys;
      while remaining != {}
        invariant remaining <= before.Keys
        invariant forall key :: key in remaining ==> key in entries && entries[key] == before[key]
        invariant forall key :: key in before && key !in remaining ==>
                    if Trim(before[key], cutoff) == [] then key !in entries
                    else key in entries && entries[key] == Trim(before[key], cutoff)
        invariant entries.Keys <= before.Keys
        decreases remaining
      {
        var key :| key in remaining;
        var kept := TrimExpired(entries[key], cutoff);
        if kept == [] {
          entries := entries - {key};
        } else {
          entries := entries[key := kept];
        }
        remaining := remaining - {key};
      }
    }
  }

  /** Cleaning up keeps every list. */
  lemma KeepsCleaned(history: seq<Event>, entries: map<Key, seq<int>>, cutoff: int)
    requires Keeps(history, entries, cutoff)
    ensures Keeps(history, Cleaned(entries, cutoff), cutoff)
  {
    forall key ensures Trimmed(AllowedSince(history, key), TimesOf(Cleaned(entries, cutoff), key), cutoff) {
      TrimmedAgain(AllowedSince(history, key), TimesOf(entries, key), cutoff, cutoff);
    }
  }

  lemma {:induction false} NotAfterLater(history: seq<Event>, early: int, late: int)
    requires NotAfter(history, early) && early <= late
    ensures NotAfter(history, late)
  {
    if history != [] {
      NotAfterLater(history[..|history| - 1], early, late);
    }
  }

  /** An event answered as the counter answers keeps the history consistent. */
  lemma RecordConsistent(history: seq<Event>, e: Event, now: int, limit: int, window: int)
    requires Consistent(history, limit, window) && NotAfter(history, now)
    requires !e.Reset? ==> e.at == now
    requires e.Allowed? ==> |InWindow(history, e.key, e.at, window)| < limit
    requires e.Denied? ==> |InWindow(history, e.key, e.at, window)| >= limit
    ensures Consistent(history + [e], limit, window) && NotAfter(history + [e], now)
  {
    assert (history + [e])[..|history + [e]| - 1] == history;
  }
}
