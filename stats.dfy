/**
 * The statistics engine of the result screen: which storage keys count as
 * played days, how they are ordered, and the fold that yields games played,
 * average score and the current and longest streak of consecutive days.
 */
module Stats {
  import opened Basics
  import opened Calendar
  import opened Keys
  import opened Ordering
  import opened Records

  /** `{played, avgScore, currentStreak, maxStreak}`. */
  datatype Stats = Stats(played: nat, avgScore: real, currentStreak: nat, maxStreak: nat)

  const MsPerDay: nat := 1000 * 60 * 60 * 24

  function Max(a: nat, b: nat): (m: nat)
    ensures m >= a && m >= b && (m == a || m == b)
  {
    if a < b then b else a
  }

  /** What the fold reads under a key the pattern selects: a day's result for a real date, with a non-zero question count. */
  predicate Readable(store: Store, k: string) {
    k in store && ValidDateKey(k) && store[k].DailyValue? && store[k].daily.totalQuestions != 0
  }

  /** Every key of the store that the pattern selects can be read. */
  ghost predicate StatsReady(store: Store) {
    forall k :: k in store && IsDateKey(k) ==> Readable(store, k)
  }

  /** The keys `calculateStats` keeps: those matching `^<prefix>_\d{4}-\d{2}-\d{2}$`. */
  ghost function DateKeysOf(store: Store): set<string> {
    set k | k in store && IsDateKey(k)
  }

  ghost function SetToSeq(s: set<string>): (r: seq<string>)
    ensures Distinct(r) && |r| == |s|
    ensures forall x :: x in r <==> x in s
    decreases |s|
  {
    if s == {} then []
    else
      var x :| x in s;
      [x] + SetToSeq(s - {x})
  }

  /** The selected keys in the order `dateKeys.sort()` leaves them. */
  ghost function SortedDateKeys(store: Store): (keys: seq<string>)
    ensures StrictlyAscending(keys)
    ensures forall k :: k in keys <==> k in store && IsDateKey(k)
  {
    SortAscending(SetToSeq(DateKeysOf(store)));
    Sort(SetToSeq(DateKeysOf(store)))
  }

  /**
   * `isConsecutiveDate(date1, date2)`: the absolute gap between the two
   * midnights in milliseconds, rounded up to whole days, is one.
   */
  function IsConsecutiveDate(date1: string, date2: string): bool
    requires ValidDateKey(date1) && ValidDateKey(date2)
  {
    var diffTime := Abs(DaysFromCivil(DateOfKey(date1)) - DaysFromCivil(DateOfKey(date2))) * MsPerDay;
    var diffDays := (diffTime + MsPerDay - 1) / MsPerDay;
    diffDays == 1
  }

  /** `isConsecutiveDate` is symmetric and holds exactly when one date is the calendar day after the other. */
  lemma ConsecutiveMeansNextDay(date1: string, date2: string)
    requires ValidDateKey(date1) && ValidDateKey(date2)
    ensures IsConsecutiveDate(date1, date2) == IsConsecutiveDate(date2, date1)
    ensures IsConsecutiveDate(date1, date2) <==>
              DateOfKey(date2) == NextDay(DateOfKey(date1)) || DateOfKey(date1) == NextDay(DateOfKey(date2))
  {
    var d1, d2 := DateOfKey(date1), DateOfKey(date2);
    var x, y := DaysFromCivil(d1), DaysFromCivil(d2);
    WholeDays(x, y);
    assert IsConsecutiveDate(date1, date2) == (Abs(x - y) == 1);
    assert IsConsecutiveDate(date2, date1) == (Abs(x - y) == 1);
    OneDayApart(d1, d2);
    OneDayApart(d2, d1);
  }

  /** Rounding a whole number of days in milliseconds up to days gives the number back. */
  lemma WholeDays(x: int, y: int)
    ensures (Abs(x - y) * MsPerDay + MsPerDay - 1) / MsPerDay == Abs(x - y)
    ensures (Abs(y - x) * MsPerDay + MsPerDay - 1) / MsPerDay == Abs(x - y)
  {
    var gap := Abs(x - y);
    assert Abs(y - x) == gap;
    assert gap * MsPerDay + MsPerDay - 1 == gap * MsPerDay + (MsPerDay - 1);
  }

  /** `(score / totalQuestions) * 100`. */
  function Percent(r: DailyResult): real
    requires r.totalQuestions != 0
  {
    (r.score as real / r.totalQuestions as real) * 100.0
  }

  /** `Math.round`: the nearest integer, halves rounded up. */
  function Round(x: real): (n: int)
    ensures n as real - 0.5 <= x < n as real + 0.5
  {
    (x + 0.5).Floor
  }

  /** `played ? Math.round(totalScore / played) / 10 : 0`. */
  function AvgScore(totalScore: real, played: nat): real {
    if played == 0 then 0.0 else (Round(totalScore / played as real) as real) / 10.0
  }

  predicate ValidKeyAt(keys: seq<string>, i: nat)
    requires i < |keys|
  {
    ValidDateKey(keys[i])
  }

  /** Every key of the sequence is a date key of a real date. */
  predicate AllValidKeys(keys: seq<string>) {
    forall i :: 0 <= i < |keys| ==> ValidKeyAt(keys, i)
  }

  predicate ReadableAt(store: Store, keys: seq<string>, i: nat)
    requires i < |keys|
  {
    Readable(store, keys[i])
  }

  /** Every key of the sequence can be read from the store. */
  predicate AllReadable(store: Store, keys: seq<string>) {
    forall i :: 0 <= i < |keys| ==> ReadableAt(store, keys, i)
  }

  lemma ReadableKeysAreValid(store: Store, keys: seq<string>)
    requires AllReadable(store, keys)
    ensures AllValidKeys(keys)
  {
    forall i | 0 <= i < |keys| ensures ValidKeyAt(keys, i) {
      assert ReadableAt(store, keys, i);
    }
  }

  /** `totalScore` after the first `n` keys. */
  function TotalScore(keys: seq<string>, store: Store, n: nat): real
    requires n <= |keys| && AllReadable(store, keys)
  {
    if n == 0 then 0.0
    else
      assert ReadableAt(store, keys, n - 1);
      TotalScore(keys, store, n - 1) + Percent(store[keys[n - 1]].daily)
  }

  lemma TotalScoreStep(keys: seq<string>, store: Store, n: nat)
    requires n < |keys| && AllReadable(store, keys)
    ensures Readable(store, keys[n])
    ensures TotalScore(keys, store, n + 1) == TotalScore(keys, store, n) + Percent(store[keys[n]].daily)
  {
    assert ReadableAt(store, keys, n);
  }

  /** Whether key `i` is a neighbouring day of key `i - 1`. */
  predicate Neighbours(keys: seq<string>, i: nat)
    requires 0 < i < |keys| && AllValidKeys(keys)
  {
    assert ValidKeyAt(keys, i - 1) && ValidKeyAt(keys, i);
    IsConsecutiveDate(keys[i - 1], keys[i])
  }

  /** `links[i]`: whether key `i` continues the streak of key `i - 1` (never so for the first key). */
  function Links(keys: seq<string>): (links: seq<bool>)
    requires AllValidKeys(keys)
    ensures |links| == |keys|
  {
    seq(|keys|, i requires 0 <= i < |keys| => i > 0 && Neighbours(keys, i))
  }

  lemma LinkAt(keys: seq<string>, i: nat)
    requires AllValidKeys(keys) && 0 < i < |keys|
    ensures ValidDateKey(keys[i - 1]) && ValidDateKey(keys[i])
    ensures Links(keys)[i] == IsConsecutiveDate(keys[i - 1], keys[i])
  {
    assert ValidKeyAt(keys, i - 1) && ValidKeyAt(keys, i);
  }

  /** `streakCount` after key `i`: 1 at the first key, one more when key `i` continues from key `i - 1`, else 1 again. */
  function Streak(links: seq<bool>, i: nat): nat
    requires i < |links|
  {
    if i == 0 then 1
    else if links[i] then Streak(links, i - 1) + 1
    else 1
  }

  lemma StreakStep(links: seq<bool>, i: nat)
    requires 0 < i < |links|
    ensures Streak(links, i) == if links[i] then Streak(links, i - 1) + 1 else 1
  {
  }

  /** `maxStreak` after the first `n` keys: the running maximum of `streakCount`. */
  function MaxStreak(links: seq<bool>, n: nat): nat
    requires n <= |links|
  {
    if n == 0 then 0 else Max(MaxStreak(links, n - 1), Streak(links, n - 1))
  }

  /** The figures the fold produces over `keys`, taken in order. */
  function StatsOf(keys: seq<string>, store: Store): Stats
    requires AllReadable(store, keys)
  {
    ReadableKeysAreValid(store, keys);
    var links := Links(keys);
    Stats(|keys|,
          AvgScore(TotalScore(keys, store, |keys|), |keys|),
          if keys == [] then 0 else Streak(links, |keys| - 1),
          MaxStreak(links, |keys|))
  }

  lemma StatsOfParts(keys: seq<string>, store: Store)
    requires AllReadable(store, keys)
    ensures AllValidKeys(keys)
    ensures StatsOf(keys, store) ==
              Stats(|keys|, AvgScore(TotalScore(keys, store, |keys|), |keys|),
                    if keys == [] then 0 else Streak(Links(keys), |keys| - 1), MaxStreak(Links(keys), |keys|))
  {
    ReadableKeysAreValid(store, keys);
  }

  lemma SortedDateKeysReadable(store: Store)
    requires StatsReady(store)
    ensures AllReadable(store, SortedDateKeys(store))
  {
    var keys := SortedDateKeys(store);
    forall i | 0 <= i < |keys| ensures ReadableAt(store, keys, i) {
      assert keys[i] in keys;
    }
  }

  /** The statistics of a store. */
  ghost function StoreStats(store: Store): Stats
    requires StatsReady(store)
  {
    SortedDateKeysReadable(store);
    StatsOf(SortedDateKeys(store), store)
  }

  /** The first loop of `calculateStats`: the keys that match the pattern, in the store's enumeration order. */
  method CollectDateKeys(store: Store) returns (dateKeys: seq<string>)
    ensures Distinct(dateKeys)
    ensures forall k :: k in dateKeys <==> k in store && IsDateKey(k)
  {
    dateKeys := [];
    var unseen := store.Keys;
    while unseen != {}
      invariant unseen <= store.Keys
      invariant Distinct(dateKeys)
      invariant forall k :: k in dateKeys <==> k in store && IsDateKey(k) && k !in unseen
      decreases |unseen|
    {
      var key :| key in unseen;
      if IsDateKey(key) {
        dateKeys := dateKeys + [key];
      }
      unseen := unseen - {key};
    }
  }

  /** The streak step of the fold: start at 1 on the first key, continue from the key before when it is the previous day, else start over. */
  method NextStreak(dateKeys: seq<string>, i: nat, streakCount: nat) returns (next: nat)
    requires AllValidKeys(dateKeys) && i < |dateKeys|
    requires i > 0 ==> streakCount == Streak(Links(dateKeys), i - 1)
    ensures next == Streak(Links(dateKeys), i)
  {
    if i == 0 {
      next := 1;
    } else {
      LinkAt(dateKeys, i);
      StreakStep(Links(dateKeys), i);
      if IsConsecutiveDate(dateKeys[i - 1], dateKeys[i]) {
        next := streakCount + 1;
      } else {
        next := 1;
      }
    }
  }

  /** The figures the fold holds after the first `i` keys. */
  predicate FoldedUpTo(dateKeys: seq<string>, store: Store, i: nat,
                       played: nat, totalScore: real, streakCount: nat, maxStreak: nat, currentStreak: nat)
    requires AllReadable(store, dateKeys) && AllValidKeys(dateKeys) && i <= |dateKeys|
  {
    played == i
    && totalScore == TotalScore(dateKeys, store, i)
    && streakCount == (if i == 0 then 0 else Streak(Links(dateKeys), i - 1))
    && maxStreak == MaxStreak(Links(dateKeys), i)
    && currentStreak == (if i == |dateKeys| && i > 0 then Streak(Links(dateKeys), i - 1) else 0)
  }

  /** Once every key is folded, the four figures are those of the whole sequence. */
  lemma FoldedAll(dateKeys: seq<string>, store: Store,
                  played: nat, totalScore: real, streakCount: nat, maxStreak: nat, currentStreak: nat)
    requires AllReadable(store, dateKeys) && AllValidKeys(dateKeys)
    requires FoldedUpTo(dateKeys, store, |dateKeys|, played, totalScore, streakCount, maxStreak, currentStreak)
    ensures Stats(played, AvgScore(totalScore, played), currentStreak, maxStreak) == StatsOf(dateKeys, store)
  {
    StatsOfParts(dateKeys, store);
  }

  /** One pass of the fold's loop body over key `i`. */
  method FoldKey(dateKeys: seq<string>, store: Store, today: string, i: nat,
                 played: nat, totalScore: real, streakCount: nat, maxStreak: nat, currentStreak: nat)
    returns (played': nat, totalScore': real, streakCount': nat, maxStreak': nat, currentStreak': nat)
    requires AllReadable(store, dateKeys) && AllValidKeys(dateKeys) && i < |dateKeys| && |today| == 10
    requires FoldedUpTo(dateKeys, store, i, played, totalScore, streakCount, maxStreak, currentStreak)
    ensures FoldedUpTo(dateKeys, store, i + 1, played', totalScore', streakCount', maxStreak', currentStreak')
  {
    var key := dateKeys[i];
    TotalScoreStep(dateKeys, store, i);
    var gameData := store[key].daily;
    played' := played + 1;
    totalScore' := totalScore + Percent(gameData);
    streakCount' := NextStreak(dateKeys, i, streakCount);
    maxStreak' := Max(maxStreak, streakCount');
    // a selected key is 23 characters long and `today` 10, so only the last key sets the current streak
    assert |key| != |today|;
    currentStreak' := currentStreak;
    if key == today || i == |dateKeys| - 1 {
      currentStreak' := streakCount';
    }
  }

  /** The second loop of `calculateStats`: fold the sorted keys into the four figures. */
  method FoldStats(dateKeys: seq<string>, store: Store, today: string) returns (stats: Stats)
    requires AllReadable(store, dateKeys)
    requires |today| == 10
    ensures stats == StatsOf(dateKeys, store)
  {
    ReadableKeysAreValid(store, dateKeys);
    var played: nat := 0;
    var totalScore: real := 0.0;
    var currentStreak: nat := 0;
    var maxStreak: nat := 0;
    var streakCount: nat := 0;
    for i := 0 to |dateKeys|
      invariant FoldedUpTo(dateKeys, store, i, played, totalScore, streakCount, maxStreak, currentStreak)
    {
      played, totalScore, streakCount, maxStreak, currentStreak :=
        FoldKey(dateKeys, store, today, i, played, totalScore, streakCount, maxStreak, currentStreak);
    }
    FoldedAll(dateKeys, store, played, totalScore, streakCount, maxStreak, currentStreak);
    stats := Stats(played, AvgScore(totalScore, played), currentStreak, maxStreak);
  }

  /**
   * `calculateStats`: collect the keys matching the pattern, sort them, fold
   * them into the four figures, and report whether the completion event is
   * sent (only when the puzzle was not found saved on load).
   */
  method CalculateStats(store: Store, now: Date, isPreviouslyCompleted: bool) returns (stats: Stats, emit: bool)
    requires StatsReady(store)
    requires ValidDate(now) && now.year < 10000
    ensures stats == StoreStats(store)
    ensures emit == !isPreviouslyCompleted
  {
    var dateKeys := CollectDateKeys(store);
    SortAscending(dateKeys);
    dateKeys := Sort(dateKeys);
    AscendingUnique(dateKeys, SortedDateKeys(store));
    SortedDateKeysReadable(store);
    var today := DateText(now);
    stats := FoldStats(dateKeys, store, today);
    emit := !isPreviouslyCompleted;
  }
}
