/**
 * Two worked stores: three consecutive perfect days beside a game's
 * progress record, and two days with a gap between them.
 */
module StatsExamples {
  import opened Calendar
  import opened Keys
  import opened Ordering
  import opened Records
  import opened Stats

  function Played(score: int, total: int): Value {
    DailyValue(DailyResult(score, total, []))
  }

  /** A real date early enough that it and the two days after it have four-digit years. */
  predicate Early(d: Date) {
    ValidDate(d) && d.year < 9998
  }

  /** Facts about the keys of `d` and the two days after it. */
  lemma ThreeDays(d: Date)
    requires Early(d)
    ensures var d1 := NextDay(d); var d2 := NextDay(d1);
            FitsDateText(d) && FitsDateText(d1) && FitsDateText(d2) &&
            ValidDateKey(DateKey(d)) && ValidDateKey(DateKey(d1)) && ValidDateKey(DateKey(d2)) &&
            DateOfKey(DateKey(d)) == d && DateOfKey(DateKey(d1)) == d1 && DateOfKey(DateKey(d2)) == d2 &&
            DaysFromCivil(d1) == DaysFromCivil(d) + 1 && DaysFromCivil(d2) == DaysFromCivil(d) + 2
  {
    var d1 := NextDay(d);
    var d2 := NextDay(d1);
    DateKeyRoundTrip(d);
    DateKeyRoundTrip(d1);
    DateKeyRoundTrip(d2);
  }

  /** Keys of valid dates with fewer days sort first. */
  lemma KeysAscend(k1: string, k2: string)
    requires ValidDateKey(k1) && ValidDateKey(k2)
    requires DaysFromCivil(DateOfKey(k1)) < DaysFromCivil(DateOfKey(k2))
    ensures LexLess(k1, k2)
  {
    KeyOrderIsChronological(k1, k2);
  }

  /** Keys of valid dates whose day numbers differ by `gap`: consecutive by `isConsecutiveDate` exactly when `gap` is one. */
  lemma ConsecutiveByGap(k1: string, k2: string, gap: int)
    requires ValidDateKey(k1) && ValidDateKey(k2)
    requires DaysFromCivil(DateOfKey(k2)) == DaysFromCivil(DateOfKey(k1)) + gap
    ensures IsConsecutiveDate(k1, k2) <==> gap == 1 || gap == -1
  {
    ConsecutiveMeansNextDay(k1, k2);
    OneDayApart(DateOfKey(k1), DateOfKey(k2));
    OneDayApart(DateOfKey(k2), DateOfKey(k1));
  }

  function ThreeDayStore(d: Date, gameNumber: int, progress: Progress): Store
    requires Early(d)
  {
    ThreeDays(d);
    map[DateKey(d) := Played(5, 5),
        DateKey(NextDay(d)) := Played(5, 5),
        DateKey(NextDay(NextDay(d))) := Played(5, 5),
        ProgressKey(gameNumber) := ProgressValue(progress)]
  }

  lemma ThreeDayDateKeys(d: Date, gameNumber: int, progress: Progress)
    requires Early(d)
    ensures forall k :: k in ThreeDayStore(d, gameNumber, progress) && IsDateKey(k) <==>
                        k in [DateKey(d), DateKey(NextDay(d)), DateKey(NextDay(NextDay(d)))]
  {
    ThreeDays(d);
    ProgressKeyIsNotDateKey(gameNumber);
  }

  /** The three date keys hold their day's result; the progress record does not overwrite them. */
  lemma ThreeDayValues(d: Date, gameNumber: int, progress: Progress)
    requires Early(d)
    ensures var store := ThreeDayStore(d, gameNumber, progress);
            DateKey(d) in store && DateKey(NextDay(d)) in store && DateKey(NextDay(NextDay(d))) in store &&
            store[DateKey(d)] == Played(5, 5) && store[DateKey(NextDay(d))] == Played(5, 5) &&
            store[DateKey(NextDay(NextDay(d)))] == Played(5, 5)
  {
    ThreeDays(d);
    ProgressKeyIsNotDateKey(gameNumber);
  }

  /** A store is ready for the fold when its selected keys are among readable `keys`. */
  lemma ReadyFromKeys(store: Store, keys: seq<string>)
    requires AllReadable(store, keys)
    requires forall k :: k in store && IsDateKey(k) ==> k in keys
    ensures StatsReady(store)
  {
    forall k | k in store && IsDateKey(k) ensures Readable(store, k) {
      var i :| 0 <= i < |keys| && keys[i] == k;
      assert ReadableAt(store, keys, i);
    }
  }

  /** A store whose selected keys are exactly `keys`, in ascending order, sorts them to `keys`. */
  lemma SortedAs(store: Store, keys: seq<string>)
    requires StrictlyAscending(keys)
    requires forall k :: k in store && IsDateKey(k) <==> k in keys
    ensures SortedDateKeys(store) == keys
  {
    AscendingUnique(keys, SortedDateKeys(store));
  }

  lemma ThreeAscending(k0: string, k1: string, k2: string)
    requires LexLess(k0, k1) && LexLess(k1, k2) && LexLess(k0, k2)
    ensures StrictlyAscending([k0, k1, k2])
  {
  }

  /** Three readable selected keys, each a day later than the one before, are the store's sorted date keys. */
  lemma ThreeKeysSorted(store: Store, k0: string, k1: string, k2: string)
    requires ValidDateKey(k0) && ValidDateKey(k1) && ValidDateKey(k2)
    requires DaysFromCivil(DateOfKey(k1)) == DaysFromCivil(DateOfKey(k0)) + 1
    requires DaysFromCivil(DateOfKey(k2)) == DaysFromCivil(DateOfKey(k0)) + 2
    requires k0 in store && k1 in store && k2 in store
    requires store[k0] == store[k1] == store[k2] == Played(5, 5)
    requires forall k :: k in store && IsDateKey(k) <==> k in [k0, k1, k2]
    ensures StatsReady(store)
    ensures SortedDateKeys(store) == [k0, k1, k2]
  {
    var keys := [k0, k1, k2];
    assert ReadableAt(store, keys, 0) && ReadableAt(store, keys, 1) && ReadableAt(store, keys, 2);
    ReadyFromKeys(store, keys);
    KeysAscend(k0, k1);
    KeysAscend(k1, k2);
    KeysAscend(k0, k2);
    ThreeAscending(k0, k1, k2);
    SortedAs(store, keys);
  }

  /** The three consecutive keys are the store's date keys, in order, each readable. */
  lemma ThreeDayKeys(d: Date, gameNumber: int, progress: Progress)
    requires Early(d)
    ensures StatsReady(ThreeDayStore(d, gameNumber, progress))
    ensures SortedDateKeys(ThreeDayStore(d, gameNumber, progress)) == [DateKey(d), DateKey(NextDay(d)), DateKey(NextDay(NextDay(d)))]
  {
    ThreeDays(d);
    ThreeDayDateKeys(d, gameNumber, progress);
    ThreeDayValues(d, gameNumber, progress);
    ThreeKeysSorted(ThreeDayStore(d, gameNumber, progress), DateKey(d), DateKey(NextDay(d)), DateKey(NextDay(NextDay(d))));
  }

  /** Streaks over three keys that each continue the one before, and over two keys that do not. */
  lemma StreaksOfLinks()
    ensures Streak([false, true, true], 2) == 3 && MaxStreak([false, true, true], 3) == 3
    ensures Streak([false, false], 1) == 1 && MaxStreak([false, false], 2) == 1
  {
    var three := [false, true, true];
    assert Streak(three, 1) == 2 && MaxStreak(three, 2) == 2;
  }

  lemma PercentOfPlayed()
    ensures Percent(Played(5, 5).daily) == 100.0 && Percent(Played(3, 5).daily) == 60.0
  {
  }

  /** The links of three keys that are each the day after the one before. */
  lemma ThreeLinks(keys: seq<string>)
    requires |keys| == 3 && AllValidKeys(keys)
    requires ValidKeyAt(keys, 0) && ValidKeyAt(keys, 1) && ValidKeyAt(keys, 2)
    requires IsConsecutiveDate(keys[0], keys[1]) && IsConsecutiveDate(keys[1], keys[2])
    ensures Links(keys) == [false, true, true]
  {
    assert Neighbours(keys, 1) && Neighbours(keys, 2);
  }

  /** The links of two keys that are not neighbouring days. */
  lemma TwoLinks(keys: seq<string>)
    requires |keys| == 2 && AllValidKeys(keys)
    requires ValidKeyAt(keys, 0) && ValidKeyAt(keys, 1)
    requires !IsConsecutiveDate(keys[0], keys[1])
    ensures Links(keys) == [false, false]
  {
    assert !Neighbours(keys, 1);
  }

  /** The running total over three perfect days. */
  lemma ThreePerfectTotal(store: Store, keys: seq<string>)
    requires |keys| == 3 && AllReadable(store, keys)
    requires keys[0] in store && keys[1] in store && keys[2] in store
    requires store[keys[0]] == store[keys[1]] == store[keys[2]] == Played(5, 5)
    ensures TotalScore(keys, store, 3) == 300.0
  {
    PercentOfPlayed();
    assert TotalScore(keys, store, 1) == 100.0;
    assert TotalScore(keys, store, 2) == 200.0;
  }

  /** The running total over a day at 3/5 and a day at 5/5. */
  lemma TwoDayTotal(store: Store, keys: seq<string>)
    requires |keys| == 2 && AllReadable(store, keys)
    requires keys[0] in store && keys[1] in store
    requires store[keys[0]] == Played(3, 5) && store[keys[1]] == Played(5, 5)
    ensures TotalScore(keys, store, 2) == 160.0
  {
    PercentOfPlayed();
    assert TotalScore(keys, store, 1) == 60.0;
  }

  lemma Averages()
    ensures AvgScore(300.0, 3) == 10.0 && AvgScore(160.0, 2) == 8.0
  {
    assert Round(100.0) == 100;
    assert Round(80.0) == 80;
  }

  /** Three readable keys at 5/5, each the day after the one before: three played, average 10, streaks 3 and 3. */
  lemma ThreePerfectLinkedDays(store: Store, k0: string, k1: string, k2: string)
    requires k0 in store && k1 in store && k2 in store
    requires store[k0] == store[k1] == store[k2] == Played(5, 5)
    requires ValidDateKey(k0) && ValidDateKey(k1) && ValidDateKey(k2)
    requires IsConsecutiveDate(k0, k1) && IsConsecutiveDate(k1, k2)
    ensures AllReadable(store, [k0, k1, k2])
    ensures StatsOf([k0, k1, k2], store) == Stats(3, 10.0, 3, 3)
  {
    var keys := [k0, k1, k2];
    assert ReadableAt(store, keys, 0) && ReadableAt(store, keys, 1) && ReadableAt(store, keys, 2);
    ReadableKeysAreValid(store, keys);
    ThreeLinks(keys);
    StreaksOfLinks();
    ThreePerfectTotal(store, keys);
    Averages();
  }

  /** A store whose sorted date keys are three days in a row at 5/5. */
  lemma ThreeKeyStats(store: Store, k0: string, k1: string, k2: string)
    requires StatsReady(store) && SortedDateKeys(store) == [k0, k1, k2]
    requires ValidDateKey(k0) && ValidDateKey(k1) && ValidDateKey(k2)
    requires DaysFromCivil(DateOfKey(k1)) == DaysFromCivil(DateOfKey(k0)) + 1
    requires DaysFromCivil(DateOfKey(k2)) == DaysFromCivil(DateOfKey(k1)) + 1
    requires store[k0] == store[k1] == store[k2] == Played(5, 5)
    ensures StoreStats(store) == Stats(3, 10.0, 3, 3)
  {
    SortedDateKeysReadable(store);
    assert ReadableAt(store, [k0, k1, k2], 0);
    assert ReadableAt(store, [k0, k1, k2], 1);
    assert ReadableAt(store, [k0, k1, k2], 2);
    ConsecutiveByGap(k0, k1, 1);
    ConsecutiveByGap(k1, k2, 1);
    ThreePerfectLinkedDays(store, k0, k1, k2);
  }

  /**
   * Perfect scores on three consecutive days, beside any game's progress
   * record: three played, average 10, current and longest streak 3.
   */
  lemma ThreeConsecutiveDays(d: Date, gameNumber: int, progress: Progress)
    requires Early(d)
    ensures StatsReady(ThreeDayStore(d, gameNumber, progress))
    ensures StoreStats(ThreeDayStore(d, gameNumber, progress)) == Stats(3, 10.0, 3, 3)
  {
    ThreeDayKeys(d, gameNumber, progress);
    ThreeDays(d);
    ThreeDayValues(d, gameNumber, progress);
    ThreeKeyStats(ThreeDayStore(d, gameNumber, progress), DateKey(d), DateKey(NextDay(d)), DateKey(NextDay(NextDay(d))));
  }

  function GapStore(d: Date): Store
    requires Early(d)
  {
    ThreeDays(d);
    map[DateKey(d) := Played(3, 5),
        DateKey(NextDay(NextDay(d))) := Played(5, 5)]
  }

  lemma GapDateKeys(d: Date)
    requires Early(d)
    ensures forall k :: k in GapStore(d) && IsDateKey(k) <==> k in [DateKey(d), DateKey(NextDay(NextDay(d)))]
  {
  }

  lemma GapValues(d: Date)
    requires Early(d)
    ensures var store := GapStore(d);
            DateKey(d) in store && DateKey(NextDay(NextDay(d))) in store &&
            store[DateKey(d)] == Played(3, 5) && store[DateKey(NextDay(NextDay(d)))] == Played(5, 5)
  {
    ThreeDays(d);
    assert DaysFromCivil(NextDay(NextDay(d))) != DaysFromCivil(d);
  }

  /** Two readable selected keys, the second two days after the first, are the store's sorted date keys. */
  lemma TwoKeysSorted(store: Store, k0: string, k2: string)
    requires ValidDateKey(k0) && ValidDateKey(k2)
    requires DaysFromCivil(DateOfKey(k2)) == DaysFromCivil(DateOfKey(k0)) + 2
    requires k0 in store && k2 in store
    requires store[k0] == Played(3, 5) && store[k2] == Played(5, 5)
    requires forall k :: k in store && IsDateKey(k) <==> k in [k0, k2]
    ensures StatsReady(store)
    ensures SortedDateKeys(store) == [k0, k2]
  {
    var keys := [k0, k2];
    assert ReadableAt(store, keys, 0) && ReadableAt(store, keys, 1);
    ReadyFromKeys(store, keys);
    KeysAscend(k0, k2);
    SortedAs(store, keys);
  }

  lemma GapKeys(d: Date)
    requires Early(d)
    ensures StatsReady(GapStore(d))
    ensures SortedDateKeys(GapStore(d)) == [DateKey(d), DateKey(NextDay(NextDay(d)))]
  {
    ThreeDays(d);
    GapDateKeys(d);
    GapValues(d);
    TwoKeysSorted(GapStore(d), DateKey(d), DateKey(NextDay(NextDay(d))));
  }

  /** Readable keys at 3/5 and 5/5 that are not consecutive: two played, average 8.0, streaks 1 and 1. */
  lemma TwoUnlinkedDays(store: Store, k0: string, k1: string)
    requires k0 in store && k1 in store
    requires store[k0] == Played(3, 5) && store[k1] == Played(5, 5)
    requires ValidDateKey(k0) && ValidDateKey(k1)
    requires !IsConsecutiveDate(k0, k1)
    ensures AllReadable(store, [k0, k1])
    ensures StatsOf([k0, k1], store) == Stats(2, 8.0, 1, 1)
  {
    var keys := [k0, k1];
    assert ReadableAt(store, keys, 0) && ReadableAt(store, keys, 1);
    ReadableKeysAreValid(store, keys);
    TwoLinks(keys);
    StreaksOfLinks();
    TwoDayTotal(store, keys);
    Averages();
  }

  /** A store whose sorted date keys are a day at 3/5 and, two days later, a day at 5/5. */
  lemma GapKeyStats(store: Store, k0: string, k2: string)
    requires StatsReady(store) && SortedDateKeys(store) == [k0, k2]
    requires ValidDateKey(k0) && ValidDateKey(k2)
    requires DaysFromCivil(DateOfKey(k2)) == DaysFromCivil(DateOfKey(k0)) + 2
    requires store[k0] == Played(3, 5) && store[k2] == Played(5, 5)
    ensures StoreStats(store) == Stats(2, 8.0, 1, 1)
  {
    SortedDateKeysReadable(store);
    assert ReadableAt(store, [k0, k2], 0);
    assert ReadableAt(store, [k0, k2], 1);
    ConsecutiveByGap(k0, k2, 2);
    TwoUnlinkedDays(store, k0, k2);
  }

  /** 3/5 on one day and 5/5 two days later: two played, average 8.0, both streaks 1. */
  lemma TwoDaysWithGap(d: Date)
    requires Early(d)
    ensures StatsReady(GapStore(d))
    ensures StoreStats(GapStore(d)) == Stats(2, 8.0, 1, 1)
  {
    GapKeys(d);
    ThreeDays(d);
    GapValues(d);
    GapKeyStats(GapStore(d), DateKey(d), DateKey(NextDay(NextDay(d))));
  }
}
