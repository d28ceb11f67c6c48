/**
 * What the figures of the result screen mean: games played is the number
 * of selected keys, the streaks are runs of calendar days in key order,
 * the average is a tenth-rounded percentage, and keys the pattern does not
 * select play no part.
 */
module StatsFacts {
  import opened Calendar
  import opened Keys
  import opened Ordering
  import opened Records
  import opened Stats

  /** Key `j` names the calendar day after key `j - 1`. */
  ghost predicate Follows(keys: seq<string>, j: nat)
    requires 0 < j < |keys| && AllValidKeys(keys)
  {
    assert ValidKeyAt(keys, j - 1) && ValidKeyAt(keys, j);
    DateOfKey(keys[j]) == NextDay(DateOfKey(keys[j - 1]))
  }

  /** Keys `lo..hi` (inclusive) are consecutive calendar days. */
  ghost predicate DayRun(keys: seq<string>, lo: nat, hi: nat)
    requires lo <= hi < |keys| && AllValidKeys(keys)
  {
    forall j :: lo < j <= hi ==> Follows(keys, j)
  }

  predicate LaterAt(keys: seq<string>, j: nat)
    requires 0 < j < |keys|
  {
    LexLess(keys[j - 1], keys[j])
  }

  /** Each key sorts after the one before it. */
  predicate AdjacentAscending(keys: seq<string>) {
    forall j :: 0 < j < |keys| ==> LaterAt(keys, j)
  }

  lemma AscendingNeighbours(keys: seq<string>)
    requires StrictlyAscending(keys)
    ensures AdjacentAscending(keys)
  {
  }

  /** In sorted keys, `isConsecutiveDate` of neighbours means the later key is the next calendar day. */
  lemma NeighboursAreNextDays(keys: seq<string>, j: nat)
    requires 0 < j < |keys| && AllValidKeys(keys) && AdjacentAscending(keys)
    ensures Neighbours(keys, j) <==> Follows(keys, j)
  {
    assert ValidKeyAt(keys, j - 1) && ValidKeyAt(keys, j);
    var a, b := keys[j - 1], keys[j];
    ConsecutiveMeansNextDay(a, b);
    KeyOrderIsChronological(a, b);
    assert LaterAt(keys, j);
    assert DaysFromCivil(DateOfKey(a)) < DaysFromCivil(DateOfKey(b));
  }

  /** Entries `lo + 1..hi` of `links` all hold: keys `lo..hi` form one streak. */
  predicate Linked(links: seq<bool>, lo: nat, hi: nat)
    requires lo <= hi < |links|
  {
    forall j :: lo < j <= hi ==> links[j]
  }

  /** In sorted keys, a streak of linked keys is exactly a run of consecutive calendar days. */
  lemma LinkedIsDayRun(keys: seq<string>, lo: nat, hi: nat)
    requires lo <= hi < |keys| && AllValidKeys(keys) && AdjacentAscending(keys)
    ensures Linked(Links(keys), lo, hi) <==> DayRun(keys, lo, hi)
  {
    var links := Links(keys);
    forall j | lo < j <= hi ensures links[j] <==> Follows(keys, j) {
      NeighboursAreNextDays(keys, j);
    }
  }

  /**
   * `streakCount` at key `i` is the length of the streak of linked keys
   * ending at `i` that cannot be extended backwards.
   */
  lemma {:induction false} StreakIsMaximalLinked(links: seq<bool>, i: nat)
    requires i < |links|
    ensures 1 <= Streak(links, i) <= i + 1
    ensures Linked(links, i + 1 - Streak(links, i), i)
    ensures i + 1 - Streak(links, i) == 0 || !links[i + 1 - Streak(links, i)]
    decreases i
  {
    if i > 0 && links[i] {
      StreakIsMaximalLinked(links, i - 1);
    }
  }

  /** Every streak of linked keys ending at `hi` is at most `streakCount` at `hi` long. */
  lemma {:induction false} LinkedWithinStreak(links: seq<bool>, lo: nat, hi: nat)
    requires lo <= hi < |links| && Linked(links, lo, hi)
    ensures hi - lo + 1 <= Streak(links, hi)
    decreases hi - lo
  {
    if lo < hi {
      assert links[hi];
      LinkedWithinStreak(links, lo, hi - 1);
    }
  }

  /** `maxStreak` after `n` keys is the streak count at one of them and at least that of each. */
  lemma {:induction false} MaxStreakIsLargestStreak(links: seq<bool>, n: nat)
    requires 0 < n <= |links|
    ensures exists i :: 0 <= i < n && MaxStreak(links, n) == Streak(links, i)
    ensures forall i :: 0 <= i < n ==> Streak(links, i) <= MaxStreak(links, n)
  {
    if n == 1 {
      assert MaxStreak(links, 1) == Streak(links, 0);
    } else {
      MaxStreakIsLargestStreak(links, n - 1);
      if MaxStreak(links, n - 1) < Streak(links, n - 1) {
        assert MaxStreak(links, n) == Streak(links, n - 1);
      } else {
        var i :| 0 <= i < n - 1 && MaxStreak(links, n - 1) == Streak(links, i);
        assert MaxStreak(links, n) == Streak(links, i);
      }
    }
  }

  /**
   * `maxStreak` is the length of the longest run of consecutive calendar
   * days among the sorted keys: some run is that long and none is longer.
   */
  lemma MaxStreakIsLongestRun(keys: seq<string>)
    requires keys != [] && AllValidKeys(keys) && StrictlyAscending(keys)
    ensures exists lo, hi :: 0 <= lo <= hi < |keys| && DayRun(keys, lo, hi) && hi - lo + 1 == MaxStreak(Links(keys), |keys|)
    ensures forall lo, hi :: 0 <= lo <= hi < |keys| && DayRun(keys, lo, hi) ==> hi - lo + 1 <= MaxStreak(Links(keys), |keys|)
  {
    var n, links := |keys|, Links(keys);
    AscendingNeighbours(keys);
    MaxStreakIsLargestStreak(links, n);
    var i :| 0 <= i < n && MaxStreak(links, n) == Streak(links, i);
    StreakIsMaximalLinked(links, i);
    var lo := i + 1 - Streak(links, i);
    LinkedIsDayRun(keys, lo, i);
    assert DayRun(keys, lo, i) && i - lo + 1 == MaxStreak(links, n);
    forall lo, hi | 0 <= lo <= hi < n && DayRun(keys, lo, hi) ensures hi - lo + 1 <= MaxStreak(links, n) {
      LinkedIsDayRun(keys, lo, hi);
      LinkedWithinStreak(links, lo, hi);
    }
  }

  /**
   * `currentStreak` is the length of the run of consecutive calendar days
   * ending at the latest key, and the key before that run is not the day
   * before it.
   */
  lemma CurrentStreakIsLatestRun(keys: seq<string>)
    requires keys != [] && AllValidKeys(keys) && StrictlyAscending(keys)
    ensures 1 <= Streak(Links(keys), |keys| - 1) <= |keys|
    ensures var c := Streak(Links(keys), |keys| - 1);
            DayRun(keys, |keys| - c, |keys| - 1) && (c == |keys| || !Follows(keys, |keys| - c))
  {
    var last, links := |keys| - 1, Links(keys);
    AscendingNeighbours(keys);
    StreakIsMaximalLinked(links, last);
    var lo := last + 1 - Streak(links, last);
    LinkedIsDayRun(keys, lo, last);
    if lo > 0 {
      NeighboursAreNextDays(keys, lo);
    }
  }

  /** With at least one key: `1 <= currentStreak <= maxStreak <= played`. */
  lemma StreakBounds(keys: seq<string>, store: Store)
    requires keys != [] && AllReadable(store, keys)
    ensures var s := StatsOf(keys, store);
            1 <= s.currentStreak <= s.maxStreak <= s.played
  {
    ReadableKeysAreValid(store, keys);
    var links := Links(keys);
    MaxStreakIsLargestStreak(links, |keys|);
    forall i | 0 <= i < |keys| ensures Streak(links, i) <= |keys| {
      StreakIsMaximalLinked(links, i);
    }
  }

  /** Games played is the number of storage keys the pattern selects. */
  lemma PlayedCountsDateKeys(store: Store)
    requires StatsReady(store)
    ensures StoreStats(store).played == |DateKeysOf(store)|
  {
    var s := SetToSeq(DateKeysOf(store));
    assert |Sort(s)| == |multiset(Sort(s))| == |multiset(s)| == |s|;
  }

  /** With no selected key every figure is zero. */
  lemma NoDateKeysNoStats(store: Store)
    requires StatsReady(store)
    ensures DateKeysOf(store) == {} <==> StoreStats(store) == Stats(0, 0.0, 0, 0)
  {
    PlayedCountsDateKeys(store);
    if DateKeysOf(store) == {} {
      assert SortedDateKeys(store) == [];
    }
  }

  /** At least one selected key: `1 <= currentStreak <= maxStreak <= played`. */
  lemma StoreStreakBounds(store: Store)
    requires StatsReady(store) && DateKeysOf(store) != {}
    ensures var s := StoreStats(store);
            1 <= s.currentStreak <= s.maxStreak <= s.played
  {
    PlayedCountsDateKeys(store);
    SortedDateKeysReadable(store);
    StreakBounds(SortedDateKeys(store), store);
  }

  /** Every day's result has a score between zero and its question count. */
  predicate ScoresInRange(store: Store, keys: seq<string>)
    requires AllReadable(store, keys)
  {
    forall i :: 0 <= i < |keys| ==> ScoreInRange(store, keys, i)
  }

  predicate ScoreInRange(store: Store, keys: seq<string>, i: nat)
    requires i < |keys| && AllReadable(store, keys)
  {
    assert ReadableAt(store, keys, i);
    0 <= store[keys[i]].daily.score <= store[keys[i]].daily.totalQuestions
  }

  lemma {:induction false} TotalScoreBounds(keys: seq<string>, store: Store, n: nat)
    requires n <= |keys| && AllReadable(store, keys) && ScoresInRange(store, keys)
    ensures 0.0 <= TotalScore(keys, store, n) <= 100.0 * n as real
  {
    if n > 0 {
      TotalScoreBounds(keys, store, n - 1);
      assert ScoreInRange(store, keys, n - 1);
      assert ReadableAt(store, keys, n - 1);
      var r := store[keys[n - 1]].daily;
      var q := r.score as real / r.totalQuestions as real;
      assert 0.0 <= q <= 1.0;
    }
  }

  /** When each score lies within its question count, the average lies between 0 and 10. */
  lemma AvgScoreBounds(keys: seq<string>, store: Store)
    requires AllReadable(store, keys) && ScoresInRange(store, keys)
    ensures 0.0 <= StatsOf(keys, store).avgScore <= 10.0
  {
    TotalScoreBounds(keys, store, |keys|);
    AvgScoreOfBoundedTotal(TotalScore(keys, store, |keys|), |keys|);
  }

  /** A total of at most 100 per game averages to between 0 and 10. */
  lemma AvgScoreOfBoundedTotal(total: real, played: nat)
    requires 0.0 <= total <= 100.0 * played as real
    ensures 0.0 <= AvgScore(total, played) <= 10.0
  {
    if played != 0 {
      var n := played as real;
      var mean := total / n;
      assert mean * n == total;
      assert 0.0 <= mean <= 100.0;
      var r := Round(mean);
      assert 0 <= r <= 100;
    }
  }

  lemma {:induction false} TotalScoreOnAgreement(keys: seq<string>, s1: Store, s2: Store, n: nat)
    requires n <= |keys| && AllReadable(s1, keys) && AllReadable(s2, keys)
    requires forall k :: k in keys ==> k in s1 && k in s2 && s1[k] == s2[k]
    ensures TotalScore(keys, s1, n) == TotalScore(keys, s2, n)
  {
    if n > 0 {
      assert keys[n - 1] in keys;
      TotalScoreOnAgreement(keys, s1, s2, n - 1);
    }
  }

  /** A key the pattern does not select (such as a game's progress record) has no effect on the figures. */
  lemma StatsIgnoreOtherKeys(store: Store, k: string, v: Value)
    requires StatsReady(store) && !IsDateKey(k)
    ensures StatsReady(store[k := v])
    ensures StoreStats(store[k := v]) == StoreStats(store)
  {
    var store' := store[k := v];
    assert DateKeysOf(store') == DateKeysOf(store);
    assert SortedDateKeys(store') == SortedDateKeys(store);
    var keys := SortedDateKeys(store);
    SortedDateKeysReadable(store);
    SortedDateKeysReadable(store');
    forall x | x in keys ensures x in store && x in store' && store[x] == store'[x] {
    }
    TotalScoreOnAgreement(keys, store, store', |keys|);
  }
}
