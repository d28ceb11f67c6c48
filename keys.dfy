/**
 * The storage key formats shared by the game session and the statistics:
 * `<prefix>_<puzzle number>` for a puzzle's progress and
 * `<prefix>_<YYYY-MM-DD>` for a day's result, recognised by the pattern
 * `^<prefix>_\d{4}-\d{2}-\d{2}$`.
 */
module Keys {
  import opened Decimal
  import opened Calendar
  import opened Ordering

  /** `localStoragePrefix` of the site configuration. */
  const Prefix: string := "dailyBeatles"

  /** The prefix and the underscore that every key of the application starts with. */
  const Head: string := Prefix + "_"

  /** Key of a puzzle's saved progress: `<prefix>_<gameNumber>`. */
  function ProgressKey(gameNumber: int): string {
    Head + IntToString(gameNumber)
  }

  /** `\d{4}-\d{2}-\d{2}` (JavaScript's `\d` is the ASCII digits only). */
  predicate IsDateText(t: string) {
    |t| == 10 && AllDigits(t[..4]) && t[4] == '-' && AllDigits(t[5..7]) && t[7] == '-' && AllDigits(t[8..])
  }

  /** The numbers written in the three fields of a `YYYY-MM-DD` text. */
  function DateOfText(t: string): (d: Date)
    requires IsDateText(t)
    ensures FitsDateText(d)
  {
    Date(DigitsValue(t[..4]), DigitsValue(t[5..7]), DigitsValue(t[8..]))
  }

  /** The fields of a date fit the widths `YYYY`, `MM` and `DD`. */
  predicate FitsDateText(d: Date) {
    0 <= d.year < 10000 && 0 <= d.month < 100 && 0 <= d.day < 100
  }

  /** A date written `YYYY-MM-DD`, each field zero-padded. */
  function DateText(d: Date): (t: string)
    requires FitsDateText(d)
    ensures IsDateText(t) && DateOfText(t) == d
  {
    var y := PadDigits(d.year, 4);
    var m := PadDigits(d.month, 2);
    var dd := PadDigits(d.day, 2);
    var t := y + "-" + m + "-" + dd;
    assert t[..4] == y && t[5..7] == m && t[8..] == dd;
    t
  }

  /** Reading the fields and writing them back gives the same text. */
  lemma DateTextOfParsed(t: string)
    requires IsDateText(t)
    ensures DateText(DateOfText(t)) == t
  {
    PadDigitsValue(t[..4]);
    PadDigitsValue(t[5..7]);
    PadDigitsValue(t[8..]);
    assert t == t[..4] + "-" + t[5..7] + "-" + t[8..];
  }

  /** Key of a day's result: `<prefix>_<YYYY-MM-DD>`. */
  function DateKey(d: Date): string
    requires FitsDateText(d)
  {
    Head + DateText(d)
  }

  /** The pattern `^<prefix>_\d{4}-\d{2}-\d{2}$` that selects the daily results. */
  predicate IsDateKey(k: string) {
    |k| == |Head| + 10 && k[..|Head|] == Head && IsDateText(k[|Head|..])
  }

  function DateOfKey(k: string): Date
    requires IsDateKey(k)
  {
    DateOfText(k[|Head|..])
  }

  /** A date key whose date is a real calendar day. */
  predicate ValidDateKey(k: string) {
    IsDateKey(k) && ValidDate(DateOfKey(k))
  }

  /** Round trip date -> key -> date. */
  lemma DateKeyRoundTrip(d: Date)
    requires FitsDateText(d)
    ensures IsDateKey(DateKey(d)) && DateOfKey(DateKey(d)) == d
  {
    var k := DateKey(d);
    assert k[..|Head|] == Head && k[|Head|..] == DateText(d);
  }

  /** Round trip key -> date -> key: every key the pattern selects is the key of its date. */
  lemma DateKeyOfParsed(k: string)
    requires IsDateKey(k)
    ensures DateKey(DateOfKey(k)) == k
  {
    DateTextOfParsed(k[|Head|..]);
    assert k == k[..|Head|] + k[|Head|..];
  }

  /** The two key formats never collide: no progress key matches the daily-result pattern. */
  lemma ProgressKeyIsNotDateKey(gameNumber: int)
    ensures !IsDateKey(ProgressKey(gameNumber))
  {
    var k := ProgressKey(gameNumber);
    var n := IntToString(gameNumber);
    IntToStringDigits(gameNumber);
    assert k[|Head|..] == n;
    if |n| == 10 {
      if gameNumber >= 0 {
        assert n[4] != '-';
      } else {
        assert !IsDigit(n[..4][0]);
      }
    }
  }

  /** The pattern selects `<prefix>_2024-01-05` and neither `<prefix>_142` nor `<prefix>_abc`. */
  lemma KeyPatternExamples()
    ensures IsDateKey(Head + "2024-01-05")
    ensures !IsDateKey(Head + "142")
    ensures !IsDateKey(Head + "abc")
    ensures !IsDateKey(Prefix + "-2024-01-05")
  {
    var k := Head + "2024-01-05";
    assert k[..|Head|] == Head && k[|Head|..] == "2024-01-05";
    var t := "2024-01-05";
    assert t[..4] == "2024" && t[5..7] == "01" && t[8..] == "05";
    var w := Prefix + "-2024-01-05";
    assert w[..|Head|][12] == '-';
  }

  /** Equal-width digit strings compare as text exactly as their values compare as numbers. */
  lemma {:induction false} DigitsValueOrder(a: string, c: string)
    requires |a| == |c| && AllDigits(a) && AllDigits(c)
    ensures LexLess(a, c) <==> DigitsValue(a) < DigitsValue(c)
    ensures a == c <==> DigitsValue(a) == DigitsValue(c)
  {
    if a != [] {
      var n := |a| - 1;
      var a', c' := a[..n], c[..n];
      var x, y := a[n], c[n];
      assert a == a' + [x] && c == c' + [y];
      LexLessConcat(a', [x], c', [y]);
      assert LexLess([x], [y]) == (x < y) by {
        assert [x][1..] == [] && [y][1..] == [];
      }
      DigitsValueOrder(a', c');
      assert DigitsValue(a) == DigitsValue(a') * 10 + DigitValue(x);
      assert DigitsValue(c) == DigitsValue(c') * 10 + DigitValue(y);
    }
  }

  /** Two texts that start with equal-width numbers compare by those numbers first, then by the rest. */
  lemma NumberThenRest(a1: string, b1: string, a2: string, b2: string)
    requires |a1| == |a2| && AllDigits(a1) && AllDigits(a2)
    ensures LexLess(a1 + b1, a2 + b2) <==>
              DigitsValue(a1) < DigitsValue(a2) || (DigitsValue(a1) == DigitsValue(a2) && LexLess(b1, b2))
  {
    LexLessConcat(a1, b1, a2, b2);
    DigitsValueOrder(a1, a2);
  }

  /** `YYYY-MM-DD` texts sort as text in chronological order. */
  lemma DateTextOrder(t1: string, t2: string)
    requires IsDateText(t1) && IsDateText(t2)
    ensures LexLess(t1, t2) <==> Before(DateOfText(t1), DateOfText(t2))
  {
    var y1, m1, d1 := t1[..4], t1[5..7], t1[8..];
    var y2, m2, d2 := t2[..4], t2[5..7], t2[8..];
    var r1, r2 := "-" + (m1 + ("-" + d1)), "-" + (m2 + ("-" + d2));
    assert t1 == y1 + r1 && t2 == y2 + r2;
    NumberThenRest(y1, r1, y2, r2);
    LexLessCommonPrefix("-", m1 + ("-" + d1), m2 + ("-" + d2));
    NumberThenRest(m1, "-" + d1, m2, "-" + d2);
    LexLessCommonPrefix("-", d1, d2);
    DigitsValueOrder(d1, d2);
  }

  /**
   * With the fixed prefix and four-digit years, the text order that
   * `Array.prototype.sort()` uses on date keys is chronological order,
   * and for real calendar days it is the order of their day numbers.
   */
  lemma KeyOrderIsChronological(k1: string, k2: string)
    requires IsDateKey(k1) && IsDateKey(k2)
    ensures LexLess(k1, k2) <==> Before(DateOfKey(k1), DateOfKey(k2))
    ensures ValidDate(DateOfKey(k1)) && ValidDate(DateOfKey(k2)) ==>
              (LexLess(k1, k2) <==> DaysFromCivil(DateOfKey(k1)) < DaysFromCivil(DateOfKey(k2)))
  {
    assert k1 == Head + k1[|Head|..] && k2 == Head + k2[|Head|..];
    LexLessCommonPrefix(Head, k1[|Head|..], k2[|Head|..]);
    DateTextOrder(k1[|Head|..], k2[|Head|..]);
    if ValidDate(DateOfKey(k1)) && ValidDate(DateOfKey(k2)) {
      DaysFromCivilOrder(DateOfKey(k1), DateOfKey(k2));
    }
  }
}
