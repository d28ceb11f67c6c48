/**
 * The text the share button hands to the platform: the site's share tag,
 * the puzzle number, the score and a row of coloured boxes, one per question.
 */
module Share {
  import opened Basics
  import opened Decimal
  import opened Records

  /** `shareText` of the site configuration. */
  const ShareTag: string := "daily.band/beatles"

  /** U+1F7E9 LARGE GREEN SQUARE, for a truthy entry of `results`. */
  const Green: char := '\U{1F7E9}'

  /** U+2B1B BLACK LARGE SQUARE, for every other entry. */
  const Black: char := '\U{2B1B}'

  /** `results.map(result => result ? '🟩' : '⬛').join('')`. */
  function Boxes(results: seq<Answer>): (boxes: string)
    ensures |boxes| == |results|
    ensures forall i :: 0 <= i < |results| ==> (boxes[i] == Green <==> Truthy(results[i]))
    ensures forall i :: 0 <= i < |results| ==> (boxes[i] == Green || boxes[i] == Black)
  {
    if results == [] then ""
    else Boxes(results[..|results| - 1]) + [if Truthy(results[|results| - 1]) then Green else Black]
  }

  /** `generateShareText`: `<shareText> #<gameNumber>\n\n<score>/<totalQuestions>\n<boxes>`. */
  function ShareText(gameNumber: int, score: int, totalQuestions: int, results: seq<Answer>): string {
    ShareHead + IntToString(gameNumber) + "\n\n" + IntToString(score) + "/" + IntToString(totalQuestions) + "\n" + Boxes(results)
  }

  /** The number of green boxes is the number of correct answers. */
  lemma {:induction false} GreenBoxesAreScore(results: seq<Answer>)
    ensures multiset(Boxes(results))[Green] == Score(results)
    ensures multiset(Boxes(results))[Black] == |results| - Score(results)
  {
    if results != [] {
      var n := |results| - 1;
      GreenBoxesAreScore(results[..n]);
      assert multiset(Boxes(results)) == multiset(Boxes(results[..n])) + multiset{Boxes(results)[n]} by {
        assert Boxes(results) == Boxes(results[..n]) + [Boxes(results)[n]];
      }
    }
  }

  /** What a reader of a share text can recover: the puzzle, the score line and which answers were right. */
  datatype Summary = Summary(gameNumber: int, score: int, totalQuestions: int, marks: seq<bool>)

  /** The text before the first `c` and the text after it, if `c` occurs. */
  function SplitAt(s: string, c: char): (r: Option<(string, string)>)
    ensures r.None? <==> c !in s
    ensures r.Some? ==> s == r.value.0 + [c] + r.value.1 && c !in r.value.0
  {
    if s == [] then None
    else if s[0] == c then Some(([], s[1..]))
    else match SplitAt(s[1..], c)
      case None => None
      case Some(p) => Some(([s[0]] + p.0, p.1))
  }

  /** Reads a row of boxes back: green is a right answer, black any other; anything else is not a row of boxes. */
  function ReadBoxes(s: string): (marks: Option<seq<bool>>)
    ensures marks.Some? ==> |marks.value| == |s|
  {
    if s == [] then Some([])
    else if s[|s| - 1] != Green && s[|s| - 1] != Black then None
    else match ReadBoxes(s[..|s| - 1])
      case None => None
      case Some(m) => Some(m + [s[|s| - 1] == Green])
  }

  /** The first line of a share text without the tag. */
  const ShareHead: string := ShareTag + " #"

  /** Cuts a share text into its puzzle number, score, question count and boxes, or `None` if it is not laid out as one. */
  function Fields(text: string): Option<(string, string, string, string)> {
    if |text| < |ShareHead| || text[..|ShareHead|] != ShareHead then None
    else match SplitAt(text[|ShareHead|..], '\n')
      case None => None
      case Some((number, rest)) =>
        match ScoreFields(rest)
          case None => None
          case Some((score, total, boxes)) => Some((number, score, total, boxes))
  }

  /** After the first line: an empty line, then `<score>/<total>`, a line break and the boxes. */
  function ScoreFields(rest: string): Option<(string, string, string)> {
    if rest == [] || rest[0] != '\n' then None
    else match SplitAt(rest[1..], '/')
      case None => None
      case Some((score, rest')) =>
        match SplitAt(rest', '\n')
          case None => None
          case Some((total, boxes)) => Some((score, total, boxes))
  }

  /** Reads a share text back into its parts, or `None` if it is not laid out as one. */
  function ReadShareText(text: string): Option<Summary> {
    match Fields(text)
      case None => None
      case Some((number, score, total, boxes)) =>
        match (ParseInt(number), ParseInt(score), ParseInt(total), ReadBoxes(boxes))
          case (Some(n), Some(sc), Some(t), Some(m)) => Some(Summary(n, sc, t, m))
          case _ => None
  }

  /** Whether each entry of `results` is truthy. */
  function Marks(results: seq<Answer>): (marks: seq<bool>)
    ensures |marks| == |results|
  {
    seq(|results|, i requires 0 <= i < |results| => Truthy(results[i]))
  }

  lemma {:induction false} ReadBoxesOfBoxes(results: seq<Answer>)
    ensures ReadBoxes(Boxes(results)) == Some(Marks(results))
  {
    if results != [] {
      var n := |results| - 1;
      ReadBoxesOfBoxes(results[..n]);
      assert Boxes(results)[..n] == Boxes(results[..n]);
      assert Marks(results) == Marks(results[..n]) + [Truthy(results[n])];
    }
  }

  /** The decimal text of an integer holds only digits and a minus sign. */
  lemma NumberTextChars(n: int, c: char)
    requires c == '\n' || c == '/'
    ensures c !in IntToString(n)
  {
    var s := IntToString(n);
    IntToStringDigits(n);
    forall i | 0 <= i < |s| ensures s[i] != c {
      if n < 0 && i > 0 {
        assert s[i] == s[1..][i - 1];
      }
    }
  }

  lemma SplitAtFirst(a: string, c: char, b: string)
    requires c !in a
    ensures SplitAt(a + [c] + b, c) == Some((a, b))
  {
    var r := SplitAt(a + [c] + b, c);
    SplitUnique(a, b, r.value.0, r.value.1, c);
  }

  /** A text splits around the first `c` in one way only. */
  lemma SplitUnique(a: string, b: string, a': string, b': string, c: char)
    requires c !in a && c !in a'
    requires a + [c] + b == a' + [c] + b'
    ensures a == a' && b == b'
  {
    var s := a + [c] + b;
    assert s[|a|] == c && s[|a'|] == c;
    assert forall i :: 0 <= i < |a| ==> s[i] == a[i] != c;
    assert forall i :: 0 <= i < |a'| ==> s[i] == a'[i] != c;
    assert |a| == |a'|;
    assert a == s[..|a|] == a';
    assert b == s[|a| + 1..] == b';
  }

  /** A text laid out as a share text is cut back into the same fields. */
  lemma FieldsOfLayout(number: string, score: string, total: string, boxes: string)
    requires '\n' !in number && '/' !in score && '\n' !in total
    ensures Fields(ShareHead + number + "\n\n" + score + "/" + total + "\n" + boxes) == Some((number, score, total, boxes))
  {
    var text := ShareHead + number + "\n\n" + score + "/" + total + "\n" + boxes;
    var rest := "\n" + score + "/" + total + "\n" + boxes;
    assert text == ShareHead + (number + ['\n'] + rest);
    assert text[..|ShareHead|] == ShareHead && text[|ShareHead|..] == number + ['\n'] + rest;
    SplitAtFirst(number, '\n', rest);
    ScoreFieldsOfLayout(score, total, boxes);
  }

  lemma ScoreFieldsOfLayout(score: string, total: string, boxes: string)
    requires '/' !in score && '\n' !in total
    ensures ScoreFields("\n" + score + "/" + total + "\n" + boxes) == Some((score, total, boxes))
  {
    var rest' := total + "\n" + boxes;
    var rest := "\n" + score + "/" + total + "\n" + boxes;
    assert rest[1..] == score + ['/'] + rest';
    SplitAtFirst(score, '/', rest');
    assert rest' == total + ['\n'] + boxes;
    SplitAtFirst(total, '\n', boxes);
  }

  /**
   * Round trip: the share text gives back the puzzle number, the score,
   * the question count and which answers were right.
   */
  lemma ShareTextRoundTrip(gameNumber: int, score: int, totalQuestions: int, results: seq<Answer>)
    ensures ReadShareText(ShareText(gameNumber, score, totalQuestions, results)) ==
              Some(Summary(gameNumber, score, totalQuestions, Marks(results)))
  {
    NumberTextChars(gameNumber, '\n');
    NumberTextChars(score, '/');
    NumberTextChars(totalQuestions, '\n');
    FieldsOfLayout(IntToString(gameNumber), IntToString(score), IntToString(totalQuestions), Boxes(results));
    ParseIntOfIntToString(gameNumber);
    ParseIntOfIntToString(score);
    ParseIntOfIntToString(totalQuestions);
    ReadBoxesOfBoxes(results);
  }
}
