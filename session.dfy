/**
 * The game screen as a state machine: loading a puzzle and its saved
 * progress, answering a question, the two timers that reveal the answer and
 * move on, and the render that records the day's result and mounts the
 * result screen, whose statistics are sent once as the completion event.
 */
module Session {
  import opened Basics
  import opened Calendar
  import opened Keys
  import opened Records
  import opened Stats
  import opened StatsFacts

  /** A question: its answer options and the one correct option. */
  datatype Question = Question(songs: seq<string>, correctAnswer: string)

  /**
   * A callback waiting on `setTimeout`, with what its closure captured: the
   * question answered, the question count, the puzzle number and the progress
   * record, which the 50 ms callback updates before saving it again.
   */
  datatype Timer =
    | Reveal(question: int, count: int, gameNumber: int, progress: Progress)   // the 2000 ms timer
    | Advance(question: int, gameNumber: int, progress: Progress)              // the 50 ms timer

  /** What a render returns. */
  datatype View =
    | Blank
    | QuestionView(question: Question, index: int, total: int, selected: Option<string>, showResult: bool)
    | ResultView(score: nat, total: int, results: seq<Answer>, gameNumber: int, isPreviouslyCompleted: bool, stats: Stats)

  /**
   * `newResults[i] = a` on a copy of `results`. A JavaScript array assigned
   * past its end grows with holes in between; the model fills them with
   * `Unanswered`, which is what they become once the array is stored as JSON.
   */
  function SetAt(results: seq<Answer>, i: nat, a: Answer): (r: seq<Answer>)
    ensures |r| == if i < |results| then |results| else i + 1
    ensures r[i] == a
    ensures forall j :: 0 <= j < |r| && j != i ==> r[j] == if j < |results| then results[j] else Unanswered
  {
    if i < |results| then results[i := a]
    else results + seq(i - |results|, _ => Unanswered) + [a]
  }

  /** `new Array(n).fill(null)`. */
  function NoAnswers(n: nat): (r: seq<Answer>)
    ensures |r| == n && Score(r) == 0
    ensures forall i :: 0 <= i < n ==> r[i] == Unanswered
  {
    if n == 0 then [] else NoAnswers(n - 1) + [Unanswered]
  }

  /** The result of the day: the number of right answers out of the question count. */
  function DayResult(results: seq<Answer>, count: int): (r: DailyResult)
    ensures r.score == Score(results) && r.score <= |results|
    ensures r.totalQuestions == count && r.results == results
  {
    DailyResult(Score(results), count, results)
  }

  /** Writing a day's result for a real date with a non-zero question count keeps every selected key readable. */
  lemma DailyWriteKeepsReady(store: Store, day: Date, r: DailyResult)
    requires StatsReady(store) && ValidDate(day) && day.year < 10000 && r.totalQuestions != 0
    ensures StatsReady(store[DateKey(day) := DailyValue(r)])
    ensures DateKey(day) in DateKeysOf(store[DateKey(day) := DailyValue(r)])
  {
    DateKeyRoundTrip(day);
  }

  /** Saving a puzzle's progress keeps every selected key readable: the progress key is not selected. */
  lemma ProgressWriteKeepsReady(store: Store, gameNumber: int, p: Progress)
    requires StatsReady(store)
    ensures StatsReady(store[ProgressKey(gameNumber) := ProgressValue(p)])
  {
    ProgressKeyIsNotDateKey(gameNumber);
  }

  /** A pending callback was set up for a question of this puzzle, and the 50 ms one only for a question before the last. */
  predicate TimerFits(t: Timer, gameNumber: Option<int>, count: int) {
    gameNumber == Some(t.gameNumber) && 0 <= t.question < count &&
    (t.Reveal? ==> t.count == count) &&
    (t.Advance? ==> t.question < count - 1)
  }

  predicate TimersFit(timers: multiset<Timer>, gameNumber: Option<int>, count: int) {
    forall t | t in timers :: TimerFits(t, gameNumber, count)
  }

  lemma TimersAdd(timers: multiset<Timer>, t: Timer, gameNumber: Option<int>, count: int)
    requires TimersFit(timers, gameNumber, count) && TimerFits(t, gameNumber, count)
    ensures TimersFit(timers + multiset{t}, gameNumber, count)
  {
  }

  lemma TimersRemove(timers: multiset<Timer>, t: Timer, gameNumber: Option<int>, count: int)
    requires TimersFit(timers, gameNumber, count)
    ensures TimersFit(timers - multiset{t}, gameNumber, count)
  {
  }

  /** The completion event goes out once, when the result screen mounts, with the figures it shows, and only for a puzzle not found saved on load. */
  predicate EventsFit(events: seq<Stats>, mounted: bool, isPreviouslyCompleted: bool, shown: Stats) {
    |events| == (if mounted && !isPreviouslyCompleted then 1 else 0) && (events != [] ==> events[0] == shown)
  }

  class GameSession {
    var hasLoadedGame: bool
    var questions: seq<Question>
    var gameNumber: Option<int>
    var currentQuestion: int
    var showResult: bool
    var results: seq<Answer>
    var gameComplete: bool
    var selectedAnswer: Option<string>
    var isPreviouslyCompleted: bool
    /** `localStorage`. */
    var store: Store
    /** The callbacks waiting on `setTimeout`. */
    var timers: multiset<Timer>
    /** Whether the result screen has mounted, the figures it shows, and the `completed_game` events sent with their payloads. */
    var resultMounted: bool
    var shownStats: Stats
    var events: seq<Stats>

    /** The state before the puzzle arrives. */
    ghost predicate Initial()
      reads this
    {
      questions == [] && gameNumber == None && currentQuestion == 0 && !showResult && results == [] &&
      !gameComplete && selectedAnswer == None && !isPreviouslyCompleted && timers == multiset{} && !resultMounted
    }

    ghost predicate Valid()
      reads this
    {
      StatsReady(store) &&
      (questions != [] ==> hasLoadedGame) &&
      (gameNumber.Some? <==> questions != []) &&
      TimersFit(timers, gameNumber, |questions|) &&
      (resultMounted ==> hasLoadedGame && gameComplete && questions != []) &&
      EventsFit(events, resultMounted, isPreviouslyCompleted, shownStats)
    }

    /** The puzzle is being played: the current question exists and there is one entry of `results` per question. */
    ghost predicate InPlay()
      reads this
    {
      questions != [] && 0 <= currentQuestion < |questions| && |results| == |questions|
    }

    /** The first render of the application, over whatever the browser has stored. */
    constructor (initialStore: Store)
      requires StatsReady(initialStore)
      ensures Valid() && !hasLoadedGame && Initial()
      ensures store == initialStore && shownStats == Stats(0, 0.0, 0, 0) && events == []
    {
      hasLoadedGame := false;
      questions := [];
      gameNumber := None;
      currentQuestion := 0;
      showResult := false;
      results := [];
      gameComplete := false;
      selectedAnswer := None;
      isPreviouslyCompleted := false;
      store := initialStore;
      timers := multiset{};
      resultMounted := false;
      shownStats := Stats(0, 0.0, 0, 0);
      events := [];
    }

    /**
     * `loadGame`, given what the question source returned: a non-empty puzzle
     * is taken on, resuming from its saved progress if there is any (which
     * also marks it previously completed) or starting with every answer
     * `null`; the game is marked loaded in every case.
     */
    method Load(number: int, questionData: Option<seq<Question>>)
      requires Valid() && !hasLoadedGame && Initial()
      requires ProgressKey(number) in store ==> store[ProgressKey(number)].ProgressValue?
      modifies this`hasLoadedGame, this`questions, this`gameNumber, this`currentQuestion, this`results
      modifies this`gameComplete, this`isPreviouslyCompleted
      ensures Valid() && hasLoadedGame
      ensures questionData.None? || questionData.value == [] ==> Initial()
      ensures questionData.Some? && questionData.value != [] ==>
                questions == questionData.value && gameNumber == Some(number)
      ensures questionData.Some? && questionData.value != [] && ProgressKey(number) in store ==>
                var p := store[ProgressKey(number)].progress;
                currentQuestion == p.currentQuestion && results == p.results &&
                gameComplete == p.gameComplete && isPreviouslyCompleted
      ensures questionData.Some? && questionData.value != [] && ProgressKey(number) !in store ==>
                currentQuestion == 0 && results == NoAnswers(|questions|) && !gameComplete &&
                !isPreviouslyCompleted && InPlay()
    {
      if questionData.Some? && questionData.value != [] {
        var key := ProgressKey(number);
        if key in store {
          Resume(number, questionData.value, store[key].progress);
        } else {
          StartFresh(number, questionData.value);
        }
      }
      hasLoadedGame := true;
    }

    /** `loadGame` with saved progress: the puzzle is taken on from where the record says, and marked previously completed. */
    method Resume(number: int, questionData: seq<Question>, progress: Progress)
      requires Valid() && Initial() && questionData != []
      modifies this`questions, this`gameNumber, this`currentQuestion, this`results
      modifies this`gameComplete, this`isPreviouslyCompleted
      ensures questions == questionData && gameNumber == Some(number)
      ensures currentQuestion == progress.currentQuestion && results == progress.results
      ensures gameComplete == progress.gameComplete && isPreviouslyCompleted
      ensures timers == multiset{} && !resultMounted
    {
      gameNumber, questions := Some(number), questionData;
      currentQuestion, results, gameComplete := progress.currentQuestion, progress.results, progress.gameComplete;
      isPreviouslyCompleted := true;
    }

    /** `loadGame` without saved progress: the puzzle starts at its first question with every answer `null`. */
    method StartFresh(number: int, questionData: seq<Question>)
      requires Valid() && Initial() && questionData != []
      modifies this`questions, this`gameNumber, this`results
      ensures questions == questionData && gameNumber == Some(number)
      ensures currentQuestion == 0 && results == NoAnswers(|questionData|)
      ensures !gameComplete && !isPreviouslyCompleted && InPlay()
      ensures timers == multiset{} && !resultMounted
    {
      var initialResults := NoAnswers(|questionData|);
      gameNumber, questions, results := Some(number), questionData, initialResults;
    }

    /**
     * `handleAnswer`, on a click of an answer button of the question
     * screen: ignored while the answer is being revealed; otherwise the
     * choice is recorded in `results`, the progress is saved at once (marked
     * complete already when this was the last question), and the 2000 ms
     * timer is started.
     */
    method Answer(answer: string)
      requires Valid()
      requires questions != [] && !gameComplete && 0 <= currentQuestion < |questions|
      modifies this`selectedAnswer, this`showResult, this`results, this`store, this`timers
      ensures Valid()
      ensures old(showResult) ==>
                showResult && selectedAnswer == old(selectedAnswer) && results == old(results) &&
                store == old(store) && timers == old(timers)
      ensures !old(showResult) ==>
                var newResults := SetAt(old(results), currentQuestion, Answered(answer == questions[currentQuestion].correctAnswer));
                var progress := Progress(currentQuestion, newResults, currentQuestion == |questions| - 1);
                showResult && selectedAnswer == Some(answer) && results == newResults &&
                store == old(store)[ProgressKey(gameNumber.value) := ProgressValue(progress)] &&
                timers == old(timers) + multiset{Reveal(currentQuestion, |questions|, gameNumber.value, progress)}
      ensures old(InPlay()) ==> InPlay()
    {
      if showResult {
        return;
      }
      var isCorrect := answer == questions[currentQuestion].correctAnswer;
      var newResults := SetAt(results, currentQuestion, Answered(isCorrect));
      var progress := Progress(currentQuestion, newResults, currentQuestion == |questions| - 1);
      selectedAnswer := Some(answer);
      showResult := true;
      results := newResults;
      SaveProgress(progress);
      StartTimer(Reveal(currentQuestion, |questions|, gameNumber.value, progress));
    }

    /** `localStorage.setItem` of a progress record under the puzzle's key. */
    method SaveProgress(progress: Progress)
      requires Valid() && gameNumber.Some?
      modifies this`store
      ensures Valid()
      ensures store == old(store)[ProgressKey(gameNumber.value) := ProgressValue(progress)]
    {
      ProgressWriteKeepsReady(store, gameNumber.value, progress);
      store := store[ProgressKey(gameNumber.value) := ProgressValue(progress)];
    }

    /** `setTimeout`: the callback waits among the pending ones. */
    method StartTimer(t: Timer)
      requires Valid() && TimerFits(t, gameNumber, |questions|)
      modifies this`timers
      ensures Valid()
      ensures timers == old(timers) + multiset{t}
    {
      TimersAdd(timers, t, gameNumber, |questions|);
      timers := timers + multiset{t};
    }

    /**
     * The 2000 ms callback: for a question before the last it hides the
     * reveal and starts the 50 ms callback; for the last question it
     * completes the game.
     */
    method RevealElapsed(t: Timer)
      requires Valid() && t in timers && t.Reveal?
      modifies this`showResult, this`selectedAnswer, this`timers, this`gameComplete
      ensures Valid()
      ensures t.question < t.count - 1 ==>
                !showResult && selectedAnswer == None && gameComplete == old(gameComplete) &&
                timers == old(timers) - multiset{t} + multiset{Advance(t.question, t.gameNumber, t.progress)}
      ensures t.question >= t.count - 1 ==>
                gameComplete && showResult == old(showResult) && selectedAnswer == old(selectedAnswer) &&
                timers == old(timers) - multiset{t}
    {
      if t.question < t.count - 1 {
        HideReveal(t);
      } else {
        CompleteGame(t);
      }
    }

    /** The 2000 ms callback for a question before the last: the reveal is hidden and the 50 ms callback started. */
    method HideReveal(t: Timer)
      requires Valid() && t in timers && t.Reveal? && t.question < t.count - 1
      modifies this`showResult, this`selectedAnswer, this`timers
      ensures Valid()
      ensures !showResult && selectedAnswer == None
      ensures timers == old(timers) - multiset{t} + multiset{Advance(t.question, t.gameNumber, t.progress)}
    {
      assert TimerFits(t, gameNumber, |questions|);
      TimersRemove(timers, t, gameNumber, |questions|);
      showResult, selectedAnswer, timers := false, None, timers - multiset{t};
      StartTimer(Advance(t.question, t.gameNumber, t.progress));
    }

    /** The 2000 ms callback for the last question: the game is complete. */
    method CompleteGame(t: Timer)
      requires Valid() && t in timers && t.Reveal?
      modifies this`timers, this`gameComplete
      ensures Valid()
      ensures gameComplete && timers == old(timers) - multiset{t}
    {
      TimersRemove(timers, t, gameNumber, |questions|);
      timers := timers - multiset{t};
      gameComplete := true;
    }

    /**
     * The 50 ms callback: moves to the question after the one answered and
     * saves the captured progress again with that question.
     */
    method AdvanceElapsed(t: Timer)
      requires Valid() && t in timers && t.Advance?
      modifies this`timers, this`currentQuestion, this`store
      ensures Valid()
      ensures currentQuestion == t.question + 1 && 1 <= currentQuestion < |questions|
      ensures store == old(store)[ProgressKey(t.gameNumber) := ProgressValue(t.progress.(currentQuestion := t.question + 1))]
      ensures timers == old(timers) - multiset{t}
      ensures old(InPlay()) ==> InPlay()
    {
      assert TimerFits(t, gameNumber, |questions|);
      TimersRemove(timers, t, gameNumber, |questions|);
      timers := timers - multiset{t};
      currentQuestion := t.question + 1;
      SaveProgress(t.progress.(currentQuestion := t.question + 1));
    }

    /** `localStorage.setItem` of the day's result under today's key. */
    method SaveDay(today: Date)
      requires Valid() && questions != []
      requires ValidDate(today) && today.year < 10000
      modifies this`store
      ensures Valid()
      ensures store == old(store)[DateKey(today) := DailyValue(DayResult(results, |questions|))]
      ensures DateKey(today) in DateKeysOf(store)
    {
      var gameResults := DailyResult(Score(results), |questions|, results);
      DailyWriteKeepsReady(store, today, gameResults);
      store := store[DateKey(today) := DailyValue(gameResults)];
    }

    /** The result screen's mount effect: `calculateStats` over the store, shown, and sent unless the puzzle was found saved on load. */
    method MountResult(now: Date)
      requires Valid() && questions != [] && hasLoadedGame && gameComplete && !resultMounted
      requires ValidDate(now) && now.year < 10000
      modifies this`resultMounted, this`shownStats, this`events
      ensures Valid() && resultMounted
      ensures shownStats == StoreStats(store)
      ensures events == if isPreviouslyCompleted then [] else [shownStats]
    {
      resultMounted := true;
      var stats, emit := CalculateStats(store, now, isPreviouslyCompleted);
      shownStats := stats;
      if emit {
        events := events + [stats];
      }
    }

    /**
     * A render of the application on the day `today` (the date key's day)
     * at the instant `now`: nothing before a puzzle is loaded; the question
     * screen while playing; once complete, the day's result is written under
     * today's key on every render, and on its first render the result screen
     * computes the statistics over the store and sends them unless the
     * puzzle was found saved on load.
     */
    method Render(today: Date, now: Date) returns (view: View)
      requires Valid()
      requires ValidDate(today) && today.year < 10000 && ValidDate(now) && now.year < 10000
      requires questions != [] && !gameComplete ==> 0 <= currentQuestion < |questions|
      modifies this`store, this`resultMounted, this`shownStats, this`events
      ensures Valid()
      ensures questions == [] ==>
                view == Blank && store == old(store) && resultMounted == old(resultMounted) &&
                shownStats == old(shownStats) && events == old(events)
      ensures questions != [] && !gameComplete ==>
                view == QuestionView(questions[currentQuestion], currentQuestion, |questions|, selectedAnswer, showResult) &&
                store == old(store) && resultMounted == old(resultMounted) &&
                shownStats == old(shownStats) && events == old(events)
      ensures questions != [] && gameComplete ==>
                store == old(store)[DateKey(today) := DailyValue(DayResult(results, |questions|))] &&
                resultMounted &&
                view == ResultView(Score(results), |questions|, results, gameNumber.value, isPreviouslyCompleted, shownStats)
      ensures questions != [] && gameComplete && old(resultMounted) ==>
                shownStats == old(shownStats) && events == old(events)
      ensures questions != [] && gameComplete && !old(resultMounted) ==>
                shownStats == StoreStats(store) && shownStats.played >= 1 &&
                events == if isPreviouslyCompleted then [] else [shownStats]
    {
      if |questions| == 0 {
        return Blank;
      }
      if gameComplete {
        SaveDay(today);
        if hasLoadedGame {
          if !resultMounted {
            MountResult(now);
            PlayedCountsDateKeys(store);
          }
          view := ResultView(Score(results), |questions|, results, gameNumber.value, isPreviouslyCompleted, shownStats);
        } else {
          view := Blank;
        }
        return;
      }
      view := QuestionView(questions[currentQuestion], currentQuestion, |questions|, selectedAnswer, showResult);
    }
  }

  /** Reloading right after an answer resumes from what that answer saved: the same question, the same results, and a previously completed puzzle. */
  method AnswerThenReload(s: GameSession, answer: string) returns (s2: GameSession)
    requires s.Valid() && s.InPlay() && !s.gameComplete && !s.showResult
    modifies s
    ensures s2.Valid() && s2.hasLoadedGame && s2.InPlay()
    ensures s2.questions == s.questions && s2.currentQuestion == s.currentQuestion && s2.results == s.results
    ensures s2.gameComplete == (s.currentQuestion == |s.questions| - 1) && s2.isPreviouslyCompleted
  {
    s.Answer(answer);
    s2 := new GameSession(s.store);
    s2.Load(s.gameNumber.value, Some(s.questions));
  }

  /**
   * Only `showResult` guards an answer: once the 2000 ms callback has hidden
   * the reveal and before the 50 ms one moves on, a second answer to the same
   * question overwrites the first one's entry of `results`.
   */
  method AnswerAgainBeforeAdvance(s: GameSession, first: string, second: string)
    requires s.Valid() && s.InPlay() && !s.gameComplete && !s.showResult
    requires s.currentQuestion < |s.questions| - 1
    modifies s
    ensures s.Valid() && s.InPlay() && s.showResult && s.selectedAnswer == Some(second)
    ensures s.currentQuestion == old(s.currentQuestion)
    ensures s.results == old(s.results)[s.currentQuestion := Answered(second == s.questions[s.currentQuestion].correctAnswer)]
  {
    s.Answer(first);
    var t := Reveal(s.currentQuestion, |s.questions|, s.gameNumber.value, Progress(s.currentQuestion, s.results, false));
    s.HideReveal(t);
    s.Answer(second);
  }

  /** Once the day's result is written, rendering the completed game again rewrites the same value: the store, the figures shown and the events stay as they are. */
  method RenderAgain(s: GameSession, today: Date, now: Date) returns (view: View)
    requires s.Valid() && s.questions != [] && s.gameComplete && s.resultMounted
    requires ValidDate(today) && today.year < 10000 && ValidDate(now) && now.year < 10000
    requires DateKey(today) in s.store && s.store[DateKey(today)] == DailyValue(DayResult(s.results, |s.questions|))
    modifies s
    ensures s.Valid()
    ensures s.store == old(s.store) && s.shownStats == old(s.shownStats) && s.events == old(s.events)
  {
    view := s.Render(today, now);
  }
}
