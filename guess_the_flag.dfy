/** A model of the round and score logic of the "Guess the Flag" quiz screen
    (GuessTheFlag/ContentView.swift).

    The screen shows the name of a target country and three flags; the player
    taps the flag they believe belongs to that country, gets a feedback alert,
    and after the eighth answer a "Game Over" alert offers a restart.

    `Screen` is the value of the screen's state fields, and the functions
    `Tapped`, `Asked`, `Restarted`, `ScoreDismissed` and `GameOverDismissed`
    are its transitions; the class `ContentView` holds the same fields as
    mutable state and its methods are proved to perform those transitions.
    The shuffle and the random index are passed in as parameters that carry
    what the platform's library guarantees about them. */
module GuessTheFlag {

  /** The eleven countries whose flags the game can show. */
  datatype Country =
    | Estonia | France | Germany | Ireland | Italy | Nigeria
    | Poland | Spain | UK | Ukraine | US

  /** The name of a country as the screen spells it; it is also the name of
      the flag's image. */
  function Name(c: Country): (name: string)
    ensures name != ""
  {
    match c
    case Estonia => "Estonia"
    case France => "France"
    case Germany => "Germany"
    case Ireland => "Ireland"
    case Italy => "Italy"
    case Nigeria => "Nigeria"
    case Poland => "Poland"
    case Spain => "Spain"
    case UK => "UK"
    case Ukraine => "Ukraine"
    case US => "US"
  }

  /** The pool the screen starts from: every country once. The source lists
      them in an order that is shuffled before it is ever used, so only the
      names themselves matter. */
  const Pool: multiset<Country> :=
    multiset{Estonia, France, Germany, Ireland, Italy, Nigeria,
             Poland, Spain, UK, Ukraine, US}

  /** Number of flags shown in each round (the buttons 0 ..< 3). */
  const FlagsShown := 3

  /** The question count at which the game is over. */
  const LastQuestion := 8

  /** No name occurs twice. */
  predicate Distinct(s: seq<Country>) {
    forall i, j :: 0 <= i < j < |s| ==> s[i] != s[j]
  }

  /** `a` is a reordering of `b`: what an in-place shuffle may produce. */
  predicate IsShuffleOf(a: seq<Country>, b: seq<Country>) {
    |a| == |b| && multiset(a) == multiset(b)
  }

  /** `c` lists each country of the pool exactly once, in some order. */
  predicate IsPoolOrder(c: seq<Country>) {
    |c| == |Pool| && multiset(c) == Pool
  }

  // ---------------------------------------------------------------------
  // Feedback text
  // ---------------------------------------------------------------------

  /** The alert message after a correct tap. */
  function CorrectMessage(name: string): (msg: string)
    ensures |msg| == |name| + 35
  {
    "You're right! " + name + " is the right answer!"
  }

  /** The alert message after a wrong tap. */
  function WrongMessage(correct: string, chosen: string): (msg: string)
    ensures |msg| == |correct| + |chosen| + 40
  {
    "Ops! This flag is " + correct + ". You choose " + chosen + " instead."
  }

  /** `name` occurs in `msg` starting at position `k`. */
  predicate OccursAt(msg: string, name: string, k: int) {
    0 <= k && k + |name| <= |msg| && msg[k..k + |name|] == name
  }

  /** `name` occurs somewhere inside `msg`. */
  predicate Mentions(msg: string, name: string) {
    exists k :: 0 <= k <= |msg| && OccursAt(msg, name, k)
  }

  /** The message for a correct tap names the country. */
  lemma CorrectMessageNamesCountry(name: string)
    ensures OccursAt(CorrectMessage(name), name, 14)
    ensures Mentions(CorrectMessage(name), name)
  {
    // the position 14 is the witness the existential in Mentions needs
    assert OccursAt(CorrectMessage(name), name, 14);
  }

  /** Different countries give different messages, so the message
      identifies the country exactly. */
  lemma CorrectMessageInjective(a: string, b: string)
    ensures CorrectMessage(a) == CorrectMessage(b) ==> a == b
  {
    if CorrectMessage(a) == CorrectMessage(b) {
      assert |a| == |b|;
      CorrectMessageNamesCountry(a);
      CorrectMessageNamesCountry(b);
    }
  }

  /** The message for a wrong tap names the right country and then the
      country whose flag was tapped. */
  lemma WrongMessageNamesBoth(correct: string, chosen: string)
    ensures OccursAt(WrongMessage(correct, chosen), correct, 18)
    ensures OccursAt(WrongMessage(correct, chosen), chosen, 31 + |correct|)
    ensures Mentions(WrongMessage(correct, chosen), correct)
    ensures Mentions(WrongMessage(correct, chosen), chosen)
  {
    var msg := WrongMessage(correct, chosen);
    assert msg[18..18 + |correct|] == correct;
    assert msg[31 + |correct|..31 + |correct| + |chosen|] == chosen;
    assert OccursAt(msg, correct, 18);
    assert OccursAt(msg, chosen, 31 + |correct|);
  }

  /** No two countries share a name. */
  lemma NameInjective(a: Country, b: Country)
    ensures Name(a) == Name(b) ==> a == b
  {
  }

  /** No two countries share a name, so a feedback message for a correct
      tap tells which country was meant. */
  lemma CorrectMessageIdentifiesCountry(a: Country, b: Country)
    ensures CorrectMessage(Name(a)) == CorrectMessage(Name(b)) ==> a == b
  {
    CorrectMessageInjective(Name(a), Name(b));
    NameInjective(a, b);
  }

  // ---------------------------------------------------------------------
  // Facts about shuffling the pool
  // ---------------------------------------------------------------------

  /** No country occurs twice in the pool. */
  lemma PoolHasNoRepeats()
    ensures forall x :: Pool[x] <= 1
  {
  }

  /** A country at two positions occurs at least twice. */
  lemma RepeatCountsTwice(s: seq<Country>, i: int, j: int)
    requires 0 <= i < j < |s| && s[i] == s[j]
    ensures multiset(s)[s[i]] >= 2
  {
    var front, back := s[..i + 1], s[i + 1..];
    assert s == front + back;
    assert s[i] == front[i];
    assert s[j] == back[j - i - 1];
    assert multiset(s) == multiset(front) + multiset(back);
  }

  /** However the pool is shuffled, no country appears twice. */
  lemma PoolOrderIsDistinct(a: seq<Country>)
    requires IsPoolOrder(a)
    ensures Distinct(a)
  {
    PoolHasNoRepeats();
    forall i, j | 0 <= i < j < |a| ensures a[i] != a[j] {
      if a[i] == a[j] {
        RepeatCountsTwice(a, i, j);
        assert false;
      }
    }
  }

  /** Every entry of a shuffle of the pool is a country of the pool. */
  lemma PoolOrderEntry(a: seq<Country>, i: int)
    requires IsPoolOrder(a) && 0 <= i < |a|
    ensures a[i] in Pool
  {
    assert a[i] in multiset(a);
  }

  // ---------------------------------------------------------------------
  // The screen state and its transitions
  // ---------------------------------------------------------------------

  /** The state fields of the quiz screen. */
  datatype Screen = Screen(
    countries: seq<Country>,
    correctAnswer: int,
    messageUser: string,
    questionNumber: int,
    scoreTitle: string,
    playerScore: int,
    showingScore: bool,
    gameFinished: bool)
  {
    /** What holds of every reachable state: the countries are the pool in
        some order, the correct answer is one of the three shown flags, and
        the score never exceeds the number of questions answered. */
    predicate Valid() {
      IsPoolOrder(countries) && 0 <= correctAnswer < FlagsShown &&
      0 <= playerScore <= questionNumber
    }

    /** The country named as the question ("Tap the flag of ..."). */
    function Target(): (c: Country)
      requires Valid()
      ensures c in Pool
      ensures c == Flags()[correctAnswer]
    {
      PoolOrderEntry(countries, correctAnswer);
      countries[correctAnswer]
    }

    /** The three flags shown on the buttons 0, 1 and 2: three different
        countries of the pool, one of which is the target. */
    function Flags(): (flags: seq<Country>)
      requires Valid()
      ensures |flags| == FlagsShown && Distinct(flags)
      ensures forall i :: 0 <= i < |flags| ==> flags[i] in Pool
      ensures forall i :: 0 <= i < |flags| ==> flags[i] == countries[i]
    {
      PoolOrderIsDistinct(countries);
      forall i | 0 <= i < FlagsShown ensures countries[i] in Pool {
        PoolOrderEntry(countries, i);
      }
      countries[..FlagsShown]
    }
  }

  /** The state when the screen appears: a shuffled pool, a random correct
      index, empty texts, both counters at zero and no alert shown. */
  function Initial(order: seq<Country>, pick: int): (s: Screen)
    requires IsPoolOrder(order) && 0 <= pick <= 2
    ensures s.Valid()
    ensures s.countries == order && s.correctAnswer == pick
    ensures s.questionNumber == 0 && s.playerScore == 0
    ensures s.scoreTitle == "" && s.messageUser == ""
    ensures !s.showingScore && !s.gameFinished
  {
    Screen(order, pick, "", 0, "", 0, false, false)
  }

  /** Scoring a tap on flag `number`. Swift traps on an index outside the
      country list, which is what the precondition excludes; the buttons only
      ever pass 0, 1 or 2. */
  function Tapped(s: Screen, number: int): (r: Screen)
    requires s.Valid() && 0 <= number < |s.countries|
    ensures r.Valid()
    // the score rises by exactly one on a correct tap and is kept otherwise
    ensures r.playerScore == s.playerScore + (if number == s.correctAnswer then 1 else 0)
    // every tap counts as an answered question and asks for the feedback alert
    ensures r.questionNumber == s.questionNumber + 1 && r.showingScore
    // the game-over flag is raised from the eighth answer on, never lowered
    ensures r.gameFinished <==> s.gameFinished || r.questionNumber >= LastQuestion
    ensures number == s.correctAnswer ==>
      r.scoreTitle == "Correct" && r.messageUser == CorrectMessage(Name(s.countries[s.correctAnswer]))
    ensures number != s.correctAnswer ==>
      r.scoreTitle == "Wrong" &&
      r.messageUser == WrongMessage(Name(s.countries[s.correctAnswer]), Name(s.countries[number]))
    // the question itself does not change
    ensures r.countries == s.countries && r.correctAnswer == s.correctAnswer
  {
    var answered := if number == s.correctAnswer
      then s.(scoreTitle := "Correct",
              messageUser := CorrectMessage(Name(s.countries[s.correctAnswer])),
              playerScore := s.playerScore + 1)
      else s.(scoreTitle := "Wrong",
              messageUser := WrongMessage(Name(s.countries[s.correctAnswer]), Name(s.countries[number])));
    var counted := answered.(questionNumber := answered.questionNumber + 1, showingScore := true);
    if counted.questionNumber >= LastQuestion then counted.(gameFinished := true) else counted
  }

  /** The feedback after any tap names the target country, and after a
      wrong tap also the country whose flag was tapped. */
  lemma FeedbackNamesCountries(s: Screen, number: int)
    requires s.Valid() && 0 <= number < |s.countries|
    ensures Mentions(Tapped(s, number).messageUser, Name(s.Target()))
    ensures number != s.correctAnswer ==>
      Mentions(Tapped(s, number).messageUser, Name(s.countries[number]))
  {
    var target := Name(s.countries[s.correctAnswer]);
    if number == s.correctAnswer {
      CorrectMessageNamesCountry(target);
    } else {
      WrongMessageNamesBoth(target, Name(s.countries[number]));
    }
  }

  /** Nothing stops a tap after the game is over: the counter goes past
      eight and the game-over flag stays raised. */
  lemma CounterPassesEight(s: Screen, number: int)
    requires s.Valid() && s.questionNumber == LastQuestion && 0 <= number < |s.countries|
    ensures Tapped(s, number).questionNumber == LastQuestion + 1
    ensures Tapped(s, number).gameFinished
  {
  }

  /** A new question: the countries are reshuffled into `order` and `pick`
      becomes the correct index. */
  function Asked(s: Screen, order: seq<Country>, pick: int): (r: Screen)
    requires s.Valid() && IsShuffleOf(order, s.countries) && 0 <= pick <= 2
    ensures r.Valid()
    ensures IsShuffleOf(r.countries, s.countries) && 0 <= r.correctAnswer <= 2
    ensures r.countries == order && r.correctAnswer == pick
    // no counter, text or alert flag changes
    ensures r.questionNumber == s.questionNumber && r.playerScore == s.playerScore
    ensures r.scoreTitle == s.scoreTitle && r.messageUser == s.messageUser
    ensures r.showingScore == s.showingScore && r.gameFinished == s.gameFinished
  {
    s.(countries := order, correctAnswer := pick)
  }

  /** Restarting: both counters go back to zero and a new question is asked.
      The texts and the alert flags are left alone. */
  function Restarted(s: Screen, order: seq<Country>, pick: int): (r: Screen)
    requires s.Valid() && IsShuffleOf(order, s.countries) && 0 <= pick <= 2
    ensures r.Valid()
    ensures r.questionNumber == 0 && r.playerScore == 0
    ensures r == Asked(s.(questionNumber := 0, playerScore := 0), order, pick)
    ensures r.scoreTitle == s.scoreTitle && r.messageUser == s.messageUser
    ensures r.showingScore == s.showingScore && r.gameFinished == s.gameFinished
  {
    Asked(s.(questionNumber := 0, playerScore := 0), order, pick)
  }

  /** The feedback alert is dismissed (the binding of `showingScore`). */
  function ScoreDismissed(s: Screen): (r: Screen)
    requires s.Valid()
    ensures r.Valid() && !r.showingScore
    ensures r.(showingScore := s.showingScore) == s
  {
    s.(showingScore := false)
  }

  /** The "Game Over" alert is dismissed (the binding of `gameFinished`). */
  function GameOverDismissed(s: Screen): (r: Screen)
    requires s.Valid()
    ensures r.Valid() && !r.gameFinished
    ensures r.(gameFinished := s.gameFinished) == s
  {
    s.(gameFinished := false)
  }

  // ---------------------------------------------------------------------
  // Sequences of events
  // ---------------------------------------------------------------------

  /** Everything that can happen to the screen's state. */
  datatype Event =
    | TapFlag(number: int)
    | AskQuestion(order: seq<Country>, pick: int)
    | RestartGame(order: seq<Country>, pick: int)
    | DismissScore
    | DismissGameOver

  /** An event the library and the buttons can actually produce. */
  predicate WellFormed(e: Event) {
    match e
    case TapFlag(number) => 0 <= number < |Pool|
    case AskQuestion(order, pick) => IsPoolOrder(order) && 0 <= pick <= 2
    case RestartGame(order, pick) => IsPoolOrder(order) && 0 <= pick <= 2
    case DismissScore => true
    case DismissGameOver => true
  }

  predicate AllWellFormed(evs: seq<Event>) {
    forall i :: 0 <= i < |evs| ==> WellFormed(evs[i])
  }

  /** One event applied to a state. */
  function Step(s: Screen, e: Event): (r: Screen)
    requires s.Valid() && WellFormed(e)
    ensures r.Valid()
  {
    match e
    case TapFlag(number) => Tapped(s, number)
    case AskQuestion(order, pick) => Asked(s, order, pick)
    case RestartGame(order, pick) => Restarted(s, order, pick)
    case DismissScore => ScoreDismissed(s)
    case DismissGameOver => GameOverDismissed(s)
  }

  /** A sequence of events applied in order. Every state it reaches is
      valid, so no sequence of taps, questions and restarts ever breaks the
      screen's invariant. */
  function Run(s: Screen, evs: seq<Event>): (r: Screen)
    requires s.Valid() && AllWellFormed(evs)
    ensures r.Valid()
    decreases |evs|
  {
    if evs == [] then s
    else
      assert WellFormed(evs[0]);
      Run(Step(s, evs[0]), evs[1..])
  }

  /** The number of taps among `evs`. */
  function TapCount(evs: seq<Event>): (n: nat)
    ensures n <= |evs|
  {
    if evs == [] then 0
    else (if evs[0].TapFlag? then 1 else 0) + TapCount(evs[1..])
  }

  /** `evs` holds no restart. */
  predicate NoRestart(evs: seq<Event>) {
    forall i :: 0 <= i < |evs| ==> !evs[i].RestartGame?
  }

  /** What one event other than a restart does to the counters and to the
      game-over flag. */
  lemma StepCounters(s: Screen, e: Event)
    requires s.Valid() && WellFormed(e) && !e.RestartGame?
    ensures Step(s, e).questionNumber == s.questionNumber + (if e.TapFlag? then 1 else 0)
    ensures s.playerScore <= Step(s, e).playerScore <= s.playerScore + (if e.TapFlag? then 1 else 0)
    ensures !e.DismissGameOver? ==>
      (Step(s, e).gameFinished <==>
       s.gameFinished || (e.TapFlag? && Step(s, e).questionNumber >= LastQuestion))
  {
  }

  /** Without a restart, the question counter advances by exactly the number
      of taps, and the score by at least zero and at most that number. */
  lemma {:induction false} CounterCountsTaps(s: Screen, evs: seq<Event>)
    requires s.Valid() && AllWellFormed(evs) && NoRestart(evs)
    ensures Run(s, evs).questionNumber == s.questionNumber + TapCount(evs)
    ensures s.playerScore <= Run(s, evs).playerScore <= s.playerScore + TapCount(evs)
    decreases |evs|
  {
    if evs != [] {
      var e, rest := evs[0], evs[1..];
      assert WellFormed(e) && !e.RestartGame?;
      assert forall i :: 0 <= i < |rest| ==> rest[i] == evs[i + 1];
      StepCounters(s, e);
      CounterCountsTaps(Step(s, e), rest);
    }
  }

  /** Without a restart or a dismissal of the "Game Over" alert, the game is
      over at the end exactly when it was over already, or when some tap
      brought the counter to eight or beyond. */
  lemma {:induction false} GameOverAfterEighthAnswer(s: Screen, evs: seq<Event>)
    requires s.Valid() && AllWellFormed(evs) && NoRestart(evs)
    requires forall i :: 0 <= i < |evs| ==> !evs[i].DismissGameOver?
    ensures Run(s, evs).gameFinished <==>
      s.gameFinished || (TapCount(evs) > 0 && s.questionNumber + TapCount(evs) >= LastQuestion)
    decreases |evs|
  {
    if evs != [] {
      var e, rest := evs[0], evs[1..];
      assert WellFormed(e) && !e.RestartGame? && !e.DismissGameOver?;
      assert forall i :: 0 <= i < |rest| ==> rest[i] == evs[i + 1];
      StepCounters(s, e);
      CounterCountsTaps(s, evs);
      GameOverAfterEighthAnswer(Step(s, e), rest);
    }
  }

  /** A full game: from a state with no answers yet, eight taps (with any
      questions and feedback dismissals in between) end the game. */
  lemma EightAnswersEndTheGame(s: Screen, evs: seq<Event>)
    requires s.Valid() && s.questionNumber == 0 && AllWellFormed(evs) && NoRestart(evs)
    requires forall i :: 0 <= i < |evs| ==> !evs[i].DismissGameOver?
    requires TapCount(evs) == LastQuestion
    ensures Run(s, evs).gameFinished
    ensures Run(s, evs).questionNumber == LastQuestion
    ensures 0 <= Run(s, evs).playerScore <= LastQuestion
  {
    GameOverAfterEighthAnswer(s, evs);
    CounterCountsTaps(s, evs);
  }

  /** `restartGame` does not clear the game-over flag: only the dismissal of
      the "Game Over" alert does. */
  lemma RestartKeepsGameOver(s: Screen, order: seq<Country>, pick: int)
    requires s.Valid() && s.gameFinished && IsShuffleOf(order, s.countries) && 0 <= pick <= 2
    ensures Restarted(s, order, pick).gameFinished
    ensures !Restarted(GameOverDismissed(s), order, pick).gameFinished
  {
  }

  // ---------------------------------------------------------------------
  // The screen as mutable state
  // ---------------------------------------------------------------------

  /** The state fields of the screen, updated in place by its handlers. */
  class ContentView {
    var countries: seq<Country>
    var correctAnswer: int
    var messageUser: string
    var questionNumber: int
    var scoreTitle: string
    var playerScore: int
    var showingScore: bool
    var gameFinished: bool

    /** The current values of the fields. */
    ghost function Snapshot(): Screen
      reads this
    {
      Screen(countries, correctAnswer, messageUser, questionNumber,
             scoreTitle, playerScore, showingScore, gameFinished)
    }

    ghost predicate Valid()
      reads this
    {
      Snapshot().Valid()
    }

    /** The screen appears with the pool shuffled into `order` and `pick`
        as the correct index. */
    constructor (order: seq<Country>, pick: int)
      requires IsPoolOrder(order) && 0 <= pick <= 2
      ensures Valid() && Snapshot() == Initial(order, pick)
    {
      countries := order;
      correctAnswer := pick;
      messageUser := "";
      questionNumber := 0;
      scoreTitle := "";
      playerScore := 0;
      showingScore := false;
      gameFinished := false;
    }

    /** `flagTapped(_:)`: scores a tap on flag `number`. */
    method FlagTapped(number: int)
      requires Valid() && 0 <= number < |countries|
      modifies this
      ensures Snapshot() == Tapped(old(Snapshot()), number)
      ensures Valid()
    {
      if number == correctAnswer {
        scoreTitle := "Correct";
        messageUser := CorrectMessage(Name(countries[correctAnswer]));
        playerScore := playerScore + 1;
      } else {
        scoreTitle := "Wrong";
        messageUser := WrongMessage(Name(countries[correctAnswer]), Name(countries[number]));
      }
      questionNumber := questionNumber + 1;
      showingScore := true;
      if questionNumber >= LastQuestion {
        gameFinished := true;
      }
    }

    /** `askQuestion()`: the countries are shuffled in place into `order`
        and `pick` becomes the correct index. */
    method AskQuestion(order: seq<Country>, pick: int)
      requires Valid() && IsShuffleOf(order, countries) && 0 <= pick <= 2
      modifies this
      ensures Snapshot() == Asked(old(Snapshot()), order, pick)
      ensures Valid()
    {
      countries := order;
      correctAnswer := pick;
    }

    /** `restartGame()`: both counters go back to zero, then a new question
        is asked. */
    method RestartGame(order: seq<Country>, pick: int)
      requires Valid() && IsShuffleOf(order, countries) && 0 <= pick <= 2
      modifies this
      ensures Snapshot() == Restarted(old(Snapshot()), order, pick)
      ensures Valid()
    {
      questionNumber := 0;
      playerScore := 0;
      AskQuestion(order, pick);
    }

    /** The feedback alert is dismissed, which resets its binding. */
    method DismissScoreAlert()
      requires Valid()
      modifies this
      ensures Snapshot() == ScoreDismissed(old(Snapshot()))
      ensures Valid()
    {
      showingScore := false;
    }

    /** The "Game Over" alert is dismissed, which resets its binding. */
    method DismissGameOverAlert()
      requires Valid()
      modifies this
      ensures Snapshot() == GameOverDismissed(old(Snapshot()))
      ensures Valid()
    {
      gameFinished := false;
    }
  }
}
