# Guess the Flag: the round and score state machine

The app has one quiz screen, `ContentView`. It shows the name of a target
country above three flag buttons. The player taps the flag they think belongs
to that country. An alert then says "Correct" or "Wrong", and its
"Continue" button asks a new question. After the eighth answer a
"Game Over" alert offers "Restart".

This project models the state behind that screen, `guess_the_flag.dfy`,
module `GuessTheFlag`:

- `Country` are the eleven countries. `Name` gives each one's spelling,
  which is also the name of its flag image.
- `Pool` is every country once. The screen starts from the pool in some
  shuffled order.
- `Screen` is a value of the eight state fields: `countries`,
  `correctAnswer`, `messageUser`, `questionNumber`, `scoreTitle`,
  `playerScore`, `showingScore`, `gameFinished`. `Screen.Valid` is the
  invariant: `countries` is the pool in some order, `correctAnswer` is in
  0..2, and `0 <= playerScore <= questionNumber`.
- `Tapped`, `Asked` and `Restarted` are the three handlers
  `flagTapped(_:)`, `askQuestion()` and `restartGame()`. `ScoreDismissed`
  and `GameOverDismissed` are the two alerts resetting their bindings when
  they close.
- `ContentView` is a class with the same eight fields. Its methods change
  them in place, step by step as the handlers do. Each method is proved to
  leave the fields equal to the matching transition function applied to the
  old fields.
- `Event` and `Run` describe any sequence of taps, questions, restarts and
  dismissals. The lemmas about `Run` describe whole games.

The shuffle and `Int.random(in: 0 ... 2)` are parameters: `order` and
`pick`. Their preconditions are what the library guarantees. `order` is a
permutation of the current list, and `pick` is in 0..2.

Three behaviours of the code are worth noting:

- `restartGame()` clears neither `gameFinished` nor `showingScore`. Only
  dismissing the alert clears them (`RestartKeepsGameOver`).
- Nothing guards `flagTapped(_:)` after the game is over. A ninth tap
  raises `questionNumber` to 9 (`CounterPassesEight`). So
  `questionNumber <= 8` is not an invariant.
- No tap index is rejected with an error. The only requirement is the one the
  array subscripts impose, `0 <= number < |countries|`. The buttons only
  pass 0, 1 or 2.

## Model

| member | source | states |
|---|---|---|
| `GuessTheFlag.Initial` | GuessTheFlag/ContentView.swift:37-45 | the first state is valid, with the countries in the shuffled order, the random index as the correct answer, empty texts, both counters at 0 and no alert |
| `GuessTheFlag.Screen.Target` | GuessTheFlag/ContentView.swift:70 | the country named in the question is always a country of the pool and is the flag at `correctAnswer` among the shown flags |
| `GuessTheFlag.Screen.Flags` | GuessTheFlag/ContentView.swift:74-80 | the three flags on the buttons are in bounds, are three different countries of the pool and are the first three entries of `countries` |
| `GuessTheFlag.Tapped` | GuessTheFlag/ContentView.swift:111-128 | a tap keeps the invariant and leaves the question unchanged. The score rises by exactly 1 when `number == correctAnswer` and is kept otherwise. The counter rises by exactly 1 either way. The feedback alert is requested. `gameFinished` is raised once the counter reaches 8 and otherwise keeps its value. Title and message are "Correct" with the right country, or "Wrong" with the right and the tapped country |
| `GuessTheFlag.Asked` | GuessTheFlag/ContentView.swift:136-139 | a new question keeps `countries` a permutation of the list before it (and so of the pool) and the correct index in 0..2. It changes no counter, text or alert flag |
| `GuessTheFlag.Restarted` | GuessTheFlag/ContentView.swift:130-134 | a restart sets both counters to 0 and otherwise acts exactly as asking a question. It keeps the invariant and leaves the texts, `showingScore` and `gameFinished` as they were |
| `GuessTheFlag.ScoreDismissed` | GuessTheFlag/ContentView.swift:98-99 | closing the feedback alert lowers `showingScore` and changes nothing else |
| `GuessTheFlag.GameOverDismissed` | GuessTheFlag/ContentView.swift:104-105 | closing the "Game Over" alert lowers `gameFinished` and changes nothing else |
| `GuessTheFlag.Name` | GuessTheFlag/ContentView.swift:37 | each country has a non-empty spelling, exactly as in the literal list; it is also the name of the flag image |
| `GuessTheFlag.NameInjective` | GuessTheFlag/ContentView.swift:37 | different countries have different names |
| `GuessTheFlag.CorrectMessage` | GuessTheFlag/ContentView.swift:114 | the correct-tap text is the interpolated string of line 114, 35 characters longer than the country's name |
| `GuessTheFlag.WrongMessage` | GuessTheFlag/ContentView.swift:118 | the wrong-tap text is the interpolated string of line 118, 40 characters longer than the two names together |
| `GuessTheFlag.TapCount` | GuessTheFlag/ContentView.swift:122 | the number of taps among a sequence of events, never more than its length |
| `GuessTheFlag.CorrectMessageNamesCountry` | GuessTheFlag/ContentView.swift:114 | the message after a correct tap contains the country's name, at position 14 |
| `GuessTheFlag.CorrectMessageInjective` | GuessTheFlag/ContentView.swift:114 | different names give different correct-tap messages |
| `GuessTheFlag.CorrectMessageIdentifiesCountry` | GuessTheFlag/ContentView.swift:114 | the correct-tap message tells which country was meant: two countries with the same message are the same country |
| `GuessTheFlag.WrongMessageNamesBoth` | GuessTheFlag/ContentView.swift:118 | the message after a wrong tap contains the right country's name at position 18 and then the tapped country's name |
| `GuessTheFlag.FeedbackNamesCountries` | GuessTheFlag/ContentView.swift:112-119 | after any tap the message names the target country. After a wrong tap it also names the tapped country |
| `GuessTheFlag.PoolHasNoRepeats` | GuessTheFlag/ContentView.swift:37 | no country occurs twice in the list the screen starts from |
| `GuessTheFlag.PoolOrderIsDistinct` | GuessTheFlag/ContentView.swift:37 | however the list is shuffled, no country appears twice in it |
| `GuessTheFlag.StepCounters` | GuessTheFlag/ContentView.swift:111-139 | one event other than a restart raises the counter by 1 exactly when it is a tap, raises the score by at most that much, and raises `gameFinished` only when a tap brings the counter to 8 or more |
| `GuessTheFlag.Run` | GuessTheFlag/ContentView.swift:98-139 | every state reached by any sequence of taps, questions, restarts and alert dismissals keeps the invariant: pool order, index in 0..2, `0 <= playerScore <= questionNumber` |
| `GuessTheFlag.CounterCountsTaps` | GuessTheFlag/ContentView.swift:115-122 | without a restart, the counter advances by exactly the number of taps and the score by between 0 and that number |
| `GuessTheFlag.GameOverAfterEighthAnswer` | GuessTheFlag/ContentView.swift:122-127 | without a restart or a closing of the "Game Over" alert, the game ends up over exactly when it was over already or some tap brought the counter to 8 or more |
| `GuessTheFlag.EightAnswersEndTheGame` | GuessTheFlag/ContentView.swift:122-127 | from a state with no answers, eight taps end the game with the counter at 8 and a score between 0 and 8 |
| `GuessTheFlag.CounterPassesEight` | GuessTheFlag/ContentView.swift:125-127 | a tap after the eighth answer takes the counter to 9 and leaves the game over |
| `GuessTheFlag.RestartKeepsGameOver` | GuessTheFlag/ContentView.swift:130-134 | `restartGame()` alone leaves `gameFinished` raised. A restart after the "Game Over" alert's dismissal leaves it lowered |
| `GuessTheFlag.ContentView.constructor` | GuessTheFlag/ContentView.swift:37-45 | the fields start as `Initial` of the shuffled order and the random index, and the invariant holds |
| `GuessTheFlag.ContentView.FlagTapped` | GuessTheFlag/ContentView.swift:111-128 | updating the fields in place leaves them equal to `Tapped` of their old values, keeping the invariant |
| `GuessTheFlag.ContentView.AskQuestion` | GuessTheFlag/ContentView.swift:136-139 | the in-place shuffle and new index leave the fields equal to `Asked` of their old values |
| `GuessTheFlag.ContentView.RestartGame` | GuessTheFlag/ContentView.swift:130-134 | zeroing the counters and asking a question leaves the fields equal to `Restarted` of their old values |
| `GuessTheFlag.ContentView.DismissScoreAlert` | GuessTheFlag/ContentView.swift:98 | the feedback alert's binding is reset: the fields equal `ScoreDismissed` of their old values |
| `GuessTheFlag.ContentView.DismissGameOverAlert` | GuessTheFlag/ContentView.swift:104 | the "Game Over" alert's binding is reset: the fields equal `GameOverDismissed` of their old values |

## Left out

- The view body (GuessTheFlag/ContentView.swift:47-109), `FlagImage`, the `Title` modifier and `titleText`. They are layout, colours and fonts with floating-point values and have nothing to verify. Only the two subscripts the body performs (`Screen.Target`, `Screen.Flags`) and the two alert bindings are modelled.
- How SwiftUI presents alerts and when it runs their actions. A dismissal is an explicit operation of its own, and `Run` allows events in any order, even orders the modal alerts would not let the player produce.
- `print(questionNumber)` at line 121. It is console output and changes no state.
- The quality and distribution of `shuffled()`, `shuffle()` and `Int.random(in:)`. Only what they guarantee is modelled: a permutation, and an index in 0...2.
- `#Preview` (lines 142-144).
- Swift's 64-bit `Int` and its trap on overflow. The counters are unbounded integers, and the 2^63 taps needed to overflow are not modelled.
- The country strings are modelled as the enumeration `Country`, and `Name` gives their exact spellings. The list is a multiset of countries, so the order of the literal at line 37 is not kept. That order is shuffled before it is ever shown.
- Swift `String` interpolation is modelled as concatenation of character sequences, which is exact for these ASCII texts. The score text of the "Game Over" alert (line 107) is part of the view and is left out.
