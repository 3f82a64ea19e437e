# Flashcard quiz session and results, modelled in Dafny

This project models the quiz engine of a flashcard study app: one quiz attempt
over a set of cards, how answers are graded, how a finished quiz is scored into
experience points (XP), heartcoins and category points, and the figures the
results screen derives from those points.

- `Quiz` (quiz.dfy) is the quiz component. The class `QuizSession` holds the
  component's state in fields: `flashcards`, `cardCount`, `answer`, `result`,
  `submitted`, `completeQuiz` and the `score` ref. Its methods are the handlers
  (the shuffle effect, typing, Clear, `checkAnswer`, `goToNextSlide`,
  `submitResults`). Each method is proved to perform one `...Step` function on
  the abstract `Session` value. The lemmas about those functions state the
  promises: a second grading is a no-op, the score bound holds, and playing a
  whole deck scores the number of correct answers. `Award` is the store update
  of `submitResults`, and `AwardOncePerSet` is the at-most-once reward per set.
- `Shuffle` (shuffle.dfy) is the Fisher–Yates shuffle, an in-place loop over a
  copied array. The random indices are supplied by the caller.
- `Text` (text.dfy) is the `trim().toLowerCase()` normalisation that grading
  compares.
- `Entities` (entities.dfy) holds the records: flashcards, the user profile,
  stats entries, categories and sets. It also holds `includes`, `find` and
  `updateCard` on them, and a `Store` object that stands for the redux store
  and the document database together.
- `Results` (results.dfy) and `Digits` (digits.dfy) are the results screen.
  They compute the category points, the completed flag, the level and the XP
  percent. The XP percent drops the leading decimal digit of the points. They
  also give the bounds of the progress animation.

## Behaviour kept as the code has it

- `submitResults` SETS `heartcoin` to `20 * levelUp` (components/Quiz.tsx:158).
  It does not add the award to the balance. A quiz that gains no level
  therefore writes 0. The model does the same (`Quiz.Award`).
- Above one level's worth of points, the XP percent is whatever the digits
  after the first one spell (components/Results.tsx:50-52). It is not the
  remainder within the current level. `Results.XPPercentAgainstRemainder`
  proves the two agree when a level is 100 points and the total has three
  digits. The same lemma shows two cases where they differ: 1234 points show
  234, more than a full bar, and with 50-point levels 130 points show 30
  instead of 60.
- The completion gate is only a membership test on `completedQuiz`. Nothing
  in the modelled code ever clears that list.
- `goToNextSlide` has no guard of its own. `checkAnswer` returns nothing; the
  grade is recorded in `result`. Playing an empty deck is not rejected. Its
  only effect would be reading a card that does not exist, and that is what
  the requires of `CheckAnswerStep` excludes.

## Model

| member | source | states |
|---|---|---|
| `Text.TrimStart` | components/Quiz.tsx:89-90 | the result is the suffix of the input left after its leading whitespace, and it does not start with whitespace |
| `Text.TrimEnd` | components/Quiz.tsx:89-90 | the result is the prefix left before the trailing whitespace, and it does not end with whitespace |
| `Text.Trim` | components/Quiz.tsx:89-90 | the result is a slice of the input with only whitespace on both sides, and it neither starts nor ends with whitespace |
| `Text.ToLower` | components/Quiz.tsx:89-90 | the same length, and each character is mapped through ASCII lower-casing |
| `Text.TrimIgnoresSurroundingWhitespace` | components/Quiz.tsx:88-90 | adding whitespace before and after a string does not change its trimmed form |
| `Text.TrimLower` | components/Quiz.tsx:89-90 | trimming and lower-casing commute |
| `Text.MatchesIgnoresSurroundingWhitespace` | components/Quiz.tsx:88-92 | an answer padded with whitespace grades exactly as the bare answer |
| `Text.MatchesIgnoresCase` | components/Quiz.tsx:88-92 | answers that are equal up to A–Z case grade the same against every solution |
| `Text.NormalizeIdempotent` | components/Quiz.tsx:89-90 | normalising a normalised string changes nothing |
| `Text.ParisGradesCorrect` | components/Quiz.tsx:88-92 | `" Paris "` grades correct against `"paris"` |
| `Shuffle.Swap` | components/Quiz.tsx:173 | entries i and j are exchanged and every other entry is kept |
| `Shuffle.ShuffledPermutes` | components/Quiz.tsx:169-175 | for any valid draws the shuffled deck has the same length and the same multiset of cards |
| `Shuffle.ShuffleFromKeepsAbove` | components/Quiz.tsx:171-173 | the swaps for indices up to i never touch an entry above i |
| `Shuffle.ShuffledInjective` | components/Quiz.tsx:171-174 | on distinct cards, equal shuffled decks come from equal draws, so each order comes from one draw sequence |
| `Shuffle.ShuffleArray` | components/Quiz.tsx:169-175 | returns a fresh array equal to `Shuffled(cards, rolls)`, with the same length and multiset, and `cards` unchanged |
| `Entities.Includes` | components/Quiz.tsx:126 | true iff the element occurs in the list |
| `Entities.FindCategory` | components/Results.tsx:41-44 | `None` iff no category has the id; otherwise a listed category with that id |
| `Entities.SetPoints` | components/Quiz.tsx:141-147 | the same length; categories with the id get the new points, the others are unchanged |
| `Entities.FindAfterSetPoints` | components/Quiz.tsx:141-147 | after the update, the category is found with the new point total |
| `Entities.Store.constructor` | components/Pages/SignUp.tsx:20-36 | a new user starts with 0 xp, 0 heartcoin, no completed sets and no stats |
| `Quiz.ShuffleStep` | components/Quiz.tsx:175 | the deck is replaced and nothing else changes |
| `Quiz.SetAnswerStep` | components/Quiz.tsx:288-290 | typing replaces the answer unless the card is graded, and nothing else changes |
| `Quiz.ClearStep` | components/Quiz.tsx:304-305 | Clear empties a non-empty, ungraded answer and changes nothing else |
| `Quiz.CheckAnswerStep` | components/Quiz.tsx:86-99 | once graded, no-op; otherwise `submitted` is set, `result` records the grade, the score rises by 1 iff the normalised texts are equal, and the bound is kept |
| `Quiz.NextSlideStep` | components/Quiz.tsx:102-106 | answer `""`, not submitted, `cardCount` plus 1, score, deck and result kept, and the bound is kept |
| `Quiz.CheckAnswerIdempotent` | components/Quiz.tsx:87 | grading twice before moving on is grading once |
| `Quiz.ScoreAtResults` | components/Quiz.tsx:84 | when the Results button is shown, the score is at most the number of cards |
| `Quiz.PlayCard` | components/Quiz.tsx:86-106 | one card typed, submitted and left: the score rises by its grade, and the card index advances unless it was the last |
| `Quiz.PlayScores` | components/Quiz.tsx:81-106 | playing the remaining cards ends on the Results button, with the score raised by the number of correct answers |
| `Quiz.WholeQuiz` | components/Quiz.tsx:81-106 | from a fresh shuffled deck, a full play-through reaches Results with score equal to the correct count and at most the deck size |
| `Quiz.Award` | components/Quiz.tsx:108-162 | one stats entry is always appended and the set becomes completed; a set already completed changes nothing else; otherwise xp plus the score, the set appended, heartcoin `20 * levelUp`, and the category set to `categoryXP + score` if found |
| `Quiz.AwardOncePerSet` | components/Quiz.tsx:125-126 | submitting the same set again leaves xp, heartcoin, completed sets and categories as they were and adds one more stats entry |
| `Quiz.QuizSession.constructor` | components/Quiz.tsx:53-62 | the initial state: empty deck, card 0, empty answer, no result, nothing submitted, score 0 |
| `Quiz.QuizSession.ShuffleDeck` | components/Quiz.tsx:168-178 | the deck becomes the shuffle of `cards`, a permutation of the same length |
| `Quiz.QuizSession.SetAnswer` | components/Quiz.tsx:289-290 | performs `SetAnswerStep` on the fields |
| `Quiz.QuizSession.ClearAnswer` | components/Quiz.tsx:304-305 | performs `ClearStep` on the fields |
| `Quiz.QuizSession.CheckAnswer` | components/Quiz.tsx:86-99 | performs `CheckAnswerStep`; a graded card is left alone, otherwise the score rises by 1 iff the answer matches |
| `Quiz.QuizSession.GoToNextSlide` | components/Quiz.tsx:102-106 | performs `NextSlideStep`: answer cleared, not submitted, next card, score kept |
| `Quiz.QuizSession.SubmitResults` | components/Quiz.tsx:108-162 | marks the quiz complete and updates the store as `Award`; reached through the Results button, the recorded score is at most the number of questions |
| `Digits.FromToDecimal` | components/Results.tsx:51-52 | parsing a number's decimal spelling gives the number back |
| `Digits.ToFromDecimal` | components/Results.tsx:51-52 | spelling the value of a digit string without a leading zero gives the string back |
| `Digits.DigitCountBounds` | components/Results.tsx:51 | a number of k decimal digits lies between 10^(k-1) and 10^k |
| `Digits.DropLeadingDigit` | components/Results.tsx:51-52 | `NaN` iff the number has one digit; otherwise the number is its first digit times 10^(k-1) plus the result, and the result is below 10^(k-1) |
| `Digits.DropLeadingDigitSmaller` | components/Results.tsx:51-52 | from 10 up, the result is smaller than the number and below 10^(k-1) |
| `Digits.DropLeadingDigitOfThreeDigits` | components/Results.tsx:51 | for a three-digit number the result is the number modulo 100 |
| `Digits.DropLeadingDigitExamples` | components/Results.tsx:51-52 | 130 gives 30 and 1005 gives 5 |
| `Results.Points` | components/Results.tsx:41-46 | 0 when no category has the set's id, otherwise that category's points |
| `Results.SetCompleted` | components/Results.tsx:45 | true iff the set's id occurs in `completedQuiz` |
| `Results.Level` | components/Results.tsx:91 | undefined iff `pointTotal` is 0; otherwise the level times `pointTotal` is at most the points, and the next level is above them |
| `Results.XPPercent` | components/Results.tsx:48-54 | above one level: `NaN` iff the points have one digit, otherwise the points minus their leading digit's place value, below the points; at or below one level: the exact proportion in percent, or `NaN` for 0/0 |
| `Results.Progress` | components/Results.tsx:56-57 | the end minus the start is twice the score, and the start plus the score is the XP percent; both are `NaN` iff the percent is |
| `Results.XPPercentExamples` | components/Results.tsx:50-52 | 130 points at 100 per level show 30; 1005 show 5 |
| `Results.XPPercentOfThreeDigits` | components/Results.tsx:50-52 | for three-digit points above one level, the percent is the points modulo 100 |
| `Results.XPPercentAgainstRemainder` | components/Results.tsx:50-52 | the digit-drop equals the remainder within the level for 101–999 points at 100 per level, and differs at 1234 (100 per level) and at 130 (50 per level) |

## Left out

- Rendering is left out: the Portal and Dialog markup, animations, keyboard listeners, the progress bar and the start page (`startQuiz`). The quit alert (`showAlert`) is also left out. A cancelled quiz simply stops calling the handlers.
- The files ActionDialog.tsx, AlertDialog.tsx, SwatchSelector.tsx, Pattern.tsx and StackNavigator.tsx are presentation only. Categories.tsx is category CRUD through redux dispatch. Home.tsx imports the login-streak and week-sorting helpers, but their source is not part of this model, so no login streak is modelled. SignUp.tsx contributes only the initial profile.
- `checkForLevelUp` is a parameter of `SubmitResults`, because its source is not part of this model. No level-crossing rule is assumed for it.
- `Math.random()` becomes the caller-supplied `rolls`, with `0 <= rolls[i] <= i`. The model does not capture uniformity; it proves only that distinct draws give distinct orders. `DateTime.now().toISO()` becomes the `date` parameter.
- `db.findOne` with its callback, and the `dispatch`, `updateUser` and `updateCard` calls, become synchronous writes to the `Store` object. Whether the category document exists becomes whether `FindCategory` finds it. The two `updateUser` dispatches are one write, since they set different fields. The order of asynchronous completions is not modelled.
- The quiz grade `Math.floor((score / total) * 100)` is left out, because it is floating-point arithmetic.
- Results.XPPercent: the `points <= pointTotal` branch is the exact rational. JavaScript's double rounding is not modelled.
- Results.Level: natural-number division stands for `Math.floor` of a double quotient. Rounding at magnitudes near 2^53 is not modelled.
- Entities.FindCategory: the contract does not say that the category found is the first match. Only that it is a listed category with the id.
- Text.Trim and Text.ToLower cover only ASCII whitespace and A–Z. Unicode whitespace and case mapping are not modelled. The 42-character limit of the input field is not modelled either.
- JavaScript numbers are doubles. The model's integers are unbounded, and no overflow of xp or points is modelled.
- Quiz.CheckAnswerStep: it requires the card being graded to exist. Past the end of the deck, the source throws a TypeError when it reads `.solution`, and that path is not modelled.
