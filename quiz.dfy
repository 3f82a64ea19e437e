/**
 * The quiz session of components/Quiz.tsx: the shuffled deck, the card being
 * shown (`cardCount`), the typed answer, the grading outcome of the current
 * card (`result`), whether it has been graded (`submitted`), whether the
 * results have been submitted (`completeQuiz`) and the running `score`.
 *
 * `Session` is the abstract value of that state and the `...Step` functions
 * say what each handler does to it; the class `QuizSession` holds the state in
 * fields and its methods are proved to perform those steps.
 */
module Quiz {
  import opened Wrappers
  import opened Text
  import opened Entities
  import Shuffle

  datatype Session = Session(
    flashcards: seq<Flashcard>,
    cardCount: nat,
    answer: string,
    result: Option<bool>,
    submitted: bool,
    completeQuiz: bool,
    score: nat)

  /** The state when the quiz component mounts, before the shuffle effect runs. */
  const Initial: Session := Session([], 0, "", None, false, false, 0)

  /** No more cards can have been answered correctly than have been graded. */
  predicate ScoreBound(s: Session) {
    s.score <= s.cardCount + (if s.submitted then 1 else 0)
  }

  /** `lastSlide`: the card shown is the last of the deck. */
  predicate LastSlide(s: Session) {
    s.cardCount == |s.flashcards| - 1
  }

  /** The Submit button is rendered (quiz not complete) and enabled (an answer, not yet graded). */
  predicate SubmitEnabled(s: Session) {
    !s.completeQuiz && s.answer != "" && !s.submitted
  }

  /** The Results button is rendered only on the last card once it is graded. */
  predicate ResultsShown(s: Session) {
    !s.completeQuiz && LastSlide(s) && s.submitted
  }

  /** The shuffle effect: the deck becomes the shuffled copy; nothing else changes. */
  function ShuffleStep(s: Session, deck: seq<Flashcard>): (t: Session)
    ensures t.flashcards == deck && t == s.(flashcards := deck)
    ensures ScoreBound(s) ==> ScoreBound(t)
  {
    s.(flashcards := deck)
  }

  /** Typing into the answer field, which is disabled once the card is graded. */
  function SetAnswerStep(s: Session, text: string): (t: Session)
    ensures t.answer == (if s.submitted then s.answer else text)
    ensures t == s.(answer := t.answer)
    ensures ScoreBound(s) ==> ScoreBound(t)
  {
    if s.submitted then s else s.(answer := text)
  }

  /** The Clear button, enabled only for a non-empty answer that is not yet graded. */
  function ClearStep(s: Session): (t: Session)
    ensures t.answer == (if s.answer != "" && !s.submitted then "" else s.answer)
    ensures t == s.(answer := t.answer)
    ensures ScoreBound(s) ==> ScoreBound(t)
  {
    if s.answer != "" && !s.submitted then s.(answer := "") else s
  }

  /**
   * checkAnswer: a no-op once the card is graded; otherwise the card is graded,
   * and the score rises by exactly one iff the normalised answer equals the
   * normalised solution.
   */
  function CheckAnswerStep(s: Session): (t: Session)
    requires !s.submitted ==> s.cardCount < |s.flashcards|
    ensures s.submitted ==> t == s
    ensures !s.submitted ==>
      var correct := Matches(s.answer, s.flashcards[s.cardCount].solution);
      t.submitted && t.result == Some(correct)
      && t.score == (if correct then s.score + 1 else s.score)
      && t == s.(submitted := true, result := Some(correct), score := t.score)
    ensures ScoreBound(s) ==> ScoreBound(t)
  {
    if s.submitted then s
    else
      var userInput := Normalize(s.answer);
      var solution := Normalize(s.flashcards[s.cardCount].solution);
      if userInput == solution then s.(result := Some(true), score := s.score + 1, submitted := true)
      else s.(result := Some(false), submitted := true)
  }

  /** goToNextSlide: clear the answer, un-grade, and move to the next card; the score is kept. */
  function NextSlideStep(s: Session): (t: Session)
    ensures t.answer == "" && !t.submitted && t.cardCount == s.cardCount + 1
    ensures t.score == s.score && t.flashcards == s.flashcards
    ensures t.result == s.result && t.completeQuiz == s.completeQuiz
    ensures ScoreBound(s) ==> ScoreBound(t)
  {
    s.(answer := "", submitted := false, cardCount := s.cardCount + 1)
  }

  /** A second checkAnswer before moving on changes nothing: double submission is harmless. */
  lemma CheckAnswerIdempotent(s: Session)
    requires !s.submitted ==> s.cardCount < |s.flashcards|
    ensures CheckAnswerStep(CheckAnswerStep(s)) == CheckAnswerStep(s)
  {
  }

  /** When the Results button is reachable the score is at most the number of cards. */
  lemma ScoreAtResults(s: Session)
    requires ScoreBound(s) && ResultsShown(s)
    ensures s.score <= |s.flashcards|
  {
  }

  /** The number of cards whose answer grades correct. */
  function CorrectCount(deck: seq<Flashcard>, answers: seq<string>): (n: nat)
    requires |answers| == |deck|
    ensures n <= |deck|
  {
    if deck == [] then 0
    else (if Matches(answers[0], deck[0].solution) then 1 else 0) + CorrectCount(deck[1..], answers[1..])
  }

  /**
   * One card as the user plays it: type `a`, press Submit, then press next
   * unless this was the last card.
   */
  function PlayCard(s: Session, a: string): (t: Session)
    requires !s.submitted && !s.completeQuiz && s.cardCount < |s.flashcards| && a != ""
    ensures t.flashcards == s.flashcards && !t.completeQuiz
    ensures LastSlide(s) ==> t.cardCount == s.cardCount && t.submitted
    ensures !LastSlide(s) ==> t.cardCount == s.cardCount + 1 && !t.submitted
    ensures t.score == s.score + (if Matches(a, s.flashcards[s.cardCount].solution) then 1 else 0)
  {
    var typed := SetAnswerStep(s, a);
    assert SubmitEnabled(typed);
    var graded := CheckAnswerStep(typed);
    if LastSlide(graded) then graded else NextSlideStep(graded)
  }

  /** Playing the remaining cards with the given (non-empty) answers, one per card. */
  function Play(s: Session, answers: seq<string>): Session
    requires s.cardCount + |answers| <= |s.flashcards|
    requires answers != [] ==> !s.submitted && !s.completeQuiz
    requires forall i :: 0 <= i < |answers| ==> answers[i] != ""
    decreases |answers|
  {
    if answers == [] then s else Play(PlayCard(s, answers[0]), answers[1..])
  }

  /** Playing through to the last card reaches the Results button with the score of correct answers. */
  lemma {:induction false} PlayScores(s: Session, answers: seq<string>)
    requires s.cardCount + |answers| == |s.flashcards| && answers != []
    requires !s.submitted && !s.completeQuiz
    requires forall i :: 0 <= i < |answers| ==> answers[i] != ""
    ensures var t := Play(s, answers);
      t.flashcards == s.flashcards && ResultsShown(t)
      && t.score == s.score + CorrectCount(s.flashcards[s.cardCount..], answers)
    decreases |answers|
  {
    var t := PlayCard(s, answers[0]);
    var rest := s.flashcards[s.cardCount..];
    assert rest[1..] == s.flashcards[s.cardCount + 1..];
    if |answers| > 1 {
      PlayScores(t, answers[1..]);
    } else {
      assert rest[1..] == [];
    }
  }

  /**
   * A whole quiz: after the shuffle, answering every card in turn reaches the
   * Results button with a score equal to the number of correct answers, hence at
   * most the number of cards.
   */
  lemma WholeQuiz(deck: seq<Flashcard>, answers: seq<string>)
    requires |answers| == |deck| && deck != []
    requires forall i :: 0 <= i < |answers| ==> answers[i] != ""
    ensures var t := Play(ShuffleStep(Initial, deck), answers);
      ResultsShown(t) && t.score == CorrectCount(deck, answers) && t.score <= |deck|
  {
    PlayScores(ShuffleStep(Initial, deck), answers);
    assert deck[0..] == deck;
  }

  /**
   * submitResults on the store: a stats entry is always appended; the rewards
   * are granted only when the set is not yet in `completedQuiz`. Then xp rises
   * by the score, the set is recorded, heartcoin is SET to 20 coins per level
   * gained, and the category document, when it exists, gets `categoryXP + score`
   * points.
   */
  function Award(st: StoreState, setRef: string, categoryRef: string, categoryXP: nat,
                 score: nat, questions: nat, date: string, levelUp: nat): (r: StoreState)
    ensures r.user.stats == st.user.stats + [Stat(date, setRef, score, questions)]
    ensures setRef in r.user.completedQuiz
    ensures setRef in st.user.completedQuiz ==>
      r.categories == st.categories && r.user == st.user.(stats := r.user.stats)
    ensures setRef !in st.user.completedQuiz ==>
      r.user.xp == st.user.xp + score
      && r.user.completedQuiz == st.user.completedQuiz + [setRef]
      && r.user.heartcoin == 20 * levelUp
      && r.categories == (if FindCategory(st.categories, categoryRef).Some?
                          then SetPoints(st.categories, categoryRef, categoryXP + score)
                          else st.categories)
  {
    var stats := st.user.stats + [Stat(date, setRef, score, questions)];
    var user := st.user.(stats := stats);
    if Includes(st.user.completedQuiz, setRef) then StoreState(user, st.categories)
    else
      var awardPoints := score;
      var awardHeartCoin := 20 * levelUp;
      var doc := FindCategory(st.categories, categoryRef);
      var rewarded := user.(completedQuiz := st.user.completedQuiz + [setRef],
                            xp := st.user.xp + awardPoints,
                            heartcoin := awardHeartCoin);
      if doc.Some? then
        StoreState(rewarded, SetPoints(st.categories, categoryRef, awardPoints + categoryXP))
      else
        StoreState(rewarded, st.categories)
  }

  /** Award written out field by field: the shape submitResults builds. */
  lemma AwardShape(st: StoreState, setRef: string, categoryRef: string, categoryXP: nat,
                   score: nat, questions: nat, date: string, levelUp: nat)
    ensures var stats := st.user.stats + [Stat(date, setRef, score, questions)];
      Award(st, setRef, categoryRef, categoryXP, score, questions, date, levelUp)
      == if Includes(st.user.completedQuiz, setRef) then StoreState(st.user.(stats := stats), st.categories)
         else StoreState(User(st.user.xp + score, 20 * levelUp, st.user.completedQuiz + [setRef], stats),
                         if FindCategory(st.categories, categoryRef).Some?
                         then SetPoints(st.categories, categoryRef, score + categoryXP)
                         else st.categories)
  {
  }

  /**
   * Submitting the same set again rewards nothing more: xp, heartcoin, the
   * completed sets and the category points stay as the first submission left
   * them; only a second stats entry is added.
   */
  lemma AwardOncePerSet(st: StoreState, setRef: string, categoryRef: string, categoryXP: nat,
                        score: nat, questions: nat, date: string, levelUp: nat,
                        categoryXP': nat, score': nat, questions': nat, date': string, levelUp': nat)
    ensures var once := Award(st, setRef, categoryRef, categoryXP, score, questions, date, levelUp);
      var twice := Award(once, setRef, categoryRef, categoryXP', score', questions', date', levelUp');
      twice.user.xp == once.user.xp && twice.user.heartcoin == once.user.heartcoin
      && twice.user.completedQuiz == once.user.completedQuiz && twice.categories == once.categories
      && |twice.user.stats| == |st.user.stats| + 2
  {
  }

  /** The quiz state, held in fields that the handlers update in place. */
  class QuizSession {
    var flashcards: seq<Flashcard>
    var cardCount: nat
    var answer: string
    var result: Option<bool>
    var submitted: bool
    var completeQuiz: bool
    var score: nat

    function State(): Session
      reads this
    {
      Session(flashcards, cardCount, answer, result, submitted, completeQuiz, score)
    }

    constructor ()
      ensures State() == Initial
    {
      flashcards, cardCount, answer, result := [], 0, "", None;
      submitted, completeQuiz, score := false, false, 0;
    }

    /** The effect on `cards`: the deck becomes a shuffled copy of `cards`, which is left as it was. */
    method ShuffleDeck(cards: array<Flashcard>, rolls: seq<nat>)
      requires Shuffle.ValidRolls(rolls, cards.Length)
      modifies this
      ensures State() == ShuffleStep(old(State()), Shuffle.Shuffled(cards[..], rolls))
      ensures multiset(flashcards) == multiset(cards[..]) && |flashcards| == cards.Length
    {
      var shuffled := Shuffle.ShuffleArray(cards, rolls);
      flashcards := shuffled[..];
    }

    method SetAnswer(text: string)
      modifies this
      ensures State() == SetAnswerStep(old(State()), text)
    {
      if !submitted {
        answer := text;
      }
    }

    method ClearAnswer()
      modifies this
      ensures State() == ClearStep(old(State()))
    {
      if answer != "" && !submitted {
        answer := "";
      }
    }

    method CheckAnswer()
      requires !submitted ==> cardCount < |flashcards|
      modifies this
      ensures State() == CheckAnswerStep(old(State()))
      ensures old(submitted) ==> score == old(score) && result == old(result) && submitted
      ensures !old(submitted) ==>
        submitted && (score == old(score) + 1 <==> Matches(old(answer), flashcards[cardCount].solution))
      ensures score == old(score) || score == old(score) + 1
    {
      if submitted {
        return;
      }
      var userInput := Normalize(answer);
      var solution := Normalize(flashcards[cardCount].solution);
      if userInput == solution {
        result := Some(true);
        score := score + 1;
      } else {
        result := Some(false);
      }
      submitted := true;
    }

    method GoToNextSlide()
      modifies this
      ensures State() == NextSlideStep(old(State()))
      ensures answer == "" && !submitted && cardCount == old(cardCount) + 1 && score == old(score)
    {
      answer := "";
      submitted := false;
      cardCount := cardCount + 1;
    }

    /**
     * submitResults, with `checkForLevelUp` supplied by the caller and the clock
     * reading passed in as `date`. The quiz is marked complete and the store is
     * updated as `Award` says.
     */
    method SubmitResults(store: Store, setRef: string, categoryRef: string, categoryXP: nat,
                         levelUpCondition: nat, date: string,
                         checkForLevelUp: (nat, nat, nat) -> nat)
      modifies this, store
      ensures State() == old(State()).(completeQuiz := true)
      ensures store.State() == Award(old(store.State()), setRef, categoryRef, categoryXP,
                                     score, |flashcards|, date,
                                     checkForLevelUp(old(store.user.xp), score, levelUpCondition))
      ensures old(ScoreBound(State()) && ResultsShown(State())) ==>
        store.user.stats[|store.user.stats| - 1].score <= |flashcards|
    {
      ghost var before := store.State();
      ghost var levels := checkForLevelUp(store.user.xp, score, levelUpCondition);
      AwardShape(before, setRef, categoryRef, categoryXP, score, |flashcards|, date, levels);
      completeQuiz := true;
      var user := store.user;
      var stats := Stat(date, setRef, score, |flashcards|);
      var updateStats := user.stats + [stats];
      var categories := store.categories;
      var profile := user.(stats := updateStats);
      if !Includes(user.completedQuiz, setRef) {
        var awardHeartCoin := 0;
        var awardPoints := score;
        var levelUp := checkForLevelUp(user.xp, awardPoints, levelUpCondition);
        if levelUp != 0 {
          awardHeartCoin := 20 * levelUp;
        }
        var update := user.completedQuiz + [setRef];
        var doc := FindCategory(categories, categoryRef);
        if doc.Some? {
          categories := SetPoints(categories, categoryRef, awardPoints + categoryXP);
        }
        profile := profile.(completedQuiz := update, xp := user.xp + awardPoints,
                            heartcoin := awardHeartCoin);
        assert profile == User(before.user.xp + score, 20 * levelUp, before.user.completedQuiz + [setRef], updateStats);
      }
      assert StoreState(profile, categories)
          == Award(before, setRef, categoryRef, categoryXP, score, |flashcards|, date, levels);
      store.user, store.categories := profile, categories;
    }
  }
}
