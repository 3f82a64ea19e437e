/**
 * The figures on the results screen (components/Results.tsx): the category's
 * points, whether the set was already completed, the category level, the XP
 * percent shown on the bar, and the bounds the bar and counter animate between.
 */
module Results {
  import opened Wrappers
  import opened Entities
  import opened Digits

  /**
   * `points`: the points of the set's category, or 0 when no category has the
   * set's `categoryRef`.
   */
  function Points(categories: seq<Category>, quizSet: QuizSet): (r: nat)
    ensures (forall i :: 0 <= i < |categories| ==> categories[i].id != quizSet.categoryRef) ==> r == 0
    ensures FindCategory(categories, quizSet.categoryRef).Some? ==>
      exists i :: 0 <= i < |categories| && categories[i].id == quizSet.categoryRef && r == categories[i].points
  {
    var category := FindCategory(categories, quizSet.categoryRef);
    if category.Some? then category.value.points else 0
  }

  /** `setCompleted`: the set has already earned its reward (it is in `completedQuiz`). */
  function SetCompleted(user: User, quizSet: QuizSet): (r: bool)
    ensures r <==> exists i :: 0 <= i < |user.completedQuiz| && user.completedQuiz[i] == quizSet.id
  {
    Includes(user.completedQuiz, quizSet.id)
  }

  /**
   * The level shown, `Math.floor(points / pointTotal)`: the number of whole
   * `pointTotal`s in `points`. A zero `pointTotal` gives Infinity or NaN in
   * JavaScript, modelled as `None`.
   */
  function Level(points: nat, pointTotal: nat): (r: Option<nat>)
    ensures r.None? <==> pointTotal == 0
    ensures r.Some? ==> r.value * pointTotal <= points < (r.value + 1) * pointTotal
  {
    if pointTotal == 0 then None else Some(points / pointTotal)
  }

  /**
   * The value of getXPpercent. `Whole` is the integer branch taken when
   * `points > pointTotal`; `Fraction` is the `(points / pointTotal) * 100`
   * branch, given here as the exact rational (JavaScript rounds it to a double).
   */
  datatype Percent = Whole(n: nat) | Fraction(q: real) | NotANumber

  /**
   * getXPpercent: above one level's worth of points the number spelled by the
   * digits of `points` after its first one; otherwise the proportion of
   * `pointTotal` reached, in percent.
   */
  function XPPercent(points: nat, pointTotal: nat): (r: Percent)
    ensures points > pointTotal ==> (r.NotANumber? <==> points < 10) && !r.Fraction?
    ensures points > pointTotal && r.Whole? ==>
      var ds := ToDecimal(points);
      points == ds[0] * Pow10(|ds| - 1) + r.n && r.n < Pow10(|ds| - 1) && r.n < points
    ensures points <= pointTotal ==>
      (pointTotal == 0 ==> r.NotANumber?)
      && (pointTotal > 0 ==> r.Fraction? && r.q * (pointTotal as real) == (points as real) * 100.0)
  {
    if points > pointTotal then
      var subtraction := DropLeadingDigit(points);
      if subtraction.Some? then
        DropLeadingDigitSmaller(points);
        Whole(subtraction.value)
      else
        NotANumber
    else if pointTotal == 0 then NotANumber
    else Fraction((points as real) / (pointTotal as real) * 100.0)
  }

  /**
   * `progressStart` and `progressEnd`: they lie `score` either side of the XP
   * percent, so the animation spans twice the score. A `NaN` percent makes
   * both `NaN`.
   */
  function Progress(percent: Percent, score: nat): (r: Option<(real, real)>)
    ensures r.None? <==> percent.NotANumber?
    ensures r.Some? ==> r.value.1 - r.value.0 == 2.0 * (score as real)
    ensures percent.Whole? ==> r.Some? && r.value.0 + (score as real) == percent.n as real
    ensures percent.Fraction? ==> r.Some? && r.value.0 + (score as real) == percent.q
  {
    match percent
    case NotANumber => None
    case Whole(n) => Some((n as real - score as real, n as real + score as real))
    case Fraction(q) => Some((q - score as real, q + score as real))
  }

  /** With 130 points against a level of 100 the bar shows 30, and 1005 points show 5. */
  lemma XPPercentExamples()
    ensures XPPercent(130, 100) == Whole(30)
    ensures XPPercent(1005, 100) == Whole(5)
  {
    DropLeadingDigitExamples();
  }

  /** Above one level and within 999 points, the digit drop is the remainder modulo 100. */
  lemma XPPercentOfThreeDigits(points: nat, pointTotal: nat)
    requires pointTotal < points && 100 <= points <= 999
    ensures XPPercent(points, pointTotal) == Whole(points % 100)
  {
    DropLeadingDigitOfThreeDigits(points);
  }

  /**
   * The digit drop agrees with re-basing to the current level,
   * `(points % pointTotal) * 100 / pointTotal`, when a level is 100 points and
   * the total has three digits, but not beyond: 1234 points show 234, more than
   * a full bar, and with a level of 50 points 130 points show 30 rather than 60.
   */
  lemma XPPercentAgainstRemainder()
    ensures forall points :: 100 < points <= 999 ==>
      XPPercent(points, 100) == Whole((points % 100) * 100 / 100)
    ensures XPPercent(1234, 100) == Whole(234) && (1234 % 100) * 100 / 100 == 34
    ensures XPPercent(130, 50) == Whole(30) && (130 % 50) * 100 / 50 == 60
  {
    forall points | 100 < points <= 999
      ensures XPPercent(points, 100) == Whole((points % 100) * 100 / 100)
    {
      XPPercentOfThreeDigits(points, 100);
    }
    assert DropLeadingDigit(1234) == Some(234) by {
      assert ToDecimal(1234) == [1, 2, 3, 4] by {
        assert ToDecimal(123) == [1, 2, 3] by {
          assert ToDecimal(12) == [1, 2];
        }
      }
      assert ToDecimal(1234)[1..] == [2, 3, 4];
      assert FromDecimal([2, 3, 4]) == 234 by {
        assert [2, 3, 4][..2] == [2, 3];
        assert [2, 3][..1] == [2];
        assert [2][..0] == [];
      }
    }
    XPPercentOfThreeDigits(130, 50);
  }
}
