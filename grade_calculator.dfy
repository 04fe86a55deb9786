/** The arithmetic and the input guard behind the grade calculator screen.
    Grades and weights are exact reals; the text-to-number conversion of the
    platform is a parameter `parse` (see GradeScreen). */
module GradeCalculator {

  datatype Option<+T> = None | Some(value: T)

  /** The platform's conversion of a text field to a number: deterministic,
      `None` when the text is not a number. */
  type Parser = string -> Option<real>

  /** The exam weight is a fraction of the final grade, in (0, 1]; such a
      weight is never 0, so it can be divided by. */
  predicate ValidWeight(weight: real)
    ensures ValidWeight(weight) ==> weight != 0.0
  {
    0.0 < weight <= 1.0
  }

  /** The weighted-average identity the calculation inverts: the final grade
      obtained from the current grade and an exam grade, the exam counting
      for `weight` and the rest for `1 - weight`. */
  function WeightedAverage(current: real, exam: real, weight: real): real {
    current * (1.0 - weight) + exam * weight
  }

  /** The exam grade needed to reach `desired`: the weighted average is solved
      for the exam grade. The division is defined for every non-zero weight. */
  function RequiredGrade(current: real, desired: real, weight: real): (exam: real)
    requires weight != 0.0
    ensures WeightedAverage(current, exam, weight) == desired
  {
    var exam := (desired - current * (1.0 - weight)) / weight;
    assert exam * weight == desired - current * (1.0 - weight);
    exam
  }

  /** The required grade is the only exam grade that gives the desired
      final grade. */
  lemma RequiredGradeIsUnique(current: real, desired: real, weight: real, exam: real)
    requires weight != 0.0
    ensures WeightedAverage(current, exam, weight) == desired <==> exam == RequiredGrade(current, desired, weight)
  {
    var r := RequiredGrade(current, desired, weight);
    if WeightedAverage(current, exam, weight) == desired {
      assert exam * weight == r * weight;
      assert (exam - r) * weight == 0.0;
    }
  }

  /** For every non-zero weight some exam grade reaches the desired final
      grade, and only one does: the guard never rejects for lack of an answer. */
  lemma ExactlyOneExamGrade(current: real, desired: real, weight: real)
    requires weight != 0.0
    ensures exists exam :: WeightedAverage(current, exam, weight) == desired
    ensures forall exam1, exam2 ::
              WeightedAverage(current, exam1, weight) == desired && WeightedAverage(current, exam2, weight) == desired
              ==> exam1 == exam2
  {
    var r := RequiredGrade(current, desired, weight);
    assert WeightedAverage(current, r, weight) == desired;
    forall exam1, exam2 | WeightedAverage(current, exam1, weight) == desired && WeightedAverage(current, exam2, weight) == desired
      ensures exam1 == exam2
    {
      RequiredGradeIsUnique(current, desired, weight, exam1);
      RequiredGradeIsUnique(current, desired, weight, exam2);
    }
  }

  /** With weight 0 the exam does not count: the final grade is the current
      grade whatever the exam grade, so there is no exam grade to compute.
      This is the weight the guard must exclude before dividing. */
  lemma ZeroWeightIgnoresExam(current: real, desired: real)
    ensures forall exam :: WeightedAverage(current, exam, 0.0) == current
    ensures desired != current ==> forall exam :: WeightedAverage(current, exam, 0.0) != desired
  {
  }

  /** No exam grade of at most 100 reaches the desired final grade. */
  ghost predicate OutOfReach(current: real, desired: real, weight: real) {
    forall exam :: exam <= 100.0 ==> WeightedAverage(current, exam, weight) < desired
  }

  /** With a positive weight, the required grade is above 100 exactly when
      the desired grade is out of reach of every exam grade up to 100. */
  lemma AboveMaximumIffOutOfReach(current: real, desired: real, weight: real)
    requires 0.0 < weight
    ensures RequiredGrade(current, desired, weight) > 100.0 <==> OutOfReach(current, desired, weight)
  {
    var r := RequiredGrade(current, desired, weight);
    if r > 100.0 {
      forall exam | exam <= 100.0
        ensures WeightedAverage(current, exam, weight) < desired
      {
        assert desired - WeightedAverage(current, exam, weight) == (r - exam) * weight;
      }
    }
    if OutOfReach(current, desired, weight) {
      assert WeightedAverage(current, 100.0, weight) < desired;
      RequiredGradeAboveIff(current, desired, weight, 100.0);
    }
  }

  /** When the exam is the whole grade, the exam grade needed is the desired grade. */
  lemma FullWeightNeedsDesired(current: real, desired: real)
    ensures RequiredGrade(current, desired, 1.0) == desired
  {
  }

  /** With a positive weight, aiming higher never needs a lower exam grade,
      and strictly higher needs strictly higher. */
  lemma RequiredGradeMonotone(current: real, desired1: real, desired2: real, weight: real)
    requires 0.0 < weight
    requires desired1 <= desired2
    ensures RequiredGrade(current, desired1, weight) <= RequiredGrade(current, desired2, weight)
    ensures desired1 < desired2 ==> RequiredGrade(current, desired1, weight) < RequiredGrade(current, desired2, weight)
  {
    var r1, r2 := RequiredGrade(current, desired1, weight), RequiredGrade(current, desired2, weight);
    assert (r2 - r1) * weight == desired2 - desired1;
  }

  /** With a positive weight, the required grade is above `bound` exactly when
      an exam grade of `bound` falls short of the desired final grade. */
  lemma RequiredGradeAboveIff(current: real, desired: real, weight: real, bound: real)
    requires 0.0 < weight
    ensures RequiredGrade(current, desired, weight) > bound <==> WeightedAverage(current, bound, weight) < desired
  {
    var r := RequiredGrade(current, desired, weight);
    assert desired - WeightedAverage(current, bound, weight) == (r - bound) * weight;
  }

  /** The guard of the calculation: all three texts are numbers and the
      weight is in (0, 1], so the weight can be divided by. */
  predicate Accepted(parse: Parser, currentText: string, desiredText: string, weightText: string)
    ensures Accepted(parse, currentText, desiredText, weightText) ==>
              parse(weightText).Some? && parse(weightText).value != 0.0
  {
    parse(currentText).Some? && parse(desiredText).Some? && parse(weightText).Some?
    && ValidWeight(parse(weightText).value)
  }

  /** The whole calculation on the three texts: a result exactly when the
      guard holds, and then the exam grade that completes the weighted average. */
  function Compute(parse: Parser, currentText: string, desiredText: string, weightText: string): (r: Option<real>)
    ensures parse(currentText).None? ==> r == None
    ensures parse(desiredText).None? ==> r == None
    ensures parse(weightText).None? ==> r == None
    ensures parse(weightText).Some? && !ValidWeight(parse(weightText).value) ==> r == None
    ensures r.Some? <==> Accepted(parse, currentText, desiredText, weightText)
    ensures r.Some? ==> WeightedAverage(parse(currentText).value, r.value, parse(weightText).value) == parse(desiredText).value
  {
    match (parse(currentText), parse(desiredText), parse(weightText))
    case (Some(current), Some(desired), Some(weight)) =>
      if ValidWeight(weight) then Some(RequiredGrade(current, desired, weight)) else None
    case _ => None
  }

  /** On valid inputs the result is exactly the inverted weighted average. */
  lemma ComputeIsRequiredGrade(parse: Parser, currentText: string, desiredText: string, weightText: string)
    requires Accepted(parse, currentText, desiredText, weightText)
    ensures Compute(parse, currentText, desiredText, weightText)
            == Some((parse(desiredText).value - parse(currentText).value * (1.0 - parse(weightText).value))
                    / parse(weightText).value)
  {
    var current, desired, weight := parse(currentText).value, parse(desiredText).value, parse(weightText).value;
    var r := Compute(parse, currentText, desiredText, weightText);
    RequiredGradeIsUnique(current, desired, weight, r.value);
  }

  /** A weight of exactly 1 is accepted, and the result is then the desired grade. */
  lemma ComputeFullWeight(parse: Parser, currentText: string, desiredText: string, weightText: string)
    requires parse(currentText).Some? && parse(desiredText).Some?
    requires parse(weightText) == Some(1.0)
    ensures Compute(parse, currentText, desiredText, weightText) == Some(parse(desiredText).value)
  {
    var r := Compute(parse, currentText, desiredText, weightText);
    RequiredGradeIsUnique(parse(currentText).value, parse(desiredText).value, 1.0, r.value);
    FullWeightNeedsDesired(parse(currentText).value, parse(desiredText).value);
  }
}
