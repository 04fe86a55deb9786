/** The grade calculator screen: three text inputs, one optional result that
    only the calculate action overwrites, and the colours derived from it. */
module GradeScreen {
  import opened GradeCalculator

  datatype Color = Red | Green | White | Black

  /** The result rendering shown under the button: text colour on background colour. */
  datatype Badge = Badge(foreground: Color, background: Color)

  /** The colour behind the whole screen: red for a result above 100,
      green for any other result and for no result. A result above 100 is
      still a result; it is only shown differently. */
  function BackgroundColor(result: Option<real>): (c: Color)
    ensures c == Red <==> result.Some? && result.value > 100.0
    ensures c == Green <==> !(result.Some? && result.value > 100.0)
  {
    if result.Some? && result.value > 100.0 then Red else Green
  }

  /** The result text and its colours, shown only when there is a result:
      its background is the screen's, white text on red, black on green. */
  function ResultBadge(result: Option<real>): (b: Option<Badge>)
    ensures b.Some? <==> result.Some?
    ensures b.Some? ==> b.value.background == BackgroundColor(result)
    ensures b.Some? ==> b.value.foreground == (if b.value.background == Red then White else Black)
  {
    match result
    case None => None
    case Some(grade) =>
      if grade > 100.0 then Some(Badge(White, Red)) else Some(Badge(Black, Green))
  }

  /** After a calculation the screen turns red exactly when the inputs are
      accepted and no exam grade of at most 100 reaches the desired final
      grade: a result above 100 is a result, not a rejection. */
  lemma RedMeansOutOfReach(parse: Parser, currentText: string, desiredText: string, weightText: string)
    ensures BackgroundColor(Compute(parse, currentText, desiredText, weightText)) == Red
            <==> Accepted(parse, currentText, desiredText, weightText)
                 && OutOfReach(parse(currentText).value, parse(desiredText).value, parse(weightText).value)
  {
    if Accepted(parse, currentText, desiredText, weightText) {
      var current, desired, weight := parse(currentText).value, parse(desiredText).value, parse(weightText).value;
      RequiredGradeIsUnique(current, desired, weight, Compute(parse, currentText, desiredText, weightText).value);
      AboveMaximumIffOutOfReach(current, desired, weight);
    }
  }

  /** Which of the three text fields a user edit goes to. */
  datatype Field = CurrentGrade | DesiredGrade | ExamWeight

  class ContentView {
    var currentGrade: string
    var desiredGrade: string
    var examWeight: string
    var requiredExamGrade: Option<real>

    /** The screen starts with empty inputs and no result. */
    constructor ()
      ensures currentGrade == "" && desiredGrade == "" && examWeight == ""
      ensures requiredExamGrade == None
    {
      currentGrade, desiredGrade, examWeight := "", "", "";
      requiredExamGrade := None;
    }

    /** A user edit writes one text field; the result is left as it was until
        the next calculation. */
    method Edit(field: Field, text: string)
      modifies this
      ensures currentGrade == (if field == CurrentGrade then text else old(currentGrade))
      ensures desiredGrade == (if field == DesiredGrade then text else old(desiredGrade))
      ensures examWeight == (if field == ExamWeight then text else old(examWeight))
      ensures requiredExamGrade == old(requiredExamGrade)
    {
      match field
      case CurrentGrade => currentGrade := text;
      case DesiredGrade => desiredGrade := text;
      case ExamWeight => examWeight := text;
    }

    /** The calculate action: the result is replaced by the calculation on
        the current texts (none when they are rejected); the texts are
        unchanged and the old result plays no part. */
    method CalculateRequiredGrade(parse: Parser)
      modifies this`requiredExamGrade
      ensures currentGrade == old(currentGrade) && desiredGrade == old(desiredGrade) && examWeight == old(examWeight)
      ensures requiredExamGrade == Compute(parse, currentGrade, desiredGrade, examWeight)
      ensures requiredExamGrade.Some? ==>
                WeightedAverage(parse(currentGrade).value, requiredExamGrade.value, parse(examWeight).value)
                == parse(desiredGrade).value
    {
      var currentParsed, desiredParsed, weightParsed := parse(currentGrade), parse(desiredGrade), parse(examWeight);
      if currentParsed.None? || desiredParsed.None? || weightParsed.None? || !ValidWeight(weightParsed.value) {
        requiredExamGrade := None;
        return;
      }
      var current, desired, weight := currentParsed.value, desiredParsed.value, weightParsed.value;
      // the guard above gives weight > 0, which is what the division needs
      var requiredGrade := RequiredGrade(current, desired, weight);
      requiredExamGrade := Some(requiredGrade);
    }

    /** The colour behind the screen for the current result. */
    function Background(): (c: Color)
      reads this
      ensures c == Red <==> requiredExamGrade.Some? && requiredExamGrade.value > 100.0
      ensures c == Green <==> !(requiredExamGrade.Some? && requiredExamGrade.value > 100.0)
    {
      BackgroundColor(requiredExamGrade)
    }
  }

  /** Calculating twice on unchanged inputs leaves the state one calculation
      leaves: the second call overwrites the result with the same value. */
  method CalculateTwice(view: ContentView, parse: Parser)
    modifies view`requiredExamGrade
    ensures view.currentGrade == old(view.currentGrade) && view.desiredGrade == old(view.desiredGrade)
    ensures view.examWeight == old(view.examWeight)
    ensures view.requiredExamGrade == Compute(parse, view.currentGrade, view.desiredGrade, view.examWeight)
  {
    view.CalculateRequiredGrade(parse);
    var once := view.requiredExamGrade;
    view.CalculateRequiredGrade(parse);
    assert view.requiredExamGrade == once;
  }

  /** A concrete scenario: current 40, desired 90, weight 0.2 needs 290, which is
      a result (not a rejection) and turns the screen red. */
  method ExceedsMaximumExample(parse: Parser) returns (view: ContentView)
    requires parse("40") == Some(40.0) && parse("90") == Some(90.0) && parse("0.2") == Some(0.2)
    ensures view.requiredExamGrade == Some(290.0)
    ensures view.Background() == Red
  {
    view := new ContentView();
    view.Edit(CurrentGrade, "40");
    view.Edit(DesiredGrade, "90");
    view.Edit(ExamWeight, "0.2");
    view.CalculateRequiredGrade(parse);
    ComputeIsRequiredGrade(parse, "40", "90", "0.2");
  }

  /** A weight of 0 is rejected and leaves no result, whatever was shown before. */
  method ZeroWeightExample(view: ContentView, parse: Parser)
    requires parse(view.examWeight) == Some(0.0)
    modifies view`requiredExamGrade
    ensures view.requiredExamGrade == None
    ensures view.Background() == Green
  {
    view.CalculateRequiredGrade(parse);
  }
}
