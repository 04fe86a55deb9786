# Final grade calculator: required exam grade

A model of the one calculation behind the grade calculator screen. The screen holds three text inputs: the current grade, the desired final grade and the exam weight (for example 0.4 for 40%). It also holds one optional result, the exam grade needed. The calculate action parses the three texts. If any of them is not a number, or the weight is not in (0, 1], it clears the result. Otherwise it stores `(desired - current * (1 - weight)) / weight`, which is the weighted average `final = current * (1 - weight) + exam * weight` solved for `exam`. The screen is red when a result above 100 is shown, and green otherwise.

- `grade_calculator.dfy`, module `GradeCalculator`: the formula (`RequiredGrade`), the guard (`Accepted`, `ValidWeight`) and the whole calculation on texts (`Compute`). The key fact is the round trip: the result put back into the weighted average gives the desired grade.
- `content_view.dfy`, module `GradeScreen`: the screen as a class `ContentView` with the three input strings and `requiredExamGrade: Option<real>`. `CalculateRequiredGrade` modifies only that field and is proved against `Compute`. This module also holds the colour rules.

The platform's text-to-number conversion is a parameter `parse: string -> Option<real>`. It is deterministic, and `None` stands for "not a number". Grades and weights are exact reals.

## Model

| member | source | states |
|---|---|---|
| GradeCalculator.ValidWeight | ContentView.swift:17 | the weight test `weight > 0 && weight <= 1`; a weight that passes it is never 0, so the division at line 23 is defined |
| GradeCalculator.Accepted | ContentView.swift:14-17 | the whole guard: all three texts parse and the weight passes `ValidWeight`; an accepted weight is a non-zero number |
| GradeCalculator.RequiredGrade | ContentView.swift:23 | for any non-zero weight, the computed exam grade put back into the weighted average `current*(1-w) + exam*w` gives exactly the desired grade |
| GradeCalculator.RequiredGradeIsUnique | ContentView.swift:23 | an exam grade completes the weighted average to the desired grade if and only if it is the required grade |
| GradeCalculator.ExactlyOneExamGrade | ContentView.swift:17-23 | for every non-zero weight, some exam grade completes the weighted average to the desired grade, and no two different ones do |
| GradeCalculator.ZeroWeightIgnoresExam | ContentView.swift:17 | with weight 0 the final grade is the current grade whatever the exam grade, so unless desired equals current no exam grade reaches the target; this is the weight the guard excludes before the division |
| GradeCalculator.AboveMaximumIffOutOfReach | ContentView.swift:23 | with a positive weight, the required grade is above 100 exactly when no exam grade of at most 100 reaches the desired grade |
| GradeCalculator.FullWeightNeedsDesired | ContentView.swift:23 | with weight 1 the required grade is the desired grade, whatever the current grade |
| GradeCalculator.RequiredGradeMonotone | ContentView.swift:23 | with a positive weight, a higher desired grade never needs a lower exam grade, and a strictly higher one needs a strictly higher exam grade |
| GradeCalculator.RequiredGradeAboveIff | ContentView.swift:23 | with a positive weight, the required grade is above a bound exactly when an exam grade equal to that bound falls short of the desired grade |
| GradeCalculator.Compute | ContentView.swift:13-25 | no result when the current, desired or weight text does not parse, or the weight is outside (0, 1]; a result exactly when all three parse and the weight is in (0, 1], and then the result completes the weighted average to the desired grade |
| GradeCalculator.ComputeIsRequiredGrade | ContentView.swift:14-24 | on accepted inputs the result is exactly `(desired - current*(1 - weight)) / weight` |
| GradeCalculator.ComputeFullWeight | ContentView.swift:17-24 | a weight of exactly 1 is accepted (the bound is inclusive) and the result is then the desired grade |
| GradeScreen.BackgroundColor | ContentView.swift:29 | red exactly when a result is present and above 100, and green otherwise, including when there is no result |
| GradeScreen.ResultBadge | ContentView.swift:79-85 | a badge exactly when there is a result; its background is the screen colour of line 29, with white text on red and black text on green |
| GradeScreen.ContentView.Background | ContentView.swift:91 | the screen background of the current state is red exactly when the stored result is present and above 100, and green otherwise |
| GradeScreen.RedMeansOutOfReach | ContentView.swift:29 | after a calculation the screen is red exactly when the inputs are accepted and no exam grade of at most 100 reaches the desired final grade; a result above 100 is a result, not a rejection |
| GradeScreen.ContentView.constructor | ContentView.swift:5-10 | the screen starts with three empty texts and no result |
| GradeScreen.ContentView.Edit | ContentView.swift:41-63 | an edit writes exactly one text field and leaves the result as it was, so the result is recomputed only by the calculate action |
| GradeScreen.ContentView.CalculateRequiredGrade | ContentView.swift:13-25 | the result field is overwritten with `Compute` of the current texts (no result on a rejected input); the three texts are unchanged; the old result plays no part; the division runs only after the guard established weight > 0 |
| GradeScreen.CalculateTwice | ContentView.swift:19-24 | calculating twice on unchanged texts leaves the same state as calculating once |
| GradeScreen.ExceedsMaximumExample | ContentView.swift:13-29 | texts 40, 90 and 0.2 give the result 290 and a red screen |
| GradeScreen.ZeroWeightExample | ContentView.swift:17-20 | a weight of 0 clears any earlier result and leaves the screen green |

## Left out

- The SwiftUI layout: the title, the text fields' styling, the button, fonts, padding, corner radius and safe area (`ContentView.swift:27-94`). Only the two colour rules (lines 29 and 83-85), the use of the screen colour as the background (line 91) and the write of a text field by its binding (`Edit`) are modelled.
- The `%.2f` formatting of the result (line 80). This is number-to-text formatting done by the platform library.
- The internals of `Double(String)` (lines 14-16). This is a foreign library call, so it is the parameter `parse`.
- IEEE-754 doubles: rounding, infinities and NaN. For example, `Double("inf")` parses, and then `inf <= 1` is false, so such a weight is rejected. By contrast, a current grade of `nan` would give `nan` rather than no result. The model uses exact reals throughout.
- The order of the parses. The guard evaluates the current, desired and weight texts in that order and stops at the first failure. Parsing has no effects, so the model states only which combinations are accepted.
- `@State` reactivity: the re-rendering of the view when a field changes. Only the plain field updates are modelled.
- Letter-grade targets (A=90, B=80, C=70, D=60) belong to other iterations of the screen. `ContentView.swift` is not one of them, and it is not part of this model.
