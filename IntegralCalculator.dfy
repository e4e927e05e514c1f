/** The integral-calculator component of the front end
    (integral-calculator.component.ts): the validators of its form, the
    state it keeps across a request to the backend, and the data it hands
    to the chart. */
module IntegralCalculator {
  import opened Wrappers
  import opened Strings
  import opened Backend

  // ---------------------------------------------------------------------
  // The function field's validator (lines 14-40)
  // ---------------------------------------------------------------------

  /** The four validation errors, in the order they are checked. */
  datatype FunctionError = Required | UnbalancedParentheses | InvalidOperator | MissingVariable

  /** `!value`: the field is `null` or the empty string. */
  predicate Blank(value: Option<string>) {
    value.None? || value.value == []
  }

  predicate ParenthesesUnbalanced(s: string) {
    multiset(s)['('] != multiset(s)[')']
  }

  /** One of `+`, `-`, `*`, `/` written twice in a row. */
  predicate DoubledOperator(s: string) {
    exists i :: 0 <= i && i + 1 < |s| && s[i] in "+-*/" && s[i + 1] == s[i]
  }

  predicate MentionsVariable(s: string) {
    'x' in s || 'X' in s
  }

  lemma IncludesChar(s: string, c: char)
    ensures Includes(s, [c]) <==> c in s
  {
    if c in s {
      var i :| 0 <= i < |s| && s[i] == c;
      assert OccursAt(s, [c], i);
    }
    if Includes(s, [c]) {
      var i :| OccursAt(s, [c], i);
      assert s[i] == s[i..i + 1][0] == c;
    }
  }

  lemma IncludesPair(s: string, c: char)
    ensures Includes(s, [c, c]) <==> exists i :: 0 <= i && i + 1 < |s| && s[i] == c && s[i + 1] == c
  {
    if Includes(s, [c, c]) {
      var i :| OccursAt(s, [c, c], i);
      PairAt(s, c, i);
    }
    if exists i :: 0 <= i && i + 1 < |s| && s[i] == c && s[i + 1] == c {
      var i :| 0 <= i && i + 1 < |s| && s[i] == c && s[i + 1] == c;
      PairAt(s, c, i);
    }
  }

  /** `cc` occurs at `i` exactly when the characters at `i` and `i + 1` are `c`. */
  lemma PairAt(s: string, c: char, i: int)
    requires 0 <= i && i + 1 < |s|
    ensures OccursAt(s, [c, c], i) <==> s[i] == c && s[i + 1] == c
  {
    var pair := s[i..i + 2];
    assert |pair| == 2 && pair[0] == s[i] && pair[1] == s[i + 1];
    if s[i] == c && s[i + 1] == c {
      assert pair == [c, c];
    }
  }

  /** Line 30: the four `includes` calls find exactly the doubled operators. */
  lemma IncludesOperatorPair(s: string)
    ensures (Includes(s, "++") || Includes(s, "--") || Includes(s, "**") || Includes(s, "//"))
            <==> DoubledOperator(s)
  {
    IncludesPair(s, '+');
    IncludesPair(s, '-');
    IncludesPair(s, '*');
    IncludesPair(s, '/');
    if DoubledOperator(s) {
      var i :| 0 <= i && i + 1 < |s| && s[i] in "+-*/" && s[i + 1] == s[i];
      assert s[i] == '+' || s[i] == '-' || s[i] == '*' || s[i] == '/';
    }
  }

  /** Lines 14-40, `functionValidator`: `None` (JavaScript `null`) exactly
      when all four checks pass; otherwise the first failing check, in the
      order required, parentheses, operator, variable. */
  function FunctionValidator(value: Option<string>): (failure: Option<FunctionError>)
    ensures failure == Some(Required) <==> Blank(value)
    ensures failure == Some(UnbalancedParentheses) <==>
              !Blank(value) && ParenthesesUnbalanced(value.value)
    ensures failure == Some(InvalidOperator) <==>
              !Blank(value) && !ParenthesesUnbalanced(value.value) && DoubledOperator(value.value)
    ensures failure == Some(MissingVariable) <==>
              !Blank(value) && !ParenthesesUnbalanced(value.value) && !DoubledOperator(value.value)
              && !MentionsVariable(value.value)
    ensures failure == None <==>
              !Blank(value) && !ParenthesesUnbalanced(value.value) && !DoubledOperator(value.value)
              && MentionsVariable(value.value)
  {
    if value.None? || value.value == [] then Some(Required)
    else
      var s := value.value;
      IncludesOperatorPair(s);
      IncludesChar(s, 'x');
      IncludesChar(s, 'X');
      if CountChar(s, '(') != CountChar(s, ')') then Some(UnbalancedParentheses)
      else if Includes(s, "++") || Includes(s, "--") || Includes(s, "**") || Includes(s, "//") then
        Some(InvalidOperator)
      else if !Includes(s, "x") && !Includes(s, "X") then Some(MissingVariable)
      else None
  }

  /** Only the counts of the parentheses are compared, not their nesting:
      `)x(` is accepted. */
  lemma CountsOnlyNotNesting(s: string)
    requires s == ")x("
    ensures FunctionValidator(Some(s)) == None
  {
    assert s == [')'] + ['x'] + ['('];
    assert multiset(s)['('] == 1 == multiset(s)[')'];
    assert 'x' in s;
    forall i | 0 <= i && i + 1 < |s|
      ensures !(s[i] in "+-*/" && s[i + 1] == s[i])
    {
      assert s[i] == ')' || s[i] == 'x';
    }
  }

  /** The validator rejects `**`, although the backend's parser and the
      LaTeX formatter both read it as a power. */
  lemma DoubleStarRejected(s: string)
    requires s == "x**2"
    ensures FunctionValidator(Some(s)) == Some(InvalidOperator)
  {
    assert s[1] == '*' && s[2] == '*';
    assert multiset(s)['('] == 0 == multiset(s)[')'] by {
      assert '(' !in s && ')' !in s;
    }
  }

  // ---------------------------------------------------------------------
  // The bounds validator and the form (lines 57-79)
  // ---------------------------------------------------------------------

  datatype RangeError = InvalidLimitRange

  /** Lines 70-79, `limitRangeValidator`: the range is rejected exactly when
      both bounds are present and the lower is not below the upper. */
  function LimitRangeValidator(startX: Option<real>, endX: Option<real>): (failure: Option<RangeError>)
    ensures failure.Some? <==> startX.Some? && endX.Some? && startX.value >= endX.value
  {
    if startX.Some? && endX.Some? && startX.value >= endX.value then Some(InvalidLimitRange)
    else None
  }

  /** Lines 60-66: `Validators.required` on each control, `functionValidator`
      on the function and `limitRangeValidator` on the whole form. */
  predicate FormValid(functionText: Option<string>, startX: Option<real>, endX: Option<real>) {
    && FunctionValidator(functionText).None?
    && startX.Some? && endX.Some?
    && LimitRangeValidator(startX, endX).None?
  }

  /** A valid form holds a non-empty function mentioning the variable, with
      balanced parentheses and no doubled operator, and a non-empty interval
      `startX < endX`; and every such form is valid. */
  lemma FormValidMeaning(functionText: Option<string>, startX: Option<real>, endX: Option<real>)
    ensures FormValid(functionText, startX, endX) <==>
      && functionText.Some? && functionText.value != []
      && !ParenthesesUnbalanced(functionText.value)
      && !DoubledOperator(functionText.value)
      && MentionsVariable(functionText.value)
      && startX.Some? && endX.Some? && startX.value < endX.value
  {
  }

  /** Lines 60-63: the form starts out valid, with `2x+1` on [-1, 1]. */
  lemma InitialFormValid(functionText: string)
    requires functionText == "2x+1"
    ensures FormValid(Some(functionText), Some(-1.0), Some(1.0))
  {
    assert functionText[1] == 'x';
    assert '(' !in functionText && ')' !in functionText;
    forall i | 0 <= i && i + 1 < |functionText|
      ensures !(functionText[i] in "+-*/" && functionText[i + 1] == functionText[i])
    {
      assert functionText[i] != functionText[i + 1];
    }
  }

  // ---------------------------------------------------------------------
  // The state after a reply (lines 151-161)
  // ---------------------------------------------------------------------

  const FallbackMessage: string := "An error occurred while calculating the integral"

  /** Line 154: `response.error || null`; an empty message counts as none. */
  function ErrorOfResponse(response: IntegralResponse): (shown: Option<string>)
    ensures shown.None? <==> response.error.None? || response.error.value == []
    ensures shown.Some? ==> shown == response.error && shown.value != []
  {
    if response.error.Some? && response.error.value != [] then response.error else None
  }

  /** Line 158: `error.error?.detail || fallback`; the failure message the
      user sees is the server's detail when it has one, and never empty. */
  function ErrorOfFailure(detail: Option<string>): (shown: string)
    ensures shown != []
    ensures detail.Some? && detail.value != [] ==> shown == detail.value
    ensures detail.None? || detail.value == [] ==> shown == FallbackMessage
  {
    if detail.Some? && detail.value != [] then detail.value else FallbackMessage
  }

  // ---------------------------------------------------------------------
  // The chart data (lines 162-220)
  // ---------------------------------------------------------------------

  /** Line 176: the points with `startX <= x <= endX`, in their order. */
  function InRange(points: seq<Point>, startX: real, endX: real): (inside: seq<Point>)
    ensures |inside| <= |points|
  {
    if points == [] then []
    else
      (if startX <= points[0].x <= endX then [points[0]] else [])
        + InRange(points[1..], startX, endX)
  }

  /** Exactly the points inside the closed interval are kept. */
  lemma {:induction false} InRangeMembers(points: seq<Point>, startX: real, endX: real, p: Point)
    ensures p in InRange(points, startX, endX) <==> p in points && startX <= p.x <= endX
  {
    if points != [] {
      InRangeMembers(points[1..], startX, endX, p);
      assert points == [points[0]] + points[1..];
    }
  }

  /** The filter keeps the order of the points: it distributes over
      concatenation. */
  lemma {:induction false} InRangeAppend(ps: seq<Point>, qs: seq<Point>, startX: real, endX: real)
    ensures InRange(ps + qs, startX, endX) == InRange(ps, startX, endX) + InRange(qs, startX, endX)
  {
    if ps == [] {
      assert ps + qs == qs;
    } else {
      assert (ps + qs)[1..] == ps[1..] + qs;
      InRangeAppend(ps[1..], qs, startX, endX);
    }
  }

  /** When every point lies inside the interval, nothing is dropped. */
  lemma {:induction false} InRangeAllInside(points: seq<Point>, startX: real, endX: real)
    requires forall i :: 0 <= i < |points| ==> startX <= points[i].x <= endX
    ensures InRange(points, startX, endX) == points
  {
    if points != [] {
      InRangeAllInside(points[1..], startX, endX);
    }
  }

  /** Lines 182-187: the area polygon, closed by two points on the x-axis. */
  function AreaDataset(points: seq<Point>, startX: real, endX: real): (area: seq<Point>)
    ensures |area| == |InRange(points, startX, endX)| + 2
    ensures area[0] == Point(startX, 0.0) && area[|area| - 1] == Point(endX, 0.0)
    ensures area[1..|area| - 1] == InRange(points, startX, endX)
  {
    [Point(startX, 0.0)] + InRange(points, startX, endX) + [Point(endX, 0.0)]
  }

  /** The three datasets of lines 182-219 and the area shown in the title
      (line 291). */
  datatype Chart = Chart(areaData: seq<Point>, functionData: seq<Point>, xAxisData: seq<Point>, area: real)

  /** JavaScript's numeric reading of a bound in a comparison: `null` is 0. */
  function ToNumber(bound: Option<real>): real {
    bound.GetOr(0.0)
  }

  function BuildChart(response: IntegralResponse, startX: Option<real>, endX: Option<real>): Chart {
    var lo := ToNumber(startX);
    var hi := ToNumber(endX);
    Chart(AreaDataset(response.functionPoints, lo, hi),
          response.functionPoints,
          [Point(lo, 0.0), Point(hi, 0.0)],
          response.area)
  }

  /** A reply of the backend as the front end sees it: the response, or a
      failure with the `detail` of its body when there is one. */
  type Reply = Result<IntegralResponse, Option<string>>

  // ---------------------------------------------------------------------
  // The component
  // ---------------------------------------------------------------------

  /** The component's state: the three form controls, the last result, the
      message shown, the chart, whether the chart's canvas exists, whether
      the controls were marked touched, and the requests sent so far. */
  class IntegralCalculatorComponent {
    var functionText: Option<string>
    var startX: Option<real>
    var endX: Option<real>
    var result: Option<IntegralResponse>
    var error: Option<string>
    var chart: Option<Chart>
    var canvasReady: bool
    var touched: bool
    var sent: seq<IntegralRequest>

    /** Lines 57-67: the form starts with `2x+1` on [-1, 1]. */
    constructor ()
      ensures functionText == Some("2x+1") && startX == Some(-1.0) && endX == Some(1.0)
      ensures result.None? && error.None? && chart.None?
      ensures !canvasReady && !touched && sent == []
    {
      functionText := Some("2x+1");
      startX := Some(-1.0);
      endX := Some(1.0);
      result := None;
      error := None;
      chart := None;
      canvasReady := false;
      touched := false;
      sent := [];
    }

    /** Lines 129-161, up to the request: an invalid form only marks its
      controls touched and sends nothing; a valid one clears the message and
      sends its three values. */
    method CalculateIntegral()
      modifies this
      ensures functionText == old(functionText) && startX == old(startX) && endX == old(endX)
      ensures result == old(result) && chart == old(chart) && canvasReady == old(canvasReady)
      ensures !FormValid(functionText, startX, endX) ==>
                touched && sent == old(sent) && error == old(error)
      ensures FormValid(functionText, startX, endX) ==>
                && touched == old(touched)
                && error.None?
                && sent == old(sent) + [IntegralRequest(functionText.value, startX.value, endX.value)]
    {
      if !FormValid(functionText, startX, endX) {
        touched := true;
        return;
      }
      error := None;
      sent := sent + [IntegralRequest(functionText.value, startX.value, endX.value)];
    }

    /** Lines 151-161: the handlers of the reply. A response becomes the
      result, its non-empty error the message, and the chart is redrawn; a
      failure clears the result, shows the detail or the fallback message,
      and leaves the last chart in place. */
    method OnReply(reply: Reply)
      modifies this
      ensures functionText == old(functionText) && startX == old(startX) && endX == old(endX)
      ensures canvasReady == old(canvasReady) && touched == old(touched) && sent == old(sent)
      ensures reply.Success? ==>
                && result == Some(reply.value)
                && error == ErrorOfResponse(reply.value)
                && chart == (if canvasReady then Some(BuildChart(reply.value, startX, endX)) else old(chart))
      ensures reply.Failure? ==>
                result.None? && error == Some(ErrorOfFailure(reply.error)) && chart == old(chart)
    {
      match reply
      case Success(response) =>
        result := Some(response);
        error := ErrorOfResponse(response);
        UpdateChart();
      case Failure(detail) =>
        error := Some(ErrorOfFailure(detail));
        result := None;
    }

    /** Lines 162-220, `updateChart`: without a result or a canvas nothing
      happens; otherwise the chart is replaced by one drawn from the result's
      points and the form's current bounds. */
    method UpdateChart()
      modifies this
      ensures functionText == old(functionText) && startX == old(startX) && endX == old(endX)
      ensures result == old(result) && error == old(error)
      ensures canvasReady == old(canvasReady) && touched == old(touched) && sent == old(sent)
      ensures result.None? || !canvasReady ==> chart == old(chart)
      ensures result.Some? && canvasReady ==> chart == Some(BuildChart(result.value, startX, endX))
    {
      if result.None? || !canvasReady {
        return;
      }
      chart := Some(BuildChart(result.value, startX, endX));
    }
  }
}
