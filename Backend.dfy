/** The `/calculate-integral` handler of the backend (backend/main.py).
    Parsing, evaluation, quadrature, LaTeX printing and the sampling grid
    belong to sympy, scipy and numpy; they enter the model as the given
    functions of a `Library`, and the handler's own logic (the sampling
    loop, the filter of failed samples, the `$`-stripping, the
    error-annotation rule and the mapping of exceptions to a 400) is
    modelled exactly. */
module Backend {
  import opened Wrappers

  /** Line 53: how many abscissas are sampled for the plot. */
  const NumPoints: nat := 200

  /** Line 73: an error estimate below 1e-10 is not reported. */
  const ErrorTolerance: real := 0.0000000001

  const NumericalErrorPrefix: string := "Numerical error: "

  /** Status code of every failure the handler reports (line 77). */
  const BadRequest: int := 400

  datatype IntegralRequest = IntegralRequest(functionString: string, startX: real, endX: real)

  /** One plotted sample `{"x": ..., "y": ...}`. Its `y` is never `None`:
      the comprehension of lines 62-63 keeps only samples that succeeded. */
  datatype Point = Point(x: real, y: real)

  datatype IntegralResponse = IntegralResponse(
    latexExpression: string,
    area: real,
    functionPoints: seq<Point>,
    error: Option<string>)

  /** `HTTPException(status_code, detail)`. */
  datatype HttpError = HttpError(statusCode: int, detail: string)

  /** What `integrate.quad` returns: the area and its absolute error estimate. */
  datatype Quadrature = Quadrature(area: real, errorEstimate: real)

  /** The library calls the handler makes, over sympy's expression type `E`.
      A `Failure` carries `str(e)` of the exception the call raises;
      `evaluate` is `float(expr.subs(x, v))`, `None` where that raises. */
  datatype Library<!E> = Library(
    parse: string -> Result<E, string>,
    evaluate: (E, real) -> Option<real>,
    integrate: (E, real, real) -> Result<Quadrature, string>,
    latex: E -> Result<string, string>,
    linspace: (real, real, nat) -> seq<real>,
    floatText: real -> string)

  /** Lines 55-60: one entry per abscissa, in order; `None` where the
      evaluation raised. */
  method SampleFunction<E>(evaluate: (E, real) -> Option<real>, expr: E, xValues: seq<real>)
    returns (yValues: seq<Option<real>>)
    ensures |yValues| == |xValues|
    ensures forall i :: 0 <= i < |xValues| ==> yValues[i] == evaluate(expr, xValues[i])
  {
    yValues := [];
    for i := 0 to |xValues|
      invariant |yValues| == i
      invariant forall j :: 0 <= j < i ==> yValues[j] == evaluate(expr, xValues[j])
    {
      yValues := yValues + [evaluate(expr, xValues[i])];
    }
  }

  /** The samples of `expr` at `xValues`, as the loop of lines 55-60 leaves them. */
  function Samples<E>(evaluate: (E, real) -> Option<real>, expr: E, xValues: seq<real>): seq<Option<real>> {
    seq(|xValues|, i requires 0 <= i < |xValues| => evaluate(expr, xValues[i]))
  }

  /** Lines 62-63: `zip(x_values, y_values)` without the pairs whose `y` is
      `None`. Like `zip`, it stops at the end of the shorter sequence. */
  function FunctionPoints(xValues: seq<real>, yValues: seq<Option<real>>): (points: seq<Point>)
    ensures |points| <= |xValues| && |points| <= |yValues|
    decreases |xValues|
  {
    if xValues == [] || yValues == [] then []
    else
      (if yValues[0].Some? then [Point(xValues[0], yValues[0].value)] else [])
        + FunctionPoints(xValues[1..], yValues[1..])
  }

  /** The filter keeps the order of the abscissas: it distributes over
      concatenation of aligned samples. */
  lemma {:induction false} FunctionPointsAppend(xs1: seq<real>, ys1: seq<Option<real>>,
                                                xs2: seq<real>, ys2: seq<Option<real>>)
    requires |xs1| == |ys1|
    ensures FunctionPoints(xs1 + xs2, ys1 + ys2) == FunctionPoints(xs1, ys1) + FunctionPoints(xs2, ys2)
    decreases |xs1|
  {
    if xs1 == [] {
      assert xs1 + xs2 == xs2 && ys1 + ys2 == ys2;
    } else {
      assert (xs1 + xs2)[1..] == xs1[1..] + xs2;
      assert (ys1 + ys2)[1..] == ys1[1..] + ys2;
      FunctionPointsAppend(xs1[1..], ys1[1..], xs2, ys2);
    }
  }

  /** A point is kept exactly when some sample at its abscissa succeeded
      with its ordinate. */
  lemma {:induction false} FunctionPointsMembers(xValues: seq<real>, yValues: seq<Option<real>>, p: Point)
    ensures p in FunctionPoints(xValues, yValues) <==>
            exists i :: 0 <= i < |xValues| && i < |yValues| && xValues[i] == p.x && yValues[i] == Some(p.y)
    decreases |xValues|
  {
    if xValues != [] && yValues != [] {
      FunctionPointsMembers(xValues[1..], yValues[1..], p);
      if p in FunctionPoints(xValues[1..], yValues[1..]) {
        var i :| 0 <= i < |xValues[1..]| && i < |yValues[1..]| && xValues[1..][i] == p.x && yValues[1..][i] == Some(p.y);
        assert xValues[i + 1] == p.x && yValues[i + 1] == Some(p.y);
      }
      if exists i :: 0 <= i < |xValues| && i < |yValues| && xValues[i] == p.x && yValues[i] == Some(p.y) {
        var i :| 0 <= i < |xValues| && i < |yValues| && xValues[i] == p.x && yValues[i] == Some(p.y);
        if i > 0 {
          assert xValues[1..][i - 1] == p.x && yValues[1..][i - 1] == Some(p.y);
        }
      }
    }
  }

  /** No sample is lost unless its evaluation failed. */
  lemma {:induction false} FunctionPointsComplete(xValues: seq<real>, yValues: seq<Option<real>>)
    requires |xValues| == |yValues|
    ensures |FunctionPoints(xValues, yValues)| == |xValues| <==> forall i :: 0 <= i < |yValues| ==> yValues[i].Some?
    decreases |xValues|
  {
    if xValues != [] {
      FunctionPointsComplete(xValues[1..], yValues[1..]);
      if forall i :: 0 <= i < |yValues[1..]| ==> yValues[1..][i].Some? {
        if yValues[0].Some? {
          forall i | 0 <= i < |yValues| ensures yValues[i].Some? {
            if i > 0 { assert yValues[1..][i - 1].Some?; }
          }
        }
      } else {
        var i :| 0 <= i < |yValues[1..]| && !yValues[1..][i].Some?;
        assert !yValues[i + 1].Some?;
      }
    }
  }

  /** Lines 66-67: the text starts and ends with `$`. */
  predicate DollarDelimited(latex: string) {
    |latex| > 0 && latex[0] == '$' && latex[|latex| - 1] == '$'
  }

  /** Lines 66-67: `latex_expr[1:-1]` when the text starts and ends with
      `$`. Python's slice of the one-character `"$"` is empty. */
  function StripDollars(latex: string): (stripped: string)
    ensures DollarDelimited(latex) && |latex| >= 2 ==> latex == "$" + stripped + "$"
    ensures latex == "$" ==> stripped == ""
    ensures !DollarDelimited(latex) ==> stripped == latex
  {
    if DollarDelimited(latex) then
      (if |latex| == 1 then "" else latex[1..|latex| - 1])
    else latex
  }

  /** Wrapping in `$` and stripping are inverse. */
  lemma StripDollarsWrapped(inner: string)
    ensures StripDollars("$" + inner + "$") == inner
  {
    var s := "$" + inner + "$";
    assert DollarDelimited(s) && s[1..|s| - 1] == inner;
  }

  /** Line 73: no annotation exactly when the estimate is below 1e-10,
      otherwise `"Numerical error: "` followed by the estimate as Python
      prints it. */
  function ErrorAnnotation(errorEstimate: real, floatText: real -> string): (annotation: Option<string>)
    ensures annotation.None? <==> errorEstimate < ErrorTolerance
    ensures annotation.Some? ==> annotation.value == NumericalErrorPrefix + floatText(errorEstimate)
  {
    if errorEstimate < ErrorTolerance then None
    else Some(NumericalErrorPrefix + floatText(errorEstimate))
  }

  /** Lines 38-79, `calculate_integral`: parse, integrate, sample, print;
      any exception on the way becomes a 400 carrying its message, and
      nothing of a partial result is returned. */
  method CalculateIntegral<E>(lib: Library<E>, request: IntegralRequest)
    returns (response: Result<IntegralResponse, HttpError>)
    requires |lib.linspace(request.startX, request.endX, NumPoints)| == NumPoints
    ensures response.Failure? ==> response.error.statusCode == BadRequest
    ensures match lib.parse(request.functionString)
      case Failure(e) => response == Failure(HttpError(BadRequest, e))
      case Success(expr) =>
        match lib.integrate(expr, request.startX, request.endX)
        case Failure(e) => response == Failure(HttpError(BadRequest, e))
        case Success(quad) =>
          match lib.latex(expr)
          case Failure(e) => response == Failure(HttpError(BadRequest, e))
          case Success(tex) =>
            var xValues := lib.linspace(request.startX, request.endX, NumPoints);
            && response.Success?
            && response.value.latexExpression == StripDollars(tex)
            && response.value.area == quad.area
            && response.value.error == ErrorAnnotation(quad.errorEstimate, lib.floatText)
            && response.value.functionPoints == FunctionPoints(xValues, Samples(lib.evaluate, expr, xValues))
            && |response.value.functionPoints| <= NumPoints
            && (forall p :: p in response.value.functionPoints ==> lib.evaluate(expr, p.x) == Some(p.y))
            && (forall i :: 0 <= i < |xValues| && lib.evaluate(expr, xValues[i]).Some? ==>
                  Point(xValues[i], lib.evaluate(expr, xValues[i]).value) in response.value.functionPoints)
  {
    var parsed := lib.parse(request.functionString);
    if parsed.Failure? {
      return Failure(HttpError(BadRequest, parsed.error));
    }
    var expr := parsed.value;
    var integrated := lib.integrate(expr, request.startX, request.endX);
    if integrated.Failure? {
      return Failure(HttpError(BadRequest, integrated.error));
    }
    var quad := integrated.value;
    var xValues := lib.linspace(request.startX, request.endX, NumPoints);
    var yValues := SampleFunction(lib.evaluate, expr, xValues);
    var points := FunctionPoints(xValues, yValues);
    var printed := lib.latex(expr);
    if printed.Failure? {
      return Failure(HttpError(BadRequest, printed.error));
    }
    assert yValues == Samples(lib.evaluate, expr, xValues);
    forall p | p in points
      ensures lib.evaluate(expr, p.x) == Some(p.y)
    {
      FunctionPointsMembers(xValues, yValues, p);
    }
    forall i | 0 <= i < |xValues| && lib.evaluate(expr, xValues[i]).Some?
      ensures Point(xValues[i], lib.evaluate(expr, xValues[i]).value) in points
    {
      FunctionPointsMembers(xValues, yValues, Point(xValues[i], lib.evaluate(expr, xValues[i]).value));
    }
    response := Success(IntegralResponse(
      StripDollars(printed.value),
      quad.area,
      points,
      ErrorAnnotation(quad.errorEstimate, lib.floatText)));
  }
}
