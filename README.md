# area-py: the integral calculator's own logic, in Dafny

The integral calculator has an Angular front end and a FastAPI back end.
The user types a function of `x` and two bounds. The front end validates the
form, sends the request and draws the curve and the shaded area. The back end
hands parsing and integration to sympy and scipy. The repository's own logic
sits around those library calls, and that logic is what this project models
and proves things about:

- `Backend` (backend/main.py): the `/calculate-integral` handler.
  - It samples the parsed function at the 200 abscissas of the grid; a
    sample whose evaluation raises is recorded as `None`.
  - It drops the failed samples and keeps the order.
  - It strips a surrounding pair of `$` from the LaTeX text.
  - It attaches a "Numerical error" annotation when the estimate is at least 1e-10.
  - It turns any exception into a 400 carrying the exception's message.
  - sympy's `parse_expr`, `subs`/`float`, `latex`, scipy's `quad`, numpy's
    `linspace` and Python's float printing are the given functions of a
    `Library` record; the model says nothing about what they compute.
- `IntegralCalculator` (integral-calculator.component.ts): the component.
  - `functionValidator` and `limitRangeValidator`, and the form's validity.
  - The state changes of `calculateIntegral`: sending a request, and the
    handlers for a response and for a failure.
  - The datasets `updateChart` builds: the area polygon and the function line.
  - The component is a class. Its fields are the three form controls, the
    result, the message shown, the chart, whether the canvas exists, whether
    the controls were marked touched, and the requests sent.
- `MathJax` (mathjax.service.ts): `formatExpression`.
  - It is modelled as the composition of its regular-expression rewrites:
    exponent bracing (three passes), `**` then `*`, the function names,
    then `exp(...)`.
  - `createDefiniteIntegral` wraps the result in the integral template.
- `Strings`: the string primitives both front-end files rely on.
  - Counting a character and `includes`.
  - The greedy prefix a character class matches.
  - JavaScript's global `replace` with a literal pattern: left to right,
    non-overlapping, and the inserted text is never searched again.
- `Wrappers`: `Option` and `Result`.

Some behaviour is modelled as the code is written, where the code and its
comments disagree:

- Line 40 of mathjax.service.ts braces the whole run of characters up to the
  next `}`, including a run line 38 has already braced. So `x^2` becomes
  `x^{{2}}`, not the `x^{2}` the comment promises (`MathJax.FormatSquare`).
- Line 39 does brace `x^-1` into `x^{-1}`, as its comment says, but line 40 then braces it again, so the formatted text is `x^{{-1}}` (`MathJax.FormatNegativeExponent`).
- `sqrt(` becomes `\sqrt{` with its `)` left unchanged (`MathJax.FormatSqrt`).
- The front-end validator rejects `**`, which the back end and the formatter
  both accept (`IntegralCalculator.DoubleStarRejected`).

## Model

| member | source | states |
|---|---|---|
| Backend.SampleFunction | backend/main.py:55-60 | one sample per abscissa, in order: the value of the evaluation, or `None` where it raised |
| Backend.FunctionPoints | backend/main.py:62-63 | the filtered pairs are no more than either the abscissas or the samples (`zip` stops at the shorter) |
| Backend.FunctionPointsAppend | backend/main.py:62-63 | the filter keeps the order of the abscissas: it distributes over concatenation of aligned samples |
| Backend.FunctionPointsMembers | backend/main.py:62-63 | a point is kept exactly when the sample at some index succeeded with that ordinate at that abscissa |
| Backend.FunctionPointsComplete | backend/main.py:62-63 | with aligned inputs, every pair is kept exactly when no evaluation failed |
| Backend.StripDollars | backend/main.py:66-67 | a `$`-delimited text loses its first and last character, a lone `$` becomes empty, any other text is unchanged |
| Backend.StripDollarsWrapped | backend/main.py:66-67 | stripping undoes wrapping in `$` |
| Backend.ErrorAnnotation | backend/main.py:73 | no annotation exactly when the estimate is below 1e-10; otherwise `Numerical error: ` followed by the printed estimate |
| Backend.CalculateIntegral | backend/main.py:38-79 | a parse, quadrature or LaTeX failure gives a 400 with that message and no partial result; otherwise: the stripped LaTeX, the area, the annotation, and at most 200 points, each the value at its abscissa, with none missing where evaluation succeeded, in grid order |
| Strings.CountChar | integral-calculator/src/app/components/integral-calculator/integral-calculator.component.ts:22-23 | the count is the character's multiplicity in the text |
| Strings.Includes | integral-calculator/src/app/components/integral-calculator/integral-calculator.component.ts:30-35 | true exactly when the pattern occurs at some index |
| Strings.OccursAtShift | integral-calculator/src/app/components/integral-calculator/integral-calculator.component.ts:30-35 | the occurrences in the tail are those in the whole text after index 0, shifted by one |
| Strings.SpanLength | integral-calculator/src/app/services/mathjax.service.ts:40 | the greedy match of a character class: every character before it matches, the next does not |
| Strings.ReplaceAll | integral-calculator/src/app/services/mathjax.service.ts:41-48 | JavaScript's global `replace` with a literal pattern; no `ensures` of its own, its properties are the `ReplaceAll…` lemmas below |
| Strings.Framed | integral-calculator/src/app/services/mathjax.service.ts:65 | a text built as prefix, middle, suffix starts with the prefix, ends with middle and suffix, and has their summed length |
| Strings.ReplaceAllNoOccurrence | integral-calculator/src/app/services/mathjax.service.ts:41-48 | a text without the pattern is left unchanged |
| Strings.ReplaceAllAbsent | integral-calculator/src/app/services/mathjax.service.ts:41-48 | a text lacking one of the pattern's characters is left unchanged |
| Strings.ReplaceAllChars | integral-calculator/src/app/services/mathjax.service.ts:41-48 | every character of the output comes from the replacement or is an input character other than a one-character pattern |
| Strings.ReplaceAllKeepsCount | integral-calculator/src/app/services/mathjax.service.ts:43-48 | a character in neither pattern nor replacement keeps its count |
| Strings.ReplaceAllAppend | integral-calculator/src/app/services/mathjax.service.ts:41-48 | when no occurrence straddles the seam, replacing in a concatenation is replacing in each part |
| Strings.ReplaceAllAt | integral-calculator/src/app/services/mathjax.service.ts:43-48 | an occurrence not overlapped from the left is replaced, and the text on each side is rewritten independently |
| Strings.NoOccurrenceAcrossDrop | integral-calculator/src/app/services/mathjax.service.ts:41-48 | an occurrence not straddling a seam stays so when the left part loses its first characters |
| MathJax.UnbracedAppend | integral-calculator/src/app/services/mathjax.service.ts:38-40 | removing braces distributes over concatenation |
| MathJax.UnbracedBraced | integral-calculator/src/app/services/mathjax.service.ts:38-40 | a braced exponent differs from its argument only in braces |
| MathJax.BracedStep | integral-calculator/src/app/services/mathjax.service.ts:38-40 | bracing an exponent at the head of the text, before a rest with the same unbraced text, keeps the unbraced text |
| MathJax.BracedExponent | integral-calculator/src/app/services/mathjax.service.ts:38-40 | a braced exponent before a rewritten rest has the unbraced text of `^`, the exponent and the original rest |
| MathJax.BraceWordExponents | integral-calculator/src/app/services/mathjax.service.ts:38 | the first character of a non-empty text is kept |
| MathJax.BraceWordExponentsOnlyBraces | integral-calculator/src/app/services/mathjax.service.ts:38 | the pass only inserts braces |
| MathJax.BraceWordExponentsBracesAll | integral-calculator/src/app/services/mathjax.service.ts:38 | afterwards no `^` is followed by a word character |
| MathJax.BraceWordExponentsAppend | integral-calculator/src/app/services/mathjax.service.ts:38 | the pass distributes over a seam not followed by a word character |
| MathJax.BraceWordExponentsAt | integral-calculator/src/app/services/mathjax.service.ts:38 | `^c` with a word character `c` becomes `^{c}`, wrapping that one character |
| MathJax.WordExponentFirstDigitOnly | integral-calculator/src/app/services/mathjax.service.ts:38 | `x^23` becomes `x^{2}3` |
| MathJax.SignedIntegerLength | integral-calculator/src/app/services/mathjax.service.ts:39 | the length of the `-?\d+` match: an optional minus, then digits up to the first non-digit; zero exactly when the text starts neither with a digit nor with a minus and a digit |
| MathJax.BraceIntegerExponents | integral-calculator/src/app/services/mathjax.service.ts:39 | no `ensures` of its own; `SignedIntegerLength` fixes what it braces, and `BraceIntegerExponentsOnlyBraces`, `NegativeIntegerBraced` and `SquareNoInteger` state what it does |
| MathJax.BraceIntegerExponentsOnlyBraces | integral-calculator/src/app/services/mathjax.service.ts:39 | the pass only inserts braces |
| MathJax.BraceExponentRuns | integral-calculator/src/app/services/mathjax.service.ts:40 | no `ensures` of its own; `BraceExponentRunsOnlyBraces`, `SquareRunBraced` and `NegativeRunBraced` state what it does |
| MathJax.BraceExponents | integral-calculator/src/app/services/mathjax.service.ts:38-40 | lines 38-40 in order; no `ensures` of its own, `BraceExponentsOnlyBraces`, `SquareBraced` and `NegativeBraced` state what it does |
| MathJax.BraceExponentRunsOnlyBraces | integral-calculator/src/app/services/mathjax.service.ts:40 | the pass only inserts braces |
| MathJax.BraceExponentsOnlyBraces | integral-calculator/src/app/services/mathjax.service.ts:38-40 | the three exponent passes together only insert braces |
| MathJax.BraceExponentsWithoutCaret | integral-calculator/src/app/services/mathjax.service.ts:38-40 | a text without `^` passes the exponent passes unchanged |
| MathJax.BraceWordExponentsWithoutCaret | integral-calculator/src/app/services/mathjax.service.ts:38 | a text without `^` is unchanged |
| MathJax.BraceIntegerExponentsWithoutCaret | integral-calculator/src/app/services/mathjax.service.ts:39 | a text without `^` is unchanged |
| MathJax.BraceExponentRunsWithoutCaret | integral-calculator/src/app/services/mathjax.service.ts:40 | a text without `^` is unchanged |
| MathJax.SquareWordBraced | integral-calculator/src/app/services/mathjax.service.ts:38 | `x^2` becomes `x^{2}` |
| MathJax.SquareNoInteger | integral-calculator/src/app/services/mathjax.service.ts:39 | `x^{2}` has no bare integer exponent and is unchanged |
| MathJax.SquareRunBraced | integral-calculator/src/app/services/mathjax.service.ts:40 | `x^{2}` is braced again into `x^{{2}}` |
| MathJax.SquareBraced | integral-calculator/src/app/services/mathjax.service.ts:38-40 | the exponent passes turn `x^2` into `x^{{2}}` |
| MathJax.NegativeWordUnchanged | integral-calculator/src/app/services/mathjax.service.ts:38 | `x^-1` is unchanged: `-` is not a word character |
| MathJax.NegativeIntegerBraced | integral-calculator/src/app/services/mathjax.service.ts:39 | `x^-1` becomes `x^{-1}` |
| MathJax.NegativeRunLength | integral-calculator/src/app/services/mathjax.service.ts:40 | the run of characters other than `}` at the start of `{-1}` is three long |
| MathJax.NegativeRunHead | integral-calculator/src/app/services/mathjax.service.ts:40 | `^{-1}` becomes `^{{-1}}` |
| MathJax.NegativeRunBraced | integral-calculator/src/app/services/mathjax.service.ts:40 | `x^{-1}` becomes `x^{{-1}}` |
| MathJax.NegativeBraced | integral-calculator/src/app/services/mathjax.service.ts:38-40 | the exponent passes turn `x^-1` into `x^{{-1}}` |
| MathJax.StarsToLatex | integral-calculator/src/app/services/mathjax.service.ts:41-42 | lines 41 then 42; no `ensures` of its own, `StarsToLatexStarFree` and `PowerBeforeProduct` state what it does |
| MathJax.StarsToLatexStarFree | integral-calculator/src/app/services/mathjax.service.ts:41-42 | no `*` survives the two star rewrites |
| MathJax.StarsToLatexWithoutStar | integral-calculator/src/app/services/mathjax.service.ts:41-42 | a star-free text is unchanged |
| MathJax.NoPowerAt | integral-calculator/src/app/services/mathjax.service.ts:41 | no `**` starts at a character other than `*` |
| MathJax.PowerBeforeProduct | integral-calculator/src/app/services/mathjax.service.ts:41-42 | `**` becomes a single `^` and never two `\cdot` |
| MathJax.DoubleStarToCaret | integral-calculator/src/app/services/mathjax.service.ts:41-42 | `x**2` becomes `x^2` |
| MathJax.FunctionNamesToLatex | integral-calculator/src/app/services/mathjax.service.ts:43-48 | the six renames in order; no `ensures` of its own, `FunctionNamesToLatexChars`, `SqrtKeepsCloseParen` and `SineRenamed` state what it does |
| MathJax.FunctionNamesToLatexChars | integral-calculator/src/app/services/mathjax.service.ts:43-48 | the renames add only characters of `\sqrt{` and the five prefixed names |
| MathJax.SqrtKeepsCloseParen | integral-calculator/src/app/services/mathjax.service.ts:43 | `sqrt(` becomes `\sqrt{` while every `)` stays |
| MathJax.FunctionNamesWithoutParen | integral-calculator/src/app/services/mathjax.service.ts:43-48 | a text without `(` is unchanged by the renames |
| MathJax.SinePrefixed | integral-calculator/src/app/services/mathjax.service.ts:44 | `sin(x)` becomes `\sin(x)` |
| MathJax.LaterNamesAbsent | integral-calculator/src/app/services/mathjax.service.ts:45-48 | a text without `c`, `t` or `l` is unchanged by the later renames |
| MathJax.SineRenamed | integral-calculator/src/app/services/mathjax.service.ts:43-48 | all the renames turn `sin(x)` into `\sin(x)` |
| MathJax.SqrtRenamed | integral-calculator/src/app/services/mathjax.service.ts:43-48 | the renames turn `sqrt(x)` into `\sqrt{x)`, leaving the `)` |
| MathJax.ExpToPower | integral-calculator/src/app/services/mathjax.service.ts:51 | no `ensures` of its own; `ExpRewritten` and `ExpToPowerChars` state what it does |
| MathJax.ExpToPowerChars | integral-calculator/src/app/services/mathjax.service.ts:51 | the rewrite adds only `e`, `^`, `{` and `}` |
| MathJax.ExpRewritten | integral-calculator/src/app/services/mathjax.service.ts:51 | `exp(` with a non-empty `)`-free argument and its `)` becomes `e^{argument}` |
| MathJax.ExpNamesUnchanged | integral-calculator/src/app/services/mathjax.service.ts:43-48 | none of the renames touches `exp(x)` |
| MathJax.ExpPowered | integral-calculator/src/app/services/mathjax.service.ts:51 | `exp(x)` becomes `e^{x}` |
| MathJax.ExpToPowerWithoutE | integral-calculator/src/app/services/mathjax.service.ts:51 | a text without `e` is unchanged |
| MathJax.FormatExpression | integral-calculator/src/app/services/mathjax.service.ts:32-54 | the empty expression gives the empty text, and no output contains `*` |
| MathJax.FormatPipelineStarFree | integral-calculator/src/app/services/mathjax.service.ts:38-51 | the star-free property survives the name and `exp` rewrites |
| MathJax.FormatSquare | integral-calculator/src/app/services/mathjax.service.ts:32-54 | `x^2` is formatted as `x^{{2}}` |
| MathJax.FormatNegativeExponent | integral-calculator/src/app/services/mathjax.service.ts:32-54 | `x^-1` is formatted as `x^{{-1}}` |
| MathJax.FormatDoubleStar | integral-calculator/src/app/services/mathjax.service.ts:32-54 | `x**2` is formatted as `x^2` |
| MathJax.FormatSqrt | integral-calculator/src/app/services/mathjax.service.ts:32-54 | `sqrt(x)` is formatted as `\sqrt{x)` |
| MathJax.FormatSine | integral-calculator/src/app/services/mathjax.service.ts:32-54 | `sin(x)` is formatted as `\sin(x)` |
| MathJax.FormatExp | integral-calculator/src/app/services/mathjax.service.ts:32-54 | `exp(x)` is formatted as `e^{x}` |
| MathJax.CreateDefiniteIntegral | integral-calculator/src/app/services/mathjax.service.ts:63-66 | the text starts with `\int_{lo}^{hi} `, ends with the formatted function and ` \, dx`, and is exactly as long as those parts together, so nothing lies between them |
| MathJax.CreateDefiniteIntegralStarFree | integral-calculator/src/app/services/mathjax.service.ts:63-66 | with star-free bounds, the whole integral is star-free |
| IntegralCalculator.IncludesChar | integral-calculator/src/app/components/integral-calculator/integral-calculator.component.ts:35 | `includes` of one character is membership |
| IntegralCalculator.IncludesPair | integral-calculator/src/app/components/integral-calculator/integral-calculator.component.ts:30 | `includes` of a doubled character finds two equal neighbours |
| IntegralCalculator.PairAt | integral-calculator/src/app/components/integral-calculator/integral-calculator.component.ts:30 | a doubled character occurs at an index exactly when both characters there are it |
| IntegralCalculator.IncludesOperatorPair | integral-calculator/src/app/components/integral-calculator/integral-calculator.component.ts:30 | the four `includes` calls find exactly a doubled `+`, `-`, `*` or `/` |
| IntegralCalculator.FunctionValidator | integral-calculator/src/app/components/integral-calculator/integral-calculator.component.ts:14-40 | `null` exactly when the value is non-empty, has equal counts of `(` and `)`, no doubled operator and an `x` or `X`; otherwise the first failing check in the order required, parentheses, operator, variable |
| IntegralCalculator.CountsOnlyNotNesting | integral-calculator/src/app/components/integral-calculator/integral-calculator.component.ts:22-27 | `)x(` is accepted: only the counts are compared |
| IntegralCalculator.DoubleStarRejected | integral-calculator/src/app/components/integral-calculator/integral-calculator.component.ts:30-32 | `x**2` is reported as an invalid operator |
| IntegralCalculator.LimitRangeValidator | integral-calculator/src/app/components/integral-calculator/integral-calculator.component.ts:70-79 | an error exactly when both bounds are present and the lower is not below the upper; a missing bound passes |
| IntegralCalculator.FormValid | integral-calculator/src/app/components/integral-calculator/integral-calculator.component.ts:60-66 | the control and form validators together; no `ensures` of its own, `FormValidMeaning` states what it means |
| IntegralCalculator.FormValidMeaning | integral-calculator/src/app/components/integral-calculator/integral-calculator.component.ts:60-79 | the form is valid exactly when the function passes all four checks and both bounds are present with `startX < endX` |
| IntegralCalculator.InitialFormValid | integral-calculator/src/app/components/integral-calculator/integral-calculator.component.ts:60-63 | the initial form `2x+1` on [-1, 1] is valid |
| IntegralCalculator.ErrorOfResponse | integral-calculator/src/app/components/integral-calculator/integral-calculator.component.ts:154 | the message after a response is its error, and none when that is missing or empty |
| IntegralCalculator.ErrorOfFailure | integral-calculator/src/app/components/integral-calculator/integral-calculator.component.ts:158 | the message after a failure is never empty: the server's detail when it has one, otherwise the fallback text |
| IntegralCalculator.InRange | integral-calculator/src/app/components/integral-calculator/integral-calculator.component.ts:176 | the filter never adds points |
| IntegralCalculator.InRangeMembers | integral-calculator/src/app/components/integral-calculator/integral-calculator.component.ts:176 | a point is kept exactly when it is a backend point inside `[startX, endX]` |
| IntegralCalculator.InRangeAppend | integral-calculator/src/app/components/integral-calculator/integral-calculator.component.ts:176 | the filter keeps order: it distributes over concatenation |
| IntegralCalculator.InRangeAllInside | integral-calculator/src/app/components/integral-calculator/integral-calculator.component.ts:176 | when every point is inside the interval, nothing is dropped |
| IntegralCalculator.AreaDataset | integral-calculator/src/app/components/integral-calculator/integral-calculator.component.ts:175-187 | `(startX, 0)`, then the filtered points in order, then `(endX, 0)`: two more than the filtered count |
| IntegralCalculator.BuildChart | integral-calculator/src/app/components/integral-calculator/integral-calculator.component.ts:169-219 | the area, function and x-axis datasets and the area for the title; no `ensures` of its own, `AreaDataset`, `InRangeMembers` and `UpdateChart` state what it holds |
| IntegralCalculator.IntegralCalculatorComponent.constructor | integral-calculator/src/app/components/integral-calculator/integral-calculator.component.ts:52-67 | the form starts as `2x+1` on [-1, 1], with no result, message or chart |
| IntegralCalculator.IntegralCalculatorComponent.CalculateIntegral | integral-calculator/src/app/components/integral-calculator/integral-calculator.component.ts:129-150 | an invalid form only marks the controls touched and sends nothing; a valid one clears the message and sends exactly its three values |
| IntegralCalculator.IntegralCalculatorComponent.OnReply | integral-calculator/src/app/components/integral-calculator/integral-calculator.component.ts:151-161 | a response becomes the result, its non-empty error the message, and the chart is redrawn; a failure clears the result, shows the detail or the fallback, and keeps the old chart |
| IntegralCalculator.IntegralCalculatorComponent.UpdateChart | integral-calculator/src/app/components/integral-calculator/integral-calculator.component.ts:162-220 | without a result or canvas nothing changes; otherwise the chart holds the area polygon, all backend points as the line, the x-axis segment and the area |

## Left out

- sympy, scipy and numpy: what `parse_expr` accepts, how `quad` integrates, what `latex` prints and how `linspace` spaces the grid are given functions. The only assumption made is that the grid has 200 abscissas.
- Floating point: abscissas, samples and bounds are reals. Python's printing of the estimate and JavaScript's printing of the bounds are given functions.
- The `toFixed` rounding of `incrementLimit`/`decrementLimit` (component lines 82-97) is left out for the same reason.
- FastAPI routing, CORS, Pydantic's 422 responses for malformed bodies, `uvicorn` startup and the `/test` endpoint (backend/main.py:34-36) are left out: they are framework configuration.
- `integral.service.ts` is left out; the HTTP round trip is split into `CalculateIntegral` (the request sent) and `OnReply` (the reply handled).
- `ngOnInit` is left out: the connection test, its `backendStatus` and its error message, and the RxJS debounce and distinct-value filter. How requests and replies interleave is not modelled.
- Chart.js options, colours, tooltips and the `toFixed(6)` title text (component lines 220-303) are left out; the chart keeps its datasets and the area value.
- The `katex` pipe and the MathJax rendering helpers are left out: they are calls into the DOM and a rendering library.
- IntegralCalculator.IntegralCalculatorComponent.UpdateChart: a bound cleared after the request is read as 0, as JavaScript's comparison reads `null`. The `null` x that Chart.js would then receive at the two zero points is drawn at 0 in the model.
- MathJax.CreateDefiniteIntegral: JavaScript's number-to-text conversion of the limits is a given function, so the contract is stated up to that text.
