/** The expression-to-LaTeX formatter of the frontend's MathJax service
    (integral-calculator/src/app/services/mathjax.service.ts): a fixed chain
    of global regular-expression replacements, each modelled as a function
    on strings and composed in the source's order. */
module MathJax {
  import opened Strings

  /** `\w` in a JavaScript regular expression. */
  predicate IsWordChar(c: char) {
    ('a' <= c <= 'z') || ('A' <= c <= 'Z') || ('0' <= c <= '9') || c == '_'
  }

  /** `\d` in a JavaScript regular expression. */
  predicate IsDigit(c: char) {
    '0' <= c <= '9'
  }

  predicate NotCloseBrace(c: char) {
    c != '}'
  }

  predicate NotCloseParen(c: char) {
    c != ')'
  }

  /** No `^` in `s` is immediately followed by a word character. */
  predicate NoBareWordExponent(s: string) {
    forall i :: 0 <= i < |s| - 1 && s[i] == '^' ==> !IsWordChar(s[i + 1])
  }

  /** `s` with every `{` and `}` removed. */
  function Unbraced(s: string): string {
    if s == [] then []
    else (if s[0] == '{' || s[0] == '}' then [] else [s[0]]) + Unbraced(s[1..])
  }

  lemma {:induction false} UnbracedAppend(a: string, b: string)
    ensures Unbraced(a + b) == Unbraced(a) + Unbraced(b)
    decreases |a|
  {
    if a == [] {
      assert a + b == b;
    } else {
      assert (a + b)[1..] == a[1..] + b;
      UnbracedAppend(a[1..], b);
    }
  }

  // ---------------------------------------------------------------------
  // Exponents (lines 38-40)
  // ---------------------------------------------------------------------

  /** Line 38, `replace(/\^(\w)/g, '^{$1}')`: a `^` followed by one word
      character gets that single character braced. */
  function BraceWordExponents(s: string): (r: string)
    ensures s != [] ==> r != [] && r[0] == s[0]
    decreases |s|
  {
    if |s| >= 2 && s[0] == '^' && IsWordChar(s[1]) then
      "^{" + [s[1]] + "}" + BraceWordExponents(s[2..])
    else if s == [] then []
    else [s[0]] + BraceWordExponents(s[1..])
  }

  /** How many characters `-?\d+` matches at the start of `t` (0: no match). */
  function SignedIntegerLength(t: string): (n: nat)
    ensures n <= |t|
    ensures n > 0 ==> IsDigit(t[n - 1]) && (n == |t| || !IsDigit(t[n]))
    ensures n > 0 ==> forall i :: 0 <= i < n ==> IsDigit(t[i]) || (i == 0 && t[i] == '-')
    ensures n == 0 <==> !((|t| >= 1 && IsDigit(t[0])) || (|t| >= 2 && t[0] == '-' && IsDigit(t[1])))
  {
    if |t| >= 1 && t[0] == '-' then
      var d := SpanLength(t[1..], IsDigit);
      if d > 0 then 1 + d else 0
    else SpanLength(t, IsDigit)
  }

  /** Line 39, `replace(/\^(-?\d+)/g, '^{$1}')`. */
  function BraceIntegerExponents(s: string): string
    decreases |s|
  {
    if s == [] then []
    else if s[0] == '^' && SignedIntegerLength(s[1..]) > 0 then
      var n := SignedIntegerLength(s[1..]);
      "^{" + s[1..1 + n] + "}" + BraceIntegerExponents(s[1 + n..])
    else [s[0]] + BraceIntegerExponents(s[1..])
  }

  /** Line 40, `replace(/\^(-?[^}]+)/g, '^{$1}')`. Since `-` is itself
      outside `}`, the capture is the longest run of characters other than
      `}` after the `^`, whatever its sign. */
  function BraceExponentRuns(s: string): string
    decreases |s|
  {
    if s == [] then []
    else if s[0] == '^' && SpanLength(s[1..], NotCloseBrace) > 0 then
      var n := SpanLength(s[1..], NotCloseBrace);
      "^{" + s[1..1 + n] + "}" + BraceExponentRuns(s[1 + n..])
    else [s[0]] + BraceExponentRuns(s[1..])
  }

  /** Lines 38-40 in order. */
  function BraceExponents(s: string): string {
    BraceExponentRuns(BraceIntegerExponents(BraceWordExponents(s)))
  }

  /** Bracing an exponent adds nothing but the two braces. */
  lemma UnbracedBraced(t: string)
    ensures Unbraced("^{" + t + "}") == ['^'] + Unbraced(t)
  {
    var closed := t + ['}'];
    UnbracedAppend(t, ['}']);
    assert Unbraced(['}']) == [] by {
      assert ['}'][1..] == [];
    }
    var withOpen := ['{'] + closed;
    assert withOpen[1..] == closed;
    var braced := ['^'] + withOpen;
    assert braced[1..] == withOpen;
    assert "^{" + t + "}" == braced;
  }

  /** Bracing the exponent `s[1..1 + n]` of the `^` that starts `s`, before
      a rewritten rest with the same unbraced text, keeps the unbraced text. */
  lemma BracedStep(s: string, n: nat, rest: string)
    requires 1 + n <= |s| && s[0] == '^'
    requires Unbraced(rest) == Unbraced(s[1 + n..])
    ensures Unbraced("^{" + s[1..1 + n] + "}" + rest) == Unbraced(s)
  {
    var exponent := s[1..1 + n];
    BracedExponent(exponent, s[1 + n..], rest);
    assert exponent + s[1 + n..] == s[1..];
    assert Unbraced(s) == [s[0]] + Unbraced(s[1..]);
    assert [s[0]] == ['^'];
  }

  /** The unbraced text of a braced exponent before `rest` is that of the
      exponent before any `tail` with the same unbraced text. */
  lemma BracedExponent(exponent: string, tail: string, rest: string)
    requires Unbraced(rest) == Unbraced(tail)
    ensures Unbraced("^{" + exponent + "}" + rest) == ['^'] + Unbraced(exponent + tail)
  {
    UnbracedAppend("^{" + exponent + "}", rest);
    UnbracedBraced(exponent);
    UnbracedAppend(exponent, tail);
    ConcatAssociative(['^'], Unbraced(exponent), Unbraced(tail));
  }

  lemma ConcatAssociative(a: string, b: string, c: string)
    ensures (a + b) + c == a + (b + c)
  {
  }

  /** Line 38 only inserts braces ... */
  lemma {:induction false} BraceWordExponentsOnlyBraces(s: string)
    ensures Unbraced(BraceWordExponents(s)) == Unbraced(s)
    decreases |s|
  {
    if |s| >= 2 && s[0] == '^' && IsWordChar(s[1]) {
      BraceWordExponentsOnlyBraces(s[2..]);
      assert s[1..2] == [s[1]];
      BracedStep(s, 1, BraceWordExponents(s[2..]));
    } else if s != [] {
      BraceWordExponentsOnlyBraces(s[1..]);
    }
  }

  /** ... and leaves no `^` directly in front of a word character. */
  lemma {:induction false} BraceWordExponentsBracesAll(s: string)
    ensures NoBareWordExponent(BraceWordExponents(s))
    decreases |s|
  {
    if |s| >= 2 && s[0] == '^' && IsWordChar(s[1]) {
      BraceWordExponentsBracesAll(s[2..]);
      var rest := BraceWordExponents(s[2..]);
      var r := "^{" + [s[1]] + "}" + rest;
      forall i | 0 <= i < |r| - 1 && r[i] == '^'
        ensures !IsWordChar(r[i + 1])
      {
        if i >= 4 {
          assert r[i] == rest[i - 4] && r[i + 1] == rest[i - 3];
        }
      }
    } else if s != [] {
      BraceWordExponentsBracesAll(s[1..]);
      var rest := BraceWordExponents(s[1..]);
      var r := [s[0]] + rest;
      forall i | 0 <= i < |r| - 1 && r[i] == '^'
        ensures !IsWordChar(r[i + 1])
      {
        if i >= 1 {
          assert r[i] == rest[i - 1] && r[i + 1] == rest[i];
        }
      }
    }
  }

  /** A match of line 38 is two characters long and cannot start at the
      last character of `a` unless `t` begins with a word character, so the
      scan over `a + t` reaches the start of `t` exactly. */
  lemma {:induction false} BraceWordExponentsAppend(a: string, t: string)
    requires t == [] || !IsWordChar(t[0])
    ensures BraceWordExponents(a + t) == BraceWordExponents(a) + BraceWordExponents(t)
    decreases |a|
  {
    if a == [] {
      assert a + t == t;
    } else if |a| >= 2 && a[0] == '^' && IsWordChar(a[1]) {
      assert (a + t)[2..] == a[2..] + t;
      BraceWordExponentsAppend(a[2..], t);
    } else {
      assert (a + t)[1..] == a[1..] + t;
      BraceWordExponentsAppend(a[1..], t);
    }
  }

  /** Each `^` followed by a word character `c` becomes `^{c}`: exactly that
      one character is braced, wherever it stands. */
  lemma BraceWordExponentsAt(a: string, c: char, b: string)
    requires IsWordChar(c)
    ensures BraceWordExponents(a + ['^', c] + b) == BraceWordExponents(a) + "^{" + [c] + "}" + BraceWordExponents(b)
  {
    var t := ['^', c] + b;
    assert a + ['^', c] + b == a + t;
    BraceWordExponentsAppend(a, t);
    assert t[2..] == b && t[0] == '^' && t[1] == c;
    assert BraceWordExponents(t) == "^{" + [c] + "}" + BraceWordExponents(b);
  }

  lemma {:induction false} BraceIntegerExponentsOnlyBraces(s: string)
    ensures Unbraced(BraceIntegerExponents(s)) == Unbraced(s)
    decreases |s|
  {
    if s == [] {
    } else if s[0] == '^' && SignedIntegerLength(s[1..]) > 0 {
      var n := SignedIntegerLength(s[1..]);
      BraceIntegerExponentsOnlyBraces(s[1 + n..]);
      BracedStep(s, n, BraceIntegerExponents(s[1 + n..]));
    } else {
      BraceIntegerExponentsOnlyBraces(s[1..]);
    }
  }

  lemma {:induction false} BraceExponentRunsOnlyBraces(s: string)
    ensures Unbraced(BraceExponentRuns(s)) == Unbraced(s)
    decreases |s|
  {
    if s == [] {
    } else if s[0] == '^' && SpanLength(s[1..], NotCloseBrace) > 0 {
      var n := SpanLength(s[1..], NotCloseBrace);
      BraceExponentRunsOnlyBraces(s[1 + n..]);
      BracedStep(s, n, BraceExponentRuns(s[1 + n..]));
    } else {
      BraceExponentRunsOnlyBraces(s[1..]);
    }
  }

  /** The three exponent rewrites together insert braces and change nothing
      else. */
  lemma BraceExponentsOnlyBraces(s: string)
    ensures Unbraced(BraceExponents(s)) == Unbraced(s)
  {
    BraceWordExponentsOnlyBraces(s);
    BraceIntegerExponentsOnlyBraces(BraceWordExponents(s));
    BraceExponentRunsOnlyBraces(BraceIntegerExponents(BraceWordExponents(s)));
  }

  // ---------------------------------------------------------------------
  // Products and powers (lines 41-42)
  // ---------------------------------------------------------------------

  /** Line 41 turns `**` into `^`, then line 42 turns every remaining `*`
      into `\cdot `. */
  function StarsToLatex(s: string): string {
    ReplaceAll(ReplaceAll(s, "**", "^"), "*", "\\cdot ")
  }

  /** No `*` survives line 42. */
  lemma StarsToLatexStarFree(s: string)
    ensures '*' !in StarsToLatex(s)
  {
    if '*' in StarsToLatex(s) {
      ReplaceAllChars(ReplaceAll(s, "**", "^"), "*", "\\cdot ", '*');
    }
  }

  /** No `**` starts at a character other than `*`. */
  lemma NoPowerAt(s: string, i: int)
    requires 0 <= i < |s| && s[i] != '*'
    ensures !OccursAt(s, "**", i)
  {
    if i + 2 <= |s| {
      assert s[i..i + 2][0] == s[i];
    }
  }

  /** A `**` that does not continue an earlier star becomes exactly one `^`
      and never a pair of `\cdot`: line 41 runs before line 42. */
  lemma {:induction false} PowerBeforeProduct(a: string, b: string)
    requires a == [] || a[|a| - 1] != '*'
    ensures StarsToLatex(a + "**" + b) == StarsToLatex(a) + "^" + StarsToLatex(b)
  {
    var pow := ReplaceAll(a + "**" + b, "**", "^");
    assert NoOccurrenceAcross(a, "**" + b, "**") by {
      forall i | 0 <= i < |a| < i + 2
        ensures !OccursAt(a + ("**" + b), "**", i)
      {
        assert i == |a| - 1 && (a + ("**" + b))[i] == a[|a| - 1];
        NoPowerAt(a + ("**" + b), i);
      }
    }
    ReplaceAllAt(a, b, "**", "^");
    assert pow == ReplaceAll(a, "**", "^") + "^" + ReplaceAll(b, "**", "^");
    var pa, pb := ReplaceAll(a, "**", "^"), ReplaceAll(b, "**", "^");
    ReplaceAllAppend(pa + "^", pb, "*", "\\cdot ");
    ReplaceAllAppend(pa, "^", "*", "\\cdot ");
    assert ReplaceAll("^", "*", "\\cdot ") == "^";
  }

  // ---------------------------------------------------------------------
  // Function names (lines 43-48)
  // ---------------------------------------------------------------------

  /** Lines 43-48: `sqrt(` becomes `\sqrt{`; `sin(`, `cos(`, `tan(`,
      `log(` and `ln(` each gain a leading backslash. */
  function FunctionNamesToLatex(s: string): string {
    var t := ReplaceAll(s, "sqrt(", "\\sqrt{");
    var t := ReplaceAll(t, "sin(", "\\sin(");
    var t := ReplaceAll(t, "cos(", "\\cos(");
    var t := ReplaceAll(t, "tan(", "\\tan(");
    var t := ReplaceAll(t, "log(", "\\log(");
    ReplaceAll(t, "ln(", "\\ln(")
  }

  /** The renaming inserts no character outside the names and `\`, `{`. */
  lemma FunctionNamesToLatexChars(s: string, c: char)
    requires c in FunctionNamesToLatex(s)
    ensures c in s || c in "\\sqrt{sincotalgn("
  {
    var t1 := ReplaceAll(s, "sqrt(", "\\sqrt{");
    var t2 := ReplaceAll(t1, "sin(", "\\sin(");
    var t3 := ReplaceAll(t2, "cos(", "\\cos(");
    var t4 := ReplaceAll(t3, "tan(", "\\tan(");
    var t5 := ReplaceAll(t4, "log(", "\\log(");
    ReplaceAllChars(t5, "ln(", "\\ln(", c);
    if c in t5 { ReplaceAllChars(t4, "log(", "\\log(", c); }
    if c in t4 { ReplaceAllChars(t3, "tan(", "\\tan(", c); }
    if c in t3 { ReplaceAllChars(t2, "cos(", "\\cos(", c); }
    if c in t2 { ReplaceAllChars(t1, "sin(", "\\sin(", c); }
    if c in t1 { ReplaceAllChars(s, "sqrt(", "\\sqrt{", c); }
  }

  /** `sqrt(` opens a brace but its closing `)` is left as it is: line 43
      changes the number of `)` by nothing. */
  lemma SqrtKeepsCloseParen(s: string)
    ensures CountChar(ReplaceAll(s, "sqrt(", "\\sqrt{"), ')') == CountChar(s, ')')
  {
    ReplaceAllKeepsCount(s, "sqrt(", "\\sqrt{", ')');
  }

  // ---------------------------------------------------------------------
  // exp (line 51)
  // ---------------------------------------------------------------------

  /** Line 51, `replace(/exp\(([^)]+)\)/g, 'e^{$1}')`: `exp(` followed by a
      non-empty argument without `)` and then `)` becomes `e^{argument}`. */
  function ExpToPower(s: string): string
    decreases |s|
  {
    if s == [] then []
    else if StartsWith(s, "exp(") && 0 < SpanLength(s[4..], NotCloseParen) < |s| - 4 then
      var n := SpanLength(s[4..], NotCloseParen);
      "e^{" + s[4..4 + n] + "}" + ExpToPower(s[5 + n..])
    else [s[0]] + ExpToPower(s[1..])
  }

  lemma {:induction false} ExpToPowerChars(s: string, c: char)
    requires c in ExpToPower(s)
    ensures c in s || c in "e^{}"
    decreases |s|
  {
    if s == [] {
    } else if StartsWith(s, "exp(") && 0 < SpanLength(s[4..], NotCloseParen) < |s| - 4 {
      var n := SpanLength(s[4..], NotCloseParen);
      if c in s[4..4 + n] {
        assert s[4..4 + n] == s[4..][..n];
      } else if c in ExpToPower(s[5 + n..]) {
        ExpToPowerChars(s[5 + n..], c);
      }
    } else if c != s[0] {
      ExpToPowerChars(s[1..], c);
    }
  }

  /** `exp(argument)` with a non-empty, `)`-free argument becomes
      `e^{argument}`, and the rewriting goes on after its `)`. */
  lemma ExpRewritten(arg: string, rest: string)
    requires arg != [] && ')' !in arg
    ensures ExpToPower("exp(" + arg + ")" + rest) == "e^{" + arg + "}" + ExpToPower(rest)
  {
    var s := "exp(" + arg + ")" + rest;
    assert s[4..] == arg + ")" + rest;
    var n := SpanLength(s[4..], NotCloseParen);
    assert s[4..][|arg|] == ')';
    assert n == |arg|;
    assert StartsWith(s, "exp(");
    assert s[4..4 + n] == arg;
    assert s[5 + n..] == rest;
  }

  // ---------------------------------------------------------------------
  // The whole formatter
  // ---------------------------------------------------------------------

  /** `formatExpression`: the empty string gives the empty string, any other
      expression goes through lines 38-51 in order. */
  function FormatExpression(expression: string): (latex: string)
    ensures expression == [] ==> latex == []
    ensures '*' !in latex
  {
    if expression == [] then []
    else
      FormatPipelineStarFree(expression);
      ExpToPower(FunctionNamesToLatex(StarsToLatex(BraceExponents(expression))))
  }

  /** Lines 38-51 leave no `*`: line 42 removes every one and the later
      lines insert none. */
  lemma FormatPipelineStarFree(expression: string)
    ensures '*' !in ExpToPower(FunctionNamesToLatex(StarsToLatex(BraceExponents(expression))))
  {
    var stars := StarsToLatex(BraceExponents(expression));
    StarsToLatexStarFree(BraceExponents(expression));
    var named := FunctionNamesToLatex(stars);
    if '*' in named {
      FunctionNamesToLatexChars(stars, '*');
    }
    if '*' in ExpToPower(named) {
      ExpToPowerChars(named, '*');
    }
  }

  /** `createDefiniteIntegral`: the template `\int_{lower}^{upper} f \, dx`
      around the formatted function. `numberText` is JavaScript's conversion
      of a number to its decimal text. */
  function CreateDefiniteIntegral(functionExpr: string, lowerLimit: real, upperLimit: real,
                                  numberText: real -> string): (latex: string)
    ensures StartsWith(latex, "\\int_{" + numberText(lowerLimit) + "}^{" + numberText(upperLimit) + "} ")
    ensures EndsWith(latex, FormatExpression(functionExpr) + " \\, dx")
    ensures |latex| == |"\\int_{" + numberText(lowerLimit) + "}^{" + numberText(upperLimit) + "} "|
                       + |FormatExpression(functionExpr)| + |" \\, dx"|
  {
    var prefix := "\\int_{" + numberText(lowerLimit) + "}^{" + numberText(upperLimit) + "} ";
    var formatted := FormatExpression(functionExpr);
    Framed(prefix, formatted, " \\, dx");
    prefix + formatted + " \\, dx"
  }

  /** Neither the template nor the formatter writes a `*`. */
  lemma CreateDefiniteIntegralStarFree(functionExpr: string, lowerLimit: real, upperLimit: real,
                                       numberText: real -> string)
    requires '*' !in numberText(lowerLimit) && '*' !in numberText(upperLimit)
    ensures '*' !in CreateDefiniteIntegral(functionExpr, lowerLimit, upperLimit, numberText)
  {
    var prefix := "\\int_{" + numberText(lowerLimit) + "}^{" + numberText(upperLimit) + "} ";
    var formatted := FormatExpression(functionExpr);
    assert '*' !in prefix && '*' !in formatted && '*' !in " \\, dx";
    assert CreateDefiniteIntegral(functionExpr, lowerLimit, upperLimit, numberText)
        == prefix + formatted + " \\, dx";
  }

  // ---------------------------------------------------------------------
  // Worked inputs
  // ---------------------------------------------------------------------

  lemma {:induction false} BraceExponentsWithoutCaret(s: string)
    requires '^' !in s
    ensures BraceExponents(s) == s
  {
    BraceWordExponentsWithoutCaret(s);
    BraceIntegerExponentsWithoutCaret(s);
    BraceExponentRunsWithoutCaret(s);
  }

  lemma {:induction false} BraceWordExponentsWithoutCaret(s: string)
    requires '^' !in s
    ensures BraceWordExponents(s) == s
    decreases |s|
  {
    if s != [] { BraceWordExponentsWithoutCaret(s[1..]); }
  }

  lemma {:induction false} BraceIntegerExponentsWithoutCaret(s: string)
    requires '^' !in s
    ensures BraceIntegerExponents(s) == s
    decreases |s|
  {
    if s != [] { BraceIntegerExponentsWithoutCaret(s[1..]); }
  }

  lemma {:induction false} BraceExponentRunsWithoutCaret(s: string)
    requires '^' !in s
    ensures BraceExponentRuns(s) == s
    decreases |s|
  {
    if s != [] { BraceExponentRunsWithoutCaret(s[1..]); }
  }

  lemma {:induction false} ExpToPowerWithoutE(s: string)
    requires 'e' !in s
    ensures ExpToPower(s) == s
    decreases |s|
  {
    if s != [] {
      assert s[0] != 'e';
      assert !StartsWith(s, "exp(") by {
        if |s| >= 4 {
          assert s[..4][0] == s[0];
        }
      }
      ExpToPowerWithoutE(s[1..]);
      assert s == [s[0]] + s[1..];
    }
  }

  /** Lines 43-48 leave a text without `(` unchanged. */
  lemma FunctionNamesWithoutParen(s: string)
    requires '(' !in s
    ensures FunctionNamesToLatex(s) == s
  {
    ReplaceAllAbsent(s, "sqrt(", "\\sqrt{", '(');
    ReplaceAllAbsent(s, "sin(", "\\sin(", '(');
    ReplaceAllAbsent(s, "cos(", "\\cos(", '(');
    ReplaceAllAbsent(s, "tan(", "\\tan(", '(');
    ReplaceAllAbsent(s, "log(", "\\log(", '(');
    ReplaceAllAbsent(s, "ln(", "\\ln(", '(');
  }

  lemma StarsToLatexWithoutStar(s: string)
    requires '*' !in s
    ensures StarsToLatex(s) == s
  {
    ReplaceAllAbsent(s, "**", "^", '*');
    ReplaceAllAbsent(s, "*", "\\cdot ", '*');
  }

  lemma SquareWordBraced(s: string)
    requires s == "x^2"
    ensures BraceWordExponents(s) == "x^{2}"
  {
    assert s[1..] == "^2";
    assert BraceWordExponents("^2") == "^{2}" by {
      assert "^2"[2..] == [];
    }
  }

  lemma SquareNoInteger(s: string)
    requires s == "x^{2}"
    ensures BraceIntegerExponents(s) == s
  {
    assert BraceIntegerExponents("}") == "}" by {
      assert "}"[1..] == [];
    }
    assert BraceIntegerExponents("2}") == "2}" by {
      assert "2}"[1..] == "}";
    }
    assert BraceIntegerExponents("{2}") == "{2}" by {
      assert "{2}"[1..] == "2}";
    }
    assert BraceIntegerExponents("^{2}") == "^{2}" by {
      assert SignedIntegerLength("{2}") == 0;
      assert "^{2}"[1..] == "{2}";
    }
    assert s[1..] == "^{2}";
    assert s == [s[0]] + s[1..];
  }

  lemma SquareRunBraced(s: string)
    requires s == "x^{2}"
    ensures BraceExponentRuns(s) == "x^{{2}}"
  {
    assert BraceExponentRuns("}") == "}" by {
      assert "}"[1..] == [];
    }
    assert BraceExponentRuns("^{2}") == "^{{2}}" by {
      var t := "^{2}";
      assert t[1..] == "{2}";
      assert SpanLength("{2}", NotCloseBrace) == 2 by {
        assert "{2}"[1..] == "2}";
        assert "2}"[1..] == "}";
      }
      assert t[1..3] == "{2";
      assert t[3..] == "}";
    }
    assert s[1..] == "^{2}";
    assert s == [s[0]] + s[1..];
  }

  lemma SquareBraced(s: string)
    requires s == "x^2"
    ensures BraceExponents(s) == "x^{{2}}"
  {
    SquareWordBraced(s);
    SquareNoInteger(BraceWordExponents(s));
    SquareRunBraced(BraceIntegerExponents(BraceWordExponents(s)));
  }

  /** Line 38 leaves `x^-1` alone: `-` is not a word character. */
  lemma NegativeWordUnchanged(s: string)
    requires s == "x^-1"
    ensures BraceWordExponents(s) == s
  {
    assert BraceWordExponents("1") == "1" by {
      assert "1"[1..] == [];
    }
    assert BraceWordExponents("-1") == "-1" by {
      assert "-1"[1..] == "1";
    }
    assert BraceWordExponents("^-1") == "^-1" by {
      assert !IsWordChar('-');
      assert "^-1"[1..] == "-1";
    }
    assert s[1..] == "^-1";
    assert s == [s[0]] + s[1..];
  }

  /** Line 39 braces the signed integer: `x^-1` becomes `x^{-1}`. */
  lemma NegativeIntegerBraced(s: string)
    requires s == "x^-1"
    ensures BraceIntegerExponents(s) == "x^{-1}"
  {
    assert BraceIntegerExponents("^-1") == "^{-1}" by {
      var t := "^-1";
      assert SignedIntegerLength("-1") == 2 by {
        assert "-1"[1..] == "1";
        assert SpanLength("1", IsDigit) == 1 by {
          assert "1"[1..] == [];
        }
      }
      assert t[1..] == "-1" && t[1..3] == "-1" && t[3..] == [];
    }
    assert s[1..] == "^-1";
    assert s == [s[0]] + s[1..];
  }

  /** Line 40 braces the run `{-1` again: `x^{-1}` becomes `x^{{-1}}`. */
  lemma NegativeRunBraced(s: string)
    requires s == "x^{-1}"
    ensures BraceExponentRuns(s) == "x^{{-1}}"
  {
    NegativeRunHead(s[1..]);
    assert s[1..] == "^{-1}";
    assert s == [s[0]] + s[1..];
  }

  lemma NegativeRunHead(t: string)
    requires t == "^{-1}"
    ensures BraceExponentRuns(t) == "^{{-1}}"
  {
    assert BraceExponentRuns("}") == "}" by {
      assert "}"[1..] == [];
    }
    NegativeRunLength(t[1..]);
    assert t[1..4] == "{-1";
    assert t[4..] == "}";
  }

  lemma NegativeRunLength(u: string)
    requires u == "{-1}"
    ensures SpanLength(u, NotCloseBrace) == 3
  {
    assert SpanLength("}", NotCloseBrace) == 0;
    assert SpanLength("1}", NotCloseBrace) == 1 by {
      assert "1}"[1..] == "}";
    }
    assert SpanLength("-1}", NotCloseBrace) == 2 by {
      assert "-1}"[1..] == "1}";
    }
    assert u[1..] == "-1}";
  }

  lemma NegativeBraced(s: string)
    requires s == "x^-1"
    ensures BraceExponents(s) == "x^{{-1}}"
  {
    NegativeWordUnchanged(s);
    NegativeIntegerBraced(s);
    NegativeRunBraced("x^{-1}");
  }

  /** A negative exponent is braced by line 39 and again by line 40. */
  lemma FormatNegativeExponent(s: string)
    requires s == "x^-1"
    ensures FormatExpression(s) == "x^{{-1}}"
  {
    var braced := "x^{{-1}}";
    NegativeBraced(s);
    StarsToLatexWithoutStar(braced);
    FunctionNamesWithoutParen(braced);
    ExpToPowerWithoutE(braced);
  }

  /** `x^2` is braced twice: line 38 gives `x^{2}` and line 40 then braces
      the run `{2` after the `^`. */
  lemma FormatSquare(s: string)
    requires s == "x^2"
    ensures FormatExpression(s) == "x^{{2}}"
  {
    var braced := "x^{{2}}";
    SquareBraced(s);
    StarsToLatexWithoutStar(braced);
    FunctionNamesWithoutParen(braced);
    ExpToPowerWithoutE(braced);
  }

  lemma DoubleStarToCaret(s: string)
    requires s == "x**2"
    ensures StarsToLatex(s) == "x^2"
  {
    PowerBeforeProduct("x", "2");
    assert "x" + "**" + "2" == s;
    StarsToLatexWithoutStar("x");
    StarsToLatexWithoutStar("2");
  }

  /** Only the first digit of `x^23` is braced by line 38. */
  lemma WordExponentFirstDigitOnly(s: string)
    requires s == "x^23"
    ensures BraceWordExponents(s) == "x^{2}3"
  {
    BraceWordExponentsAt("x", '2', "3");
    assert "x" + ['^', '2'] + "3" == s;
    BraceWordExponentsWithoutCaret("x");
    BraceWordExponentsWithoutCaret("3");
  }

  /** `x**2` reaches line 41 unbraced and leaves as `x^2`. */
  lemma FormatDoubleStar(s: string)
    requires s == "x**2"
    ensures FormatExpression(s) == "x^2"
  {
    BraceExponentsWithoutCaret(s);
    DoubleStarToCaret(s);
    FunctionNamesWithoutParen("x^2");
    ExpToPowerWithoutE("x^2");
  }

  /** `sqrt(x)` opens a brace that nothing closes. */
  /** Line 43 turns `sqrt(x)` into `\sqrt{x)`; lines 44-48 find no `(` left. */
  lemma SqrtRenamed(s: string)
    requires s == "sqrt(x)"
    ensures FunctionNamesToLatex(s) == "\\sqrt{x)"
  {
    var t := "\\sqrt{x)";
    assert ReplaceAll(s, "sqrt(", "\\sqrt{") == t by {
      ReplaceAllAt([], "x)", "sqrt(", "\\sqrt{");
      assert [] + "sqrt(" + "x)" == s;
      ReplaceAllAbsent("x)", "sqrt(", "\\sqrt{", 's');
    }
    ReplaceAllAbsent(t, "sin(", "\\sin(", '(');
    ReplaceAllAbsent(t, "cos(", "\\cos(", '(');
    ReplaceAllAbsent(t, "tan(", "\\tan(", '(');
    ReplaceAllAbsent(t, "log(", "\\log(", '(');
    ReplaceAllAbsent(t, "ln(", "\\ln(", '(');
  }

  lemma FormatSqrt(s: string)
    requires s == "sqrt(x)"
    ensures FormatExpression(s) == "\\sqrt{x)"
  {
    BraceExponentsWithoutCaret(s);
    StarsToLatexWithoutStar(s);
    SqrtRenamed(s);
    ExpToPowerWithoutE("\\sqrt{x)");
  }

  lemma SinePrefixed(s: string)
    requires s == "sin(x)"
    ensures ReplaceAll(s, "sin(", "\\sin(") == "\\sin(x)"
  {
    ReplaceAllAt([], "x)", "sin(", "\\sin(");
    assert [] + "sin(" + "x)" == s;
    ReplaceAllAbsent("x)", "sin(", "\\sin(", 's');
  }

  /** Lines 44-48 without their `sin(` step leave a text unchanged that
      has no `c`, `t` or `l`. */
  lemma LaterNamesAbsent(t: string)
    requires 'c' !in t && 't' !in t && 'l' !in t
    ensures ReplaceAll(ReplaceAll(ReplaceAll(ReplaceAll(t, "cos(", "\\cos("), "tan(", "\\tan("),
                                  "log(", "\\log("), "ln(", "\\ln(") == t
  {
    ReplaceAllAbsent(t, "cos(", "\\cos(", 'c');
    ReplaceAllAbsent(t, "tan(", "\\tan(", 't');
    ReplaceAllAbsent(t, "log(", "\\log(", 'l');
    ReplaceAllAbsent(t, "ln(", "\\ln(", 'l');
  }

  lemma SineRenamed(s: string)
    requires s == "sin(x)"
    ensures FunctionNamesToLatex(s) == "\\sin(x)"
  {
    ReplaceAllAbsent(s, "sqrt(", "\\sqrt{", 'q');
    SinePrefixed(s);
    LaterNamesAbsent(ReplaceAll(s, "sin(", "\\sin("));
  }

  /** `sin(x)` gains a backslash. */
  lemma FormatSine(s: string)
    requires s == "sin(x)"
    ensures FormatExpression(s) == "\\sin(x)"
  {
    BraceExponentsWithoutCaret(s);
    StarsToLatexWithoutStar(s);
    SineRenamed(s);
    ExpToPowerWithoutE("\\sin(x)");
  }

  /** None of the names of lines 43-48 occurs in `exp(x)`. */
  lemma ExpNamesUnchanged(s: string)
    requires s == "exp(x)"
    ensures FunctionNamesToLatex(s) == s
  {
    assert 's' !in s && 'c' !in s && 't' !in s && 'l' !in s;
    ReplaceAllAbsent(s, "sqrt(", "\\sqrt{", 's');
    ReplaceAllAbsent(s, "sin(", "\\sin(", 's');
    ReplaceAllAbsent(s, "cos(", "\\cos(", 'c');
    ReplaceAllAbsent(s, "tan(", "\\tan(", 't');
    ReplaceAllAbsent(s, "log(", "\\log(", 'l');
    ReplaceAllAbsent(s, "ln(", "\\ln(", 'l');
  }

  /** Line 51 turns `exp(x)` into `e^{x}`. */
  lemma ExpPowered(s: string)
    requires s == "exp(x)"
    ensures ExpToPower(s) == "e^{x}"
  {
    ExpRewritten("x", []);
    assert "exp(" + "x" + ")" + [] == s;
    assert ExpToPower([]) == [];
  }

  /** `exp(x)` becomes `e^{x}`. */
  lemma FormatExp(s: string)
    requires s == "exp(x)"
    ensures FormatExpression(s) == "e^{x}"
  {
    BraceExponentsWithoutCaret(s);
    StarsToLatexWithoutStar(s);
    ExpNamesUnchanged(s);
    ExpPowered(s);
  }
}
