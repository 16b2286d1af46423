/** Lines of input worked through the model, for any numerals in place of
    the digits: what `tokenize` gives them, the stack they leave and what
    they print. */
module Scenarios {
  import opened Wrappers
  import opened Stack
  import opened Tokenizer
  import opened Operators
  import opened Calculator

  /** A non-empty string of decimal digits, a word of `\d+`. */
  predicate IsNumeral(d: string) {
    |d| > 0 && forall j | 0 <= j < |d| :: IsDigit(d[j])
  }

  /** The value of a numeral as a real. */
  function ValueOf(d: string): real
    requires IsNumeral(d)
  {
    DigitsValue(d) as real
  }

  /** A line that is a numeral and nothing else: one number token. */
  lemma NumeralLine(d: string)
    requires IsNumeral(d)
    ensures Tokens(d) == Success([NumberToken(ValueOf(d))])
  {
    ParseDigits(d);
    TokensOfNumberWord(d);
  }

  /** "-4": a minus sign glued to a numeral is part of the number. */
  lemma NegativeNumeralLine(d: string)
    requires IsNumeral(d)
    ensures Tokens("-" + d) == Success([NumberToken(-ValueOf(d))])
  {
    ParseNegatedDigits(d);
    assert ("-" + d)[1] == d[0];
    TokensOfNumberWord("-" + d);
  }

  /** "--5": the pattern takes both minus signs into the number, and
      `toDouble` throws on the lexeme. */
  lemma DoubleMinusLine(d: string)
    requires IsNumeral(d)
    ensures Tokens("--" + d) == Failure(NumberFormatError("--" + d))
  {
    var t := "--" + d;
    assert t[2..] == d;
    assert AllMinus(t, 0, 2) && AllDigits(t, 2, |t|);
    assert IsNumberWord(t);
    TokensOfNumberWord(t);
  }

  /** Two lines that tokenize, joined by a space: their tokens in order. */
  lemma JoinLines(a: string, b: string, ta: seq<Token>, tb: seq<Token>)
    requires Tokens(a) == Success(ta) && Tokens(b) == Success(tb)
    ensures Tokens(a + " " + b) == Success(ta + tb)
  {
    TokensOfSeparated(a, b);
  }

  /** "3 4 +": two numerals and an operator symbol, separated by spaces,
      give two numbers and the operator, in line order. */
  lemma BinaryLine(a: string, b: string, op: string)
    requires IsNumeral(a) && IsNumeral(b) && IsOperatorWord(op)
    ensures Tokens(a + " " + (b + " " + op)) ==
      Success([NumberToken(ValueOf(a)), NumberToken(ValueOf(b)), OperatorToken(op)])
  {
    NumeralLine(a);
    UnaryLine(b, op);
    JoinLines(a, b + " " + op, [NumberToken(ValueOf(a))], [NumberToken(ValueOf(b)), OperatorToken(op)]);
    assert [NumberToken(ValueOf(a))] + [NumberToken(ValueOf(b)), OperatorToken(op)] == [NumberToken(ValueOf(a)), NumberToken(ValueOf(b)), OperatorToken(op)];
  }

  /** "-4 +": a negative numeral and an operator symbol. */
  lemma NegativeUnaryLine(b: string, op: string)
    requires IsNumeral(b) && IsOperatorWord(op)
    ensures Tokens(("-" + b) + " " + op) == Success([NumberToken(-ValueOf(b)), OperatorToken(op)])
  {
    NegativeNumeralLine(b);
    TokensOfOperatorWord(op);
    JoinLines("-" + b, op, [NumberToken(-ValueOf(b))], [OperatorToken(op)]);
    assert [NumberToken(-ValueOf(b))] + [OperatorToken(op)] == [NumberToken(-ValueOf(b)), OperatorToken(op)];
  }

  /** "3 -4 +": the second operand is negative. */
  lemma NegativeOperandLine(a: string, b: string)
    requires IsNumeral(a) && IsNumeral(b)
    ensures Tokens(a + " " + (("-" + b) + " " + "+")) ==
      Success([NumberToken(ValueOf(a)), NumberToken(-ValueOf(b)), OperatorToken("+")])
  {
    NumeralLine(a);
    NegativeUnaryLine(b, "+");
    JoinLines(a, ("-" + b) + " " + "+", [NumberToken(ValueOf(a))], [NumberToken(-ValueOf(b)), OperatorToken("+")]);
    assert [NumberToken(ValueOf(a))] + [NumberToken(-ValueOf(b)), OperatorToken("+")] == [NumberToken(ValueOf(a)), NumberToken(-ValueOf(b)), OperatorToken("+")];
  }

  /** "3-4": no space is needed between two numbers, and the minus sign
      goes to the second one: two numbers, no subtraction. */
  lemma GluedMinusLine(a: string, b: string)
    requires IsNumeral(a) && IsNumeral(b)
    ensures Tokens(a + ("-" + b)) == Success([NumberToken(ValueOf(a)), NumberToken(-ValueOf(b))])
  {
    NumeralLine(a);
    NegativeNumeralLine(b);
    assert ("-" + b)[0] == '-';
    TokensAfterDigits(a, "-" + b);
    assert [NumberToken(ValueOf(a))] + [NumberToken(-ValueOf(b))] ==
      [NumberToken(ValueOf(a)), NumberToken(-ValueOf(b))];
  }

  /** "@ 3 4 +": a character neither alternative can start with is
      skipped without a token. */
  lemma UnknownCharacterSkipped(t: string)
    ensures Tokens("@") == Success([])
    ensures Tokens("@" + " " + t) == Tokens(t)
  {
    assert MinusEnd("@", 0) == 0 && DigitsEnd("@", 0) == 0;
    assert MatchAt("@", 0) == None;
    assert MatchesFrom("@", 1) == [];
    assert Matches("@") == [];
    TokensOfSeparated("@", t);
    if Tokens(t).Success? {
      assert [] + Tokens(t).value == Tokens(t).value;
    }
  }

  /** "sqrt": `sqr` is found inside a longer word, and the letter after it
      is skipped. */
  lemma SqrInsideWord()
    ensures Tokens("sqrt") == Success([OperatorToken("sqr")])
  {
    var s := "sqrt";
    assert MinusEnd(s, 0) == 0 && DigitsEnd(s, 0) == 0;
    assert OperatorEnd(s, 0) == Some(3) && s[0..3] == "sqr";
    assert MinusEnd(s, 3) == 3 && DigitsEnd(s, 3) == 3;
    assert MatchAt(s, 0) == Some(Match("sqr", "", "sqr", 0, 3));
    assert MatchAt(s, 3) == None;
    MatchesFromNone(s, 3);
    assert MatchesFrom(s, 0) == [Match("sqr", "", "sqr", 0, 3)] + MatchesFrom(s, 3);
    assert MatchesFrom(s, 4) == [];
    assert Matches(s) == [Match("sqr", "", "sqr", 0, 3)];
    TokensOfSingle(Match("sqr", "", "sqr", 0, 3));
  }

  /** Evaluating "y op" against a stack: the number is pushed, then the
      operator is applied. */
  lemma EvaluateUnary(s: seq<real>, y: real, op: string)
    ensures Run(s, [NumberToken(y), OperatorToken(op)]) == Apply(FromSymbol(op), s + [y])
    ensures Log(s, [NumberToken(y), OperatorToken(op)]) == StepLog(s + [y], OperatorToken(op))
  {
    var ts := [NumberToken(y), OperatorToken(op)];
    var last := [OperatorToken(op)];
    assert ts[1..] == last && last[1..] == [];
    assert Run(s, ts) == Run(s + [y], last);
    assert Run(s + [y], last) == Run(Step(s + [y], OperatorToken(op)), []);
    assert Log(s + [y], last) == StepLog(s + [y], OperatorToken(op)) + [];
  }

  /** Evaluating "x y op" against a stack: both numbers are pushed, then
      the operator is applied to them and what lies below. */
  lemma EvaluateBinary(s: seq<real>, x: real, y: real, op: string)
    ensures Run(s, [NumberToken(x), NumberToken(y), OperatorToken(op)]) == Apply(FromSymbol(op), s + [x, y])
    ensures Log(s, [NumberToken(x), NumberToken(y), OperatorToken(op)]) == StepLog(s + [x, y], OperatorToken(op))
  {
    var ts := [NumberToken(x), NumberToken(y), OperatorToken(op)];
    assert ts[1..] == [NumberToken(y), OperatorToken(op)];
    EvaluateUnary(s + [x], y, op);
    assert s + [x] + [y] == s + [x, y];
  }

  /** "3 4 +" on an empty stack leaves 7 and prints nothing. */
  lemma SumOnEmptyStack()
    ensures Run([], [NumberToken(3.0), NumberToken(4.0), OperatorToken("+")]) == [7.0]
    ensures Log([], [NumberToken(3.0), NumberToken(4.0), OperatorToken("+")]) == []
  {
    EvaluateBinary([], 3.0, 4.0, "+");
  }

  /** "5 0 /": the division by zero is reported, and both operands are gone
      from the stack. */
  lemma DivideByZeroOnEmptyStack()
    ensures Run([], [NumberToken(5.0), NumberToken(0.0), OperatorToken("/")]) == []
    ensures Log([], [NumberToken(5.0), NumberToken(0.0), OperatorToken("/")]) == [DivisionByZero]
  {
    EvaluateBinary([], 5.0, 0.0, "/");
  }

  /** "5 sqr" on an empty stack leaves 25 and prints nothing. */
  lemma SquareOnEmptyStack()
    ensures Run([], [NumberToken(5.0), OperatorToken("sqr")]) == [25.0]
    ensures Log([], [NumberToken(5.0), OperatorToken("sqr")]) == []
  {
    EvaluateUnary([], 5.0, "sqr");
  }

  /** "+" on an empty stack: a stack error is reported, the stack stays
      empty and the line evaluates to "null". */
  lemma AddOnEmptyStack()
    ensures Tokens("+") == Success([OperatorToken("+")])
    ensures Run([], [OperatorToken("+")]) == []
    ensures Log([], [OperatorToken("+")]) == [StackError]
    ensures Top(Run([], [OperatorToken("+")])) == None
  {
    TokensOfOperatorWord("+");
  }

  /** "y op": a numeral and an operator symbol. */
  lemma UnaryLine(b: string, op: string)
    requires IsNumeral(b) && IsOperatorWord(op)
    ensures Tokens(b + " " + op) == Success([NumberToken(ValueOf(b)), OperatorToken(op)])
  {
    NumeralLine(b);
    TokensOfOperatorWord(op);
    JoinLines(b, op, [NumberToken(ValueOf(b))], [OperatorToken(op)]);
    assert [NumberToken(ValueOf(b))] + [OperatorToken(op)] == [NumberToken(ValueOf(b)), OperatorToken(op)];
  }

  /** A numeral line on an empty stack leaves its value. */
  lemma NumeralOnEmptyStack(a: string)
    requires IsNumeral(a)
    ensures Tokens(a).Success? && Run([], Tokens(a).value) == [ValueOf(a)]
  {
    NumeralLine(a);
    var ts := [NumberToken(ValueOf(a))];
    assert ts[1..] == [];
  }

  /** "y +" on a stack holding `x` alone leaves `x + y`. */
  lemma AddLineOnStack(x: real, b: string)
    requires IsNumeral(b)
    ensures Tokens(b + " " + "+").Success? &&
      Run([x], Tokens(b + " " + "+").value) == [x + ValueOf(b)]
  {
    UnaryLine(b, "+");
    SumOnStack(x, ValueOf(b));
  }

  /** "y +" as tokens, on a stack holding `x` alone. */
  lemma SumOnStack(x: real, y: real)
    ensures Run([x], [NumberToken(y), OperatorToken("+")]) == [x + y]
  {
    EvaluateUnary([x], y, "+");
  }

  /** A numeral line evaluated on a calculator whose stack is empty. */
  method EvaluateNumeral(calculator: RpnCalculator, a: string) returns (r: Result<Option<real>, NumberFormatError>)
    requires IsNumeral(a) && calculator.stack.items == []
    modifies calculator.stack
    ensures r == Success(Some(ValueOf(a))) && calculator.stack.items == [ValueOf(a)]
  {
    NumeralOnEmptyStack(a);
    var log;
    r, log := calculator.EvaluateInput(a);
  }

  /** A "y +" line evaluated on a calculator whose stack holds `x` alone. */
  method EvaluateAddLine(calculator: RpnCalculator, x: real, b: string) returns (r: Result<Option<real>, NumberFormatError>)
    requires IsNumeral(b) && calculator.stack.items == [x]
    modifies calculator.stack
    ensures r == Success(Some(x + ValueOf(b)))
  {
    AddLineOnStack(x, b);
    var log;
    r, log := calculator.EvaluateInput(b + " " + "+");
  }

  /** A numeral and then "y +" on one calculator: the second line finds
      the number the first one left on the stack. */
  method TwoLines(a: string, b: string) returns (first: Result<Option<real>, NumberFormatError>, second: Result<Option<real>, NumberFormatError>)
    requires IsNumeral(a) && IsNumeral(b)
    ensures first == Success(Some(ValueOf(a)))
    ensures second == Success(Some(ValueOf(a) + ValueOf(b)))
  {
    var calculator := new RpnCalculator();
    first := EvaluateNumeral(calculator, a);
    second := EvaluateAddLine(calculator, ValueOf(a), b);
  }
}
