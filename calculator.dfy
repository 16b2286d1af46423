/** The evaluator `RPNCalculator`: a private operand stack that lives as long
    as the calculator, and `evaluateInput`, which tokenizes a line, pushes
    its numbers, applies its operators and reports the top of the stack. */
module Calculator {
  import opened Wrappers
  import opened Stack
  import opened Tokenizer
  import opened Operators

  /** The stack after one token: a number is pushed, an operator symbol is
      looked up and applied, an invalid token is ignored. */
  function Step(s: seq<real>, t: Token): seq<real> {
    match t
    case NumberToken(v) => s + [v]
    case OperatorToken(sym) => Apply(FromSymbol(sym), s)
    case InvalidToken(_) => s
  }

  /** What one token prints: only an operator can report. */
  function StepLog(s: seq<real>, t: Token): seq<Diagnostic> {
    match t
    case OperatorToken(sym) =>
      (match Diagnose(FromSymbol(sym), s)
       case Some(d) => [d]
       case None => [])
    case _ => []
  }

  /** The stack after the tokens, first to last. */
  function Run(s: seq<real>, ts: seq<Token>): seq<real>
    decreases |ts|
  {
    if ts == [] then s else Run(Step(s, ts[0]), ts[1..])
  }

  /** The diagnostics printed while the tokens are processed, in order. */
  function Log(s: seq<real>, ts: seq<Token>): seq<Diagnostic>
    decreases |ts|
  {
    if ts == [] then [] else StepLog(s, ts[0]) + Log(Step(s, ts[0]), ts[1..])
  }

  /** The values of a sequence of number tokens. */
  function Values(ts: seq<Token>): seq<real>
    requires forall k | 0 <= k < |ts| :: ts[k].NumberToken?
  {
    seq(|ts|, k requires 0 <= k < |ts| => ts[k].value)
  }

  /** Processing two token sequences one after the other is processing
      their concatenation: this is what lets the stack that one call of
      `evaluateInput` leaves behind feed the next call ... */
  lemma {:induction false} RunAppend(s: seq<real>, a: seq<Token>, b: seq<Token>)
    ensures Run(s, a + b) == Run(Run(s, a), b)
    decreases |a|
  {
    if a != [] {
      assert (a + b)[0] == a[0] && (a + b)[1..] == a[1..] + b;
      RunAppend(Step(s, a[0]), a[1..], b);
    } else {
      assert a + b == b;
    }
  }

  /** ... and what is printed along the way is what the first sequence
      prints followed by what the second prints. */
  lemma {:induction false} LogAppend(s: seq<real>, a: seq<Token>, b: seq<Token>)
    ensures Log(s, a + b) == Log(s, a) + Log(Run(s, a), b)
    decreases |a|
  {
    if a != [] {
      assert (a + b)[0] == a[0] && (a + b)[1..] == a[1..] + b;
      LogAppend(Step(s, a[0]), a[1..], b);
    } else {
      assert a + b == b;
    }
  }

  /** Number tokens are pushed in order ... */
  lemma {:induction false} RunNumbers(s: seq<real>, ts: seq<Token>)
    requires forall k | 0 <= k < |ts| :: ts[k].NumberToken?
    ensures Run(s, ts) == s + Values(ts)
    decreases |ts|
  {
    if ts != [] {
      RunNumbers(s + [ts[0].value], ts[1..]);
      assert Values(ts) == [ts[0].value] + Values(ts[1..]);
    }
  }

  /** ... and print nothing. */
  lemma {:induction false} LogNumbers(s: seq<real>, ts: seq<Token>)
    requires forall k | 0 <= k < |ts| :: ts[k].NumberToken?
    ensures Log(s, ts) == []
    decreases |ts|
  {
    if ts != [] {
      LogNumbers(s + [ts[0].value], ts[1..]);
    }
  }

  /** An invalid token anywhere in the sequence has no effect on the stack
      and prints nothing. */
  lemma {:induction false} RunSkipsInvalid(s: seq<real>, a: seq<Token>, text: string, b: seq<Token>)
    ensures Run(s, a + [InvalidToken(text)] + b) == Run(s, a + b)
    ensures Log(s, a + [InvalidToken(text)] + b) == Log(s, a + b)
  {
    var x := [InvalidToken(text)];
    var mid := Run(s, a);
    RunAppend(s, a + x, b);
    RunAppend(s, a, x);
    RunAppend(s, a, b);
    LogAppend(s, a + x, b);
    LogAppend(s, a, x);
    LogAppend(s, a, b);
    assert x[1..] == [];
    assert Run(mid, x) == mid;
    assert Log(mid, x) == [];
    assert Log(s, a) + [] == Log(s, a);
  }

  /** Each token prints at most one diagnostic, and only an operator token
      that finds too few operands, or a division by zero, prints one. */
  lemma {:induction false} LogBound(s: seq<real>, ts: seq<Token>)
    ensures |Log(s, ts)| <= |ts|
    decreases |ts|
  {
    if ts != [] {
      LogBound(Step(s, ts[0]), ts[1..]);
    }
  }

  /** Every operator token `tokenize` produces names one of the five
      operators, so `Nop` is never applied to input. */
  lemma OperatorsOfInputAreKnown(input: string)
    requires Tokens(input).Success?
    ensures forall k | 0 <= k < |Tokens(input).value| && Tokens(input).value[k].OperatorToken? ::
      FromSymbol(Tokens(input).value[k].operator) != Nop
  {
    TokensOfInput(input);
  }

  /** Two lines evaluated one after the other against the same stack end
      where the two lines joined by a space end, and print the same: the
      stack carries over from one call to the next. When the first line
      throws, so does the joined one, with the same error. */
  lemma RunSeparated(s: seq<real>, a: string, b: string)
    ensures Tokens(a).Failure? ==> Tokens(a + " " + b) == Tokens(a)
    ensures Tokens(a).Success? && Tokens(b).Failure? ==> Tokens(a + " " + b) == Tokens(b)
    ensures Tokens(a).Success? && Tokens(b).Success? ==>
      Tokens(a + " " + b).Success? &&
      Run(s, Tokens(a + " " + b).value) == Run(Run(s, Tokens(a).value), Tokens(b).value) &&
      Log(s, Tokens(a + " " + b).value) == Log(s, Tokens(a).value) + Log(Run(s, Tokens(a).value), Tokens(b).value)
  {
    TokensOfSeparated(a, b);
    if Tokens(a).Success? && Tokens(b).Success? {
      RunAppend(s, Tokens(a).value, Tokens(b).value);
      LogAppend(s, Tokens(a).value, Tokens(b).value);
    }
  }

  class RpnCalculator {
    /** The operand stack; it persists from one call to the next. */
    const stack: Deque<real>

    constructor ()
      ensures fresh(stack) && stack.items == []
    {
      stack := new Deque<real>();
    }

    /** The body of the `forEach` in `evaluateInput`: one token against the
        stack, and what it prints. */
    method ProcessToken(token: Token) returns (diag: seq<Diagnostic>)
      modifies stack
      ensures stack.items == Step(old(stack.items), token)
      ensures diag == StepLog(old(stack.items), token)
    {
      match token
      case NumberToken(v) =>
        stack.Push(v);
        diag := [];
      case OperatorToken(sym) =>
        var reported := ApplyTo(FromSymbol(sym), stack);
        diag := if reported.Some? then [reported.value] else [];
      case InvalidToken(_) =>
        diag := [];
    }

    /** The `forEach` of `evaluateInput`: the tokens in order, and what
        they print. */
    method ProcessTokens(tokens: seq<Token>) returns (log: seq<Diagnostic>)
      modifies stack
      ensures stack.items == Run(old(stack.items), tokens)
      ensures log == Log(old(stack.items), tokens)
    {
      log := [];
      for i := 0 to |tokens|
        invariant Run(old(stack.items), tokens) == Run(stack.items, tokens[i..])
        invariant Log(old(stack.items), tokens) == log + Log(stack.items, tokens[i..])
      {
        assert tokens[i..][1..] == tokens[i + 1..];
        var diag := ProcessToken(tokens[i]);
        log := log + diag;
      }
    }

    /** `evaluateInput`: the top of the stack after the line's tokens (None
        standing for the string "null"), and the diagnostics printed on the
        way. When `toDouble` throws, the exception leaves before any token
        has been processed, so the stack is untouched. */
    method EvaluateInput(input: string) returns (r: Result<Option<real>, NumberFormatError>, log: seq<Diagnostic>)
      modifies stack
      ensures Tokens(input).Failure? ==>
        r == Failure(Tokens(input).error) && stack.items == old(stack.items) && log == []
      ensures Tokens(input).Success? ==>
        stack.items == Run(old(stack.items), Tokens(input).value) &&
        log == Log(old(stack.items), Tokens(input).value) &&
        r == Success(Top(stack.items))
    {
      var tokenized := Tokenize(input);
      if tokenized.Failure? {
        return Failure(tokenized.error), [];
      }
      log := ProcessTokens(tokenized.value);
      var top := stack.Peek();
      r := Success(top);
    }
  }
}
