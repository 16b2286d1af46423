/** The operators: `Add`, `Sub`, `Mul`, `Div`, `Sqr` and the do-nothing
    `Nop`, each of which changes the operand stack in place, and the lookup
    `operatorFromString` from a symbol to an operator. */
module Operators {
  import opened Wrappers
  import opened Stack
  import Tokenizer

  datatype Operator = Add | Sub | Mul | Div | Sqr | Nop

  /** What an operator reports on the console instead of computing:
      "Stack error." or "Division by zero error.". */
  datatype Diagnostic = StackError | DivisionByZero

  /** The symbol each real operator is written with. */
  function Symbol(op: Operator): string
    requires op != Nop
  {
    match op
    case Add => "+"
    case Sub => "-"
    case Mul => "*"
    case Div => "/"
    case Sqr => "sqr"
  }

  /** `operatorFromString`: total, and every symbol other than the five
      known ones gives `Nop`. */
  function FromSymbol(opCode: string): (op: Operator)
    ensures op == Nop <==> !Tokenizer.IsOperatorWord(opCode)
    ensures op != Nop ==> Symbol(op) == opCode
  {
    match opCode
    case "+" => Add
    case "-" => Sub
    case "*" => Mul
    case "/" => Div
    case "sqr" => Sqr
    case _ => Nop
  }

  /** Looking up an operator's own symbol gives the operator back. */
  lemma FromSymbolOfSymbol(op: Operator)
    requires op != Nop
    ensures FromSymbol(Symbol(op)) == op
  {
  }

  /** How many operands the size guard of `apply` asks for. */
  function Arity(op: Operator): nat {
    match op
    case Add | Sub | Mul | Div => 2
    case Sqr => 1
    case Nop => 0
  }

  /** `left op right` for the three operators that always push. */
  function Combine(op: Operator, left: real, right: real): real
    requires op == Add || op == Sub || op == Mul
  {
    match op
    case Add => left + right
    case Sub => left - right
    case Mul => left * right
  }

  /** The stack after `op.apply`. The top of the stack is the end of `s`. */
  function Apply(op: Operator, s: seq<real>): (r: seq<real>)
    // too few operands, and Nop: nothing changes
    ensures |s| < Arity(op) || op == Nop ==> r == s
    // an operator never touches what lies below its operands
    ensures |s| >= Arity(op) ==> s[..|s| - Arity(op)] <= r
    // Add, Sub, Mul: one less element, `left op right` on top
    ensures (op == Add || op == Sub || op == Mul) && |s| >= 2 ==>
      |r| == |s| - 1 && r[|r| - 1] == Combine(op, s[|s| - 2], s[|s| - 1])
    // Div by a non-zero divisor: one less element, the quotient on top
    ensures op == Div && |s| >= 2 && s[|s| - 1] != 0.0 ==>
      |r| == |s| - 1 && r[|r| - 1] == s[|s| - 2] / s[|s| - 1]
    // Div by zero: both operands are gone and nothing is pushed
    ensures op == Div && |s| >= 2 && s[|s| - 1] == 0.0 ==> |r| == |s| - 2
    // Sqr: same size, the square on top
    ensures op == Sqr && |s| >= 1 ==> |r| == |s| && r[|r| - 1] == s[|s| - 1] * s[|s| - 1]
  {
    if |s| < Arity(op) then s
    else
      match op
      case Nop => s
      case Sqr =>
        s[..|s| - 1] + [s[|s| - 1] * s[|s| - 1]]
      case Div =>
        var right := s[|s| - 1];
        var left := s[|s| - 2];
        if right != 0.0 then s[..|s| - 2] + [left / right] else s[..|s| - 2]
      case _ =>
        var right := s[|s| - 1];
        var left := s[|s| - 2];
        s[..|s| - 2] + [Combine(op, left, right)]
  }

  /** What `op.apply` prints, if anything. */
  function Diagnose(op: Operator, s: seq<real>): (d: Option<Diagnostic>)
    ensures d == Some(StackError) <==> |s| < Arity(op)
    ensures d == Some(DivisionByZero) <==> op == Div && |s| >= 2 && s[|s| - 1] == 0.0
  {
    if |s| < Arity(op) then Some(StackError)
    else if op == Div && s[|s| - 1] == 0.0 then Some(DivisionByZero)
    else None
  }

  /** An operator that reports a stack error leaves the stack as it was;
      a division by zero is the one report after which the stack has
      changed, and it has then lost both operands. */
  lemma DiagnosedStack(op: Operator, s: seq<real>)
    ensures Diagnose(op, s) == Some(StackError) ==> Apply(op, s) == s
    ensures Diagnose(op, s) == Some(DivisionByZero) ==> Apply(op, s) == s[..|s| - 2]
    ensures Diagnose(op, s).None? && op != Nop ==> |Apply(op, s)| == |s| - Arity(op) + 1
  {
  }

  /** `op.apply(stack)`: each operator object's own `apply`, which pops
      the operands with `pop`, pushes the result with `push`, and returns
      what it would print. */
  method ApplyTo(op: Operator, stack: Deque<real>) returns (diag: Option<Diagnostic>)
    modifies stack
    ensures stack.items == Apply(op, old(stack.items))
    ensures diag == Diagnose(op, old(stack.items))
  {
    match op
    case Nop =>
      diag := None;
    case Sqr =>
      diag := ApplySqr(stack);
    case Div =>
      diag := ApplyDiv(stack);
    case _ =>
      diag := ApplyCombine(op, stack);
  }

  /** `Sqr.apply`. */
  method ApplySqr(stack: Deque<real>) returns (diag: Option<Diagnostic>)
    modifies stack
    ensures stack.items == Apply(Sqr, old(stack.items))
    ensures diag == Diagnose(Sqr, old(stack.items))
  {
    if |stack.items| >= 1 {
      var operand := stack.Pop();
      var x := operand.GetOr(0.0);
      stack.Push(x * x);
      ghost var s := old(stack.items);
      assert x == s[|s| - 1];
      assert Apply(Sqr, s)[..|s| - 1] == stack.items[..|s| - 1];
      assert Apply(Sqr, s)[|s| - 1] == stack.items[|s| - 1];
      diag := None;
    } else {
      diag := Some(StackError);
    }
  }

  /** `Div.apply`: both operands are popped before the divisor is looked
      at, so a division by zero loses them. */
  method ApplyDiv(stack: Deque<real>) returns (diag: Option<Diagnostic>)
    modifies stack
    ensures stack.items == Apply(Div, old(stack.items))
    ensures diag == Diagnose(Div, old(stack.items))
  {
    if |stack.items| >= 2 {
      var popped := stack.Pop();
      var right := popped.GetOr(0.0);
      popped := stack.Pop();
      var left := popped.GetOr(0.0);
      if right != 0.0 {
        stack.Push(left / right);
        diag := None;
      } else {
        diag := Some(DivisionByZero);
      }
    } else {
      diag := Some(StackError);
    }
  }

  /** `Add.apply`, `Sub.apply` and `Mul.apply`, which differ only in the
      arithmetic. */
  method ApplyCombine(op: Operator, stack: Deque<real>) returns (diag: Option<Diagnostic>)
    requires op == Add || op == Sub || op == Mul
    modifies stack
    ensures stack.items == Apply(op, old(stack.items))
    ensures diag == Diagnose(op, old(stack.items))
  {
    if |stack.items| >= 2 {
      var popped := stack.Pop();
      var right := popped.GetOr(0.0);
      popped := stack.Pop();
      var left := popped.GetOr(0.0);
      stack.Push(Combine(op, left, right));
      diag := None;
    } else {
      diag := Some(StackError);
    }
  }
}
