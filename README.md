# RPN calculator core, in Dafny

A model of the Kotlin reverse-Polish calculator in `main.kt`, with proofs
about it. The calculator reads one line of text at a time. `tokenize` cuts
the line into number and operator tokens with one regular expression. Then
`RPNCalculator.evaluateInput` pushes each number on an operand stack,
applies each operator to that stack, and returns the top of the stack. The
stack is a field of the calculator, so it survives from one line to the
next.

The project has six modules, one per piece of the program:

- `Wrappers` (`wrappers.dfy`): `Option` and `Result`.
- `Stack` (`stack.dfy`): the `push`, `pop` and `peek` extensions of
  `ArrayDeque`, as a class `Deque` whose `items` field is the deque's
  contents. The last element is the top.
- `Tokenizer` (`tokenizer.dfy`): the regex
  `([-]*\d+(\.\d+)?)|([+\-*/]|sqr)`. It is stated twice: once
  declaratively (`NumberSpan`, `OperatorSpan`) and once as a left-to-right
  scanner (`MatchAt`). The module also holds `findAll` as the scanner's
  loop (`FindAll`, `Matches`), `toDouble` on the lexemes the number group
  can hold (`ParseNumber`), the `when` that turns matches into tokens
  (`TokenOf`, `Tokens`), and the `tokenize` loop itself (`Tokenize`).
- `Operators` (`operators.dfy`): `Add`, `Sub`, `Mul`, `Div`, `Sqr`, `Nop`
  and `operatorFromString`.
  - Each operator's effect on the stack is the function `Apply`, and what
    it prints is `Diagnose`.
  - Each operator object's `apply` is a module-level method that takes the
    `Deque` it works on (`ApplyTo`, which dispatches to `ApplyCombine`,
    `ApplyDiv` and `ApplySqr`). Each is proved equal to those two functions.
- `Calculator` (`calculator.dfy`): the class `RpnCalculator`, with its
  stack, the `forEach` over the tokens and `evaluateInput`.
  - `Run` gives the stack after a token sequence, and `Log` gives the
    messages printed along the way.
  - The methods are proved equal to these functions, and the lemmas about
    `Run` and `Log` carry the properties.
- `Scenarios` (`scenarios.dfy`): concrete lines such as `3 4 +`, `3 -4 +`,
  `3-4`, `--5`, `5 0 /`, `sqrt` and `+`, worked through the model. It also
  has a method that runs two lines on one calculator to show the stack
  carrying over.

Behaviour of the code that a reader might not expect, and that the model
keeps:

- **Division by zero:** `Div.apply` pops both operands before it looks at
  the divisor (`main.kt:83-85`). A division by zero therefore drops both of
  them and pushes nothing; the stack is not restored.
- **No `InvalidToken`:** every regex match fills group 1 or group 3, so
  `tokenize` never produces an `InvalidToken` (`main.kt:39` cannot be
  reached). Characters that neither alternative can start with, such as
  `@`, are skipped without a token.
- **Repeated minus signs:** `[-]*` takes every leading minus sign into the
  number, so `--5` is one lexeme. `toDouble` throws `NumberFormatException`
  on it (`main.kt:37`), and the exception leaves `evaluateInput` before any
  token has touched the stack. The model returns `Failure(NumberFormatError)`
  for it.
- **`sqr` inside words:** `sqr` is found inside longer words (`sqrt` gives
  `sqr`, and the `t` is skipped). A `-` that no digit follows is the
  subtraction symbol.

## Model

| member | source | states |
|---|---|---|
| Stack.Top | main.kt:14-19 | the top is absent exactly for the empty deque, and is otherwise its last element |
| Stack.Deque.constructor | main.kt:119 | a new deque is empty |
| Stack.Deque.Push | main.kt:3-5 | `push` appends the item at the end and changes nothing else |
| Stack.Deque.Pop | main.kt:7-12 | `pop` on an empty deque returns null and leaves it unchanged; otherwise it returns the last element and removes exactly that element |
| Stack.Deque.Peek | main.kt:14-19 | `peek` returns the last element, or null when the deque is empty, and does not change the deque |
| Tokenizer.MinusEnd | main.kt:32 | the greedy `[-]*` stops at the first character that is not a minus sign |
| Tokenizer.MinusEndRun | main.kt:32 | every character the greedy `[-]*` consumed is a minus sign |
| Tokenizer.DigitsEnd | main.kt:32 | the greedy `\d+` stops at the first character that is not a digit |
| Tokenizer.DigitsEndRun | main.kt:32 | every character the greedy `\d+` consumed is a digit |
| Tokenizer.NumberEnd | main.kt:32 | defining function, no `ensures`: where the number alternative ends when tried at a position (a minus run, then digits, then a dot and more digits only when a digit follows the dot), or nothing when no digit follows the minus run; NumberEndIsLongest, NumberEndIsWord and NumberEndCovers carry its properties |
| Tokenizer.OperatorEnd | main.kt:32 | defining function, no `ensures`: the operator alternative takes one character of `+ - * /`, else the three letters `sqr`, else nothing; MatchAtFollowsPattern, OperatorEndBeforeSpace and OperatorEndAfterPrefix carry its properties |
| Tokenizer.MatchAt | main.kt:32 | a match found at a position starts there, is not empty and lies inside the line |
| Tokenizer.MatchAtText | main.kt:32-35 | a match is the text between its bounds, and exactly one of groups 1 and 3 holds all of it |
| Tokenizer.NumberEndIsLongest | main.kt:32 | when the number alternative can match at a position, the scanner takes the longest word of `[-]*\d+(\.\d+)?` there, and it finds none exactly when no number word starts there |
| Tokenizer.NumberEndIsWord | main.kt:32 | what the scanner takes for a number is a word of the number alternative |
| Tokenizer.NumberEndCovers | main.kt:32 | every number word that starts at a position ends no later than what the scanner takes there |
| Tokenizer.MatchAtFollowsPattern | main.kt:32 | the scanner finds nothing exactly when neither alternative matches; otherwise it finds the longest number word, or an operator word when no number word starts there |
| Tokenizer.Scan | main.kt:33 | the attempts of the pattern at every position of the line, each ending after its position and inside the line |
| Tokenizer.FindAll | main.kt:33 | defining function, no `ensures`: the leftmost-first loop of `findAll`, which takes the match found at a position and resumes at its end, or moves on by one character where none is found; MatchesFromTiles and TilesIsMatchesFrom carry its properties |
| Tokenizer.MatchesFrom | main.kt:33 | defining function, no `ensures`: `findAll` started at a position of the line; MatchesFromNone and MatchesFromTiles carry its properties |
| Tokenizer.Matches | main.kt:33 | defining function, no `ensures`: `findAll` over the whole line; MatchesIsTheTiling and MatchesWellFormed carry its properties |
| Tokenizer.MatchesFromNone | main.kt:33 | where the pattern does not match, `findAll` moves on by one character |
| Tokenizer.MatchesFromTiles | main.kt:33 | the matches of `findAll` tile the line: every match is found where the previous one ended or later, and nothing can match in between |
| Tokenizer.TilesIsMatchesFrom | main.kt:33 | any sequence of matches that tiles the line in this way is the output of `findAll` |
| Tokenizer.MatchesIsTheTiling | main.kt:33 | a sequence of matches is the output of `findAll` if and only if it tiles the line leftmost-first |
| Tokenizer.NumberSpanOfSlice | main.kt:32 | the text of a number match is itself a word of the number alternative |
| Tokenizer.MatchesWellFormed | main.kt:32-35 | every match of `findAll` is non-empty and fills exactly one group with a word of that group's alternative |
| Tokenizer.Pow10 | main.kt:37 | (helper) a power of ten is at least one |
| Tokenizer.DigitValue | main.kt:37 | (helper) a decimal digit is worth less than ten |
| Tokenizer.DigitsValue | main.kt:37 | the value of `n` digits is below `10^n` |
| Tokenizer.Fraction | main.kt:37 | the digits after a decimal point are worth a value in `[0, 1)` |
| Tokenizer.ParseNumber | main.kt:37 | `toDouble` fails with the lexeme itself; a lexeme it accepts ends in a digit, and its value has the sign of its leading minus |
| Tokenizer.ParseNumberWord | main.kt:32-37 | a word of the number alternative converts if and only if it does not start with two minus signs |
| Tokenizer.TokenOf | main.kt:36-40 | defining function, no `ensures`: the `when` for one match, which converts group 1, else takes group 3, else makes an invalid token; TokensOfWellFormed carries its properties |
| Tokenizer.TokensOf | main.kt:34-41 | defining function, no `ensures`: the loop over the matches, which stops at the first `toDouble` exception; TokensOfWellFormed and TokensOfAppend carry its properties |
| Tokenizer.Tokens | main.kt:30-43 | defining function, no `ensures`: `tokenize`; TokensOfInput, Tokenize and TokensOfSeparated carry its properties |
| Tokenizer.ParseDigits | main.kt:32-37 | a run of digits is a number word, and it converts to its decimal value |
| Tokenizer.ParseNegatedDigits | main.kt:32-37 | a minus sign followed by digits is a number word, and it converts to the negated decimal value |
| Tokenizer.ParseWhole | main.kt:37 | (helper) a lexeme of digits, with or without one leading minus sign, converts to the value of the digits, negated when the sign is there |
| Tokenizer.NegatedDigitsValue | main.kt:37 | (helper) a minus sign followed by digits converts to the negated value of the digits |
| Tokenizer.NegatedDigitsWord | main.kt:32 | (helper) a minus sign followed by digits is a word of the number alternative |
| Tokenizer.Shift | main.kt:37 | (helper) a value multiplied by ten a given number of times, that is, its decimal point moved right |
| Tokenizer.ShiftAdd | main.kt:37 | (helper) moving the decimal point distributes over a sum |
| Tokenizer.ShiftTen | main.kt:37 | (helper) moving the point one more place is moving the point of ten times the value |
| Tokenizer.DigitsValueSnoc | main.kt:37 | a digit written after a digit string multiplies the string's value by ten and adds the digit |
| Tokenizer.DigitsValueAppend | main.kt:37 | the value of two digit strings written together is the first shifted one place per digit of the second, plus the second |
| Tokenizer.FractionShifted | main.kt:37 | the digits after a decimal point, shifted one place per digit, are worth those digits read as a whole number |
| Tokenizer.DigitsEndAt | main.kt:32 | a digit run ends at the first non-digit |
| Tokenizer.ParseWithFraction | main.kt:37 | digits, a dot and digits convert to the whole part plus the fraction |
| Tokenizer.ParseFraction | main.kt:32-37 | `w.f` converts, and its value with the point moved one place right per digit of `f` is the whole number `wf`: `toDouble("3.25") * 10^2 == 325` |
| Tokenizer.DecimalShifted | main.kt:37 | a whole part plus a fraction, shifted one place per fraction digit, is the whole number written with both digit strings |
| Tokenizer.TokensOfWellFormed | main.kt:34-41 | converting well-formed matches fails exactly when one of them is a number starting with two minus signs; otherwise it gives one token per match, in order |
| Tokenizer.TokensOfInput | main.kt:30-43 | `tokenize` throws exactly when a number lexeme starts with two minus signs; otherwise it gives one number or operator token per match, in input order, and never an invalid token |
| Tokenizer.Tokenize | main.kt:30-43 | the `for` loop over the matches of `findAll` builds exactly the result of `tokenize`, including the exception from `toDouble` |
| Tokenizer.ShiftedAll | main.kt:33 | (helper) moving matches to the right keeps their number |
| Tokenizer.MinusEndBeforeSpace | main.kt:32 | a minus run that starts before a space ends where it ends in the text before the space, so it never crosses the space |
| Tokenizer.DigitsEndBeforeSpace | main.kt:32 | a digit run that starts before a space ends where it ends in the text before the space, so it never crosses the space |
| Tokenizer.MinusEndAfterPrefix | main.kt:32 | text in front of a position does not change where its minus run ends |
| Tokenizer.DigitsEndAfterPrefix | main.kt:32 | text in front of a position does not change where its digit run ends |
| Tokenizer.NumberEndBeforeSpace | main.kt:32 | the number alternative tried before a space never reaches past it, and ends where it ends in the text before the space |
| Tokenizer.OperatorEndBeforeSpace | main.kt:32 | the operator alternative tried before a space never reaches past it, and ends where it ends in the text before the space |
| Tokenizer.MatchAtBeforeSpace | main.kt:32 | a match found before a space is the match found in the text before the space: no word of either alternative runs across a space |
| Tokenizer.NumberEndAfterPrefix | main.kt:32 | text in front of a position does not change where the number alternative ends |
| Tokenizer.OperatorEndAfterPrefix | main.kt:32 | text in front of a position does not change where the operator alternative ends |
| Tokenizer.MatchAtAfterPrefix | main.kt:32 | the match found after a prefix is the match of the text without the prefix, moved right by the prefix's length |
| Tokenizer.FindAllAgree | main.kt:33 | `findAll` over attempts that agree with a shorter scan up to its end is that scan's result followed by what comes after |
| Tokenizer.FindAllShifted | main.kt:33 | `findAll` over attempts that are another scan moved right gives that scan's matches, moved right |
| Tokenizer.TokensOfAppend | main.kt:34-41 | converting two runs of matches one after the other converts their concatenation, and the first failure wins |
| Tokenizer.TokensOfShifted | main.kt:34-41 | where a match lies does not affect its token |
| Tokenizer.MatchesBeforeSpace | main.kt:33 | the matches of a line up to a space are those of the text before the space |
| Tokenizer.MatchesAfterPrefix | main.kt:33 | the matches after a prefix are those of the rest alone, moved right |
| Tokenizer.MatchesOfSeparated | main.kt:33 | the matches of `a b` are those of `a` followed by those of `b`, moved right past the space |
| Tokenizer.TokensOfSeparated | main.kt:30-43 | the tokens of `a b` are those of `a` followed by those of `b`, and the first exception wins |
| Tokenizer.TokensOfNumberWord | main.kt:30-43 | a line that is one number word gives one number token, or throws when it starts with two minus signs |
| Tokenizer.TokensOfOperatorWord | main.kt:30-43 | a line that is one operator symbol gives one operator token |
| Tokenizer.DigitsEndAll | main.kt:32 | a digit run over the rest of the line ends at the line's end |
| Tokenizer.DigitsEndOfRun | main.kt:32 | a digit run ends where the digits end and a non-digit begins |
| Tokenizer.MatchAtDigits | main.kt:32 | digits followed by neither a digit nor a dot match as one number by themselves |
| Tokenizer.MatchesAfterDigits | main.kt:33 | the matches of digits followed by other text are that one number, then the matches of the text, moved right |
| Tokenizer.TokensAfterDigits | main.kt:30-43 | no space is needed after a numeral: the tokens of `3-4` are those of `3` followed by those of `-4` |
| Operators.FromSymbol | main.kt:105-116 | `operatorFromString` is total: it gives `Nop` if and only if the symbol is not one of `+ - * / sqr`, and otherwise the operator written with that symbol |
| Operators.FromSymbolOfSymbol | main.kt:105-116 | looking up an operator's symbol gives the operator back |
| Operators.Symbol | main.kt:105-116 | defining function, no `ensures`: the symbol `operatorFromString` maps to each operator other than `Nop`; FromSymbolOfSymbol carries its property |
| Operators.Arity | main.kt:50-103 | defining function, no `ensures`: the operand count each `apply` checks for, `size >= 2` for `+ - * /`, `size >= 1` for `sqr`, none for `Nop`; Apply, Diagnose and DiagnosedStack carry its properties |
| Operators.Combine | main.kt:50-78 | defining function, no `ensures`: `left + right`, `left - right` and `left * right`; the `ensures` of Apply and ApplyCombine carry its use |
| Operators.Apply | main.kt:50-103 | with too few operands, and for `Nop`, the stack is unchanged; nothing below the operands changes; `+ - *` leave `left op right` on a stack one shorter; `/` does the same for a non-zero divisor and drops both operands for a zero one; `sqr` squares the top in place |
| Operators.Diagnose | main.kt:50-97 | "Stack error." is printed if and only if there are fewer operands than the operator needs, and "Division by zero error." if and only if `/` finds a zero divisor |
| Operators.DiagnosedStack | main.kt:50-97 | a stack error leaves the stack as it was; a division by zero leaves it two shorter; an operator that prints nothing changes the size by one less than its operand count |
| Operators.ApplyTo | main.kt:126 | dispatching `apply` on the operator changes the stack as `Apply` says and prints what `Diagnose` says |
| Operators.ApplySqr | main.kt:90-97 | `Sqr.apply` pops the operand and pushes its square, or reports a stack error on an empty stack |
| Operators.ApplyDiv | main.kt:80-88 | `Div.apply` pops the divisor and the dividend, then pushes the quotient or reports a division by zero |
| Operators.ApplyCombine | main.kt:50-78 | `Add`, `Sub` and `Mul.apply` pop `right`, then `left`, and push `left op right`, or report a stack error |
| Calculator.RunAppend | main.kt:123-129 | processing two token sequences one after the other leaves the stack that processing their concatenation leaves |
| Calculator.LogAppend | main.kt:123-129 | what the concatenation prints is what the first sequence prints, then what the second prints from where the first left the stack |
| Calculator.Step | main.kt:124-128 | defining function, no `ensures`: the stack after one token of the `when`; ProcessToken is proved against it, and RunNumbers and RunSkipsInvalid carry its properties |
| Calculator.StepLog | main.kt:124-128 | defining function, no `ensures`: what one token prints; ProcessToken is proved against it, and LogBound and LogNumbers carry its properties |
| Calculator.Run | main.kt:123-129 | defining function, no `ensures`: the stack after the `forEach`; ProcessTokens is proved against it, and RunAppend and RunSeparated carry its properties |
| Calculator.Log | main.kt:123-129 | defining function, no `ensures`: what the `forEach` prints, in order; ProcessTokens is proved against it, and LogAppend and LogBound carry its properties |
| Calculator.RunNumbers | main.kt:125 | number tokens are pushed in order |
| Calculator.LogNumbers | main.kt:125 | number tokens print nothing |
| Calculator.RunSkipsInvalid | main.kt:127 | an invalid token anywhere in the sequence neither changes the stack nor prints anything |
| Calculator.LogBound | main.kt:123-129 | a token prints at most one diagnostic |
| Calculator.OperatorsOfInputAreKnown | main.kt:30-43 | every operator token of a line names one of the five operators, so `Nop` is never applied to input |
| Calculator.RunSeparated | main.kt:121-131 | evaluating `a`, then `b`, against one stack ends where evaluating `a b` ends and prints the same; an exception in either line is the exception of the joined line |
| Calculator.RpnCalculator.constructor | main.kt:119 | a new calculator starts with an empty stack of its own |
| Calculator.RpnCalculator.ProcessToken | main.kt:124-128 | a number token is pushed, an operator token is applied and may print one message, and an invalid token does nothing |
| Calculator.RpnCalculator.ProcessTokens | main.kt:123-129 | the `forEach` leaves the stack `Run` gives and prints what `Log` gives |
| Calculator.RpnCalculator.EvaluateInput | main.kt:121-131 | when `tokenize` throws, the exception comes out and the stack is untouched; otherwise every token is processed against the persistent stack, and the result is its top without popping, or null when it is empty |
| Scenarios.NumeralLine | main.kt:30-43 | a numeral alone is one number token with its decimal value |
| Scenarios.JoinLines | main.kt:30-43 | the tokens of `a b` are those of `a` followed by those of `b` when both lines tokenize |
| Scenarios.NegativeNumeralLine | main.kt:32-37 | `-4`: a minus sign glued to a numeral belongs to the number |
| Scenarios.NegativeUnaryLine | main.kt:30-43 | `-4 op` gives a negative number token and the operator token |
| Scenarios.DoubleMinusLine | main.kt:32-37 | `--5` is one lexeme, and `toDouble` throws on it |
| Scenarios.BinaryLine | main.kt:30-43 | `3 4 +`: two numerals and an operator symbol give those three tokens in order |
| Scenarios.NegativeOperandLine | main.kt:30-43 | `3 -4 +` gives `3`, `-4` and `+` |
| Scenarios.GluedMinusLine | main.kt:30-43 | `3-4` gives two numbers and no subtraction |
| Scenarios.UnknownCharacterSkipped | main.kt:30-43 | `@` gives no token, and a line starting `@ ` tokenizes as the rest of it |
| Scenarios.SqrInsideWord | main.kt:32-38 | `sqrt` gives the operator `sqr` and nothing for the `t` |
| Scenarios.EvaluateUnary | main.kt:123-129 | `y op` against a stack pushes `y`, then applies the operator |
| Scenarios.EvaluateBinary | main.kt:123-129 | `x y op` against a stack pushes both numbers, then applies the operator |
| Scenarios.SumOnEmptyStack | main.kt:50-58 | `3 4 +` on an empty stack leaves `7` and prints nothing |
| Scenarios.SquareOnEmptyStack | main.kt:90-97 | `5 sqr` on an empty stack leaves `25` and prints nothing |
| Scenarios.DivideByZeroOnEmptyStack | main.kt:80-88 | `5 0 /` on an empty stack prints a division by zero and leaves the stack empty |
| Scenarios.AddOnEmptyStack | main.kt:50-58 | `+` on an empty stack prints a stack error, leaves the stack empty and evaluates to null |
| Scenarios.UnaryLine | main.kt:30-43 | `y op` gives a number token and an operator token |
| Scenarios.TwoLines | main.kt:118-131 | on one calculator, a numeral line evaluates to its value, and a following `y +` line adds `y` to it |
| Scenarios.NumeralOnEmptyStack | main.kt:123-129 | a numeral line on an empty stack leaves just its value |
| Scenarios.SumOnStack | main.kt:50-58 | `y +` on a stack holding `x` leaves `x + y` |
| Scenarios.AddLineOnStack | main.kt:30-58 | the line `y +` on a stack holding `x` tokenizes and leaves `x + y` |
| Scenarios.EvaluateNumeral | main.kt:121-131 | on a calculator with an empty stack, a numeral line evaluates to its value and leaves it on the stack |
| Scenarios.EvaluateAddLine | main.kt:121-131 | on a calculator whose stack holds `x`, the line `y +` evaluates to `x + y` |

## Left out

- The `main` read loop (`main.kt:134-149`): the argument check, the prompt, `readlnOrNull`, `exit`, and printing each result. This is terminal I/O around the core.
- The console output of `println("Stack error.")` and `println("Division by zero error.")`. It is modelled as a returned sequence of `Diagnostic` values, in printing order.
- IEEE `Double` arithmetic: rounding, overflow to infinity, NaN, and `-0.0` against `0.0` in the divisor test. Numbers are exact `real`s.
- The text `Double.toString()` produces (`"7.0"`) and the string `"null"`. `evaluateInput` returns `Option<real>`, with `None` standing for `"null"`.
- The Kotlin regex engine, replaced by the scanner `MatchAt` and the `findAll` loop `FindAll`, which are proved to agree with a declarative reading of the pattern. The unused group 2 (the fraction) is not recorded in a match.
- `String.toDouble` beyond the lexemes group 1 can hold: exponents, a leading `+`, `NaN`, `Infinity` and surrounding blanks never reach it. Tokenizer.ParseNumber: decimal rounding to the nearest `Double` is not modelled; a lexeme converts to its exact decimal value.
- The exception from `toDouble` is a `Failure` result, and its stack trace is not modelled. The `Nop` operator is modelled, but no input line can reach it.
