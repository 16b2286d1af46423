// The tokenizer: `findAll` of the pattern
//     ([-]*\d+(\.\d+)?)|([+\-*/]|sqr)
// over one line of input, written out as a left-to-right scanner, and the
// conversion of every match into a token.
module Tokenizer {
  import opened Wrappers

  datatype Token =
    | NumberToken(value: real)
    | OperatorToken(operator: string)
    | InvalidToken(text: string)

  /** `String.toDouble` threw on the lexeme `text`. */
  datatype NumberFormatError = NumberFormatError(text: string)

  /** One regex match: the matched text `value`, which starts at `start` and
      ends before `end`, with its first group `number` and its third group
      `operator` (empty when the group did not take part). */
  datatype Match = Match(value: string, number: string, operator: string, start: nat, end: nat)

  predicate IsDigit(c: char) {
    '0' <= c <= '9'
  }

  predicate IsOperatorChar(c: char) {
    c == '+' || c == '-' || c == '*' || c == '/'
  }

  // ---------------------------------------------------------------------
  // The pattern, stated declaratively

  ghost predicate AllMinus(s: string, lo: nat, hi: nat)
    requires lo <= hi <= |s|
  {
    forall j | lo <= j < hi :: s[j] == '-'
  }

  ghost predicate AllDigits(s: string, lo: nat, hi: nat)
    requires lo <= hi <= |s|
  {
    forall j | lo <= j < hi :: IsDigit(s[j])
  }

  /** `s[i..k]` is a word of the first alternative `[-]*\d+(\.\d+)?`:
      minus signs up to `p`, digits up to `q`, then either nothing or a dot
      followed by digits. */
  ghost predicate NumberSpan(s: string, i: nat, k: nat) {
    i <= k <= |s| &&
    exists p: nat, q: nat | i <= p < q <= k ::
      AllMinus(s, i, p) && AllDigits(s, p, q) &&
      (q == k || (q + 1 < k && s[q] == '.' && AllDigits(s, q + 1, k)))
  }

  // `s[i..k]` is a word of the second alternative `[+\-*/]|sqr`.
  ghost predicate OperatorSpan(s: string, i: nat, k: nat) {
    i <= k <= |s| &&
    ((k == i + 1 && IsOperatorChar(s[i])) || (k == i + 3 && s[i..i + 3] == "sqr"))
  }

  // ---------------------------------------------------------------------
  // The scanner

  /** End of the run of minus signs that starts at `i`. */
  function MinusEnd(s: string, i: nat): (e: nat)
    requires i <= |s|
    ensures i <= e <= |s|
    ensures e == |s| || s[e] != '-'
    decreases |s| - i
  {
    if i < |s| && s[i] == '-' then MinusEnd(s, i + 1) else i
  }

  lemma {:induction false} MinusEndRun(s: string, i: nat)
    requires i <= |s|
    ensures AllMinus(s, i, MinusEnd(s, i))
    decreases |s| - i
  {
    if i < |s| && s[i] == '-' {
      MinusEndRun(s, i + 1);
    }
  }

  /** End of the run of digits that starts at `i`. */
  function DigitsEnd(s: string, i: nat): (e: nat)
    requires i <= |s|
    ensures i <= e <= |s|
    ensures e == |s| || !IsDigit(s[e])
    decreases |s| - i
  {
    if i < |s| && IsDigit(s[i]) then DigitsEnd(s, i + 1) else i
  }

  lemma {:induction false} DigitsEndRun(s: string, i: nat)
    requires i <= |s|
    ensures AllDigits(s, i, DigitsEnd(s, i))
    decreases |s| - i
  {
    if i < |s| && IsDigit(s[i]) {
      DigitsEndRun(s, i + 1);
    }
  }

  /** Where the first alternative ends when tried at `i`: all minus signs,
      all digits, then the fraction when a dot is followed by a digit. */
  function NumberEnd(s: string, i: nat): Option<nat>
    requires i <= |s|
  {
    var p := MinusEnd(s, i);
    var q := DigitsEnd(s, p);
    if q == p then None
    else if q + 1 < |s| && s[q] == '.' && IsDigit(s[q + 1]) then Some(DigitsEnd(s, q + 1))
    else Some(q)
  }

  /** Where the second alternative ends when tried at `i`. */
  function OperatorEnd(s: string, i: nat): Option<nat>
    requires i <= |s|
  {
    if i < |s| && IsOperatorChar(s[i]) then Some(i + 1)
    else if i + 3 <= |s| && s[i] == 's' && s[i + 1] == 'q' && s[i + 2] == 'r' then Some(i + 3)
    else None
  }

  /** The match that the pattern finds when it is tried at position `i`:
      the number alternative first, then the operator alternative. */
  function MatchAt(s: string, i: nat): (r: Option<Match>)
    requires i <= |s|
    ensures r.Some? ==> r.value.start == i < r.value.end <= |s|
  {
    match NumberEnd(s, i)
    case Some(e) => Some(Match(s[i..e], s[i..e], "", i, e))
    case None =>
      match OperatorEnd(s, i)
      case Some(e) => Some(Match(s[i..e], "", s[i..e], i, e))
      case None => None
  }

  /** A match is the text between its bounds, and exactly one of the two
      groups holds all of it. */
  lemma MatchAtText(s: string, i: nat)
    requires i <= |s|
    ensures MatchAt(s, i).Some? ==>
      var m := MatchAt(s, i).value;
      m.value == s[i..m.end] &&
      ((m.number == m.value && m.operator == "") || (m.number == "" && m.operator == m.value))
  {
  }

  /** What the pattern finds when it is tried at each position of `s`. */
  function Scan(s: string): (rs: seq<Option<Match>>)
    ensures |rs| == |s| && ValidScan(rs)
    ensures forall k | 0 <= k < |s| :: rs[k] == MatchAt(s, k)
  {
    seq(|s|, k requires 0 <= k < |s| => MatchAt(s, k))
  }

  /** Every match in `rs` ends after the position it was found at and
      inside the text. */
  ghost predicate ValidScan(rs: seq<Option<Match>>) {
    forall k | 0 <= k < |rs| :: rs[k].Some? ==> k < rs[k].value.end <= |rs|
  }

  /** The loop of `findAll` over the attempts `rs`, from position `i`: a
      match found at `i` is taken and the search goes on after it;
      otherwise it goes on at the next position. */
  function FindAll(rs: seq<Option<Match>>, i: nat): seq<Match>
    requires i <= |rs| && ValidScan(rs)
    decreases |rs| - i
  {
    if i == |rs| then []
    else
      match rs[i]
      case Some(m) => [m] + FindAll(rs, m.end)
      case None => FindAll(rs, i + 1)
  }

  /** `findAll` over `s` from position `i`. */
  function MatchesFrom(s: string, i: nat): seq<Match>
    requires i <= |s|
  {
    FindAll(Scan(s), i)
  }

  /** Where nothing is found, `findAll` moves on by one character. */
  lemma MatchesFromNone(s: string, i: nat)
    requires i < |s| && MatchAt(s, i) == None
    ensures MatchesFrom(s, i) == MatchesFrom(s, i + 1)
  {
    assert Scan(s)[i] == None;
  }

  // ---------------------------------------------------------------------
  // The scanner agrees with the pattern

  /** Any way of reading `s[i..k]` as a number word splits it at the end of
      the minus run, the end of the digit run, and (with a fraction) ends at
      the end of the fraction's digit run. */
  lemma NumberSpanSplit(s: string, i: nat, k: nat, p: nat, q: nat)
    requires i <= p < q <= k <= |s|
    requires AllMinus(s, i, p) && AllDigits(s, p, q)
    requires q == k || (q + 1 < k && s[q] == '.' && AllDigits(s, q + 1, k))
    ensures p == MinusEnd(s, i) && q <= DigitsEnd(s, p)
    ensures q < k ==> q == DigitsEnd(s, p) && k <= DigitsEnd(s, q + 1)
  {
    MinusEndRun(s, i);
    DigitsEndRun(s, p);
    if q < k {
      DigitsEndRun(s, q + 1);
    }
    assert IsDigit(s[p]);
    if q < k {
      assert !IsDigit(s[q]);
    }
  }

  /** The first alternative matches at `i` exactly when some number word
      starts there, and the scanner takes the longest one, as the greedy
      pattern does. */
  lemma NumberEndIsLongest(s: string, i: nat)
    requires i <= |s|
    ensures NumberEnd(s, i).Some? ==> NumberSpan(s, i, NumberEnd(s, i).value)
    ensures forall k: nat :: NumberSpan(s, i, k) ==> NumberEnd(s, i).Some? && k <= NumberEnd(s, i).value
  {
    if NumberEnd(s, i).Some? {
      NumberEndIsWord(s, i);
    }
    forall k: nat | NumberSpan(s, i, k)
      ensures NumberEnd(s, i).Some? && k <= NumberEnd(s, i).value
    {
      NumberEndCovers(s, i, k);
    }
  }

  /** What the scanner takes for a number is a number word. */
  lemma NumberEndIsWord(s: string, i: nat)
    requires i <= |s| && NumberEnd(s, i).Some?
    ensures NumberSpan(s, i, NumberEnd(s, i).value)
  {
    var p := MinusEnd(s, i);
    var q := DigitsEnd(s, p);
    MinusEndRun(s, i);
    DigitsEndRun(s, p);
    if q + 1 <= |s| {
      DigitsEndRun(s, q + 1);
    }
    var k := NumberEnd(s, i).value;
    if k != q {
      assert q + 1 < k && s[q] == '.' && AllDigits(s, q + 1, k);
    }
    assert AllMinus(s, i, p) && AllDigits(s, p, q);
  }

  /** No number word starting at `i` reaches past what the scanner takes. */
  lemma NumberEndCovers(s: string, i: nat, k: nat)
    requires i <= |s| && NumberSpan(s, i, k)
    ensures NumberEnd(s, i).Some? && k <= NumberEnd(s, i).value
  {
    var p := MinusEnd(s, i);
    var q := DigitsEnd(s, p);
    MinusEndRun(s, i);
    DigitsEndRun(s, p);
    if q + 1 <= |s| {
      DigitsEndRun(s, q + 1);
    }
    var p', q' :| i <= p' < q' <= k && AllMinus(s, i, p') && AllDigits(s, p', q') &&
      (q' == k || (q' + 1 < k && s[q'] == '.' && AllDigits(s, q' + 1, k)));
    NumberSpanSplit(s, i, k, p', q');
    if q' < k {
      assert IsDigit(s[q' + 1]);
    }
  }

  /** The match found at `i` is the one the pattern gives: the longest number
      word when one starts at `i`, otherwise an operator word, and nothing
      when neither alternative can start at `i`. */
  lemma MatchAtFollowsPattern(s: string, i: nat)
    requires i <= |s|
    ensures MatchAt(s, i).None? <==>
      (forall k: nat :: !NumberSpan(s, i, k)) && (forall k: nat :: !OperatorSpan(s, i, k))
    ensures MatchAt(s, i).Some? && MatchAt(s, i).value.number != "" ==>
      NumberSpan(s, i, MatchAt(s, i).value.end)
    ensures MatchAt(s, i).Some? && MatchAt(s, i).value.operator != "" ==>
      OperatorSpan(s, i, MatchAt(s, i).value.end)
    ensures MatchAt(s, i).Some? && MatchAt(s, i).value.number != "" ==>
      forall k: nat :: NumberSpan(s, i, k) ==> k <= MatchAt(s, i).value.end
    ensures MatchAt(s, i).Some? && MatchAt(s, i).value.operator != "" ==>
      forall k: nat :: !NumberSpan(s, i, k)
  {
    NumberEndIsLongest(s, i);
    match MatchAt(s, i)
    case Some(m) =>
      if m.number != "" {
        assert NumberSpan(s, i, m.end);
      } else {
        assert OperatorSpan(s, i, m.end);
      }
    case None =>
  }

  // ---------------------------------------------------------------------
  // findAll: leftmost, non-overlapping, in input order

  /** No match can start anywhere in `[lo, hi)`. */
  ghost predicate Skipped(s: string, lo: nat, hi: nat) {
    lo <= hi <= |s| && forall j | lo <= j < hi :: MatchAt(s, j).None?
  }

  /** `ms` reads `s` from `i` on as `findAll` does: each match starts where
      the pattern matches, the characters between matches are ones where it
      cannot start, and every match begins where the previous one ended or
      later. */
  ghost predicate Tiles(s: string, i: nat, ms: seq<Match>)
    decreases |ms|
  {
    if ms == [] then Skipped(s, i, |s|)
    else
      Skipped(s, i, ms[0].start) && MatchAt(s, ms[0].start) == Some(ms[0]) &&
      Tiles(s, ms[0].end, ms[1..])
  }

  /** The scanner's output tiles the input. */
  lemma {:induction false} MatchesFromTiles(s: string, i: nat)
    requires i <= |s|
    ensures Tiles(s, i, MatchesFrom(s, i))
    decreases |s| - i
  {
    if i < |s| {
      match MatchAt(s, i)
      case Some(m) =>
        MatchesFromTiles(s, m.end);
      case None =>
        MatchesFromTiles(s, i + 1);
        var ms := MatchesFrom(s, i + 1);
        if ms != [] {
          assert MatchAt(s, ms[0].start).Some?;
          assert i + 1 <= ms[0].start;
        }
    }
  }

  /** Only the scanner's output tiles the input: the tiling is unique. */
  lemma {:induction false} TilesIsMatchesFrom(s: string, i: nat, ms: seq<Match>)
    requires i <= |s| && Tiles(s, i, ms)
    ensures ms == MatchesFrom(s, i)
    decreases |s| - i
  {
    if ms == [] {
      if i < |s| {
        assert MatchAt(s, i).None?;
        assert Skipped(s, i + 1, |s|);
        TilesIsMatchesFrom(s, i + 1, ms);
      }
    } else {
      var m := ms[0];
      assert MatchAt(s, m.start) == Some(m);
      if m.start == i {
        TilesIsMatchesFrom(s, m.end, ms[1..]);
      } else {
        assert MatchAt(s, i).None?;
        assert Skipped(s, i + 1, m.start);
        TilesIsMatchesFrom(s, i + 1, ms);
      }
    }
  }

  /** The matches of `findAll` over the whole input. */
  function Matches(input: string): seq<Match> {
    MatchesFrom(input, 0)
  }

  /** `findAll` is characterised by the tiling: its result is the one and
      only sequence of matches that reads the input leftmost-first. */
  lemma MatchesIsTheTiling(input: string, ms: seq<Match>)
    ensures Tiles(input, 0, ms) <==> ms == Matches(input)
  {
    MatchesFromTiles(input, 0);
    if Tiles(input, 0, ms) {
      TilesIsMatchesFrom(input, 0, ms);
    }
  }

  // ---------------------------------------------------------------------
  // What the groups hold

  /** A word of the first alternative. */
  ghost predicate IsNumberWord(t: string) {
    NumberSpan(t, 0, |t|)
  }

  /** A word of the second alternative. */
  predicate IsOperatorWord(t: string) {
    t == "+" || t == "-" || t == "*" || t == "/" || t == "sqr"
  }

  /** Exactly one of the two groups took part, and it holds a word of its
      alternative. */
  ghost predicate WellFormed(m: Match) {
    (m.number != "" && m.operator == "" && IsNumberWord(m.number)) ||
    (m.number == "" && IsOperatorWord(m.operator))
  }

  lemma NumberSpanOfSlice(s: string, i: nat, k: nat)
    requires NumberSpan(s, i, k)
    ensures IsNumberWord(s[i..k])
  {
    var p: nat, q: nat :| i <= p < q <= k && AllMinus(s, i, p) && AllDigits(s, p, q) &&
      (q == k || (q + 1 < k && s[q] == '.' && AllDigits(s, q + 1, k)));
    var t := s[i..k];
    assert AllMinus(t, 0, p - i) && AllDigits(t, p - i, q - i);
    if q < k {
      assert t[q - i] == '.' && AllDigits(t, q - i + 1, k - i);
    }
  }

  /** Every match of `findAll` fills exactly one group with a word of its
      alternative, so neither group is ever empty on both sides. */
  lemma {:induction false} MatchesWellFormed(s: string, i: nat)
    requires i <= |s|
    ensures forall m | m in MatchesFrom(s, i) :: WellFormed(m) && m.value != ""
    decreases |s| - i
  {
    if i < |s| {
      match MatchAt(s, i)
      case Some(m) =>
        MatchesWellFormed(s, m.end);
        MatchAtFollowsPattern(s, i);
        if m.number != "" {
          NumberSpanOfSlice(s, i, m.end);
        } else {
          assert m.operator == s[i..m.end];
        }
      case None =>
        MatchesWellFormed(s, i + 1);
    }
  }

  // ---------------------------------------------------------------------
  // String.toDouble on what the first group can hold

  function Pow10(n: nat): (r: nat)
    ensures r >= 1
  {
    if n == 0 then 1 else 10 * Pow10(n - 1)
  }

  function DigitValue(c: char): (n: nat)
    requires IsDigit(c)
    ensures n < 10
  {
    c as int - '0' as int
  }

  /** The value of a string of decimal digits. */
  function DigitsValue(d: string): (n: nat)
    requires forall j | 0 <= j < |d| :: IsDigit(d[j])
    ensures n < Pow10(|d|)
    decreases |d|
  {
    if d == [] then 0
    else
      var high := DigitsValue(d[..|d| - 1]);
      assert 10 * high <= 10 * (Pow10(|d| - 1) - 1);
      10 * high + DigitValue(d[|d| - 1])
  }

  /** The value of the digits after a decimal point: each digit is worth a
      tenth of the one before it. */
  function Fraction(d: string): (r: real)
    requires forall j | 0 <= j < |d| :: IsDigit(d[j])
    ensures 0.0 <= r < 1.0
    decreases |d|
  {
    if d == [] then 0.0
    else (DigitValue(d[0]) as real + Fraction(d[1..])) / 10.0
  }

  /** `toDouble` restricted to an optional minus sign, digits, and an
      optional dot followed by digits; any other text throws. */
  function ParseNumber(t: string): (r: Result<real, NumberFormatError>)
    ensures r.Failure? ==> r.error == NumberFormatError(t)
    ensures r.Success? ==> |t| > 0 && IsDigit(t[|t| - 1])
    ensures r.Success? && t[0] == '-' ==> r.value <= 0.0
    ensures r.Success? && t[0] != '-' ==> r.value >= 0.0
  {
    var sign := if |t| > 0 && t[0] == '-' then 1 else 0;
    var q := DigitsEnd(t, sign);
    DigitsEndRun(t, sign);
    if q == sign then Failure(NumberFormatError(t))
    else
      var whole := DigitsValue(t[sign..q]) as real;
      if q == |t| then Success(if sign == 1 then -whole else whole)
      else if q + 1 < |t| && t[q] == '.' && DigitsEnd(t, q + 1) == |t| then
        DigitsEndRun(t, q + 1);
        var magnitude := whole + Fraction(t[q + 1..]);
        Success(if sign == 1 then -magnitude else magnitude)
      else Failure(NumberFormatError(t))
  }

  /** A number word parses exactly when it does not start with two minus
      signs: `[-]*` lets `"--5"` through, and `toDouble` throws on it. */
  lemma ParseNumberWord(t: string)
    requires IsNumberWord(t)
    ensures ParseNumber(t).Success? <==> !(|t| >= 2 && t[0] == '-' && t[1] == '-')
  {
    var p: nat, q: nat :| 0 <= p < q <= |t| && AllMinus(t, 0, p) && AllDigits(t, p, q) &&
      (q == |t| || (q + 1 < |t| && t[q] == '.' && AllDigits(t, q + 1, |t|)));
    NumberSpanSplit(t, 0, |t|, p, q);
    if p >= 2 {
      assert t[0] == '-' && t[1] == '-';
      assert DigitsEnd(t, 1) == 1;
    } else {
      assert IsDigit(t[p]);
      assert p == 1 ==> t[0] == '-';
    }
  }

  // ---------------------------------------------------------------------
  // From matches to tokens

  /** The `when` of `tokenize`: group 1 gives a number, group 3 an operator,
      and a match with neither would give an invalid token. */
  function TokenOf(m: Match): Result<Token, NumberFormatError> {
    if m.number != "" then
      match ParseNumber(m.number)
      case Success(v) => Success(NumberToken(v))
      case Failure(e) => Failure(e)
    else if m.operator != "" then Success(OperatorToken(m.operator))
    else Success(InvalidToken(m.value))
  }

  /** The tokens of the matches, in order; the first `toDouble` that throws
      ends the conversion. */
  function TokensOf(ms: seq<Match>): Result<seq<Token>, NumberFormatError>
    decreases |ms|
  {
    if ms == [] then Success([])
    else
      match TokenOf(ms[0])
      case Failure(e) => Failure(e)
      case Success(t) =>
        match TokensOf(ms[1..])
        case Failure(e) => Failure(e)
        case Success(ts) => Success([t] + ts)
  }

  /** The result of `tokenize(input)`. */
  function Tokens(input: string): Result<seq<Token>, NumberFormatError> {
    TokensOf(Matches(input))
  }

  /** A number lexeme that starts with two minus signs. */
  predicate IsBadNumber(m: Match) {
    |m.number| >= 2 && m.number[0] == '-' && m.number[1] == '-'
  }

  /** The token a well-formed match gives when it converts. */
  function ExpectedToken(m: Match): Token
    requires WellFormed(m) && !IsBadNumber(m)
  {
    if m.number != "" then
      ParseNumberWord(m.number);
      NumberToken(ParseNumber(m.number).value)
    else OperatorToken(m.operator)
  }

  lemma {:induction false} TokensOfWellFormed(ms: seq<Match>)
    requires forall k | 0 <= k < |ms| :: WellFormed(ms[k])
    ensures TokensOf(ms).Success? <==> forall k | 0 <= k < |ms| :: !IsBadNumber(ms[k])
    ensures TokensOf(ms).Success? ==>
      |TokensOf(ms).value| == |ms| &&
      forall k | 0 <= k < |ms| :: TokensOf(ms).value[k] == ExpectedToken(ms[k])
    decreases |ms|
  {
    if ms != [] {
      TokensOfWellFormed(ms[1..]);
      if ms[0].number != "" {
        ParseNumberWord(ms[0].number);
      }
      if TokensOf(ms).Success? {
        assert forall k | 1 <= k < |ms| :: TokensOf(ms).value[k] == TokensOf(ms[1..]).value[k - 1];
      } else if TokenOf(ms[0]).Success? {
        var k :| 0 <= k < |ms[1..]| && IsBadNumber(ms[1..][k]);
        assert IsBadNumber(ms[k + 1]);
      }
    }
  }

  /** `tokenize` throws exactly when some number lexeme starts with two
      minus signs; otherwise it gives one token per match, in input order:
      a number for group 1, an operator for group 3, and never an invalid
      token. */
  lemma TokensOfInput(input: string)
    ensures forall k | 0 <= k < |Matches(input)| :: WellFormed(Matches(input)[k])
    ensures Tokens(input).Success? <==>
      forall k | 0 <= k < |Matches(input)| :: !IsBadNumber(Matches(input)[k])
    ensures Tokens(input).Success? ==>
      var ts := Tokens(input).value;
      |ts| == |Matches(input)| &&
      (forall k | 0 <= k < |ts| :: ts[k] == ExpectedToken(Matches(input)[k])) &&
      (forall k | 0 <= k < |ts| :: !ts[k].InvalidToken?)
  {
    var ms := Matches(input);
    MatchesWellFormed(input, 0);
    assert forall k | 0 <= k < |ms| :: ms[k] in ms;
    TokensOfWellFormed(ms);
  }

  /** The tokens still to come, after the ones already collected. */
  function After(tokens: seq<Token>, rest: Result<seq<Token>, NumberFormatError>): Result<seq<Token>, NumberFormatError> {
    match rest
    case Success(ts) => Success(tokens + ts)
    case Failure(e) => Failure(e)
  }

  /** `tokenize`, with the regex scan and the `for` loop over the matches
      fused into one left-to-right pass. */
  method Tokenize(input: string) returns (r: Result<seq<Token>, NumberFormatError>)
    ensures r == Tokens(input)
  {
    var tokens: seq<Token> := [];
    var pos := 0;
    assert forall rest: seq<Token> :: tokens + rest == rest;
    while pos < |input|
      invariant 0 <= pos <= |input|
      invariant Tokens(input) == After(tokens, TokensOf(MatchesFrom(input, pos)))
      decreases |input| - pos
    {
      var found := MatchAt(input, pos);
      match found
      case None =>
        pos := pos + 1;
      case Some(m) =>
        ghost var rest := MatchesFrom(input, m.end);
        assert MatchesFrom(input, pos) == [m] + rest;
        assert ([m] + rest)[1..] == rest;
        var token := TokenOf(m);
        match token
        case Failure(e) =>
          return Failure(e);
        case Success(t) =>
          assert forall ts: seq<Token> :: tokens + ([t] + ts) == (tokens + [t]) + ts;
          tokens := tokens + [t];
          pos := m.end;
    }
    assert tokens + [] == tokens;
    return Success(tokens);
  }

  // ---------------------------------------------------------------------
  // A space separates: the tokens of `a + " " + b` are those of `a`
  // followed by those of `b`

  /** A match moved `d` characters to the right. */
  function Shifted(m: Match, d: nat): Match {
    m.(start := m.start + d, end := m.end + d)
  }

  function ShiftedAll(ms: seq<Match>, d: nat): (r: seq<Match>)
    ensures |r| == |ms|
    decreases |ms|
  {
    if ms == [] then [] else [Shifted(ms[0], d)] + ShiftedAll(ms[1..], d)
  }

  /** Both conversions succeed and their tokens are concatenated, or the
      first failure is reported. */
  function Concat(x: Result<seq<Token>, NumberFormatError>, y: Result<seq<Token>, NumberFormatError>): Result<seq<Token>, NumberFormatError> {
    match x
    case Failure(e) => Failure(e)
    case Success(u) => After(u, y)
  }

  lemma {:induction false} MinusEndBeforeSpace(a: string, b: string, i: nat)
    requires i <= |a|
    ensures MinusEnd(a + " " + b, i) == MinusEnd(a, i)
    decreases |a| - i
  {
    var s := a + " " + b;
    if i < |a| {
      assert s[i] == a[i];
      if a[i] == '-' {
        MinusEndBeforeSpace(a, b, i + 1);
      }
    } else {
      assert s[i] == ' ';
    }
  }

  lemma {:induction false} DigitsEndBeforeSpace(a: string, b: string, i: nat)
    requires i <= |a|
    ensures DigitsEnd(a + " " + b, i) == DigitsEnd(a, i)
    decreases |a| - i
  {
    var s := a + " " + b;
    if i < |a| {
      assert s[i] == a[i];
      if IsDigit(a[i]) {
        DigitsEndBeforeSpace(a, b, i + 1);
      }
    } else {
      assert s[i] == ' ';
    }
  }

  lemma {:induction false} MinusEndAfterPrefix(p: string, b: string, j: nat)
    requires j <= |b|
    ensures MinusEnd(p + b, |p| + j) == |p| + MinusEnd(b, j)
    decreases |b| - j
  {
    if j < |b| {
      assert (p + b)[|p| + j] == b[j];
      if b[j] == '-' {
        MinusEndAfterPrefix(p, b, j + 1);
      }
    }
  }

  lemma {:induction false} DigitsEndAfterPrefix(p: string, b: string, j: nat)
    requires j <= |b|
    ensures DigitsEnd(p + b, |p| + j) == |p| + DigitsEnd(b, j)
    decreases |b| - j
  {
    if j < |b| {
      assert (p + b)[|p| + j] == b[j];
      if IsDigit(b[j]) {
        DigitsEndAfterPrefix(p, b, j + 1);
      }
    }
  }

  lemma NumberEndBeforeSpace(a: string, b: string, i: nat)
    requires i <= |a|
    ensures NumberEnd(a + " " + b, i) == NumberEnd(a, i)
  {
    var s := a + " " + b;
    MinusEndBeforeSpace(a, b, i);
    var p := MinusEnd(a, i);
    DigitsEndBeforeSpace(a, b, p);
    var q := DigitsEnd(a, p);
    if q + 1 <= |a| {
      DigitsEndBeforeSpace(a, b, q + 1);
    }
    assert q < |a| ==> s[q] == a[q];
    assert q + 1 < |a| ==> s[q + 1] == a[q + 1];
    assert q + 1 == |a| ==> s[q + 1] == ' ';
    assert q == |a| ==> s[q] == ' ';
  }

  lemma OperatorEndBeforeSpace(a: string, b: string, i: nat)
    requires i <= |a|
    ensures OperatorEnd(a + " " + b, i) == OperatorEnd(a, i)
  {
    var s := a + " " + b;
    assert i < |a| ==> s[i] == a[i];
    if i < |a| {
      assert i + 1 < |a| ==> s[i + 1] == a[i + 1];
      assert i + 2 < |a| ==> s[i + 2] == a[i + 2];
      assert i + 1 == |a| ==> s[i + 1] == ' ';
      assert i + 2 == |a| ==> s[i + 2] == ' ';
    } else {
      assert s[i] == ' ';
    }
  }

  lemma SliceBeforeSpace(a: string, b: string, lo: nat, hi: nat)
    requires lo <= hi <= |a|
    ensures (a + " " + b)[lo..hi] == a[lo..hi]
  {
  }

  /** Before the space, the pattern sees the same match as in `a` alone:
      no word of either alternative runs across a space. */
  lemma MatchAtBeforeSpace(a: string, b: string, i: nat)
    requires i <= |a|
    ensures MatchAt(a + " " + b, i) == MatchAt(a, i)
  {
    NumberEndBeforeSpace(a, b, i);
    OperatorEndBeforeSpace(a, b, i);
    match NumberEnd(a, i)
    case Some(e) =>
      SliceBeforeSpace(a, b, i, e);
    case None =>
      match OperatorEnd(a, i)
      case Some(e) =>
        SliceBeforeSpace(a, b, i, e);
      case None =>
  }

  lemma {:induction false} NumberEndAfterPrefix(p: string, b: string, j: nat)
    requires j <= |b|
    ensures NumberEnd(p + b, |p| + j) ==
      match NumberEnd(b, j)
      case Some(e) => Some(|p| + e)
      case None => None
  {
    var s := p + b;
    MinusEndAfterPrefix(p, b, j);
    var m := MinusEnd(b, j);
    DigitsEndAfterPrefix(p, b, m);
    var q := DigitsEnd(b, m);
    if q + 1 <= |b| {
      DigitsEndAfterPrefix(p, b, q + 1);
    }
    assert q < |b| ==> s[|p| + q] == b[q];
    assert q + 1 < |b| ==> s[|p| + q + 1] == b[q + 1];
  }

  lemma {:induction false} OperatorEndAfterPrefix(p: string, b: string, j: nat)
    requires j <= |b|
    ensures OperatorEnd(p + b, |p| + j) ==
      match OperatorEnd(b, j)
      case Some(e) => Some(|p| + e)
      case None => None
  {
    var s, i := p + b, |p| + j;
    assert j < |b| ==> s[i] == b[j];
    if j + 3 <= |b| {
      assert s[i..i + 3] == b[j..j + 3];
    }
  }

  function ShiftedMatch(r: Option<Match>, d: nat): Option<Match> {
    match r
    case Some(m) => Some(Shifted(m, d))
    case None => None
  }

  lemma SliceAfterPrefix(p: string, b: string, lo: nat, hi: nat)
    requires lo <= hi <= |b|
    ensures (p + b)[|p| + lo..|p| + hi] == b[lo..hi]
  {
  }

  lemma MatchAtAfterPrefixNumber(p: string, b: string, j: nat, e: nat)
    requires j <= |b|
    requires NumberEnd(b, j) == Some(e) && NumberEnd(p + b, |p| + j) == Some(|p| + e)
    ensures MatchAt(p + b, |p| + j) == ShiftedMatch(MatchAt(b, j), |p|)
  {
    SliceAfterPrefix(p, b, j, e);
  }

  lemma MatchAtAfterPrefixOperator(p: string, b: string, j: nat, e: nat)
    requires j <= |b|
    requires NumberEnd(b, j) == None && NumberEnd(p + b, |p| + j) == None
    requires OperatorEnd(b, j) == Some(e) && OperatorEnd(p + b, |p| + j) == Some(|p| + e)
    ensures MatchAt(p + b, |p| + j) == ShiftedMatch(MatchAt(b, j), |p|)
  {
    SliceAfterPrefix(p, b, j, e);
  }

  /** After any prefix, the pattern sees what it sees in the rest alone,
      moved by the prefix's length: the scanner only looks forward. */
  lemma MatchAtAfterPrefix(p: string, b: string, j: nat)
    requires j <= |b|
    ensures MatchAt(p + b, |p| + j) == ShiftedMatch(MatchAt(b, j), |p|)
  {
    NumberEndAfterPrefix(p, b, j);
    OperatorEndAfterPrefix(p, b, j);
    match NumberEnd(b, j)
    case Some(e) =>
      MatchAtAfterPrefixNumber(p, b, j, e);
    case None =>
      match OperatorEnd(b, j)
      case Some(e) =>
        MatchAtAfterPrefixOperator(p, b, j, e);
      case None =>
  }

  lemma FindAllSome(rs: seq<Option<Match>>, i: nat, m: Match)
    requires ValidScan(rs) && i < |rs| && rs[i] == Some(m)
    ensures FindAll(rs, i) == [m] + FindAll(rs, m.end)
  {
  }

  lemma FindAllNone(rs: seq<Option<Match>>, i: nat)
    requires ValidScan(rs) && i < |rs| && rs[i] == None
    ensures FindAll(rs, i) == FindAll(rs, i + 1)
  {
  }

  lemma ShiftedAllCons(m: Match, rest: seq<Match>, d: nat)
    ensures ShiftedAll([m] + rest, d) == [Shifted(m, d)] + ShiftedAll(rest, d)
  {
    assert ([m] + rest)[1..] == rest;
  }

  lemma ShiftedCons(m: Match, d: nat, x: seq<Match>, xr: seq<Match>, y: seq<Match>, yr: seq<Match>)
    requires x == [m] + xr && y == [Shifted(m, d)] + yr && yr == ShiftedAll(xr, d)
    ensures y == ShiftedAll(x, d)
  {
    ShiftedAllCons(m, xr, d);
  }

  /** Where two texts give the same attempts up to the end of the shorter
      one, `ra`, `findAll` over the longer one finds the matches of the
      shorter one first. */
  lemma {:induction false} FindAllAgree(rs: seq<Option<Match>>, ra: seq<Option<Match>>, i: nat)
    requires ValidScan(rs) && ValidScan(ra) && i <= |ra| <= |rs|
    requires forall k | i <= k < |ra| :: rs[k] == ra[k]
    ensures FindAll(rs, i) == FindAll(ra, i) + FindAll(rs, |ra|)
    decreases |ra| - i
  {
    if i < |ra| {
      match ra[i]
      case Some(m) =>
        FindAllAgree(rs, ra, m.end);
        assert [m] + (FindAll(ra, m.end) + FindAll(rs, |ra|)) ==
          [m] + FindAll(ra, m.end) + FindAll(rs, |ra|);
      case None =>
        FindAllAgree(rs, ra, i + 1);
    }
  }

  /** The attempts in `rs`, `d` positions on, are those in `rt` moved by
      `d`. */
  ghost predicate ShiftedScan(rs: seq<Option<Match>>, rt: seq<Option<Match>>, d: nat)
    requires |rs| == |rt| + d
  {
    forall k | 0 <= k < |rt| :: rs[k + d] == ShiftedMatch(rt[k], d)
  }

  /** Where the attempts in `rs`, `d` positions on, are those in `rt` moved
      by `d`, `findAll` over `rs` finds the matches of `rt`, moved by `d`. */
  lemma {:induction false} FindAllShifted(rs: seq<Option<Match>>, rt: seq<Option<Match>>, d: nat, j: nat)
    requires ValidScan(rs) && ValidScan(rt) && j <= |rt| && |rs| == |rt| + d
    requires ShiftedScan(rs, rt, d)
    ensures FindAll(rs, j + d) == ShiftedAll(FindAll(rt, j), d)
    decreases |rt| - j
  {
    if j < |rt| {
      assert rs[j + d] == ShiftedMatch(rt[j], d);
      if rt[j].Some? {
        FindAllShifted(rs, rt, d, rt[j].value.end);
      } else {
        FindAllShifted(rs, rt, d, j + 1);
      }
      FindAllShiftedStep(rs, rt, d, j);
    }
  }

  lemma FindAllShiftedStep(rs: seq<Option<Match>>, rt: seq<Option<Match>>, d: nat, j: nat)
    requires ValidScan(rs) && ValidScan(rt) && j < |rt| && |rs| == |rt| + d
    requires rs[j + d] == ShiftedMatch(rt[j], d)
    requires rt[j].Some? ==>
      FindAll(rs, rt[j].value.end + d) == ShiftedAll(FindAll(rt, rt[j].value.end), d)
    requires rt[j].None? ==> FindAll(rs, j + 1 + d) == ShiftedAll(FindAll(rt, j + 1), d)
    ensures FindAll(rs, j + d) == ShiftedAll(FindAll(rt, j), d)
  {
    match rt[j]
    case Some(m) =>
      var n := Shifted(m, d);
      assert n.end == m.end + d;
      FindAllSome(rt, j, m);
      FindAllSome(rs, j + d, n);
      ShiftedCons(m, d, FindAll(rt, j), FindAll(rt, m.end), FindAll(rs, j + d), FindAll(rs, n.end));
    case None =>
      FindAllNone(rt, j);
      FindAllNone(rs, j + d);
  }

  lemma {:induction false} TokensOfAppend(xs: seq<Match>, ys: seq<Match>)
    ensures TokensOf(xs + ys) == Concat(TokensOf(xs), TokensOf(ys))
    decreases |xs|
  {
    if xs == [] {
      assert xs + ys == ys;
      match TokensOf(ys)
      case Success(v) => assert [] + v == v;
      case Failure(_) =>
    } else {
      assert (xs + ys)[0] == xs[0] && (xs + ys)[1..] == xs[1..] + ys;
      TokensOfAppend(xs[1..], ys);
      match TokensOf(ys)
      case Success(v) =>
        assert forall t: Token, u: seq<Token> :: [t] + (u + v) == ([t] + u) + v;
      case Failure(_) =>
    }
  }

  /** Where a match stands does not change its token. */
  lemma {:induction false} TokensOfShifted(ms: seq<Match>, d: nat)
    ensures TokensOf(ShiftedAll(ms, d)) == TokensOf(ms)
    decreases |ms|
  {
    if ms != [] {
      TokensOfShifted(ms[1..], d);
      assert ShiftedAll(ms, d)[1..] == ShiftedAll(ms[1..], d);
    }
  }

  /** Up to the space, `findAll` over the joined line finds the matches
      of the first line; the space itself matches nothing. */
  lemma MatchesBeforeSpace(a: string, b: string)
    ensures Matches(a + " " + b) == Matches(a) + MatchesFrom(a + " " + b, |a| + 1)
  {
    var s := a + " " + b;
    forall k | 0 <= k < |a| ensures Scan(s)[k] == Scan(a)[k] {
      MatchAtBeforeSpace(a, b, k);
    }
    FindAllAgree(Scan(s), Scan(a), 0);
    MatchAtBeforeSpace(a, b, |a|);
    assert MatchAt(a, |a|) == None;
    MatchesFromNone(s, |a|);
  }

  /** After any prefix, `findAll` finds the matches of the rest alone,
      moved past the prefix. */
  lemma MatchesAfterPrefix(p: string, t: string)
    ensures MatchesFrom(p + t, |p|) == ShiftedAll(Matches(t), |p|)
  {
    ScanAfterPrefix(p, t);
    FindAllShifted(Scan(p + t), Scan(t), |p|, 0);
  }

  lemma ScanAfterPrefix(p: string, t: string)
    ensures ShiftedScan(Scan(p + t), Scan(t), |p|)
  {
    forall k | 0 <= k < |t| ensures Scan(p + t)[k + |p|] == ShiftedMatch(Scan(t)[k], |p|) {
      MatchAtAfterPrefix(p, t, k);
    }
  }

  /** The matches of two lines joined by a space are those of the first
      line followed by those of the second, moved past the space. */
  lemma MatchesOfSeparated(a: string, b: string)
    ensures Matches(a + " " + b) == Matches(a) + ShiftedAll(Matches(b), |a| + 1)
  {
    MatchesBeforeSpace(a, b);
    assert a + " " + b == (a + " ") + b;
    MatchesAfterPrefix(a + " ", b);
  }

  /** Tokenizing two lines joined by a space gives the tokens of the first
      followed by those of the second; when either throws, the joined line
      throws the first of their errors. */
  lemma TokensOfSeparated(a: string, b: string)
    ensures Tokens(a + " " + b) == Concat(Tokens(a), Tokens(b))
  {
    MatchesOfSeparated(a, b);
    TokensOfAppend(Matches(a), ShiftedAll(Matches(b), |a| + 1));
    TokensOfShifted(Matches(b), |a| + 1);
  }

  // ---------------------------------------------------------------------
  // Lines of one word

  lemma TokensOfSingle(m: Match)
    ensures TokensOf([m]) == match TokenOf(m)
      case Success(x) => Success([x])
      case Failure(e) => Failure(e)
  {
    assert [m][0] == m && [m][1..] == [];
    assert TokensOf([]) == Success([]);
    match TokenOf(m)
    case Success(x) => assert [x] + [] == [x];
    case Failure(_) =>
  }

  /** A line that is one number word and nothing else gives that one
      number, or throws when the word starts with two minus signs. */
  lemma TokensOfNumberWord(t: string)
    requires IsNumberWord(t)
    ensures !(|t| >= 2 && t[0] == '-' && t[1] == '-') ==>
      Tokens(t) == Success([NumberToken(ParseNumber(t).value)])
    ensures |t| >= 2 && t[0] == '-' && t[1] == '-' ==>
      Tokens(t) == Failure(NumberFormatError(t))
  {
    NumberEndIsLongest(t, 0);
    ParseNumberWord(t);
    assert t[0..|t|] == t;
    var m := Match(t, t, "", 0, |t|);
    assert MatchAt(t, 0) == Some(m);
    assert MatchesFrom(t, |t|) == [];
    assert MatchesFrom(t, 0) == [m] + MatchesFrom(t, |t|);
    assert Matches(t) == [m];
    assert [m][1..] == [];
    TokensOfSingle(m);
  }

  /** A line that is one operator symbol gives that one operator. */
  lemma TokensOfOperatorWord(t: string)
    requires IsOperatorWord(t)
    ensures Tokens(t) == Success([OperatorToken(t)])
  {
    NumberEndIsLongest(t, 0);
    assert forall j | 0 <= j < |t| :: !IsDigit(t[j]);
    assert NumberEnd(t, 0) == None;
    assert t[0..|t|] == t;
    var m := Match(t, "", t, 0, |t|);
    assert MatchAt(t, 0) == Some(m);
    assert MatchesFrom(t, |t|) == [];
    assert MatchesFrom(t, 0) == [m] + MatchesFrom(t, |t|);
    assert Matches(t) == [m];
    assert [m][1..] == [];
    TokensOfSingle(m);
  }

  /** An optional minus sign followed by digits and nothing else converts
      to the value of the digits, negated after a minus sign. */
  lemma {:induction false} ParseWhole(t: string, sign: nat)
    requires sign <= 1 && sign < |t| && (sign == 1 ==> t[0] == '-')
    requires forall j | sign <= j < |t| :: IsDigit(t[j])
    ensures ParseNumber(t) == Success(
      if sign == 1 then -(DigitsValue(t[sign..]) as real) else DigitsValue(t[sign..]) as real)
  {
    DigitsEndAll(t, sign);
    assert t[sign..|t|] == t[sign..];
  }

  /** The value `toDouble` gives a string of digits ... */
  lemma {:induction false} ParseDigits(d: string)
    requires |d| > 0 && forall j | 0 <= j < |d| :: IsDigit(d[j])
    ensures ParseNumber(d) == Success(DigitsValue(d) as real)
    ensures IsNumberWord(d)
  {
    ParseWhole(d, 0);
    assert d[0..] == d;
    assert AllMinus(d, 0, 0) && AllDigits(d, 0, |d|);
  }

  /** ... and the same string after one minus sign. */
  lemma {:induction false} ParseNegatedDigits(d: string)
    requires |d| > 0 && forall j | 0 <= j < |d| :: IsDigit(d[j])
    ensures ParseNumber("-" + d) == Success(-(DigitsValue(d) as real))
    ensures IsNumberWord("-" + d)
  {
    NegatedDigitsValue(d);
    NegatedDigitsWord(d);
  }

  lemma {:induction false} NegatedDigitsValue(d: string)
    requires |d| > 0 && forall j | 0 <= j < |d| :: IsDigit(d[j])
    ensures ParseNumber("-" + d) == Success(-(DigitsValue(d) as real))
  {
    var t := "-" + d;
    assert t[0] == '-' && t[1..] == d;
    ParseWhole(t, 1);
  }

  lemma {:induction false} NegatedDigitsWord(d: string)
    requires |d| > 0 && forall j | 0 <= j < |d| :: IsDigit(d[j])
    ensures IsNumberWord("-" + d)
  {
    var t := "-" + d;
    assert AllMinus(t, 0, 1) && AllDigits(t, 1, |t|);
  }

  /** `x` multiplied by ten `n` times: the decimal point moved `n` places
      to the right. */
  function Shift(x: real, n: nat): real {
    if n == 0 then x else 10.0 * Shift(x, n - 1)
  }

  lemma {:induction false} ShiftAdd(x: real, y: real, n: nat)
    ensures Shift(x + y, n) == Shift(x, n) + Shift(y, n)
  {
    if n > 0 {
      ShiftAdd(x, y, n - 1);
    }
  }

  lemma {:induction false} ShiftTen(x: real, n: nat)
    ensures Shift(x, n + 1) == Shift(10.0 * x, n)
  {
    if n > 0 {
      ShiftTen(x, n - 1);
    }
  }

  /** One more digit at the end multiplies the value by ten and adds the
      digit. */
  lemma {:induction false} DigitsValueSnoc(d: string, c: char)
    requires forall j | 0 <= j < |d| :: IsDigit(d[j])
    requires IsDigit(c)
    ensures DigitsValue(d + [c]) == 10 * DigitsValue(d) + DigitValue(c)
  {
    var e := d + [c];
    assert e[..|e| - 1] == d && e[|e| - 1] == c;
  }

  /** Digits written after other digits: the value of the first string is
      shifted one place per digit that follows. */
  lemma {:induction false} DigitsValueAppend(w: string, f: string)
    requires forall j | 0 <= j < |w| :: IsDigit(w[j])
    requires forall j | 0 <= j < |f| :: IsDigit(f[j])
    ensures DigitsValue(w + f) as real == Shift(DigitsValue(w) as real, |f|) + DigitsValue(f) as real
    decreases |f|
  {
    if f == [] {
      assert w + f == w;
    } else {
      var g, c := f[..|f| - 1], f[|f| - 1];
      assert f == g + [c];
      assert w + f == (w + g) + [c];
      DigitsValueAppend(w, g);
      DigitsValueSnoc(w + g, c);
      DigitsValueSnoc(g, c);
    }
  }

  /** The digits after a decimal point, shifted one place per digit, are
      worth the digits read as a whole number. */
  lemma {:induction false} FractionShifted(f: string)
    requires forall j | 0 <= j < |f| :: IsDigit(f[j])
    ensures Shift(Fraction(f), |f|) == DigitsValue(f) as real
    decreases |f|
  {
    if f != [] {
      var c, g := f[0], f[1..];
      assert f == [c] + g;
      FractionShifted(g);
      DigitsValueAppend([c], g);
      assert [c][..0] == [];
      assert DigitsValue([c]) == DigitValue(c);
      var x := DigitValue(c) as real + Fraction(g);
      ShiftTen(x / 10.0, |g|);
      assert 10.0 * (x / 10.0) == x;
      ShiftAdd(DigitValue(c) as real, Fraction(g), |g|);
    }
  }

  /** A digit run that reaches a non-digit ends there. */
  lemma {:induction false} DigitsEndAt(s: string, i: nat, q: nat)
    requires i <= q < |s| && !IsDigit(s[q])
    requires forall j | i <= j < q :: IsDigit(s[j])
    ensures DigitsEnd(s, i) == q
    decreases q - i
  {
    if i < q {
      DigitsEndAt(s, i + 1, q);
    }
  }

  /** Digits, a dot and more digits convert to the whole part plus the
      fraction. */
  lemma {:induction false} ParseWithFraction(t: string, q: nat)
    requires 0 < q && q + 1 < |t| && t[q] == '.'
    requires forall j | 0 <= j < q :: IsDigit(t[j])
    requires forall j | q + 1 <= j < |t| :: IsDigit(t[j])
    ensures ParseNumber(t) == Success(DigitsValue(t[..q]) as real + Fraction(t[q + 1..]))
  {
    DigitsEndAt(t, 0, q);
    DigitsEndAll(t, q + 1);
    assert t[0..q] == t[..q];
  }

  /** A lexeme with a fractional part, digits `w`, a dot and digits `f`,
      converts to the value whose decimal point, moved one place right per
      digit of `f`, gives the whole number `wf`. */
  lemma {:induction false} ParseFraction(t: string, q: nat)
    requires 0 < q && q + 1 < |t| && t[q] == '.'
    requires forall j | 0 <= j < q :: IsDigit(t[j])
    requires forall j | q + 1 <= j < |t| :: IsDigit(t[j])
    ensures ParseNumber(t).Success?
    ensures Shift(ParseNumber(t).value, |t| - q - 1) == DigitsValue(t[..q] + t[q + 1..]) as real
  {
    ParseWithFraction(t, q);
    assert |t[q + 1..]| == |t| - q - 1;
    DecimalShifted(t[..q], t[q + 1..]);
  }

  /** A whole part plus a fraction, shifted one place per fraction digit,
      is the whole number written with the digits of both. */
  lemma {:induction false} DecimalShifted(w: string, f: string)
    requires forall j | 0 <= j < |w| :: IsDigit(w[j])
    requires forall j | 0 <= j < |f| :: IsDigit(f[j])
    ensures Shift(DigitsValue(w) as real + Fraction(f), |f|) == DigitsValue(w + f) as real
  {
    FractionShifted(f);
    DigitsValueAppend(w, f);
    ShiftAdd(DigitsValue(w) as real, Fraction(f), |f|);
  }

  lemma {:induction false} DigitsEndAll(s: string, i: nat)
    requires i <= |s| && forall j | i <= j < |s| :: IsDigit(s[j])
    ensures DigitsEnd(s, i) == |s|
    decreases |s| - i
  {
    if i < |s| {
      DigitsEndAll(s, i + 1);
    }
  }

  // ---------------------------------------------------------------------
  // A number ends where its digits end

  lemma {:induction false} DigitsEndOfRun(a: string, t: string, i: nat)
    requires i <= |a| && forall j | 0 <= j < |a| :: IsDigit(a[j])
    requires t == [] || !IsDigit(t[0])
    ensures DigitsEnd(a + t, i) == |a|
    decreases |a| - i
  {
    if i < |a| {
      assert (a + t)[i] == a[i];
      DigitsEndOfRun(a, t, i + 1);
    } else if t != [] {
      assert (a + t)[i] == t[0];
    }
  }

  lemma MatchAtDigits(a: string, t: string)
    requires |a| > 0 && forall j | 0 <= j < |a| :: IsDigit(a[j])
    requires t == [] || (!IsDigit(t[0]) && t[0] != '.')
    ensures MatchAt(a + t, 0) == Some(Match(a, a, "", 0, |a|))
  {
    var s := a + t;
    assert s[0] == a[0];
    DigitsEndOfRun(a, t, 0);
    assert |a| < |s| ==> s[|a|] == t[0];
    assert s[0..|a|] == a;
  }

  /** A run of digits followed by anything that is neither a digit nor a
      dot is matched as one number, and the scan goes on after it exactly
      as it would over the rest alone. */
  lemma MatchesAfterDigits(a: string, t: string)
    requires |a| > 0 && forall j | 0 <= j < |a| :: IsDigit(a[j])
    requires t == [] || (!IsDigit(t[0]) && t[0] != '.')
    ensures Matches(a + t) == [Match(a, a, "", 0, |a|)] + ShiftedAll(Matches(t), |a|)
  {
    MatchAtDigits(a, t);
    MatchesAfterPrefix(a, t);
  }

  /** So a line that starts with digits tokenizes as those digits followed
      by the rest of the line, with no space needed before a minus sign
      or an operator. */
  lemma TokensAfterDigits(a: string, t: string)
    requires |a| > 0 && forall j | 0 <= j < |a| :: IsDigit(a[j])
    requires t == [] || (!IsDigit(t[0]) && t[0] != '.')
    ensures Tokens(a + t) == Concat(Tokens(a), Tokens(t))
  {
    var m := Match(a, a, "", 0, |a|);
    MatchesAfterDigits(a, t);
    MatchesAfterDigits(a, []);
    assert a + [] == a;
    assert Matches([]) == [];
    assert ShiftedAll([], |a|) == [];
    assert [m] + [] == [m];
    TokensOfAppend([m], ShiftedAll(Matches(t), |a|));
    TokensOfShifted(Matches(t), |a|);
  }
}
