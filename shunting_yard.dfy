/** The parse of calc.cpp as functions: one left-to-right scan over the
    input with a stack of terms and a stack of operator characters (the
    top is the last element of each sequence).  `ExpressionParser` in
    module Parser runs the same scan with loops and is proved to compute
    `Parse`. */
module ShuntingYard {
  import opened Results
  import opened Expressions
  import opened Scanning

  /** The `opMap` the parser's constructor fills. */
  const OperatorTable: map<char, BinaryKind> :=
    map['+' := AddKind, '-' := SubtractKind, '*' := MultiplyKind, '/' := DivideKind, '^' := PowerKind]

  /** The `opPrecedence` the parser's constructor fills. */
  const PrecedenceTable: map<char, int> :=
    map['+' := 1, '-' := 1, '*' := 2, '/' := 2, '^' := 3]

  predicate IsOperator(c: char) {
    c in OperatorTable
  }

  /** `opPrecedence[op]`; `std::map` yields 0 for a missing key. */
  function Precedence(op: char): int {
    if op in PrecedenceTable then PrecedenceTable[op] else 0
  }

  predicate IsHigherPrecedence(a: char, b: char) {
    Precedence(a) > Precedence(b)
  }

  /** The node `opMap[op]` builds. */
  function Combine(op: char, l: Expr, r: Expr): Expr
    requires IsOperator(op)
  {
    MakeBinary(OperatorTable[op], l, r)
  }

  /** `processOperator`: pops the right operand, then the left one, and
      pushes their combination.  An operator without an `opMap` entry
      (only `(` reaches here) calls an empty `std::function`. */
  function Reduce(terms: seq<Expr>, op: char): (r: Result<seq<Expr>>)
    ensures |terms| < 2 <==> r == Err(InsufficientValues)
    ensures |terms| >= 2 && !IsOperator(op) ==> r == Err(BadFunctionCall)
    ensures |terms| >= 2 && IsOperator(op) ==>
      r.Ok? && |r.value| == |terms| - 1 &&
      r.value[..|terms| - 2] == terms[..|terms| - 2] &&
      r.value[|terms| - 2] == Combine(op, terms[|terms| - 2], terms[|terms| - 1])
  {
    if |terms| < 2 then Err(InsufficientValues)
    else
      var right := terms[|terms| - 1];
      var left := terms[|terms| - 2];
      if !IsOperator(op) then Err(BadFunctionCall)
      else Ok(terms[..|terms| - 2] + [Combine(op, left, right)])
  }

  datatype Stacks = Stacks(terms: seq<Expr>, ops: seq<char>)

  /** On an incoming operator `c`: reduce while the top of `ops` is an
      operator of strictly higher precedence (calc.cpp:101-104). */
  function ReduceHigher(terms: seq<Expr>, ops: seq<char>, c: char): Result<Stacks>
    decreases |ops|
  {
    if ops != [] && IsOperator(ops[|ops| - 1]) && IsHigherPrecedence(ops[|ops| - 1], c) then
      var t :- Reduce(terms, ops[|ops| - 1]);
      ReduceHigher(t, ops[..|ops| - 1], c)
    else
      Ok(Stacks(terms, ops))
  }

  /** On `)`: reduce down to the nearest `(` and drop it (calc.cpp:111-120). */
  function CloseParen(terms: seq<Expr>, ops: seq<char>): Result<Stacks>
    decreases |ops|
  {
    if ops != [] && ops[|ops| - 1] != '(' then
      var t :- Reduce(terms, ops[|ops| - 1]);
      CloseParen(t, ops[..|ops| - 1])
    else if ops != [] then
      Ok(Stacks(terms, ops[..|ops| - 1]))
    else
      Err(MismatchedParentheses)
  }

  /** At the end of the input: reduce every stacked operator, last pushed
      first (calc.cpp:140-143). */
  function ReduceAll(terms: seq<Expr>, ops: seq<char>): Result<seq<Expr>>
    decreases |ops|
  {
    if ops == [] then Ok(terms)
    else
      var t :- Reduce(terms, ops[|ops| - 1]);
      ReduceAll(t, ops[..|ops| - 1])
  }

  /** The end of `parse`: drain, then exactly one term must be left
      (calc.cpp:140-149). */
  function Finish(terms: seq<Expr>, ops: seq<char>): Result<Expr> {
    var t :- ReduceAll(terms, ops);
    if |t| != 1 then Err(InvalidExpression) else Ok(t[0])
  }

  /** The main loop of `parse` from position `i` with the given stacks. */
  function Scan(s: string, i: nat, terms: seq<Expr>, ops: seq<char>): Result<Expr>
    requires i <= |s|
    decreases |s|, |s| - i, 2
  {
    var j := SkipSpaces(s, i);
    if j == |s| then Finish(terms, ops) else Token(s, j, terms, ops)
  }

  /** One pass of the loop body of `parse` on the visible character at `j`. */
  function Token(s: string, j: nat, terms: seq<Expr>, ops: seq<char>): Result<Expr>
    requires j < |s|
    decreases |s|, |s| - j, 1
  {
    var c := s[j];
    if IsDigit(c) || c == '.' then NumberStep(s, j, terms, ops)
    else if IsOperator(c) then OperatorStep(s, j, terms, ops)
    else if c == '(' then Scan(s, j + 1, terms, ops + ['('])
    else if c == ')' then CloseStep(s, j, terms, ops)
    else if IsAlpha(c) then NameStep(s, j, terms, ops)
    else Err(InvalidToken)
  }

  /** A number: pushed as a term (calc.cpp:94-98). */
  function NumberStep(s: string, j: nat, terms: seq<Expr>, ops: seq<char>): Result<Expr>
    requires j < |s| && (IsDigit(s[j]) || s[j] == '.')
    decreases |s|, |s| - j, 0
  {
    var t := LexNumber(s, j);
    if t.scanned then Scan(s, t.end, terms + [Number(t.value)], ops)
    // a failed `>>` stores 0 and ends the `while (iss >> c)` loop
    else Finish(terms + [Number(0.0)], ops)
  }

  /** An operator: reduce the stronger ones, then push it (calc.cpp:100-106). */
  function OperatorStep(s: string, j: nat, terms: seq<Expr>, ops: seq<char>): Result<Expr>
    requires j < |s|
    decreases |s|, |s| - j, 0
  {
    var st :- ReduceHigher(terms, ops, s[j]);
    Scan(s, j + 1, st.terms, st.ops + [s[j]])
  }

  /** A `)`: reduce down to the matching `(` (calc.cpp:110-121). */
  function CloseStep(s: string, j: nat, terms: seq<Expr>, ops: seq<char>): Result<Expr>
    requires j < |s|
    decreases |s|, |s| - j, 0
  {
    var st :- CloseParen(terms, ops);
    Scan(s, j + 1, st.terms, st.ops)
  }

  /** A letter: a function name, which must be `sin` or `cos` (calc.cpp:122-134). */
  function NameStep(s: string, j: nat, terms: seq<Expr>, ops: seq<char>): Result<Expr>
    requires j < |s|
    decreases |s|, |s| - j, 0
  {
    var (name, k) := Name(s, j);
    if name == "sin" || name == "cos" then
      var call :- FunctionCall(s, k, name);
      Scan(s, call.1, terms + [call.0], ops)
    else
      Err(UnknownFunction(name))
  }

  /** `parseFunction` at position `k`, just after the name: the next
      visible character must be `(`; the argument up to the matching `)`
      is parsed by a recursive `Parse`. */
  function FunctionCall(s: string, k: nat, name: string): (r: Result<(Expr, nat)>)
    requires k <= |s|
    ensures r.Ok? ==> k < r.value.1 <= |s|
    ensures (SkipSpaces(s, k) == |s| || s[SkipSpaces(s, k)] != '(') ==> r == Err(ExpectedOpenParen)
    ensures r.Ok? ==> (name == "sin" && r.value.0.Sin?) || (name == "cos" && r.value.0.Cos?)
    decreases |s|, |s| - k, 2
  {
    var j := SkipSpaces(s, k);
    if j == |s| || s[j] != '(' then
      Err(ExpectedOpenParen)
    else
      var arg :- ArgumentFrom(s, j + 1, 1, []);
      var operand :- Parse(arg.0);
      if name == "sin" then Ok((Sin(operand), arg.1))
      else if name == "cos" then Ok((Cos(operand), arg.1))
      else Err(UnknownFunction(name))
  }

  /** `ExtendedExpressionParser::parse`. */
  function Parse(s: string): Result<Expr>
    decreases |s|, |s| + 1
  {
    Scan(s, 0, [], [])
  }

  // ---------------------------------------------------------------------
  // Function calls and rejected characters

  /** A call succeeds only on a `(` and the `)` that balances it; its
      operand is the parse of the visible text between the two. */
  lemma CallArgumentText(s: string, k: nat, name: string)
    requires k <= |s|
    ensures var r := FunctionCall(s, k, name);
      r.Ok? ==>
        var j, end := SkipSpaces(s, k), r.value.1;
        && j < |s| && s[j] == '(' && j + 1 < end && s[end - 1] == ')'
        && ClosesAt(s, j + 1, end)
        && Parse(Visible(s[j + 1..end - 1])) == Ok(r.value.0.operand)
  {
    var j := SkipSpaces(s, k);
    if j < |s| && s[j] == '(' {
      ArgumentIsText(s, j + 1);
    }
  }

  /** A name other than `sin` and `cos` ends the parse with "Unknown function". */
  lemma ScanRejectsName(s: string, i: nat, terms: seq<Expr>, ops: seq<char>)
    requires i <= |s|
    requires var j := SkipSpaces(s, i);
      j < |s| && IsAlpha(s[j]) && Name(s, j).0 != "sin" && Name(s, j).0 != "cos"
    ensures Scan(s, i, terms, ops) == Err(UnknownFunction(Name(s, SkipSpaces(s, i)).0))
  {
    var j := SkipSpaces(s, i);
    assert !IsDigit(s[j]) && s[j] != '.' && !IsOperator(s[j]) && s[j] != '(' && s[j] != ')';
    assert Token(s, j, terms, ops) == NameStep(s, j, terms, ops);
  }

  /** A `sin` or `cos` call that fails ends the parse with the error of
      `parseFunction`. */
  lemma ScanCallFails(s: string, i: nat, terms: seq<Expr>, ops: seq<char>)
    requires i <= |s|
    requires var j := SkipSpaces(s, i);
      j < |s| && IsAlpha(s[j]) && (Name(s, j).0 == "sin" || Name(s, j).0 == "cos") &&
      FunctionCall(s, Name(s, j).1, Name(s, j).0).Err?
    ensures var name := Name(s, SkipSpaces(s, i));
      Scan(s, i, terms, ops) == Err(FunctionCall(s, name.1, name.0).error)
  {
    var j := SkipSpaces(s, i);
    assert !IsDigit(s[j]) && s[j] != '.' && !IsOperator(s[j]) && s[j] != '(' && s[j] != ')';
    assert Token(s, j, terms, ops) == NameStep(s, j, terms, ops);
  }

  /** Any other visible character ends the parse with "Invalid character or token". */
  lemma ScanRejectsCharacter(s: string, i: nat, terms: seq<Expr>, ops: seq<char>)
    requires i <= |s|
    requires var j := SkipSpaces(s, i);
      j < |s| && !IsDigit(s[j]) && s[j] != '.' && !IsOperator(s[j]) &&
      s[j] != '(' && s[j] != ')' && !IsAlpha(s[j])
    ensures Scan(s, i, terms, ops) == Err(InvalidToken)
  {
  }

  // ---------------------------------------------------------------------
  // What the reductions do to the stacks

  /** Every character of `ops` is a binary operator (no `(` is left). */
  predicate AllOperators(ops: seq<char>) {
    forall k :: 0 <= k < |ops| ==> IsOperator(ops[k])
  }

  /** On an incoming operator `c`, exactly the operators of strictly higher
      precedence on top of `ops` are reduced: the draining stops at an
      operator of lower or equal precedence, at a `(`, or at the bottom. */
  lemma ReduceHigherStops(terms: seq<Expr>, ops: seq<char>, c: char)
    ensures var r := ReduceHigher(terms, ops, c);
      r.Err? ==> r.error == InsufficientValues
    ensures var r := ReduceHigher(terms, ops, c);
      r.Ok? ==>
        var n := |r.value.ops|;
        && n <= |ops| && r.value.ops == ops[..n]
        && (forall k :: n <= k < |ops| ==> IsOperator(ops[k]) && Precedence(ops[k]) > Precedence(c))
        && (n == 0 || !IsOperator(ops[n - 1]) || Precedence(ops[n - 1]) <= Precedence(c))
  {
    ReduceHigherPrefix(terms, ops, c);
    ReduceHigherReduced(terms, ops, c);
    ReduceHigherHalts(terms, ops, c);
  }

  /** The operators the draining removes are all of higher precedence. */
  lemma {:induction false} ReduceHigherReduced(terms: seq<Expr>, ops: seq<char>, c: char)
    ensures var r := ReduceHigher(terms, ops, c);
      r.Ok? ==> forall k :: |r.value.ops| <= k < |ops| ==> IsOperator(ops[k]) && Precedence(ops[k]) > Precedence(c)
    decreases |ops|
  {
    var r := ReduceHigher(terms, ops, c);
    if ops != [] && IsOperator(ops[|ops| - 1]) && IsHigherPrecedence(ops[|ops| - 1], c) {
      var t := Reduce(terms, ops[|ops| - 1]);
      if t.Ok? {
        var rest := ops[..|ops| - 1];
        assert r == ReduceHigher(t.value, rest, c);
        ReduceHigherReduced(t.value, rest, c);
        if r.Ok? {
          forall k | |r.value.ops| <= k < |ops|
            ensures IsOperator(ops[k]) && Precedence(ops[k]) > Precedence(c)
          {
            if k < |rest| {
              assert ops[k] == rest[k];
            }
          }
        }
      }
    }
  }

  /** The draining halts at an operator it must not reduce. */
  lemma {:induction false} ReduceHigherHalts(terms: seq<Expr>, ops: seq<char>, c: char)
    ensures var r := ReduceHigher(terms, ops, c);
      r.Ok? ==>
        var n := |r.value.ops|;
        n <= |ops| && (n == 0 || !IsOperator(ops[n - 1]) || Precedence(ops[n - 1]) <= Precedence(c))
    decreases |ops|
  {
    ReduceHigherPrefix(terms, ops, c);
    var r := ReduceHigher(terms, ops, c);
    if ops != [] && IsOperator(ops[|ops| - 1]) && IsHigherPrecedence(ops[|ops| - 1], c) {
      var t := Reduce(terms, ops[|ops| - 1]);
      if t.Ok? {
        var rest := ops[..|ops| - 1];
        assert r == ReduceHigher(t.value, rest, c);
        ReduceHigherHalts(t.value, rest, c);
        if r.Ok? && |r.value.ops| > 0 {
          assert ops[|r.value.ops| - 1] == rest[|r.value.ops| - 1];
        }
      }
    }
  }

  /** What is left of `ops` after the draining is a prefix of it. */
  lemma {:induction false} ReduceHigherPrefix(terms: seq<Expr>, ops: seq<char>, c: char)
    ensures var r := ReduceHigher(terms, ops, c);
      r.Err? ==> r.error == InsufficientValues
    ensures var r := ReduceHigher(terms, ops, c);
      r.Ok? ==> |r.value.ops| <= |ops| && r.value.ops == ops[..|r.value.ops|]
    decreases |ops|
  {
    var r := ReduceHigher(terms, ops, c);
    if ops != [] && IsOperator(ops[|ops| - 1]) && IsHigherPrecedence(ops[|ops| - 1], c) {
      var t := Reduce(terms, ops[|ops| - 1]);
      if t.Ok? {
        var rest := ops[..|ops| - 1];
        assert r == ReduceHigher(t.value, rest, c);
        ReduceHigherPrefix(t.value, rest, c);
        if r.Ok? {
          assert rest[..|r.value.ops|] == ops[..|r.value.ops|];
        }
      }
    } else {
      assert ops[..|ops|] == ops;
    }
  }

  /** Each operator the draining reduces consumes one term, and the terms
      below the reduced ones are unchanged. */
  lemma {:induction false} ReduceHigherTerms(terms: seq<Expr>, ops: seq<char>, c: char)
    ensures var r := ReduceHigher(terms, ops, c);
      r.Ok? ==>
        var m := |r.value.terms|;
        && |r.value.ops| <= |ops|
        && m == |terms| - (|ops| - |r.value.ops|)
        && (m >= 1 ==> r.value.terms[..m - 1] == terms[..m - 1])
    decreases |ops|
  {
    var r := ReduceHigher(terms, ops, c);
    if ops != [] && IsOperator(ops[|ops| - 1]) && IsHigherPrecedence(ops[|ops| - 1], c) {
      var t := Reduce(terms, ops[|ops| - 1]);
      if t.Ok? {
        var rest := ops[..|ops| - 1];
        assert r == ReduceHigher(t.value, rest, c);
        ReduceHigherTerms(t.value, rest, c);
        if r.Ok? {
          var m := |r.value.terms|;
          if m >= 1 {
            assert t.value[..m - 1] == t.value[..|terms| - 2][..m - 1];
          }
        }
      }
    }
  }

  /** On `)`, operators are reduced down to the nearest `(`, and exactly
      that one `(` is removed, and the terms below the reduced ones are
      kept; without a `(` on `ops` the call fails, with
      "Mismatched parentheses" once the operators are all reduced. */
  lemma CloseParenPops(terms: seq<Expr>, ops: seq<char>)
    ensures var r := CloseParen(terms, ops);
      r.Ok? ==>
        var n := |r.value.ops|;
        && n < |ops| && ops[n] == '(' && r.value.ops == ops[..n]
        && (forall k :: n < k < |ops| ==> ops[k] != '(')
        && |r.value.terms| == |terms| - (|ops| - n - 1)
        && (|r.value.terms| >= 1 ==> r.value.terms[..|r.value.terms| - 1] == terms[..|r.value.terms| - 1])
    ensures '(' !in ops ==> CloseParen(terms, ops).Err?
    ensures '(' !in ops && AllOperators(ops) && |terms| > |ops| ==>
      CloseParen(terms, ops) == Err(MismatchedParentheses)
  {
    CloseParenShape(terms, ops);
    CloseParenKeeps(terms, ops);
    if '(' !in ops {
      CloseParenFails(terms, ops);
    }
  }

  /** The stacks a successful `)` leaves. */
  lemma {:induction false} CloseParenShape(terms: seq<Expr>, ops: seq<char>)
    ensures var r := CloseParen(terms, ops);
      r.Ok? ==>
        var n := |r.value.ops|;
        && n < |ops| && ops[n] == '(' && r.value.ops == ops[..n]
        && (forall k :: n < k < |ops| ==> ops[k] != '(')
        && |r.value.terms| == |terms| - (|ops| - n - 1)
    decreases |ops|
  {
    var r := CloseParen(terms, ops);
    if ops != [] && ops[|ops| - 1] != '(' {
      var t := Reduce(terms, ops[|ops| - 1]);
      if t.Ok? {
        var rest := ops[..|ops| - 1];
        assert r == CloseParen(t.value, rest);
        CloseParenShape(t.value, rest);
        if r.Ok? {
          var n := |r.value.ops|;
          assert rest[..n] == ops[..n];
          assert forall k :: n < k < |rest| ==> ops[k] == rest[k];
        }
      }
    } else if ops != [] {
      assert r.value.ops == ops[..|ops| - 1];
    }
  }

  /** Without a `(` on `ops`, `)` fails. */
  lemma {:induction false} CloseParenFails(terms: seq<Expr>, ops: seq<char>)
    requires '(' !in ops
    ensures CloseParen(terms, ops).Err?
    ensures AllOperators(ops) && |terms| > |ops| ==> CloseParen(terms, ops) == Err(MismatchedParentheses)
    decreases |ops|
  {
    if ops != [] {
      var t := Reduce(terms, ops[|ops| - 1]);
      var rest := ops[..|ops| - 1];
      assert '(' !in rest;
      assert AllOperators(ops) ==> AllOperators(rest);
      if t.Ok? {
        assert CloseParen(terms, ops) == CloseParen(t.value, rest);
        CloseParenFails(t.value, rest);
      }
    }
  }

  /** The `)` step replaces only the terms it reduces: every term below
      the last one left is unchanged. */
  lemma {:induction false} CloseParenKeeps(terms: seq<Expr>, ops: seq<char>)
    ensures var r := CloseParen(terms, ops);
      r.Ok? ==>
        var m := |r.value.terms|;
        m <= |terms| && (m >= 1 ==> r.value.terms[..m - 1] == terms[..m - 1])
    decreases |ops|
  {
    var r := CloseParen(terms, ops);
    if ops != [] && ops[|ops| - 1] != '(' {
      var t := Reduce(terms, ops[|ops| - 1]);
      if t.Ok? {
        var rest := ops[..|ops| - 1];
        assert r == CloseParen(t.value, rest);
        CloseParenKeeps(t.value, rest);
        if r.Ok? {
          var m := |r.value.terms|;
          if m >= 1 {
            assert t.value[..m - 1] == t.value[..|terms| - 2][..m - 1];
          }
        }
      }
    }
  }

  /** The final drain succeeds exactly when every stacked character is an
      operator and there is one more term than operators (or nothing to
      reduce); each reduction leaves one term fewer. */
  lemma {:induction false} ReduceAllCounts(terms: seq<Expr>, ops: seq<char>)
    ensures ReduceAll(terms, ops).Ok? <==> AllOperators(ops) && (ops == [] || |terms| > |ops|)
    ensures ReduceAll(terms, ops).Ok? ==> |ReduceAll(terms, ops).value| == |terms| - |ops|
    ensures ReduceAll(terms, ops).Err? ==>
      ReduceAll(terms, ops).error == InsufficientValues || ReduceAll(terms, ops).error == BadFunctionCall
    decreases |ops|
  {
    if ops != [] {
      var t := Reduce(terms, ops[|ops| - 1]);
      var rest := ops[..|ops| - 1];
      assert AllOperators(ops) <==> AllOperators(rest) && IsOperator(ops[|ops| - 1]);
      if t.Ok? {
        ReduceAllCounts(t.value, rest);
      }
    }
  }

  /** A parse that reaches the end of the input succeeds exactly when the
      stacks hold operators only and one term more than operators; the one
      term left is the result. */
  lemma FinishSucceeds(terms: seq<Expr>, ops: seq<char>)
    ensures Finish(terms, ops).Ok? <==> AllOperators(ops) && |terms| == |ops| + 1
    ensures Finish(terms, ops).Ok? ==> ReduceAll(terms, ops) == Ok([Finish(terms, ops).value])
  {
    ReduceAllCounts(terms, ops);
    var t := ReduceAll(terms, ops);
    if t.Ok? && |t.value| == 1 {
      assert t.value == [t.value[0]];
    }
  }

  /** A `(` left on `ops` at the end of the input always fails, and never
      with "Mismatched parentheses". */
  lemma LeftoverParenFails(terms: seq<Expr>, ops: seq<char>)
    requires '(' in ops
    ensures Finish(terms, ops).Err?
    ensures Finish(terms, ops).error != MismatchedParentheses
  {
    ReduceAllCounts(terms, ops);
    FinishSucceeds(terms, ops);
  }
}
