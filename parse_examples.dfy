/** The inputs of the repository's own tests, and one input for each error
    path of `parse`.  The helper lemmas without a row of their own (for
    instance `OpenOverOperandsFirst`, `Second` and `Last`) each scan one
    part of an input, so that no single proof has to run the whole scan. */
module ParseExamples {
  import opened Results
  import opened Expressions
  import opened Scanning
  import opened ShuntingYard
  import opened ParseProperties

  lemma Digits()
    ensures IsNumeral("0") && NumberOf("0") == Number(0.0)
    ensures IsNumeral("1") && NumberOf("1") == Number(1.0)
    ensures IsNumeral("2") && NumberOf("2") == Number(2.0)
    ensures IsNumeral("3") && NumberOf("3") == Number(3.0)
  {
    assert "0"[..0] == [] && "1"[..0] == [] && "2"[..0] == [] && "3"[..0] == [];
  }

  lemma Levels()
    ensures Precedence('+') == 1 && Precedence('-') == 1
    ensures Precedence('*') == 2 && Precedence('^') == 3
    ensures Combine('+', Number(1.0), Number(2.0)) == Add(Number(1.0), Number(2.0))
  {
  }

  /** `1+2` is `Add(1, 2)`, which evaluates to 3. */
  lemma Sum(m: MathLib)
    ensures Parse("1+2") == Ok(Add(Number(1.0), Number(2.0)))
    ensures Eval(Add(Number(1.0), Number(2.0)), m) == Ok(3.0)
  {
    Digits();
    OneOperator("1", "2", '+');
    assert "1" + ['+'] + "2" == "1+2";
  }

  /** `1+2*3` is `1+(2*3)`, which evaluates to 7: `*` binds tighter. */
  lemma Precedences(m: MathLib)
    ensures Parse("1+2*3") == Ok(Add(Number(1.0), Multiply(Number(2.0), Number(3.0))))
    ensures Eval(Add(Number(1.0), Multiply(Number(2.0), Number(3.0))), m) == Ok(7.0)
  {
    Digits();
    Levels();
    TwoOperators("1", "2", "3", '+', '*');
    assert "1" + ['+'] + "2" + ['*'] + "3" == "1+2*3";
    assert Eval(Multiply(Number(2.0), Number(3.0)), m) == Ok(6.0);
  }

  /** The prefix `(1+2)` of `(1+2)*3` leaves the sum as the only term. */
  lemma BracketedSum(s: string)
    requires s == "(1+2)*3"
    ensures Scan(s, 0, [], []) == Scan(s, 5, [Add(Number(1.0), Number(2.0))], [])
  {
    Digits();
    assert s[1..2] == "1" && s[3..4] == "2";
    ScanNumber("1", s, 1, [], ['(']);
    assert [] + ['('] == ['('] && [] + [Number(1.0)] == [Number(1.0)];
    OpenThenOperator(s, 0, [], [], Number(1.0), '+', "1");
    assert [] + ['(', '+'] == ['(', '+'];
    ScanNumber("2", s, 3, [Number(1.0)], ['(', '+']);
    ScanClose(s, 4, [], [], Number(1.0), Number(2.0), '+');
    assert [] + [Add(Number(1.0), Number(2.0))] == [Add(Number(1.0), Number(2.0))];
  }

  /** The rest `*3` of `(1+2)*3` multiplies the sum by 3. */
  lemma ProductOfSum(s: string)
    requires s == "(1+2)*3"
    ensures Scan(s, 5, [Add(Number(1.0), Number(2.0))], []) == Ok(Multiply(Add(Number(1.0), Number(2.0)), Number(3.0)))
  {
    Digits();
    var sum := Add(Number(1.0), Number(2.0));
    assert ReduceHigher([sum], [], '*') == Ok(Stacks([sum], []));
    ScanOperator(s, 5, [sum], [], Stacks([sum], []));
    assert s[6..] == "3" && [] + ['*'] == ['*'];
    ScanLastNumber("3", s, 6, [sum], ['*']);
    assert [sum] + [Number(3.0)] == [sum, Number(3.0)];
    FinishOne(sum, Number(3.0), '*');
  }

  /** `(1+2)*3` is `(1+2)*3`, which evaluates to 9. */
  lemma Brackets(m: MathLib)
    ensures Parse("(1+2)*3") == Ok(Multiply(Add(Number(1.0), Number(2.0)), Number(3.0)))
    ensures Eval(Multiply(Add(Number(1.0), Number(2.0)), Number(3.0)), m) == Ok(9.0)
  {
    var s := "(1+2)*3";
    BracketedSum(s);
    ProductOfSum(s);
    assert Eval(Add(Number(1.0), Number(2.0)), m) == Ok(3.0);
  }

  /** After `1***`, one term lies under three operators. */
  lemma StackedOperators(s: string)
    requires s == "1***3"
    ensures Scan(s, 0, [], []) == Scan(s, 4, [Number(1.0)], ['*', '*', '*'])
  {
    Digits();
    var one := Number(1.0);
    assert s[0..2] == "1" + ['*'];
    assert [] + [one] == [one];
    ScanNumberOperator("1", '*', s, 0, [], [], Stacks([one], []));
    assert ReduceHigher([one], ['*'], '*') == Ok(Stacks([one], ['*']));
    ScanOperator(s, 2, [one], ['*'], Stacks([one], ['*']));
    assert ReduceHigher([one], ['*', '*'], '*') == Ok(Stacks([one], ['*', '*']));
    assert [] + ['*'] == ['*'] && ['*'] + ['*'] == ['*', '*'] && ['*', '*'] + ['*'] == ['*', '*', '*'];
    ScanOperator(s, 3, [one], ['*', '*'], Stacks([one], ['*', '*']));
  }

  /** Three `*` over the terms 1 and 3: the second reduction lacks a term. */
  lemma DrainThree()
    ensures Finish([Number(1.0), Number(3.0)], ['*', '*', '*']) == Err(InsufficientValues)
  {
    var one, three := Number(1.0), Number(3.0);
    ReduceTop([], one, three, '*');
    assert [] + [one] + [three] == [one, three] && [] + [Multiply(one, three)] == [Multiply(one, three)];
    assert ['*', '*', '*'][..2] == ['*', '*'] && ['*', '*'][..1] == ['*'];
    assert ReduceAll([one, three], ['*', '*', '*']) == ReduceAll([Multiply(one, three)], ['*', '*']);
  }

  /** `1***3` is refused, with the message of `processOperator`. */
  lemma Throws()
    ensures Parse("1***3") == Err(InsufficientValues)
  {
    Digits();
    var s := "1***3";
    StackedOperators(s);
    assert s[4..] == "3";
    ScanLastNumber("3", s, 4, [Number(1.0)], ['*', '*', '*']);
    assert [Number(1.0)] + [Number(3.0)] == [Number(1.0), Number(3.0)];
    DrainThree();
  }

  /** Equal precedence groups to the right: `1-2-3` is `1-(2-3)`, which
      evaluates to 2. */
  lemma RightGrouping(m: MathLib)
    ensures Parse("1-2-3") == Ok(Subtract(Number(1.0), Subtract(Number(2.0), Number(3.0))))
    ensures Eval(Subtract(Number(1.0), Subtract(Number(2.0), Number(3.0))), m) == Ok(2.0)
  {
    Digits();
    Levels();
    TwoOperators("1", "2", "3", '-', '-');
    assert "1" + ['-'] + "2" + ['-'] + "3" == "1-2-3";
    assert Eval(Subtract(Number(2.0), Number(3.0)), m) == Ok(-1.0);
  }

  /** `2^3^2` is `2^(3^2)`. */
  lemma RightPower()
    ensures Parse("2^3^2") == Ok(Power(Number(2.0), Power(Number(3.0), Number(2.0))))
  {
    Digits();
    Levels();
    TwoOperators("2", "3", "2", '^', '^');
    assert "2" + ['^'] + "3" + ['^'] + "2" == "2^3^2";
    assert Combine('^', Number(3.0), Number(2.0)) == Power(Number(3.0), Number(2.0));
    assert Combine('^', Number(2.0), Power(Number(3.0), Number(2.0))) ==
      Power(Number(2.0), Power(Number(3.0), Number(2.0)));
  }

  /** `1/0` parses, and its evaluation fails. */
  lemma DivisionByZeroExample(m: MathLib)
    ensures Parse("1/0") == Ok(Divide(Number(1.0), Number(0.0)))
    ensures Eval(Divide(Number(1.0), Number(0.0)), m) == Err(DivisionByZero)
  {
    DivisionParse();
    assert Eval(Number(0.0), m) == Ok(0.0);
    DivideSemantics(Number(1.0), Number(0.0), m);
  }

  lemma DivisionParse()
    ensures Parse("1/0") == Ok(Divide(Number(1.0), Number(0.0)))
  {
    Digits();
    OneOperator("1", "0", '/');
    assert "1" + ['/'] + "0" == "1/0";
  }

  /** No term at all. */
  lemma EmptyInput()
    ensures Parse("") == Err(InvalidExpression)
    ensures Parse("()") == Err(InvalidExpression)
  {
  }

  /** Two terms and no operator. */
  lemma TwoTerms()
    ensures Parse("1 2") == Err(InvalidExpression)
  {
  }

  /** An operator without a left operand. */
  lemma MissingOperand()
    ensures Parse("-1") == Err(InsufficientValues)
  {
  }

  /** A `(` left open reaches `processOperator`, which has no operands for it. */
  lemma OpenParen()
    ensures Parse("(1") == Err(InsufficientValues)
  {
  }

  /** Scanning `1+(2` leaves both operands under `+` and `(`. */
  lemma OpenOverOperandsScan()
    ensures Scan("1+(2", 0, [], []) == Finish([Number(1.0), Number(2.0)], ['+', '('])
  {
    OpenOverOperandsFirst();
    OpenOverOperandsSecond();
    OpenOverOperandsLast();
  }

  lemma OpenOverOperandsFirst()
    ensures Scan("1+(2", 0, [], []) == Scan("1+(2", 1, [Number(1.0)], [])
  {
    Digits();
    var s := "1+(2";
    assert s[0..1] == "1" && [] + [Number(1.0)] == [Number(1.0)];
    ScanNumber("1", s, 0, [], []);
  }

  lemma OpenOverOperandsSecond()
    ensures Scan("1+(2", 1, [Number(1.0)], []) == Scan("1+(2", 3, [Number(1.0)], ['+', '('])
  {
    var s, one := "1+(2", Number(1.0);
    assert ReduceHigher([one], [], '+') == Ok(Stacks([one], []));
    ScanOperator(s, 1, [one], [], Stacks([one], []));
    assert [] + ['+'] == ['+'] && ['+'] + ['('] == ['+', '('];
    ScanOpen(s, 2, [one], ['+']);
  }

  lemma OpenOverOperandsLast()
    ensures Scan("1+(2", 3, [Number(1.0)], ['+', '(']) == Finish([Number(1.0), Number(2.0)], ['+', '('])
  {
    Digits();
    var s := "1+(2";
    assert s[3..] == "2" && [Number(1.0)] + [Number(2.0)] == [Number(1.0), Number(2.0)];
    ScanLastNumber("2", s, 3, [Number(1.0)], ['+', '(']);
  }

  /** The final drain reduces `(` over two operands. */
  lemma OpenOverOperandsDrain()
    ensures Finish([Number(1.0), Number(2.0)], ['+', '(']) == Err(BadFunctionCall)
  {
    assert Reduce([Number(1.0), Number(2.0)], '(') == Err(BadFunctionCall);
  }

  /** A `(` left open over an operand pair reaches `processOperator`, which
      finds no operation for it. */
  lemma OpenParenOverOperands()
    ensures Parse("1+(2") == Err(BadFunctionCall)
  {
    OpenOverOperandsScan();
    OpenOverOperandsDrain();
  }

  /** A `)` without its `(`. */
  lemma CloseParen()
    ensures Parse("1)") == Err(MismatchedParentheses)
  {
  }

  /** A name that is not `sin` or `cos`. */
  lemma UnknownName()
    ensures Parse("tan(1)") == Err(UnknownFunction("tan"))
  {
    var s := "tan(1)";
    NameOfCall(s, 0, "tan");
    assert Scan(s, 0, [], []) == NameStep(s, 0, [], []);
  }

  /** White space inside a name is dropped. */
  lemma SpacedName()
    ensures Parse("sin 1") == Err(UnknownFunction("sin1"))
  {
    var t := "sin 1";
    assert [t[0]] == "s" && "s" + ['i'] == "si" && "si" + ['n'] == "sin" && "sin" + ['1'] == "sin1";
    assert SkipSpaces(t, 1) == 1 && SkipSpaces(t, 2) == 2 && SkipSpaces(t, 3) == 4;
    assert NameFrom(t, 5, "sin1") == ("sin1", 5);
    assert NameFrom(t, 3, "sin") == ("sin1", 5);
    assert NameFrom(t, 2, "si") == ("sin1", 5);
    assert NameFrom(t, 1, "s") == ("sin1", 5);
    assert Scan(t, 0, [], []) == NameStep(t, 0, [], []);
  }

  /** A call without `(`. */
  lemma NoCallParen()
    ensures Parse("sin") == Err(ExpectedOpenParen)
  {
  }

  /** A call whose `)` is missing. */
  lemma UnclosedCall()
    ensures Parse("sin(1") == Err(MismatchedArgumentParentheses)
  {
    var s := "sin(1";
    NameOfCall(s, 0, "sin");
    UnclosedArgument(s);
    assert FunctionCall(s, 3, "sin") == Err(MismatchedArgumentParentheses);
    SkipNone(s, 0);
    ScanCallFails(s, 0, [], []);
  }

  /** The argument `1` of `sin(1` runs into the end of the input. */
  lemma UnclosedArgument(s: string)
    requires s == "sin(1"
    ensures ArgumentFrom(s, 4, 1, []) == Err(MismatchedArgumentParentheses)
  {
    ArgumentStep(s, 4, 1, []);
    assert SkipSpaces(s, 5) == 5;
  }

  /** A character that starts no token. */
  lemma StrayCharacter()
    ensures Parse("1#") == Err(InvalidToken)
  {
  }
}
