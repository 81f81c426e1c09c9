/** `ExtendedExpressionParser` of calc.h and calc.cpp.  The two tables are
    fields that the constructor fills; `parse` keeps its `terms` and `ops`
    stacks in local sequences whose last element is the top.  Every
    method is proved to compute the corresponding function of module
    ShuntingYard. */
module Parser {
  import opened Results
  import opened Expressions
  import opened Scanning
  import SY = ShuntingYard

  class ExpressionParser {
    var opPrecedence: map<char, int>
    var opMap: map<char, BinaryKind>

    /** The tables hold what the constructor put there. */
    ghost predicate Valid()
      reads this
    {
      opPrecedence == SY.PrecedenceTable && opMap == SY.OperatorTable
    }

    constructor ()
      ensures Valid()
    {
      var prec: map<char, int> := map[];
      prec := prec['+' := 1];
      prec := prec['-' := 1];
      prec := prec['*' := 2];
      prec := prec['/' := 2];
      prec := prec['^' := 3];
      var ops: map<char, BinaryKind> := map[];
      ops := ops['+' := AddKind];
      ops := ops['-' := SubtractKind];
      ops := ops['*' := MultiplyKind];
      ops := ops['/' := DivideKind];
      ops := ops['^' := PowerKind];
      opPrecedence := prec;
      opMap := ops;
    }

    /** `isOperator`: `c` has an entry in `opMap`. */
    predicate IsOperator(c: char)
      reads this
      requires Valid()
      ensures IsOperator(c) <==> c == '+' || c == '-' || c == '*' || c == '/' || c == '^'
      ensures IsOperator(c) <==> SY.IsOperator(c)
    {
      c in opMap
    }

    /** `getPrecedence`. */
    function GetPrecedence(op: char): (p: int)
      reads this
      requires Valid()
      ensures op == '+' || op == '-' ==> p == 1
      ensures op == '*' || op == '/' ==> p == 2
      ensures op == '^' ==> p == 3
      ensures !SY.IsOperator(op) ==> p == 0
    {
      if op in opPrecedence then opPrecedence[op] else 0
    }

    /** `isHigherPrecedence`: strictly higher, so never for two operators
        of the same level. */
    function IsHigherPrecedence(a: char, b: char): (r: bool)
      reads this
      requires Valid()
      ensures r <==> SY.Precedence(a) > SY.Precedence(b)
      ensures SY.Precedence(a) == SY.Precedence(b) ==> !r
    {
      GetPrecedence(a) > GetPrecedence(b)
    }

    /** `processOperator`. */
    method ProcessOperator(terms: seq<Expr>, op: char) returns (r: Result<seq<Expr>>)
      requires Valid()
      ensures r == SY.Reduce(terms, op)
    {
      if |terms| < 2 {
        return Err(InsufficientValues);
      }
      var right := terms[|terms| - 1];
      var rest := terms[..|terms| - 1];
      var left := rest[|rest| - 1];
      rest := rest[..|rest| - 1];
      if op !in opMap {
        return Err(BadFunctionCall);
      }
      assert rest == terms[..|terms| - 2];
      r := Ok(rest + [MakeBinary(opMap[op], left, right)]);
    }

    /** The argument loop of `parseFunction` (calc.cpp:41-54), from just
        after the `(`: collects the visible characters up to the `)` that
        balances it, and returns them with the position after that `)`. */
    method ReadArgument(input: string, start: nat) returns (r: Result<(string, nat)>)
      requires start <= |input|
      ensures r == ArgumentFrom(input, start, 1, "")
    {
      ghost var captured := ArgumentFrom(input, start, 1, "");
      var argStr := "";
      var bracketCount := 1;
      var k := start;
      while true
        invariant start <= k <= |input| && bracketCount >= 1
        invariant ArgumentFrom(input, k, bracketCount, argStr) == captured
        decreases |input| - k
      {
        var m := SkipSpaces(input, k);
        if m == |input| {
          return Err(MismatchedArgumentParentheses);
        }
        var next := input[m];
        k := m + 1;
        if next == '(' {
          bracketCount := bracketCount + 1;
        } else if next == ')' {
          bracketCount := bracketCount - 1;
          if bracketCount == 0 {
            return Ok((argStr, k));
          }
        }
        argStr := argStr + [next];
      }
    }

    /** `parseFunction`, reading from position `pos` just after the name. */
    method ParseFunction(input: string, pos: nat, funcName: string) returns (r: Result<(Expr, nat)>)
      requires Valid() && pos <= |input|
      ensures r == SY.FunctionCall(input, pos, funcName)
      decreases |input|, |input| - pos, 2
    {
      var j := SkipSpaces(input, pos);
      if j == |input| || input[j] != '(' {
        return Err(ExpectedOpenParen);
      }
      var arg := ReadArgument(input, j + 1);
      if arg.Err? {
        return Err(arg.error);
      }
      var operand := Parse(arg.value.0);
      if operand.Err? {
        return Err(operand.error);
      }
      if funcName == "sin" {
        r := Ok((Sin(operand.value), arg.value.1));
      } else if funcName == "cos" {
        r := Ok((Cos(operand.value), arg.value.1));
      } else {
        r := Err(UnknownFunction(funcName));
      }
    }

    /** The operator case of `parse` (calc.cpp:101-104): reduce while the
        top of `ops` is an operator of strictly higher precedence than `c`. */
    method ReduceHigher(terms: seq<Expr>, ops: seq<char>, c: char) returns (r: Result<SY.Stacks>)
      requires Valid()
      ensures r == SY.ReduceHigher(terms, ops, c)
    {
      var t, o := terms, ops;
      while o != [] && IsOperator(o[|o| - 1]) && IsHigherPrecedence(o[|o| - 1], c)
        invariant SY.ReduceHigher(t, o, c) == SY.ReduceHigher(terms, ops, c)
        decreases |o|
      {
        var reduced := ProcessOperator(t, o[|o| - 1]);
        if reduced.Err? {
          return Err(reduced.error);
        }
        t := reduced.value;
        o := o[..|o| - 1];
      }
      return Ok(SY.Stacks(t, o));
    }

    /** The `)` case of `parse` (calc.cpp:111-120). */
    method CloseParen(terms: seq<Expr>, ops: seq<char>) returns (r: Result<SY.Stacks>)
      requires Valid()
      ensures r == SY.CloseParen(terms, ops)
    {
      var t, o := terms, ops;
      while o != [] && o[|o| - 1] != '('
        invariant SY.CloseParen(t, o) == SY.CloseParen(terms, ops)
        decreases |o|
      {
        var reduced := ProcessOperator(t, o[|o| - 1]);
        if reduced.Err? {
          return Err(reduced.error);
        }
        t := reduced.value;
        o := o[..|o| - 1];
      }
      if o != [] && o[|o| - 1] == '(' {
        return Ok(SY.Stacks(t, o[..|o| - 1]));
      }
      return Err(MismatchedParentheses);
    }

    /** The name scan of `parse` (calc.cpp:123-127), from the letter at `j`. */
    method ScanName(input: string, j: nat) returns (func: string, k: nat)
      requires j < |input|
      ensures (func, k) == Name(input, j)
    {
      func := [input[j]];
      k := j + 1;
      while k < |input| && input[k] != '('
        invariant j < k <= |input|
        invariant NameFrom(input, k, func) == Name(input, j)
        decreases |input| - k
      {
        var m := SkipSpaces(input, k);
        if m == |input| {
          k := m;
          break;
        }
        func := func + [input[m]];
        k := m + 1;
      }
    }

    /** The end of `parse` (calc.cpp:140-149). */
    method Finish(terms: seq<Expr>, ops: seq<char>) returns (r: Result<Expr>)
      requires Valid()
      ensures r == SY.Finish(terms, ops)
    {
      var t, o := terms, ops;
      while o != []
        invariant SY.ReduceAll(t, o) == SY.ReduceAll(terms, ops)
        decreases |o|
      {
        var reduced := ProcessOperator(t, o[|o| - 1]);
        if reduced.Err? {
          return Err(reduced.error);
        }
        t := reduced.value;
        o := o[..|o| - 1];
      }
      if |t| != 1 {
        return Err(InvalidExpression);
      }
      return Ok(t[0]);
    }

    /** `parse`. */
    method Parse(input: string) returns (r: Result<Expr>)
      requires Valid()
      ensures r == SY.Parse(input)
      decreases |input|, |input| + 1
    {
      ghost var goal := SY.Parse(input);
      var terms: seq<Expr> := [];
      var ops: seq<char> := [];
      var i := 0;
      while true
        invariant i <= |input|
        invariant SY.Scan(input, i, terms, ops) == goal
        decreases |input| - i
      {
        var j := SkipSpaces(input, i);
        if j == |input| {
          break;
        }
        var c := input[j];
        assert SY.Scan(input, i, terms, ops) == SY.Token(input, j, terms, ops);
        if IsDigit(c) || c == '.' {
          assert SY.Token(input, j, terms, ops) == SY.NumberStep(input, j, terms, ops);
          var num := LexNumber(input, j);
          if !num.scanned {
            // the failed read stores 0 and the stream stops
            terms := terms + [Number(0.0)];
            i := |input|;
            break;
          }
          terms := terms + [Number(num.value)];
          i := num.end;
        } else if IsOperator(c) {
          assert SY.Token(input, j, terms, ops) == SY.OperatorStep(input, j, terms, ops);
          var st := ReduceHigher(terms, ops, c);
          if st.Err? {
            return Err(st.error);
          }
          terms, ops := st.value.terms, st.value.ops + [c];
          i := j + 1;
        } else if c == '(' {
          ops := ops + [c];
          i := j + 1;
        } else if c == ')' {
          assert SY.Token(input, j, terms, ops) == SY.CloseStep(input, j, terms, ops);
          var st := CloseParen(terms, ops);
          if st.Err? {
            return Err(st.error);
          }
          terms, ops := st.value.terms, st.value.ops;
          i := j + 1;
        } else if IsAlpha(c) {
          assert SY.Token(input, j, terms, ops) == SY.NameStep(input, j, terms, ops);
          var func, k := ScanName(input, j);
          if func == "sin" || func == "cos" {
            var call := ParseFunction(input, k, func);
            if call.Err? {
              return Err(call.error);
            }
            terms := terms + [call.value.0];
            i := call.value.1;
          } else {
            return Err(UnknownFunction(func));
          }
        } else {
          return Err(InvalidToken);
        }
      }
      r := Finish(terms, ops);
    }
  }
}
