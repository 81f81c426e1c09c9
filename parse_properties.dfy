/** What the parse does on whole inputs: every tree the printer writes is
    parsed back to itself, operators of equal precedence group to the right,
    and the error paths of calc.cpp on small inputs.

    Many lemmas below take the scan one token further (`ScanOpen`,
    `ScanNumber`, ...) or split a text into its parts (`SplitTwo`,
    `SplitThree`).  They state nothing new; they keep each proof
    obligation small enough for the solver. */
module ParseProperties {
  import opened Results
  import opened Expressions
  import opened Scanning
  import opened ShuntingYard
  import opened Printing

  /** `w` is the text of `s` from position `i`. */
  predicate Occurs(s: string, i: nat, w: string) {
    i + |w| <= |s| && s[i..i + |w|] == w
  }

  /** A non-empty run of decimal digits. */
  predicate IsNumeral(w: string) {
    w != [] && AllDigits(w)
  }

  /** The node a run of digits is parsed to. */
  function NumberOf(w: string): Expr
    requires AllDigits(w)
  {
    Number(DigitsValue(w) as real)
  }

  /** A number lexeme cannot run on past position `x`. */
  predicate EndsToken(s: string, x: nat) {
    x <= |s| && (x == |s| || !(IsDigit(s[x]) || s[x] == '.'))
  }

  lemma SkipNone(s: string, i: nat)
    requires i < |s| && !IsSpace(s[i])
    ensures SkipSpaces(s, i) == i
  {
  }

  lemma OperatorChar(c: char)
    requires IsOperator(c)
    ensures !IsDigit(c) && c != '.' && !IsSpace(c) && c != '(' && c != ')' && !IsAlpha(c)
  {
  }

  lemma CombineOperatorOf(e: Expr)
    requires IsBinary(e)
    ensures IsOperator(OperatorOf(e)) && Combine(OperatorOf(e), e.left, e.right) == e
  {
  }

  lemma {:induction false} DigitsEndRun(s: string, i: nat, x: nat)
    requires i <= x <= |s|
    requires forall k :: i <= k < x ==> IsDigit(s[k])
    requires x == |s| || !IsDigit(s[x])
    ensures DigitsEnd(s, i) == x
    decreases x - i
  {
    if i < x {
      DigitsEndRun(s, i + 1, x);
    }
  }

  /** A text inside an occurring text occurs too. */
  lemma SubOccurs(s: string, i: nat, w: string, p: nat, u: string)
    requires Occurs(s, i, w) && p + |u| <= |w| && w[p..p + |u|] == u
    ensures Occurs(s, i + p, u)
  {
    forall k | 0 <= k < |u|
      ensures s[i + p + k] == u[k]
    {
      assert u[k] == w[p + k];
      assert s[i..i + |w|][p + k] == s[i + p + k];
    }
    assert s[i + p..i + p + |u|] == u;
  }

  lemma CharOccurs(s: string, i: nat, w: string, p: nat)
    requires Occurs(s, i, w) && p < |w|
    ensures i + p < |s| && s[i + p] == w[p]
  {
    assert s[i + p] == s[i..i + |w|][p];
  }

  // ---------------------------------------------------------------------
  // One token of the scan at a time, for any stacks

  lemma ScanDigits(s: string, i: nat, terms: seq<Expr>, ops: seq<char>, t: NumberToken)
    requires i < |s| && IsDigit(s[i]) && LexNumber(s, i) == t && t.scanned
    ensures Scan(s, i, terms, ops) == Scan(s, t.end, terms + [Number(t.value)], ops)
  {
    assert SkipSpaces(s, i) == i;
    assert Token(s, i, terms, ops) == NumberStep(s, i, terms, ops);
  }

  lemma ScanOperator(s: string, i: nat, terms: seq<Expr>, ops: seq<char>, st: Stacks)
    requires i < |s| && IsOperator(s[i]) && ReduceHigher(terms, ops, s[i]) == Ok(st)
    ensures Scan(s, i, terms, ops) == Scan(s, i + 1, st.terms, st.ops + [s[i]])
  {
    assert SkipSpaces(s, i) == i;
    assert Token(s, i, terms, ops) == OperatorStep(s, i, terms, ops);
  }

  lemma ScanClosing(s: string, i: nat, terms: seq<Expr>, ops: seq<char>, st: Stacks)
    requires i < |s| && s[i] == ')' && CloseParen(terms, ops) == Ok(st)
    ensures Scan(s, i, terms, ops) == Scan(s, i + 1, st.terms, st.ops)
  {
    assert SkipSpaces(s, i) == i;
    assert Token(s, i, terms, ops) == CloseStep(s, i, terms, ops);
  }

  lemma ScanOpen(s: string, i: nat, terms: seq<Expr>, ops: seq<char>)
    requires i < |s| && s[i] == '('
    ensures Scan(s, i, terms, ops) == Scan(s, i + 1, terms, ops + ['('])
  {
    assert SkipSpaces(s, i) == i;
  }

  lemma ScanFunction(s: string, i: nat, terms: seq<Expr>, ops: seq<char>, name: string, k: nat, x: Expr, end: nat)
    requires i < |s| && IsAlpha(s[i]) && Name(s, i) == (name, k)
    requires (name == "sin" || name == "cos") && FunctionCall(s, k, name) == Ok((x, end))
    ensures Scan(s, i, terms, ops) == Scan(s, end, terms + [x], ops)
  {
    assert SkipSpaces(s, i) == i;
    assert Token(s, i, terms, ops) == NameStep(s, i, terms, ops);
  }

  // ---------------------------------------------------------------------
  // The tokens of printed text

  /** A run of digits followed by neither a digit nor a `.` lexes as its value. */
  lemma LexPrinted(w: string, s: string, i: nat)
    requires IsNumeral(w) && Occurs(s, i, w) && EndsToken(s, i + |w|)
    ensures IsDigit(s[i]) && LexNumber(s, i) == NumberToken(DigitsValue(w) as real, i + |w|, true)
  {
    NumeralRun(w, s, i);
    LexInteger(s, i, w);
  }

  /** Where the digit run of a numeral in `s` ends. */
  lemma NumeralRun(w: string, s: string, i: nat)
    requires IsNumeral(w) && Occurs(s, i, w) && EndsToken(s, i + |w|)
    ensures i + |w| <= |s| && IsDigit(s[i]) && DigitsEnd(s, i) == i + |w| && s[i..i + |w|] == w
    ensures i + |w| == |s| || s[i + |w|] != '.'
  {
    var m := i + |w|;
    CharOccurs(s, i, w, 0);
    forall k | i <= k < m
      ensures IsDigit(s[k])
    {
      CharOccurs(s, i, w, k - i);
    }
    DigitsEndRun(s, i, m);
  }

  lemma ScanNumber(w: string, s: string, i: nat, terms: seq<Expr>, ops: seq<char>)
    requires IsNumeral(w) && Occurs(s, i, w) && EndsToken(s, i + |w|)
    ensures Scan(s, i, terms, ops) == Scan(s, i + |w|, terms + [NumberOf(w)], ops)
  {
    LexPrinted(w, s, i);
    ScanDigits(s, i, terms, ops, LexNumber(s, i));
  }

  /** An operator read just after a `(` reduces nothing. */
  lemma ScanOperatorAfterOpen(s: string, i: nat, terms: seq<Expr>, ops: seq<char>, op: char)
    requires i < |s| && s[i] == op && IsOperator(op)
    ensures Scan(s, i, terms, ops + ['(']) == Scan(s, i + 1, terms, ops + ['(', op])
  {
    assert ReduceHigher(terms, ops + ['('], op) == Ok(Stacks(terms, ops + ['(']));
    ScanOperator(s, i, terms, ops + ['('], Stacks(terms, ops + ['(']));
    assert ops + ['('] + [op] == ops + ['(', op];
  }

  /** The `)` of a printed binary node reduces exactly that node. */
  lemma CloseNode(terms: seq<Expr>, ops: seq<char>, a: Expr, b: Expr, op: char)
    requires IsOperator(op)
    ensures CloseParen(terms + [a] + [b], ops + ['(', op]) == Ok(Stacks(terms + [Combine(op, a, b)], ops))
  {
    var t := terms + [a] + [b];
    var o := ops + ['(', op];
    var o' := ops + ['('];
    assert o[|o| - 1] == op && o[..|o| - 1] == o';
    assert t[..|t| - 2] == terms && t[|t| - 2] == a && t[|t| - 1] == b;
    assert Reduce(t, op) == Ok(terms + [Combine(op, a, b)]);
    assert o'[|o'| - 1] == '(' && o'[..|o'| - 1] == ops;
  }

  lemma ScanClose(s: string, i: nat, terms: seq<Expr>, ops: seq<char>, a: Expr, b: Expr, op: char)
    requires i < |s| && s[i] == ')' && IsOperator(op)
    ensures Scan(s, i, terms + [a] + [b], ops + ['(', op]) == Scan(s, i + 1, terms + [Combine(op, a, b)], ops)
  {
    CloseNode(terms, ops, a, b, op);
    ScanClosing(s, i, terms + [a] + [b], ops + ['(', op], Stacks(terms + [Combine(op, a, b)], ops));
  }

  lemma InfixOccurs(s: string, i: nat, a: string, op: char, b: string)
    requires Occurs(s, i, Infix(a, op, b))
    ensures i + |a| + |b| + 3 <= |s|
    ensures s[i] == '(' && Occurs(s, i + 1, a) && s[i + 1 + |a|] == op
    ensures Occurs(s, i + 2 + |a|, b) && s[i + 2 + |a| + |b|] == ')'
  {
    var w := Infix(a, op, b);
    assert w[1..1 + |a|] == a;
    assert w[2 + |a|..2 + |a| + |b|] == b;
    SubOccurs(s, i, w, 1, a);
    SubOccurs(s, i, w, 2 + |a|, b);
    CharOccurs(s, i, w, 0);
    CharOccurs(s, i, w, 1 + |a|);
    CharOccurs(s, i, w, 2 + |a| + |b|);
  }

  lemma CallOccurs(s: string, i: nat, name: string, a: string)
    requires |name| == 3 && Occurs(s, i, name + "(" + a + ")")
    ensures i + |a| + 5 <= |s|
    ensures s[i] == name[0] && s[i + 1] == name[1] && s[i + 2] == name[2] && s[i + 3] == '('
    ensures Occurs(s, i + 4, a) && s[i + 4 + |a|] == ')'
  {
    var w := name + "(" + a + ")";
    assert w[4..4 + |a|] == a;
    SubOccurs(s, i, w, 4, a);
    CharOccurs(s, i, w, 0);
    CharOccurs(s, i, w, 1);
    CharOccurs(s, i, w, 2);
    CharOccurs(s, i, w, 3);
    CharOccurs(s, i, w, 4 + |a|);
  }

  // ---------------------------------------------------------------------
  // A function call

  /** One visible character of an argument that does not close the call. */
  lemma ArgumentStep(s: string, k: nat, d: nat, acc: string)
    requires k < |s| && !IsSpace(s[k]) && d >= 1 && d + Delta(s[k]) >= 1
    ensures ArgumentFrom(s, k, d, acc) == ArgumentFrom(s, k + 1, d + Delta(s[k]), acc + [s[k]])
  {
    SkipNone(s, k);
  }

  lemma AtLeastTail(w: string, m: int)
    requires w != [] && DepthAtLeast(w, m)
    ensures Delta(w[0]) >= m && DepthAtLeast(w[1..], m - Delta(w[0]))
  {
    assert w[..1] == [w[0]] && [w[0]][1..] == [];
    assert Depth(w[..1]) == Delta(w[0]);
    forall j | 0 <= j <= |w[1..]|
      ensures Depth(w[1..][..j]) >= m - Delta(w[0])
    {
      assert w[..j + 1][0] == w[0] && w[..j + 1][1..] == w[1..][..j];
    }
  }

  lemma NoSpacesTail(w: string)
    requires w != [] && NoSpaces(w)
    ensures !IsSpace(w[0]) && NoSpaces(w[1..])
  {
    forall x | 0 <= x < |w[1..]| ensures w[1..][x] == w[x + 1] { }
  }

  /** Reading balanced, space-free text `w` that never closes the call
      just appends it to the argument. */
  lemma {:induction false} ArgumentOfText(s: string, k: nat, d: nat, acc: string, w: string)
    requires d >= 1 && Occurs(s, k, w) && NoSpaces(w) && DepthAtLeast(w, 1 - d)
    ensures d + Depth(w) >= 1
    ensures ArgumentFrom(s, k, d, acc) == ArgumentFrom(s, k + |w|, d + Depth(w), acc + w)
    decreases |w|
  {
    if w == [] {
      assert acc + w == acc;
    } else {
      var c, w' := w[0], w[1..];
      CharOccurs(s, k, w, 0);
      AtLeastTail(w, 1 - d);
      NoSpacesTail(w);
      ArgumentStep(s, k, d, acc);
      SubOccurs(s, k, w, 1, w');
      assert acc + w == acc + [c] + w';
      ArgumentOfText(s, k + 1, d + Delta(c), acc + [c], w');
    }
  }

  /** The `)` that brings the depth from 1 to 0 ends the argument. */
  lemma ArgumentClose(s: string, k: nat, d: nat, acc: string)
    requires k < |s| && s[k] == ')' && d == 1
    ensures ArgumentFrom(s, k, d, acc) == Ok((acc, k + 1))
  {
    SkipNone(s, k);
  }

  lemma CallArgument(s: string, k: nat, a: string)
    requires Occurs(s, k, a) && k + |a| < |s| && s[k + |a|] == ')'
    requires NoSpaces(a) && Depth(a) == 0 && DepthAtLeast(a, 0)
    ensures ArgumentFrom(s, k, 1, []) == Ok((a, k + |a| + 1))
  {
    ArgumentOfText(s, k, 1, [], a);
    assert [] + a == a;
    ArgumentClose(s, k + |a|, 1 + Depth(a), [] + a);
  }

  /** A three-letter name followed at once by `(`. */
  lemma NameOfCall(s: string, i: nat, name: string)
    requires |name| == 3 && i + 3 < |s| && s[i + 3] == '('
    requires s[i] == name[0] && s[i + 1] == name[1] && s[i + 2] == name[2]
    requires !IsSpace(name[1]) && !IsSpace(name[2]) && name[1] != '(' && name[2] != '('
    ensures Name(s, i) == (name, i + 3)
  {
    assert NameFrom(s, i + 3, name) == (name, i + 3);
    SkipNone(s, i + 2);
    assert NameFrom(s, i + 2, [s[i], s[i + 1]]) == NameFrom(s, i + 3, name) by {
      assert [s[i], s[i + 1]] + [s[i + 2]] == name;
    }
    SkipNone(s, i + 1);
    assert NameFrom(s, i + 1, [s[i]]) == NameFrom(s, i + 2, [s[i], s[i + 1]]) by {
      assert [s[i]] + [s[i + 1]] == [s[i], s[i + 1]];
    }
  }

  lemma CallOfArgument(s: string, k: nat, name: string, a: string, end: nat, x: Expr)
    requires k < |s| && s[k] == '(' && ArgumentFrom(s, k + 1, 1, []) == Ok((a, end))
    requires (name == "sin" || name == "cos") && Parse(a) == Ok(x)
    ensures FunctionCall(s, k, name) == Ok((if name == "sin" then Sin(x) else Cos(x), end))
  {
    SkipNone(s, k);
  }

  /** A printed call `name(a)` whose argument parses to `x`. */
  lemma ScanCall(s: string, i: nat, terms: seq<Expr>, ops: seq<char>, name: string, a: string, x: Expr)
    requires name == "sin" || name == "cos"
    requires Occurs(s, i, name + "(" + a + ")")
    requires NoSpaces(a) && Depth(a) == 0 && DepthAtLeast(a, 0)
    requires Parse(a) == Ok(x)
    ensures Scan(s, i, terms, ops) ==
      Scan(s, i + |a| + 5, terms + [if name == "sin" then Sin(x) else Cos(x)], ops)
  {
    CallOccurs(s, i, name, a);
    NameOfCall(s, i, name);
    CallArgument(s, i + 4, a);
    CallOfArgument(s, i + 3, name, a, i + |a| + 5, x);
    ScanFunction(s, i, terms, ops, name, i + 3, if name == "sin" then Sin(x) else Cos(x), i + |a| + 5);
  }

  // ---------------------------------------------------------------------
  // Printing then parsing

  /** Scanning the printed text of `e` pushes `e` and leaves the operator
      stack as it was, whatever the stacks hold. */
  lemma {:induction false} ScanPrinted(e: Expr, s: string, i: nat, terms: seq<Expr>, ops: seq<char>)
    requires Printable(e) && Occurs(s, i, Print(e)) && EndsToken(s, i + |Print(e)|)
    ensures Scan(s, i, terms, ops) == Scan(s, i + |Print(e)|, terms + [e], ops)
    decreases e, 2
  {
    if e.Number? {
      var w := NatDigits(e.value.Floor);
      assert Print(e) == PrintNode(e) == w;
      assert NumberOf(w) == e;
      ScanNumber(w, s, i, terms, ops);
    } else if e.Sin? || e.Cos? {
      ScanPrintedCall(e, s, i, terms, ops);
    } else {
      ScanPrintedInfix(e, s, i, terms, ops);
    }
  }

  lemma {:induction false} ScanPrintedCall(e: Expr, s: string, i: nat, terms: seq<Expr>, ops: seq<char>)
    requires (e.Sin? || e.Cos?) && Printable(e) && Occurs(s, i, Print(e))
    ensures Scan(s, i, terms, ops) == Scan(s, i + |Print(e)|, terms + [e], ops)
    decreases e, 1
  {
    var a := e.operand;
    var name := if e.Sin? then "sin" else "cos";
    assert Print(e) == name + "(" + Print(a) + ")";
    PrintShape(a);
    ParsePrinted(a);
    ScanCall(s, i, terms, ops, name, Print(a), a);
  }

  lemma {:induction false} ScanPrintedInfix(e: Expr, s: string, i: nat, terms: seq<Expr>, ops: seq<char>)
    requires IsBinary(e) && Printable(e) && Occurs(s, i, Print(e))
    ensures Scan(s, i, terms, ops) == Scan(s, i + |Print(e)|, terms + [e], ops)
    decreases e, 1
  {
    InfixLeft(e, s, i, terms, ops);
    InfixRight(e, s, i, terms, ops);
  }

  /** `(`, the left operand and the operator of a printed binary node. */
  lemma {:induction false} InfixLeft(e: Expr, s: string, i: nat, terms: seq<Expr>, ops: seq<char>)
    requires IsBinary(e) && Printable(e) && Occurs(s, i, Print(e))
    ensures Printable(e.left) && i + 2 + |Print(e.left)| <= |s|
    ensures Scan(s, i, terms, ops) ==
      Scan(s, i + 2 + |Print(e.left)|, terms + [e.left], ops + ['(', OperatorOf(e)])
    decreases e, 0
  {
    PrintBinary(e);
    CombineOperatorOf(e);
    var a, op := e.left, OperatorOf(e);
    InfixOccurs(s, i, Print(a), op, Print(e.right));
    OperatorChar(op);
    ScanPrinted(a, s, i + 1, terms, ops + ['(']);
    OpenThenOperator(s, i, terms, ops, a, op, Print(a));
  }

  /** The right operand and the `)` of a printed binary node. */
  lemma {:induction false} InfixRight(e: Expr, s: string, i: nat, terms: seq<Expr>, ops: seq<char>)
    requires IsBinary(e) && Printable(e) && Occurs(s, i, Print(e))
    ensures Printable(e.left) && i + 2 + |Print(e.left)| <= |s|
    ensures Scan(s, i + 2 + |Print(e.left)|, terms + [e.left], ops + ['(', OperatorOf(e)]) ==
      Scan(s, i + |Print(e)|, terms + [e], ops)
    decreases e, 0
  {
    PrintBinary(e);
    CombineOperatorOf(e);
    var a, op, b := e.left, OperatorOf(e), e.right;
    var pa, pb := Print(a), Print(b);
    InfixOccurs(s, i, pa, op, pb);
    ScanPrinted(b, s, i + 2 + |pa|, terms + [a], ops + ['(', op]);
    ScanClose(s, i + 2 + |pa| + |pb|, terms, ops, a, b, op);
  }

  /** `(`, then text that pushes `a`, then the operator `op`. */
  lemma OpenThenOperator(s: string, i: nat, terms: seq<Expr>, ops: seq<char>, a: Expr, op: char, pa: string)
    requires IsOperator(op) && i + 2 + |pa| <= |s| && s[i] == '(' && s[i + 1 + |pa|] == op
    requires Scan(s, i + 1, terms, ops + ['(']) == Scan(s, i + 1 + |pa|, terms + [a], ops + ['('])
    ensures Scan(s, i, terms, ops) == Scan(s, i + 2 + |pa|, terms + [a], ops + ['(', op])
  {
    ScanOpen(s, i, terms, ops);
    ScanOperatorAfterOpen(s, i + 1 + |pa|, terms + [a], ops, op);
  }

  /** Parsing is a left inverse of printing. */
  lemma {:induction false} ParsePrinted(e: Expr)
    requires Printable(e)
    ensures Parse(Print(e)) == Ok(e)
    decreases e, 3
  {
    var w := Print(e);
    assert w[0..|w|] == w;
    ScanPrinted(e, w, 0, [], []);
    assert [] + [e] == [e];
  }

  /** ... so a printed tree evaluates, after parsing, as the tree itself. */
  lemma EvaluatePrinted(e: Expr, m: MathLib)
    requires Printable(e)
    ensures var r := Parse(Print(e)); r.Ok? && Eval(r.value, m) == Eval(e, m)
  {
    ParsePrinted(e);
  }

  // ---------------------------------------------------------------------
  // How two operators group

  /** A numeral followed by an operator, with any stacks. */
  lemma ScanNumberOperator(w: string, o: char, s: string, i: nat, terms: seq<Expr>, ops: seq<char>, st: Stacks)
    requires IsNumeral(w) && IsOperator(o) && Occurs(s, i, w + [o])
    requires ReduceHigher(terms + [NumberOf(w)], ops, o) == Ok(st)
    ensures Scan(s, i, terms, ops) == Scan(s, i + |w| + 1, st.terms, st.ops + [o])
  {
    NumberThenOperator(w, o, s, i);
    ScanNumber(w, s, i, terms, ops);
    ScanOperator(s, i + |w|, terms + [NumberOf(w)], ops, st);
  }

  /** The characters of a numeral followed by an operator. */
  lemma NumberThenOperator(w: string, o: char, s: string, i: nat)
    requires IsNumeral(w) && IsOperator(o) && Occurs(s, i, w + [o])
    ensures Occurs(s, i, w) && EndsToken(s, i + |w|)
    ensures i + |w| < |s| && s[i + |w|] == o
  {
    var u := w + [o];
    assert u[..|w|] == w;
    SubOccurs(s, i, u, 0, w);
    CharOccurs(s, i, u, |w|);
    OperatorChar(o);
  }

  /** A numeral that ends the input, followed by the final drain. */
  lemma ScanLastNumber(w: string, s: string, i: nat, terms: seq<Expr>, ops: seq<char>)
    requires IsNumeral(w) && i + |w| == |s| && s[i..] == w
    ensures Scan(s, i, terms, ops) == Finish(terms + [NumberOf(w)], ops)
  {
    assert s[i..i + |w|] == s[i..];
    ScanNumber(w, s, i, terms, ops);
  }

  lemma SplitTwo(u: string, v: string)
    ensures Occurs(u + v, 0, u) && (u + v)[|u|..] == v
  {
    assert (u + v)[0..|u|] == u;
  }

  /** Reducing the top two terms. */
  lemma ReduceTop(rest: seq<Expr>, l: Expr, r: Expr, op: char)
    requires IsOperator(op)
    ensures Reduce(rest + [l] + [r], op) == Ok(rest + [Combine(op, l, r)])
  {
    var t := rest + [l] + [r];
    assert t[..|t| - 2] == rest && t[|t| - 2] == l && t[|t| - 1] == r;
  }

  lemma FinishOne(a: Expr, b: Expr, o1: char)
    requires IsOperator(o1)
    ensures Finish([a, b], [o1]) == Ok(Combine(o1, a, b))
  {
    ReduceTop([], a, b, o1);
    assert [] + [a] + [b] == [a, b] && [] + [Combine(o1, a, b)] == [Combine(o1, a, b)];
    assert [o1][..0] == [];
    assert ReduceAll([a, b], [o1]) == Ok([Combine(o1, a, b)]);
  }

  lemma DrainTwo(a: Expr, b: Expr, c: Expr, o1: char, o2: char)
    requires IsOperator(o1) && IsOperator(o2)
    ensures Finish([a, b, c], [o1, o2]) == Ok(Combine(o1, a, Combine(o2, b, c)))
  {
    var bc := Combine(o2, b, c);
    ReduceTop([a], b, c, o2);
    assert [a] + [b] + [c] == [a, b, c] && [a] + [bc] == [a, bc];
    assert [o1, o2][..1] == [o1];
    assert ReduceAll([a, b, c], [o1, o2]) == ReduceAll([a, bc], [o1]);
    FinishOne(a, bc, o1);
  }

  lemma SplitThree(u: string, v: string, w: string)
    ensures Occurs(u + v + w, 0, u) && Occurs(u + v + w, |u|, v)
    ensures (u + v + w)[|u| + |v|..] == w
  {
    var s := u + v + w;
    assert s[0..|u|] == u;
    assert s[|u|..|u| + |v|] == v;
  }

  /** `a o1 b` is one node. */
  lemma OneOperator(da: string, db: string, o1: char)
    requires IsNumeral(da) && IsNumeral(db) && IsOperator(o1)
    ensures Parse(da + [o1] + db) == Ok(Combine(o1, NumberOf(da), NumberOf(db)))
  {
    var na, nb := NumberOf(da), NumberOf(db);
    var u := da + [o1];
    var s := u + db;
    SplitTwo(u, db);
    assert [] + [na] == [na];
    ScanNumberOperator(da, o1, s, 0, [], [], Stacks([na], []));
    assert [] + [o1] == [o1];
    ScanLastNumber(db, s, |u|, [na], [o1]);
    assert [na] + [nb] == [na, nb];
    FinishOne(na, nb, o1);
  }

  /** `a o1 b o2 c`: the first operator binds first only when its precedence
      is strictly higher; otherwise (equal precedence included) the second
      pair is grouped first, so `1-2-3` is `1-(2-3)` and `2^3^2` is
      `2^(3^2)`. */
  lemma TwoOperators(da: string, db: string, dc: string, o1: char, o2: char)
    requires IsNumeral(da) && IsNumeral(db) && IsNumeral(dc)
    requires IsOperator(o1) && IsOperator(o2)
    ensures Parse(da + [o1] + db + [o2] + dc) ==
      Ok(if Precedence(o1) > Precedence(o2)
         then Combine(o2, Combine(o1, NumberOf(da), NumberOf(db)), NumberOf(dc))
         else Combine(o1, NumberOf(da), Combine(o2, NumberOf(db), NumberOf(dc))))
  {
    var u, v := da + [o1], db + [o2];
    var s := u + v + dc;
    var na := NumberOf(da);
    assert s == da + [o1] + db + [o2] + dc;
    SplitThree(u, v, dc);
    assert [] + [na] == [na] && [] + [o1] == [o1];
    ScanNumberOperator(da, o1, s, 0, [], [], Stacks([na], []));
    if Precedence(o1) > Precedence(o2) {
      StrongerFirst(s, |u|, na, db, dc, o1, o2);
    } else {
      WeakerFirst(s, |u|, na, db, dc, o1, o2);
    }
  }

  lemma ReduceStronger(a: Expr, b: Expr, o1: char, o2: char)
    requires IsOperator(o1) && Precedence(o1) > Precedence(o2)
    ensures ReduceHigher([a, b], [o1], o2) == Ok(Stacks([Combine(o1, a, b)], []))
  {
    ReduceTop([], a, b, o1);
    assert [] + [a] + [b] == [a, b] && [] + [Combine(o1, a, b)] == [Combine(o1, a, b)];
    assert [o1][..0] == [];
  }

  lemma KeepWeaker(a: Expr, b: Expr, o1: char, o2: char)
    requires Precedence(o1) <= Precedence(o2)
    ensures ReduceHigher([a, b], [o1], o2) == Ok(Stacks([a, b], [o1]))
  {
  }

  lemma StrongerFirst(s: string, x: nat, na: Expr, db: string, dc: string, o1: char, o2: char)
    requires IsNumeral(db) && IsNumeral(dc)
    requires IsOperator(o1) && IsOperator(o2) && Precedence(o1) > Precedence(o2)
    requires Occurs(s, x, db + [o2])
    requires x + |db| + 1 + |dc| == |s| && s[x + |db| + 1..] == dc
    ensures Scan(s, x, [na], [o1]) ==
      Ok(Combine(o2, Combine(o1, na, NumberOf(db)), NumberOf(dc)))
  {
    var nb, nc := NumberOf(db), NumberOf(dc);
    var ab := Combine(o1, na, nb);
    assert [na] + [nb] == [na, nb];
    ReduceStronger(na, nb, o1, o2);
    ScanNumberOperator(db, o2, s, x, [na], [o1], Stacks([ab], []));
    assert [] + [o2] == [o2];
    ScanLastNumber(dc, s, x + |db| + 1, [ab], [o2]);
    assert [ab] + [nc] == [ab, nc];
    FinishOne(ab, nc, o2);
  }

  lemma WeakerFirst(s: string, x: nat, na: Expr, db: string, dc: string, o1: char, o2: char)
    requires IsNumeral(db) && IsNumeral(dc)
    requires IsOperator(o1) && IsOperator(o2) && Precedence(o1) <= Precedence(o2)
    requires Occurs(s, x, db + [o2])
    requires x + |db| + 1 + |dc| == |s| && s[x + |db| + 1..] == dc
    ensures Scan(s, x, [na], [o1]) ==
      Ok(Combine(o1, na, Combine(o2, NumberOf(db), NumberOf(dc))))
  {
    var nb, nc := NumberOf(db), NumberOf(dc);
    assert [na] + [nb] == [na, nb];
    KeepWeaker(na, nb, o1, o2);
    ScanNumberOperator(db, o2, s, x, [na], [o1], Stacks([na, nb], [o1]));
    ScanLastNumber(dc, s, x + |db| + 1, [na, nb], [o1] + [o2]);
    assert [na, nb] + [nc] == [na, nb, nc];
    assert [o1] + [o2] == [o1, o2];
    DrainTwo(na, nb, nc, o1, o2);
  }
}
