/** What `std::istringstream` does for the parser of calc.cpp: `>>` into a
    `char` skips white space, `>>` into a `double` reads a numeric lexeme,
    and the two inner scans of calc.cpp (the function name and the function
    argument) walk the stream character by character.  Positions are
    indices into the input string. */
module Scanning {
  import opened Results

  /** `isspace` in the C locale. */
  predicate IsSpace(c: char) {
    c == ' ' || c == '\t' || c == '\n' || c == '\r' || c == '\U{000B}' || c == '\U{000C}'
  }

  /** `isdigit`. */
  predicate IsDigit(c: char) { '0' <= c <= '9' }

  /** `isalpha` in the C locale. */
  predicate IsAlpha(c: char) { 'a' <= c <= 'z' || 'A' <= c <= 'Z' }

  /** The position of the character the next `>>` into a `char` reads,
      or `|s|` when only white space is left. */
  function SkipSpaces(s: string, i: nat): (j: nat)
    requires i <= |s|
    ensures i <= j <= |s|
    ensures forall k :: i <= k < j ==> IsSpace(s[k])
    ensures j < |s| ==> !IsSpace(s[j])
    decreases |s| - i
  {
    if i < |s| && IsSpace(s[i]) then SkipSpaces(s, i + 1) else i
  }

  /** `w` without its white space. */
  function Visible(w: string): (v: string)
    ensures |v| <= |w|
  {
    if w == [] then [] else (if IsSpace(w[0]) then [] else [w[0]]) + Visible(w[1..])
  }

  // ---------------------------------------------------------------------
  // Numeric lexemes (the `iss >> num` of calc.cpp)

  predicate AllDigits(w: string) {
    forall k :: 0 <= k < |w| ==> IsDigit(w[k])
  }

  function DigitValue(c: char): nat
    requires IsDigit(c)
  {
    (c as int) - ('0' as int)
  }

  /** The end of the run of digits that starts at `i`. */
  function DigitsEnd(s: string, i: nat): (j: nat)
    requires i <= |s|
    ensures i <= j <= |s|
    ensures forall k :: i <= k < j ==> IsDigit(s[k])
    ensures j < |s| ==> !IsDigit(s[j])
    decreases |s| - i
  {
    if i < |s| && IsDigit(s[i]) then DigitsEnd(s, i + 1) else i
  }

  /** The value of a string of decimal digits. */
  function DigitsValue(w: string): nat
    requires AllDigits(w)
  {
    if w == [] then 0 else 10 * DigitsValue(w[..|w| - 1]) + DigitValue(w[|w| - 1])
  }

  /** The value of the digits after a decimal point. */
  function FractionValue(w: string): (v: real)
    requires AllDigits(w)
    ensures 0.0 <= v < 1.0
  {
    if w == [] then 0.0 else (DigitValue(w[0]) as real + FractionValue(w[1..])) / 10.0
  }

  /** A numeric lexeme: its value, where it ends, and whether it held a
      digit at all (a lexeme without one makes the stream fail). */
  datatype NumberToken = NumberToken(value: real, end: nat, scanned: bool)

  /** The lexeme at `i`: the digits there, then a `.` and more digits if
      a `.` follows. */
  function LexNumber(s: string, i: nat): (t: NumberToken)
    requires i < |s| && (IsDigit(s[i]) || s[i] == '.')
    ensures i < t.end <= |s|
  {
    var m := DigitsEnd(s, i);
    if m < |s| && s[m] == '.' then
      var n := DigitsEnd(s, m + 1);
      NumberToken(DigitsValue(s[i..m]) as real + FractionValue(s[m + 1..n]), n, i < m || m + 1 < n)
    else
      NumberToken(DigitsValue(s[i..m]) as real, m, true)
  }

  /** The lexeme is the longest run of digits with at most one `.`; it is
      scanned exactly when it holds a digit, and its value is never
      negative. */
  lemma LexemeShape(s: string, i: nat)
    requires i < |s| && (IsDigit(s[i]) || s[i] == '.')
    ensures var t := LexNumber(s, i);
      && (forall k :: i <= k < t.end ==> IsDigit(s[k]) || s[k] == '.')
      && (forall k, k' :: i <= k < k' < t.end && s[k] == '.' ==> s[k'] != '.')
      && (t.end < |s| ==> !IsDigit(s[t.end]))
      && (t.end < |s| && s[t.end] == '.' ==> exists k :: i <= k < t.end && s[k] == '.')
      && (t.scanned <==> exists k :: i <= k < t.end && IsDigit(s[k]))
      && 0.0 <= t.value
  {
    var m := DigitsEnd(s, i);
    if m < |s| && s[m] == '.' {
      var n := DigitsEnd(s, m + 1);
      assert i < m ==> IsDigit(s[i]);
      assert m + 1 < n ==> IsDigit(s[m + 1]);
    }
  }

  /** A lexeme with no `.` is the integer its digits `w` spell. */
  lemma LexInteger(s: string, i: nat, w: string)
    requires w != [] && AllDigits(w) && i + |w| <= |s| && s[i..i + |w|] == w
    requires DigitsEnd(s, i) == i + |w| && (i + |w| == |s| || s[i + |w|] != '.')
    ensures LexNumber(s, i) == NumberToken(DigitsValue(w) as real, i + |w|, true)
  {
    assert LexNumber(s, i) == NumberToken(DigitsValue(s[i..i + |w|]) as real, i + |w|, true);
  }

  // ---------------------------------------------------------------------
  // The function-name scan of calc.cpp:123-127

  /** Appends characters to `acc` until the next raw character is `(` or
      the input ends; `>>` skips white space before each appended one,
      so a `(` that follows white space is appended as well. */
  function NameFrom(s: string, k: nat, acc: string): (r: (string, nat))
    requires k <= |s|
    ensures k <= r.1 <= |s|
    ensures r.1 < |s| ==> s[r.1] == '('
    decreases |s| - k
  {
    if k == |s| || s[k] == '(' then
      (acc, k)
    else
      var j := SkipSpaces(s, k);
      if j == |s| then (acc, |s|) else NameFrom(s, j + 1, acc + [s[j]])
  }

  /** The name scan from `k` appends the visible text from `k` to where it stops. */
  predicate NameIsVisible(s: string, k: nat, acc: string)
    requires k <= |s|
  {
    NameFrom(s, k, acc).0 == acc + Visible(s[k..NameFrom(s, k, acc).1])
  }

  /** The name is the visible text from where the scan starts to where it stops. */
  lemma {:induction false} NameText(s: string, k: nat, acc: string)
    requires k <= |s|
    ensures NameIsVisible(s, k, acc)
    decreases |s| - k
  {
    if k == |s| || s[k] == '(' || SkipSpaces(s, k) == |s| {
      NameTextStop(s, k, acc);
    } else {
      var j := SkipSpaces(s, k);
      NameText(s, j + 1, acc + [s[j]]);
      NameTextStep(s, k, acc);
    }
  }

  /** Where the name scan stops at once, nothing more is appended. */
  lemma NameTextStop(s: string, k: nat, acc: string)
    requires k <= |s| && (k == |s| || s[k] == '(' || SkipSpaces(s, k) == |s|)
    ensures NameIsVisible(s, k, acc)
  {
    if k == |s| || s[k] == '(' {
      assert NameFrom(s, k, acc) == (acc, k);
      assert Visible(s[k..k]) == [] && acc + [] == acc;
    } else {
      assert NameFrom(s, k, acc) == (acc, |s|);
      SpacesInvisible(s[k..|s|]);
      assert acc + [] == acc;
    }
  }

  /** One visible character appended by the name scan. */
  lemma NameTextStep(s: string, k: nat, acc: string)
    requires k < |s| && s[k] != '(' && SkipSpaces(s, k) < |s|
    requires NameIsVisible(s, SkipSpaces(s, k) + 1, acc + [s[SkipSpaces(s, k)]])
    ensures NameIsVisible(s, k, acc)
  {
    var j := SkipSpaces(s, k);
    var r := NameFrom(s, j + 1, acc + [s[j]]);
    assert NameFrom(s, k, acc) == r;
    VisibleAfter(s, k, j, r.1, acc);
  }

  /** The name loop stops at the first raw `(` it peeks: a `(` taken into
      the name was read past white space, which the peek sees instead, and
      a stop inside the input comes right at the start or after a visible
      character. */
  lemma {:induction false} NameStopsAtFirstParen(s: string, k: nat, acc: string)
    requires k <= |s|
    ensures var r := NameFrom(s, k, acc);
      && (forall x :: k <= x < r.1 && s[x] == '(' ==> k < x && IsSpace(s[x - 1]))
      && (r.1 < |s| ==> r.1 == k || !IsSpace(s[r.1 - 1]))
    decreases |s| - k
  {
    if k < |s| && s[k] != '(' {
      var j := SkipSpaces(s, k);
      if j < |s| {
        assert NameFrom(s, k, acc) == NameFrom(s, j + 1, acc + [s[j]]);
        NameStopsAtFirstParen(s, j + 1, acc + [s[j]]);
      }
    }
  }

  /** The name that starts with the letter at `i`, and the position after it. */
  function Name(s: string, i: nat): (r: (string, nat))
    requires i < |s|
    ensures i < r.1 <= |s|
  {
    NameFrom(s, i + 1, [s[i]])
  }

  lemma {:induction false} SpacesInvisible(w: string)
    requires forall k :: 0 <= k < |w| ==> IsSpace(w[k])
    ensures Visible(w) == []
  {
    if w != [] { SpacesInvisible(w[1..]); }
  }

  /** The visible text of `s[k..e]` when `s[k..j]` is white space and `s[j]` is not. */
  lemma VisibleSplit(s: string, k: nat, j: nat, e: nat)
    requires k <= j < e <= |s|
    requires forall x :: k <= x < j ==> IsSpace(s[x])
    requires !IsSpace(s[j])
    ensures Visible(s[k..e]) == [s[j]] + Visible(s[j + 1..e])
    decreases j - k
  {
    if k < j {
      assert s[k..e][1..] == s[k + 1..e];
      VisibleSplit(s, k + 1, j, e);
    } else {
      assert s[k..e][1..] == s[k + 1..e];
    }
  }

  // ---------------------------------------------------------------------
  // The function-argument scan of calc.cpp:41-54

  /** The change of bracket depth one character makes. */
  function Delta(c: char): int {
    if c == '(' then 1 else if c == ')' then -1 else 0
  }

  /** Opening minus closing parentheses of `w`. */
  function Depth(w: string): int {
    if w == [] then 0 else Delta(w[0]) + Depth(w[1..])
  }

  /** Reads characters after the `(` that follows a function name, counting
      nested parentheses from `depth`; everything read goes into `acc`
      except white space and the `)` that brings the depth to 0.  The
      result is the argument text and the position after that `)`. */
  function ArgumentFrom(s: string, k: nat, depth: nat, acc: string): (r: Result<(string, nat)>)
    requires k <= |s| && depth >= 1
    ensures r.Err? ==> r.error == MismatchedArgumentParentheses
    ensures r.Ok? ==> k < r.value.1 <= |s| && |r.value.0| <= |acc| + r.value.1 - 1 - k
    decreases |s| - k, 1
  {
    var j := SkipSpaces(s, k);
    if j == |s| then Err(MismatchedArgumentParentheses) else ArgumentAt(s, j, depth, acc)
  }

  /** One visible character `s[j]` of the argument. */
  function ArgumentAt(s: string, j: nat, depth: nat, acc: string): (r: Result<(string, nat)>)
    requires j < |s| && depth >= 1
    ensures r.Err? ==> r.error == MismatchedArgumentParentheses
    ensures r.Ok? ==> j < r.value.1 <= |s| && |r.value.0| <= |acc| + r.value.1 - 1 - j
    decreases |s| - j, 0
  {
    var c := s[j];
    if c == '(' then ArgumentFrom(s, j + 1, depth + 1, acc + [c])
    else if c == ')' && depth == 1 then Ok((acc, j + 1))
    else if c == ')' then ArgumentFrom(s, j + 1, depth - 1, acc + [c])
    else ArgumentFrom(s, j + 1, depth, acc + [c])
  }

  lemma {:induction false} DepthOfSpaces(s: string, k: nat, j: nat, e: nat)
    requires k <= j <= e <= |s|
    requires forall x :: k <= x < j ==> IsSpace(s[x])
    ensures Depth(s[k..e]) == Depth(s[j..e])
    decreases j - k
  {
    if k < j {
      assert s[k..e][1..] == s[k + 1..e];
      DepthOfSpaces(s, k + 1, j, e);
    }
  }

  lemma DepthFirst(s: string, j: nat, e: nat)
    requires j < e <= |s|
    ensures Depth(s[j..e]) == Delta(s[j]) + Depth(s[j + 1..e])
  {
    assert s[j..e][1..] == s[j + 1..e];
  }

  /** The argument scan stops at the first `)` that brings the depth to 0,
      and fails exactly when the input ends before any does. */
  lemma {:induction false} ArgumentDepth(s: string, k: nat, depth: nat, acc: string)
    requires k <= |s| && depth >= 1
    ensures ArgumentFrom(s, k, depth, acc).Ok? ==>
      var end := ArgumentFrom(s, k, depth, acc).value.1;
      depth + Depth(s[k..end]) == 0 &&
      forall e :: k <= e < end ==> depth + Depth(s[k..e]) >= 1
    ensures ArgumentFrom(s, k, depth, acc).Err? ==>
      forall e :: k <= e <= |s| ==> depth + Depth(s[k..e]) >= 1
    decreases |s| - k
  {
    var j := SkipSpaces(s, k);
    forall e | k <= e <= j
      ensures Depth(s[k..e]) == 0
    {
      DepthOfSpaces(s, k, e, e);
    }
    if j < |s| {
      var c := s[j];
      var d := if c == '(' then depth + 1 else if c == ')' then depth - 1 else depth;
      assert ArgumentFrom(s, k, depth, acc) == ArgumentAt(s, j, depth, acc);
      forall e | j < e <= |s|
        ensures depth + Depth(s[k..e]) == d + Depth(s[j + 1..e])
      {
        DepthOfSpaces(s, k, j, e);
        DepthFirst(s, j, e);
      }
      if !(c == ')' && depth == 1) {
        assert ArgumentAt(s, j, depth, acc) == ArgumentFrom(s, j + 1, d, acc + [c]);
        ArgumentDepth(s, j + 1, d, acc + [c]);
      }
    }
  }

  /** The captured argument is the text between the parentheses, white
      space removed, nested parentheses kept, the closing `)` left out. */
  lemma {:induction false} ArgumentText(s: string, k: nat, depth: nat, acc: string)
    requires k <= |s| && depth >= 1
    ensures var r := ArgumentFrom(s, k, depth, acc);
      r.Ok? ==> s[r.value.1 - 1] == ')' && r.value.0 == acc + Visible(s[k..r.value.1 - 1])
    decreases |s| - k
  {
    var j := SkipSpaces(s, k);
    if j < |s| {
      var c := s[j];
      if c == ')' && depth == 1 {
        assert ArgumentFrom(s, k, depth, acc) == ArgumentAt(s, j, depth, acc) == Ok((acc, j + 1));
        SpacesInvisible(s[k..j]);
        assert acc + [] == acc;
      } else {
        var d := if c == '(' then depth + 1 else if c == ')' then depth - 1 else depth;
        ArgumentTextStep(s, k, j, depth, d, acc);
      }
    }
  }

  /** The `)` just before `end` is the first one that balances a `(` just
      before `k`. */
  predicate ClosesAt(s: string, k: nat, end: nat)
    requires k <= end <= |s|
  {
    1 + Depth(s[k..end]) == 0 && forall e :: k <= e < end ==> 1 + Depth(s[k..e]) >= 1
  }

  /** What a successful argument scan from just after `(` returns: the
      visible text up to the balancing `)`, and the position after it. */
  lemma ArgumentIsText(s: string, k: nat)
    requires k <= |s|
    ensures var r := ArgumentFrom(s, k, 1, []);
      r.Ok? ==>
        && k < r.value.1 && s[r.value.1 - 1] == ')' && ClosesAt(s, k, r.value.1)
        && r.value.0 == Visible(s[k..r.value.1 - 1])
  {
    ArgumentText(s, k, 1, []);
    ArgumentDepth(s, k, 1, []);
    var r := ArgumentFrom(s, k, 1, []);
    if r.Ok? {
      assert [] + Visible(s[k..r.value.1 - 1]) == Visible(s[k..r.value.1 - 1]);
    }
  }

  lemma {:induction false} ArgumentTextStep(s: string, k: nat, j: nat, depth: nat, d: nat, acc: string)
    requires k <= j < |s| && depth >= 1 && d >= 1
    requires j == SkipSpaces(s, k) && !(s[j] == ')' && depth == 1)
    requires d == if s[j] == '(' then depth + 1 else if s[j] == ')' then depth - 1 else depth
    ensures var r := ArgumentFrom(s, k, depth, acc);
      r.Ok? ==> s[r.value.1 - 1] == ')' && r.value.0 == acc + Visible(s[k..r.value.1 - 1])
    decreases |s| - k, 0
  {
    var acc' := acc + [s[j]];
    var r := ArgumentFrom(s, j + 1, d, acc');
    ArgumentSkip(s, k, j, depth, d, acc);
    ArgumentText(s, j + 1, d, acc');
    if r.Ok? {
      VisibleAfter(s, k, j, r.value.1 - 1, acc);
    }
  }

  /** One visible character of the argument, after the white space before it. */
  lemma ArgumentSkip(s: string, k: nat, j: nat, depth: nat, d: nat, acc: string)
    requires k <= j < |s| && depth >= 1 && d >= 1
    requires j == SkipSpaces(s, k) && !(s[j] == ')' && depth == 1)
    requires d == if s[j] == '(' then depth + 1 else if s[j] == ')' then depth - 1 else depth
    ensures ArgumentFrom(s, k, depth, acc) == ArgumentFrom(s, j + 1, d, acc + [s[j]])
  {
    assert ArgumentFrom(s, k, depth, acc) == ArgumentAt(s, j, depth, acc);
  }

  lemma VisibleAfter(s: string, k: nat, j: nat, e: nat, acc: string)
    requires k <= j < e <= |s| && j == SkipSpaces(s, k)
    ensures acc + Visible(s[k..e]) == acc + [s[j]] + Visible(s[j + 1..e])
  {
    VisibleSplit(s, k, j, e);
    assert acc + ([s[j]] + Visible(s[j + 1..e])) == acc + [s[j]] + Visible(s[j + 1..e]);
  }
}
