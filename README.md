# Infix calculator: expression trees and a shunting-yard parser

This project models the core of a small C++ calculator. It has two parts:

- **The expression tree** of calc.h. `Number`, `Add`, `Subtract`,
  `Multiply`, `Divide`, `Power`, `Fraction`, `Sin` and `Cos` each have a
  side-effect-free `evaluate`.
- **The parser** `ExtendedExpressionParser` of calc.h and calc.cpp. It makes
  one left-to-right pass over the input with two stacks, `terms` (tree
  nodes) and `ops` (operator characters).
  - Operators are reduced by a fixed precedence table.
  - `)` drains the stack down to the matching `(`.
  - `sin`/`cos` calls have their argument cut out by a bracket counter and
    parsed recursively.
  - The end of the input drains every stacked operator.
  - Exactly one term must be left.

Every C++ exception becomes an `Err` of the `Result` type of module
`Results`. Its `Message` gives the text the exception carries.

Modules:

- `Results`: the error kinds and `Result`.
- `Expressions`: the tree as a `datatype Expr`, and `Eval`.
  - `Divide` evaluates its right operand first and fails on exactly 0.
  - `MakeFraction` is the `Fraction` constructor's check.
  - `std::pow`, `std::sin` and `std::cos` are the fields of a `MathLib`
    parameter.
- `Scanning`: what the `istringstream` reads do.
  - `>>` skips white space.
  - The numeric lexeme.
  - The name loop of `parse`.
  - The argument loop of `parseFunction`.
- `ShuntingYard`: `parse` written as functions, the reference definitions
  of the parser.
  - Functions `Reduce` (`processOperator`), `ReduceHigher`, `CloseParen`,
    `ReduceAll` and `Finish`.
  - `Scan`, with one function per branch of the loop body, and `FunctionCall`
    (`parseFunction`).
  - Lemmas about what each reduction does to the stacks.
- `Parser`: the class `ExpressionParser`.
  - Its two table fields are filled by the constructor.
  - Its methods keep the two stacks in local sequences (top = last
    element) and run the loops of the C++ code.
  - Each method is proved to compute its reference definition:
    - `ProcessOperator` computes `ShuntingYard.Reduce`.
    - `ReadArgument` computes `Scanning.ArgumentFrom` from depth 1.
    - `ParseFunction` computes `ShuntingYard.FunctionCall`.
    - `ScanName` computes `Scanning.Name`.
    - `ReduceHigher`, `CloseParen`, `Finish` and `Parse` compute the
      `ShuntingYard` functions of the same name.
- `Printing`: a printer for trees whose numbers are naturals. Every binary
  node is written in its own parentheses.
- `ParseProperties`: properties of `parse`.
  - Parsing printed text gives the tree back.
  - Two-operator inputs group as the precedence table says.
- `ParseExamples`: the inputs of final_test.cpp, and one input for each
  error of `parse`.

**Grouping of equal precedence.** `isHigherPrecedence` is a strict `>`
(calc.h:168-170), so an operator never reduces a stacked operator of the
same level. The final drain then reduces the last-pushed operator first
(calc.cpp:140-143). Chains of equal precedence therefore group to the
right:

- `1-2-3` is `1-(2-3)` and evaluates to 2.
- `2^3^2` is `2^(3^2)`.

A description of this algorithm as left-associative, with `2^3^2` read as
`(2^3)^2`, does not match the code. This model follows the code
(`ParseProperties.TwoOperators`, `ParseExamples.RightGrouping`,
`ParseExamples.RightPower`).

Other behaviour of the code that the model keeps:

- A `(` still on the stack at the end of the input reaches
  `processOperator`, never the "Mismatched parentheses" error.
  - With fewer than two terms it fails with "Insufficient values in
    expression".
  - Otherwise `opMap['(']` is an empty `std::function`, and calling it
    throws `bad_function_call` (`BadFunctionCall`).
- The name loop stops only at a raw `(` or at the end of the input. Its
  `>>` skips white space, so `sin 1` reads the name `sin1`.
- `parseFunction` drops the white space inside the argument.

## Model

| member | source | states |
|---|---|---|
| Expressions.MakeBinary | calc.cpp:79-83 | each kind builds its own node (`AddKind` an `Add`, and so on), which is binary and holds exactly the given left and right children |
| Expressions.Eval | calc.h:30-149 | evaluation's only error is "Division by zero" |
| Expressions.EvalBinary | calc.h:55-105 | when both children evaluate, `Add`, `Subtract`, `Multiply` and `Power` give `x + y`, `x - y`, `x * y` and `pow(x, y)` of their values |
| Expressions.EvalFailurePropagates | calc.h:55-149 | a failing left child of `Add`, `Subtract`, `Multiply` or `Power`, or the failing operand of `Sin` or `Cos`, makes the node fail with the same error |
| Expressions.EvalLeaves | calc.h:30-149 | a `Number` evaluates to its value; `Sin` and `Cos` apply `sin` and `cos` to the value of their operand |
| Expressions.MakeFraction | calc.h:115-123 | fails with "Denominator cannot be zero" exactly when the denominator is 0; otherwise builds the fraction, which evaluates to numerator / denominator for every math library |
| Expressions.DivideSemantics | calc.h:88-94 | a right operand of value 0 makes `Divide` fail even if the left operand would fail too; otherwise the result is left / right |
| Expressions.EvalFailsIffDividesByZero | calc.h:88-94 | evaluation fails if and only if some `Divide` node's right operand evaluates to 0 |
| Scanning.SkipSpaces | calc.cpp:93 | `>>` moves to the first non-space character at or after the position, and everything skipped is white space |
| Scanning.LexNumber | calc.cpp:94-98 | definition of the numeric read: the digits, then a `.` and more digits if a `.` follows; it ends past its start and within the input (its shape is in `LexemeShape` and `LexInteger`) |
| Scanning.DigitsEnd | calc.cpp:97 | the digit run ends at the first character that is not a digit |
| Scanning.FractionValue | calc.cpp:97 | the digits after the decimal point are worth at least 0 and less than 1 |
| Scanning.LexemeShape | calc.cpp:94-98 | the lexeme is the longest run of digits containing at most one `.`; it reads a value exactly when it holds a digit, and the value is never negative |
| Scanning.LexInteger | calc.cpp:94-98 | a digit run not followed by `.` reads as the integer its digits spell and ends after the run |
| Scanning.NameFrom | calc.cpp:125-127 | the name loop stops only at a raw `(` or at the end of the input |
| Scanning.NameStopsAtFirstParen | calc.cpp:125-127 | the loop stops at the first `(` that `peek` sees: every `(` taken into the name comes after white space, which `>>` skipped, and a stop inside the input is at the start or right after a visible character |
| Scanning.NameText | calc.cpp:123-127 | the name is the text from where the scan starts to where the loop stops, white space removed |
| Scanning.Name | calc.cpp:123-127 | the name loop ends after the first letter and within the input |
| Scanning.ArgumentFrom | calc.cpp:41-54 | the argument loop fails only with "Mismatched parentheses in function argument"; on success it ends after its start and keeps no more characters than it read |
| Scanning.ArgumentDepth | calc.cpp:41-54 | the argument loop stops at the first `)` that brings the bracket count to 0, and fails exactly when the input ends before the count reaches 0 |
| Scanning.ArgumentText | calc.cpp:41-50 | the captured argument is the text read, white space removed, nested parentheses kept and the closing `)` left out |
| Scanning.ArgumentIsText | calc.cpp:41-54 | from just after `(`: the argument is the visible text up to the `)` that balances the `(`, and the scan ends just after that `)` |
| ShuntingYard.Reduce | calc.cpp:7-20 | fails with "Insufficient values in expression" if and only if fewer than 2 terms are stacked; otherwise the stack shrinks by one, the deeper terms are unchanged, and the new top is `op(left, right)` with `right` the former top; an operator without an `opMap` entry fails with `bad_function_call` |
| ShuntingYard.ReduceHigherStops | calc.cpp:100-106 | on an incoming operator, exactly the run of operators of strictly higher precedence on top of `ops` is reduced; the draining stops at a `(`, at an operator of lower or equal precedence, or at the bottom |
| ShuntingYard.ReduceHigherPrefix | calc.cpp:101-104 | the operators left after the draining are a prefix of `ops`, and the only error is "Insufficient values in expression" |
| ShuntingYard.ReduceHigherReduced | calc.cpp:101-104 | every removed operator has strictly higher precedence than the incoming one |
| ShuntingYard.ReduceHigherHalts | calc.cpp:101-104 | the draining halts at the bottom, at a `(` or at an operator of lower or equal precedence |
| ShuntingYard.ReduceHigherTerms | calc.cpp:101-104 | each reduced operator consumes one term, and the terms below the reduced ones are unchanged |
| ShuntingYard.CloseParenPops | calc.cpp:110-121 | on `)`: operators are reduced down to the nearest `(`, which alone is removed; without a `(` the step fails, with "Mismatched parentheses" when only operators are stacked over enough terms |
| ShuntingYard.CloseParenKeeps | calc.cpp:111-114 | each reduction of the `)` step replaces only the top two terms, so everything below the last term left is unchanged |
| ShuntingYard.ReduceAllCounts | calc.cpp:140-143 | the final drain succeeds exactly when only operators are stacked and there are more terms than operators (or no operators); each reduction leaves one term fewer, and the only errors are "Insufficient values in expression" and `bad_function_call` |
| ShuntingYard.FinishSucceeds | calc.cpp:140-149 | the end of `parse` succeeds exactly when only operators are stacked and there is one term more than operators; the single term left is the result |
| ShuntingYard.LeftoverParenFails | calc.cpp:140-147 | a `(` still stacked at the end always fails, and never with "Mismatched parentheses" |
| ShuntingYard.FunctionCall | calc.cpp:29-67 | fails with "Expected '(' after function name" unless the next visible character is `(`; on success it is `Sin` for `sin` and `Cos` for `cos`, and ends after the name |
| ShuntingYard.CallArgumentText | calc.cpp:29-59 | a call succeeds only on a `(` and the `)` that balances it; its operand is the parse of the visible text between them |
| ShuntingYard.ScanRejectsName | calc.cpp:122-133 | a name other than `sin` or `cos` ends the parse with "Unknown function: " and that name |
| ShuntingYard.ScanCallFails | calc.cpp:128-130 | a `sin` or `cos` name whose call fails ends the parse with the error of `parseFunction` |
| ShuntingYard.ScanRejectsCharacter | calc.cpp:135-137 | a visible character that starts no token ends the parse with "Invalid character or token" |
| ShuntingYard.ReduceHigher | calc.cpp:101-104 | definition of the draining on an incoming operator; `Parser.ExpressionParser.ReduceHigher` is proved to compute it, and its properties are in `ReduceHigherStops` and `ReduceHigherTerms` |
| ShuntingYard.CloseParen | calc.cpp:111-120 | definition of the `)` step; `Parser.ExpressionParser.CloseParen` is proved to compute it, and its properties are in `CloseParenPops` |
| ShuntingYard.ReduceAll | calc.cpp:140-143 | definition of the final drain, last-pushed operator first; its properties are in `ReduceAllCounts` |
| ShuntingYard.Finish | calc.cpp:140-149 | definition of the end of `parse`; `Parser.ExpressionParser.Finish` is proved to compute it, and its properties are in `FinishSucceeds` and `LeftoverParenFails` |
| ShuntingYard.Scan | calc.cpp:93-143 | definition of the main loop from a position with given stacks: the end of the input runs `Finish`, anything else one `Token` |
| ShuntingYard.Token | calc.cpp:94-137 | definition of one pass of the loop body: a digit or `.`, an operator, `(`, `)`, a letter, or an invalid character |
| ShuntingYard.NumberStep | calc.cpp:94-98 | definition of the number branch: the value read is pushed; a read that fails pushes 0 and ends the loop |
| ShuntingYard.OperatorStep | calc.cpp:100-106 | definition of the operator branch: drain, then push |
| ShuntingYard.CloseStep | calc.cpp:110-121 | definition of the `)` branch |
| ShuntingYard.NameStep | calc.cpp:122-134 | definition of the name branch: `sin`/`cos` go to `FunctionCall`, any other name fails |
| ShuntingYard.Parse | calc.cpp:86-150 | definition of `parse`; `Parser.ExpressionParser.Parse` is proved to compute it, and `ParseProperties` states its promises |
| Results.Error.Message | calc.cpp:10-146 | the text each exception carries, "Unknown function: " followed by the name included |
| Parser.ExpressionParser.constructor | calc.cpp:69-84 | the precedence table maps `+ -` to 1, `* /` to 2 and `^` to 3, and the operator table maps each to its node kind |
| Parser.ExpressionParser.IsOperator | calc.h:160-162 | holds exactly for `+ - * / ^` |
| Parser.ExpressionParser.GetPrecedence | calc.h:164-166 | 1 for `+ -`, 2 for `* /`, 3 for `^`, and the map's default 0 for any other character |
| Parser.ExpressionParser.IsHigherPrecedence | calc.h:168-170 | holds exactly when the first precedence is strictly greater, so never for two operators of the same level |
| Parser.ExpressionParser.ProcessOperator | calc.cpp:7-20 | computes `ShuntingYard.Reduce` |
| Parser.ExpressionParser.ReadArgument | calc.cpp:41-54 | the loop over `bracketCount` and `argStr` computes `Scanning.ArgumentFrom` from depth 1 |
| Parser.ExpressionParser.ParseFunction | calc.cpp:29-67 | computes `ShuntingYard.FunctionCall` |
| Parser.ExpressionParser.ReduceHigher | calc.cpp:101-104 | the draining loop computes `ShuntingYard.ReduceHigher` |
| Parser.ExpressionParser.CloseParen | calc.cpp:111-120 | the `)` loop computes `ShuntingYard.CloseParen` |
| Parser.ExpressionParser.ScanName | calc.cpp:123-127 | the name loop computes `Scanning.Name` |
| Parser.ExpressionParser.Finish | calc.cpp:140-149 | the final drain and result check compute `ShuntingYard.Finish` |
| Parser.ExpressionParser.Parse | calc.cpp:86-150 | the main loop computes `ShuntingYard.Parse` |
| ParseProperties.LexPrinted | calc.cpp:94-98 | a numeral followed by neither a digit nor `.` reads as its value and ends after its last digit |
| ParseProperties.ScanNumber | calc.cpp:94-98 | a numeral pushes its value as a term and the scan goes on after it |
| ParseProperties.ScanOperator | calc.cpp:100-106 | an operator drains the stronger operators, then is pushed |
| ParseProperties.ScanOpen | calc.cpp:107-108 | `(` is pushed on `ops` |
| ParseProperties.ScanClose | calc.cpp:110-117 | `)` over `(`, `a`, `op`, `b` replaces them with one node `op(a, b)` |
| ParseProperties.ScanCall | calc.cpp:122-130 | `sin(...)`/`cos(...)` around the printed text of a tree pushes `Sin`/`Cos` of that tree |
| ParseProperties.ParsePrinted | calc.cpp:86-150 | parsing the printed text of a tree gives the tree back |
| ParseProperties.EvaluatePrinted | calc.cpp:86-150 | the parse of a printed tree evaluates as the tree itself |
| ParseProperties.OneOperator | calc.cpp:100-149 | `a o b` over two numerals parses to the single node `o(a, b)` |
| ParseProperties.TwoOperators | calc.cpp:100-143 | `a o1 b o2 c` groups as `(a o1 b) o2 c` exactly when `o1` has strictly higher precedence, and as `a o1 (b o2 c)` otherwise, equal precedence included |
| ParseExamples.Sum | final_test.cpp:30-37 | `1+2` is `Add(1, 2)` and evaluates to 3 |
| ParseExamples.Precedences | final_test.cpp:39-46 | `1+2*3` is `1+(2*3)` and evaluates to 7 |
| ParseExamples.Brackets | final_test.cpp:48-55 | `(1+2)*3` is `(1+2)*3` and evaluates to 9 |
| ParseExamples.Throws | final_test.cpp:57-62 | `1***3` fails with "Insufficient values in expression" |
| ParseExamples.RightGrouping | calc.cpp:140-143 | `1-2-3` is `1-(2-3)` and evaluates to 2 |
| ParseExamples.RightPower | calc.cpp:140-143 | `2^3^2` is `2^(3^2)` |
| ParseExamples.DivisionByZeroExample | calc.h:88-94 | `1/0` parses, and its evaluation fails with "Division by zero" |
| ParseExamples.EmptyInput | calc.cpp:145-147 | the empty input and `()` fail with "Invalid expression" |
| ParseExamples.TwoTerms | calc.cpp:145-147 | `1 2` fails with "Invalid expression" |
| ParseExamples.MissingOperand | calc.cpp:9-10 | `-1` fails with "Insufficient values in expression" |
| ParseExamples.OpenParen | calc.cpp:140-143 | `(1` fails with "Insufficient values in expression" |
| ParseExamples.OpenParenOverOperands | calc.cpp:19 | `1+(2` fails with `bad_function_call` |
| ParseExamples.CloseParen | calc.cpp:118-120 | `1)` fails with "Mismatched parentheses" |
| ParseExamples.UnknownName | calc.cpp:131-133 | `tan(1)` fails with "Unknown function: tan" |
| ParseExamples.SpacedName | calc.cpp:125-127 | `sin 1` reads the name `sin1` and fails with "Unknown function: sin1" |
| ParseExamples.NoCallParen | calc.cpp:35-38 | `sin` fails with "Expected '(' after function name", the model's reading of the unassigned `next` (see "Left out") |
| ParseExamples.UnclosedCall | calc.cpp:52-54 | `sin(1` fails with "Mismatched parentheses in function argument" |
| ParseExamples.StrayCharacter | calc.cpp:135-137 | `1#` fails with "Invalid character or token" |

Evaluation is a function of the tree, so evaluating the same tree twice
gives the same result by construction (calc.h:18).

## Left out

- Floating point is left out. Numbers are `real`, with no rounding, NaN or
  infinity. `pow`, `sin` and `cos` are the fields of a `MathLib` parameter,
  and their values are not modelled.
- `istream >> double` is modelled as a run of digits with at most one `.`:
  - no sign, exponent, hexadecimal form, `inf`/`nan` or range overflow, so
    `1e5` is read as `1` followed by the name `e5` and fails with
    "Unknown function: e5", where the C++ stream reads 100000;
  - a lexeme without a digit (a lone `.`) stores 0 and ends the main loop,
    as a failed read does.
- `parseFraction` (calc.cpp:22-27) is unreachable from `parse`. Only the
  `Fraction` constructor's check is modelled (`MakeFraction`); its stream
  reads are not.
- The map insertions are not modelled:
  - `opMap['(']` inserts an empty entry when a leftover `(` is reduced, and
    a later `isOperator('(')` on the same parser object would then hold.
    Only the failing parse is modelled.
  - `getPrecedence` inserts a zero entry for a character without one; the
    model returns 0 without the insertion.
- Characters are Dafny `char`s. `isdigit`, `isalpha` and `isspace` are
  their ASCII classes (no locale, no bytes above 127).
- `shared_ptr` sharing and `std::function` are plain values: trees are
  immutable values, and operators are a `BinaryKind`.
- The stacks of `parse` are local sequences, and the stream position is an
  index into the input.
- final.cpp and final_test.cpp are not part of this model. final.cpp is the
  command-line wrapper that reads standard input, prints and catches errors.
  final_test.cpp is the cppunit test suite; its assertions appear as
  `ParseExamples`.
- The printer, and with it the round trip, covers only trees whose numbers
  are naturals. `Fraction` has no syntax in `parse`.
- FunctionCall: when the name loop ends at the end of the
  input, `iss >> next` (calc.cpp:35) fails and leaves `char next`
  (calc.cpp:31) unassigned, so the C++ outcome depends on an
  uninitialised value. It is "Expected '(' after function name" when the
  stray value is not `(`, and "Mismatched parentheses in function
  argument" when it is. The model always gives "Expected '(' after
  function name".
- NoCallParen: states the model's choice for `sin` at the end of the
  input, from the line above, not a determinate C++ outcome.
- EvalBinary: the `Multiply` clause gives the product through `.value`
  rather than as a whole `Ok(...)`, because the solver does not equate a
  product of two unknown reals inside a result value.
