# R7RS front end: the AST builder, modelled in Dafny

This project models the reader of a Scheme (R7RS) implementation written in
Rust: the step that turns the grammar's concrete parse tree into a typed
abstract syntax tree. A program is a sequence of `CDef`s (a command wrapping
an expression, or an opaque definition). An expression is an identifier, a
literal, a procedure call, or one of seven payload-free placeholder tags.
Literals are strings, booleans and characters. Characters come in three
syntaxes: `#\c`, the nine names of section 6.6 of R7RS, and `#\x<hex>`.
A hex literal must denote a Unicode scalar value (definition D76 in section
3.9 of the Unicode Standard).

Two builders are modelled, one per source file:

- `R7rsAst` (`src/r7rs/ast.rs`) is the current builder, with character literals.
- `LegacyAst` (`src/r7rs_ast.rs`) is the earlier copy. Its literals are only
  strings and booleans.
- `Compat` proves how the two relate.

Supporting modules:

- `ParseTree` is the grammar's tree: a node is its rule, its matched text and
  its inner nodes in order. Rules the builders never name are `Other(name)`.
- `Failure` holds the error type. Every `unwrap()` and `unreachable!()` of the
  builders becomes an `Err`: an unexpected node kind, a missing inner node, a
  direct character that is too short, an unknown character name, a bad hex
  numeral, or a value that is not a scalar value.
- `HexNumeral` models the two Rust standard-library conversions the hex
  decoder calls: `u32::from_str_radix(s, 16)` and `char::from_u32`. Its
  partner is a base-16 encoder, `ToHex`.

`AST::from` is a loop that pushes into a vector, so `FromProgram` is a method
with a loop invariant. `CDef::from` and `Expression::from` are recursive
dispatch, so they are functions. The operands' `map`/`collect` becomes the
recursive `DecodeOperands`. Each builder has a partner: functions from its
abstract syntax back to a parse tree (`ExprTree`, `CDefTree`, `ProgramTree`),
with round-trip lemmas for expressions, CDefs and whole programs.

Behaviour of the code that its own tests or comments do not lead one to expect:

- Import declarations are rejected. The `import_declaration` arm of
  `AST::from` is commented out (`src/r7rs/ast.rs:15-17`), so an import
  declaration reaches the `unreachable!()` at `src/r7rs/ast.rs:21`. A program
  whose first failing node is an import declaration fails on that node
  (`R7rsAst.ImportDeclarationRejected`).
- Number literals are rejected. Neither builder has an arm for them, so
  `(+ 2 2)`, the form the grammar's tests at `src/parser/mod.rs:27-40` parse,
  fails at its first operand (`R7rsAst.NumberLiteralFails`).
- `#true` decodes to false. The decoder compares the matched text with `#t`
  only (`src/r7rs/ast.rs:93`), so a boolean node whose text is `#true`
  decodes to false (`R7rsAst.LongFormTrueDecodesFalse`). The test at
  `src/r7rs/ast.rs:239-255` expects true, and passes only if the grammar never
  hands the decoder a boolean node with that text. The grammar is not part of
  this model.
- Errors carry no position. `Unexpected` carries the node's rule and its
  matched text.

## Model

| member | source | states |
|---|---|---|
| `R7rsAst.FromProgram` | src/r7rs/ast.rs:10-25 | Succeeds exactly when every inner node of the program decodes as a CDef. The result has one CDef per inner node, in order, and no imports. Otherwise the error is that of the first inner node that fails. |
| `R7rsAst.DecodeCDef` | src/r7rs/ast.rs:33-50 | Yields `Definition` exactly for a `command_or_definition` node whose first inner node is a definition, whatever that node contains. Yields `Command(e)` exactly when the first inner node is a command whose first inner node decodes to `e`. Any other outer kind is an unexpected-kind error. A missing inner node, under the outer node or under the command, is a missing-inner-node error. An inner kind other than command or definition is an unexpected-kind error naming it. A command whose expression fails carries that expression's error. |
| `R7rsAst.DecodeExpression` | src/r7rs/ast.rs:75-206 | An outer node that is not an `expression` fails with an unexpected-kind error naming its rule and text. An `expression` node with no inner node fails with a missing inner node. An inner kind outside the dispatch table (identifier, literal, call, seven placeholders) fails with an unexpected-kind error naming that inner node. |
| `R7rsAst.LeafDecoding` | src/r7rs/ast.rs:82-94 | An identifier decodes to exactly its matched text, and only identifier nodes give identifiers. A literal decodes to the decoding of the literal node's first inner node. A literal node with no inner node fails with a missing inner node. A literal whose inner node fails carries that node's error. |
| `R7rsAst.DecodeCharacter` | src/r7rs/ast.rs:97-144 | A character node with no inner node fails with a missing inner node. The direct form is decoded from its own text. The named and hex forms are decoded from the text of their first inner node, and fail with a missing inner node if they have none. Any other form fails with an unexpected-kind error. |
| `R7rsAst.DecodeLiteral` | src/r7rs/ast.rs:88-97 | A string keeps its matched text verbatim, quotes included. A boolean is true exactly when its text is `#t`. A character is the decoded character node, and a character that fails to decode carries its own error (short text, unknown name, bad numeral, non-scalar value). Any other inner kind fails. |
| `R7rsAst.LongFormTrueDecodesFalse` | src/r7rs/ast.rs:239-255 | A boolean node with text `#true` decodes to false, and one with text `#t` to true. |
| `R7rsAst.DecodeAnyCharacter` | src/r7rs/ast.rs:104-109 | The direct form `#\c` yields the character at index 2 of its text. A text shorter than three characters fails. |
| `R7rsAst.NamedChar` | src/r7rs/ast.rs:110-131 | Accepts exactly the nine R7RS names, with code points 0x07, 0x08, 0x7F, 0x1B, 0x0A, 0x00, 0x0D, 0x20 and 0x09. Any other name fails with that name. |
| `R7rsAst.NamedCharInjective` | src/r7rs/ast.rs:117-129 | No two names map to the same character. |
| `R7rsAst.DecodeHexCharacter` | src/r7rs/ast.rs:132-142 | Succeeds exactly when three things hold: the digits are a non-empty base-16 numeral (an optional `+` aside), the value fits in `u32`, and the value is a scalar value. The result then has that code point. Otherwise the error is a rejected numeral or a non-scalar value. |
| `R7rsAst.HexRoundTrip` | src/r7rs/ast.rs:132-142 | For every character, its code point written in base 16 decodes back to it, astral code points included. |
| `R7rsAst.HexLeadingZeros` | src/r7rs/ast.rs:265-269 | Any number of leading zeros leaves the outcome and the decoded character unchanged. |
| `R7rsAst.DirectAndNamedExamples` | src/r7rs/ast.rs:259-263 | `#\a`, `#\A`, `#\space` and `#\newline` decode as the test table expects. |
| `R7rsAst.HexExamples` | src/r7rs/ast.rs:264-269 | `x20`, `x0A`, `x00000020` and `x0000000A` decode to space and newline. |
| `R7rsAst.EmojiExamples` | src/r7rs/ast.rs:270-307 | U+1F600 and U+1F624 decode from their hex literals. |
| `R7rsAst.NotScalarExamples` | src/r7rs/ast.rs:136-140 | A surrogate and a value above U+10FFFF are rejected as non-scalar. |
| `R7rsAst.OverflowExample` | src/r7rs/ast.rs:137-138 | A nine-digit numeral above `u32` is rejected with an overflow. |
| `R7rsAst.MalformedNumeralExamples` | src/r7rs/ast.rs:137-138 | An empty numeral, a non-digit and a lone `+` are rejected. |
| `R7rsAst.CharacterRoundTrip` | src/r7rs/ast.rs:97-145 | Each of the three character syntaxes decodes back to the character it was written for. |
| `R7rsAst.DecodeOperands` | src/r7rs/ast.rs:186-192 | A successful decoding has exactly one operand per node. |
| `R7rsAst.OperandsInOrder` | src/r7rs/ast.rs:186-192 | Operands succeed exactly when every node decodes. Operand `i` is the decoding of node `i`. Otherwise the error is that of the first node that fails. |
| `R7rsAst.ProcedureCallDecoding` | src/r7rs/ast.rs:183-194 | A call succeeds exactly when it has inner nodes and all of them decode. The operator is the first node's decoding. There are one fewer operands than inner nodes, each the decoding of the next node in order. An empty call fails with a missing inner node. |
| `R7rsAst.PlaceholderDecoding` | src/r7rs/ast.rs:195-202 | Each of the seven placeholder kinds decodes to its tag whatever its inner nodes and text. A tag comes from no other kind. |
| `R7rsAst.ImportDeclarationRejected` | src/r7rs/ast.rs:13-21 | When every node before an import declaration decodes, the program fails with an unexpected-kind error naming that import declaration. |
| `R7rsAst.BadHexInExpression` | src/r7rs/ast.rs:85-142 | A literal expression holding a `#\x` character whose digits do not decode fails with exactly the hex decoder's error. |
| `R7rsAst.NumberLiteralFails` | src/r7rs/ast.rs:85-181 | `(+ 2 2)` with number literals fails at its first operand with an unexpected-kind error. |
| `R7rsAst.CallFromParts` | src/r7rs/ast.rs:183-193 | A call node whose operator node decodes to `op` and whose operand nodes decode, in order, to `args` decodes to the call of `op` on `args`. |
| `R7rsAst.ExprRoundTrip` | src/r7rs/ast.rs:75-207 | Every expression is rebuilt exactly from its parse tree. |
| `R7rsAst.CDefRoundTrip` | src/r7rs/ast.rs:33-50 | Every CDef is rebuilt exactly from its parse tree. |
| `R7rsAst.ProgramRoundTrip` | src/r7rs/ast.rs:10-25 | The parse tree of any sequence of CDefs builds the program with those CDefs and no imports. |
| `HexNumeral.FromStrRadix16` | src/r7rs/ast.rs:137-138 | Succeeds exactly on an optional `+` followed by a non-empty base-16 numeral whose value fits in `u32`, and returns that value. The empty string is the "empty" error. |
| `HexNumeral.ScanMeaning` | src/r7rs/ast.rs:137-138 | The left-to-right digit loop with overflow checks succeeds exactly when all characters are digits and the value fits in `u32`. It then returns the numeral's value. |
| `HexNumeral.FromU32` | src/r7rs/ast.rs:136-140 | Yields a character exactly for the Unicode scalar values, and that character has the given code point. |
| `HexNumeral.HexValueOfToHex` | src/r7rs/ast.rs:132-142 | The base-16 encoder is a right inverse of the numeral's value. |
| `HexNumeral.LeadingZerosValue` | src/r7rs/ast.rs:268-269 | Leading zeros do not change a numeral's value. |
| `LegacyAst.FromProgram` | src/r7rs_ast.rs:10-25 | Succeeds exactly when every inner node decodes as a CDef. The result has one CDef per inner node, in order, and no imports. Otherwise the error is that of the first failing node. |
| `LegacyAst.DecodeCDef` | src/r7rs_ast.rs:33-50 | Yields `Definition` exactly for a definition inner node, whatever it contains. Yields `Command(e)` exactly for a command whose expression decodes to `e`. Other outer kinds fail with an unexpected-kind error. A missing inner node, under the outer node or under the command, is a missing-inner-node error. An inner kind other than command or definition is an unexpected-kind error naming it. A command whose expression fails carries that expression's error. |
| `LegacyAst.DecodeExpression` | src/r7rs_ast.rs:74-120 | An outer node that is not an `expression` fails with an unexpected-kind error. An `expression` node with no inner node fails with a missing inner node. An inner kind outside the dispatch table fails with an unexpected-kind error naming that inner node. |
| `LegacyAst.DecodeLiteral` | src/r7rs_ast.rs:87-95 | A string keeps its text verbatim. A boolean is true exactly when its text is `#t`. Every other inner kind fails. |
| `LegacyAst.LeafDecoding` | src/r7rs_ast.rs:81-93 | An identifier decodes to exactly its matched text. A literal decodes to the decoding of its first inner node. A literal node with no inner node fails with a missing inner node. A literal whose inner node fails carries that node's error. |
| `LegacyAst.CharacterLiteralFails` | src/r7rs_ast.rs:87-94 | A character literal fails with an unexpected-kind error, since `Literal` has no character variant. |
| `LegacyAst.DecodeOperands` | src/r7rs_ast.rs:100-106 | A successful decoding has exactly one operand per node. |
| `LegacyAst.OperandsInOrder` | src/r7rs_ast.rs:100-106 | Operands succeed exactly when every node decodes. They keep order and count. Otherwise the error is that of the first failing node. |
| `LegacyAst.ProcedureCallDecoding` | src/r7rs_ast.rs:97-108 | The operator is the first node's decoding, and the operands are the remaining nodes' decodings in order. An empty call, or any inner node that fails, makes the call fail. |
| `LegacyAst.PlaceholderDecoding` | src/r7rs_ast.rs:109-115 | The seven placeholder kinds decode to their tags whatever their contents, and only they do. |
| `LegacyAst.CallFromParts` | src/r7rs_ast.rs:97-107 | A call node whose operator node and operand nodes decode, in order, decodes to the call built from those results. |
| `LegacyAst.ExprRoundTrip` | src/r7rs_ast.rs:74-121 | Every expression of the earlier builder is rebuilt exactly from its parse tree. |
| `LegacyAst.CDefRoundTrip` | src/r7rs_ast.rs:33-50 | Every CDef of the earlier builder is rebuilt exactly from its parse tree. |
| `LegacyAst.ProgramRoundTrip` | src/r7rs_ast.rs:10-25 | The parse tree of any sequence of CDefs builds the program with those CDefs and no imports. |
| `LegacyAst.ImportDeclarationRejected` | src/r7rs_ast.rs:13-21 | When every node before an import declaration decodes, the program fails with an unexpected-kind error naming that import declaration. |
| `Compat.LegacyAccepted` | src/r7rs_ast.rs:74-121 | On every node the earlier builder accepts, the current builder yields the same expression. |
| `Compat.CurrentWithoutChars` | src/r7rs/ast.rs:75-207 | On every node the current builder accepts without a character literal, the earlier builder succeeds too. |
| `Compat.LegacyCDefAccepted` | src/r7rs_ast.rs:33-50 | On every command-or-definition node the earlier builder accepts, the current builder yields the same CDef. |
| `Compat.CurrentCDefWithoutChars` | src/r7rs/ast.rs:33-50 | A CDef the current builder accepts without a character literal is accepted by the earlier builder. |
| `Compat.BuildBoth` | src/r7rs_ast.rs:10-25 | Wherever the earlier builder builds a program, the current one builds the same CDefs, in order. Wherever the current one succeeds without character literals, the earlier one succeeds too. |

## Left out

- The grammar (`src/parser/mod.rs` and its pest grammar file, which is not part of this model). Its tests are about which texts parse at all, for example that a blank program is rejected. The model starts from an arbitrary parse tree.
- `src/r7rs/value.rs` and `src/r7rs/env.rs` only declare types. `src/r7rs/vars.rs` formats a `Variable` through a `Display` for `Value`, which is not part of this model, so there is no textual form of values to model. `Environment` has no lookup method.
- `Import::from` (`src/r7rs/ast.rs:347-448`, `src/r7rs_ast.rs:178-279`) and the older character decoder (`src/r7rs/ast.rs:146-179`) are commented out. `Import` is declared and never constructed.
- The `dbg!` calls write to standard error. They do not affect the results.
- A Rust panic unwinds out of the builder. The model instead returns, as an `Err`, the failure of the first `unwrap()` or `unreachable!()` that evaluation order would reach.
- Source positions of nodes. Errors carry a node's rule and matched text.
- The rules of the inner nodes under `named_character` and `hex_character` are not inspected by the builder. The example trees call them `Other("character_name")` and `Other("hex_scalar_value")`.
- `from_str_radix` reads bytes and the model reads characters. A non-ASCII character is an invalid digit at the same position in both, so outcomes agree.
