/** The AST builder of `src/r7rs/ast.rs`: it turns the grammar's parse tree
    into a `Program` of commands and definitions, decoding string, boolean
    and character literals on the way. Where the Rust code panics
    (`unwrap()`, `unreachable!()`), the model returns an `Err`. */
module R7rsAst {
  import PT = ParseTree
  import opened Failure
  import Hex = HexNumeral

  // ---------------------------------------------------------------------
  // The abstract syntax tree

  datatype Literal = String(text: string) | Bool(b: bool) | Char(c: char)

  datatype Expression =
    | Identifier(name: string)
    | Literal(literal: Literal)
    | ProcedureCall(operator: Operator, operands: seq<Operand>)
    | Lambda
    | Conditional
    | Assignment
    | DerivedExpression
    | MacroUse
    | MacroBlock
    | Includer

  /** The expression in operator position of a procedure call. */
  datatype Operator = Operator(expr: Expression)

  /** An expression in operand position of a procedure call. */
  datatype Operand = Operand(expr: Expression)

  datatype CDef = Command(expr: Expression) | Definition

  /** Import sets; declared for the program's `imports`, never built. */
  datatype Import =
    | Library(name: string)
    | Only(imports: seq<Import>, identifiers: seq<string>)
    | Except(imports: seq<Import>, identifiers: seq<string>)
    | Prefix(imports: seq<Import>, prefix: string)
    // The source calls this field `identifiers` as well; a shared destructor
    // must keep one type, so the pairs of `Rename` are named `renames`.
    | Rename(imports: seq<Import>, renames: seq<(string, string)>)

  datatype Ast = Program(imports: seq<Import>, cdefs: seq<CDef>)

  // ---------------------------------------------------------------------
  // Character literals

  /** `#\c`: the character after the two-character prefix. */
  function DecodeAnyCharacter(text: string): (r: Result<char>)
    ensures r.Ok? <==> |text| >= 3
    ensures r.Ok? ==> r.value == text[2]
    ensures r.Err? ==> r.error == ShortCharacter(text)
  {
    if |text| < 3 then Err(ShortCharacter(text)) else Ok(text[2])
  }

  /** `#\<name>`: the nine character names of section 6.6 of R7RS. */
  function NamedChar(name: string): (r: Result<char>)
    ensures r.Ok? <==> name in R7RS_CHAR_NAMES
    ensures r.Ok? ==> r.value as nat == R7RS_CHAR_NAMES[name]
    ensures r.Err? ==> r.error == UnknownCharName(name)
  {
    match name
    case "alarm" => Ok('\U{07}')
    case "backspace" => Ok('\U{08}')
    case "delete" => Ok('\U{7F}')
    case "escape" => Ok('\U{1B}')
    case "newline" => Ok('\U{0A}')
    case "null" => Ok('\U{00}')
    case "return" => Ok('\U{0D}')
    case "space" => Ok(' ')
    case "tab" => Ok('\U{09}')
    case _ => Err(UnknownCharName(name))
  }

  /** The character names of section 6.6 of R7RS and their code points. */
  const R7RS_CHAR_NAMES: map<string, nat> := map[
    "alarm" := 0x07, "backspace" := 0x08, "delete" := 0x7F,
    "escape" := 0x1B, "newline" := 0x0A, "null" := 0x00,
    "return" := 0x0D, "space" := 0x20, "tab" := 0x09]

  /** `#\x<digits>`: `char::from_u32(u32::from_str_radix(digits, 16))`. */
  function DecodeHexCharacter(digits: string): (r: Result<char>)
    ensures var d := Hex.Unsigned(digits);
      r.Ok? <==> d != [] && Hex.IsHexDigits(d) && Hex.HexValue(d) <= Hex.U32_MAX && Hex.IsScalar(Hex.HexValue(d))
    ensures r.Ok? ==> r.value as nat == Hex.HexValue(Hex.Unsigned(digits))
    ensures r.Err? ==> r.error.BadHex? || (r.error.NotScalar? && !Hex.IsScalar(r.error.value))
  {
    match Hex.FromStrRadix16(digits)
    case Rejected(kind) => Err(BadHex(digits, kind))
    case Value(v) =>
      match Hex.FromU32(v)
      case None => Err(NotScalar(v))
      case Some(c) => Ok(c)
  }

  /** A `character` node: its first inner node is one of the three forms.
      The direct form is decoded from its own text, the named and hex forms
      from the text of their first inner node. */
  function DecodeCharacter(ch: PT.Node): (r: Result<char>)
    ensures ch.children == [] ==> r == Err(MissingChild(PT.Character, ch.text))
    ensures ch.children != [] && ch.children[0].rule.AnyCharacter? ==>
      r == DecodeAnyCharacter(ch.children[0].text)
    ensures ch.children != [] && ch.children[0].rule.NamedCharacter? ==>
      r == if ch.children[0].children == [] then Err(MissingChild(PT.NamedCharacter, ch.children[0].text))
           else NamedChar(ch.children[0].children[0].text)
    ensures ch.children != [] && ch.children[0].rule.HexCharacter? ==>
      r == if ch.children[0].children == [] then Err(MissingChild(PT.HexCharacter, ch.children[0].text))
           else DecodeHexCharacter(ch.children[0].children[0].text)
    ensures ch.children != [] && !(ch.children[0].rule.AnyCharacter? || ch.children[0].rule.NamedCharacter? || ch.children[0].rule.HexCharacter?) ==>
      r == Err(Unexpected(ch.children[0].rule, ch.children[0].text))
  {
    if |ch.children| == 0 then Err(MissingChild(PT.Character, ch.text))
    else
      var form := ch.children[0];
      match form.rule
      case AnyCharacter => DecodeAnyCharacter(form.text)
      case NamedCharacter =>
        if |form.children| == 0 then Err(MissingChild(PT.NamedCharacter, form.text))
        else NamedChar(form.children[0].text)
      case HexCharacter =>
        if |form.children| == 0 then Err(MissingChild(PT.HexCharacter, form.text))
        else DecodeHexCharacter(form.children[0].text)
      case _ => Err(Unexpected(form.rule, form.text))
  }

  // ---------------------------------------------------------------------
  // Expressions

  /** The inner node of a `literal` node: a string, a boolean or a character.
      Strings keep their matched text verbatim, quotes and escapes included;
      a boolean is true exactly when its text is `#t`. */
  function DecodeLiteral(lit: PT.Node): (r: Result<Literal>)
    ensures lit.rule.String? <==> r.Ok? && r.value.String?
    ensures r.Ok? && r.value.String? ==> r.value.text == lit.text
    ensures lit.rule.Boolean? <==> r.Ok? && r.value.Bool?
    ensures r.Ok? && r.value.Bool? ==> (r.value.b <==> lit.text == "#t")
    ensures r.Ok? && r.value.Char? <==> lit.rule.Character? && DecodeCharacter(lit).Ok?
    ensures r.Ok? && r.value.Char? ==> DecodeCharacter(lit) == Ok(r.value.c)
    ensures lit.rule.Character? && DecodeCharacter(lit).Err? ==> r == Err(DecodeCharacter(lit).error)
    ensures !(lit.rule.String? || lit.rule.Boolean? || lit.rule.Character?) ==>
      r == Err(Unexpected(lit.rule, lit.text))
  {
    match lit.rule
    case String => Ok(String(lit.text))
    case Boolean => Ok(Bool(lit.text == "#t"))
    case Character =>
      var c :- DecodeCharacter(lit);
      Ok(Char(c))
    case _ => Err(Unexpected(lit.rule, lit.text))
  }

  /** The inner kinds `Expression::from` has an arm for. */
  predicate KnownKind(k: PT.Rule) {
    k.Identifier? || k.Literal? || k.ProcedureCall? || PT.IsPlaceholderKind(k)
  }

  /** `Expression::from`: an `expression` node whose first inner node says
      which kind of expression it is. */
  function DecodeExpression(n: PT.Node): (r: Result<Expression>)
    ensures !n.rule.Expression? ==> r == Err(Unexpected(n.rule, n.text))
    ensures n.rule.Expression? && n.children == [] ==> r == Err(MissingChild(PT.Expression, n.text))
    ensures n.rule.Expression? && n.children != [] && !KnownKind(n.children[0].rule) ==>
      r == Err(Unexpected(n.children[0].rule, n.children[0].text))
    decreases n
  {
    if !n.rule.Expression? then Err(Unexpected(n.rule, n.text))
    else if |n.children| == 0 then Err(MissingChild(PT.Expression, n.text))
    else
      var e := n.children[0];
      match e.rule
      case Identifier => Ok(Identifier(e.text))
      case Literal =>
        if |e.children| == 0 then Err(MissingChild(PT.Literal, e.text))
        else
          var l :- DecodeLiteral(e.children[0]);
          Ok(Literal(l))
      case ProcedureCall =>
        if |e.children| == 0 then Err(MissingChild(PT.ProcedureCall, e.text))
        else
          var op :- DecodeExpression(e.children[0]);
          var args :- DecodeOperands(e.children[1..]);
          Ok(ProcedureCall(Operator(op), args))
      case LambdaExpression => Ok(Lambda)
      case Conditional => Ok(Conditional)
      case Assignment => Ok(Assignment)
      case DerivedExpression => Ok(DerivedExpression)
      case MacroUse => Ok(MacroUse)
      case MacroBlock => Ok(MacroBlock)
      case Includer => Ok(Includer)
      case _ => Err(Unexpected(e.rule, e.text))
  }

  /** The operands of a call, decoded left to right; the first failure wins. */
  function DecodeOperands(ns: seq<PT.Node>): (r: Result<seq<Operand>>)
    ensures r.Ok? ==> |r.value| == |ns|
    decreases ns
  {
    if ns == [] then Ok([])
    else
      var e :- DecodeExpression(ns[0]);
      var rest :- DecodeOperands(ns[1..]);
      Ok([Operand(e)] + rest)
  }

  /** `CDef::from`: a `command_or_definition` node holding a command or a
      definition. A definition is accepted whatever its contents. */
  function DecodeCDef(n: PT.Node): (r: Result<CDef>)
    ensures r == Ok(Definition) <==>
      n.rule.CommandOrDefinition? && n.children != [] && n.children[0].rule.Definition?
    ensures r.Ok? && r.value.Command? <==>
      && n.rule.CommandOrDefinition? && n.children != []
      && n.children[0].rule.Command? && n.children[0].children != []
      && DecodeExpression(n.children[0].children[0]).Ok?
    ensures r.Ok? && r.value.Command? ==> Ok(r.value.expr) == DecodeExpression(n.children[0].children[0])
    ensures !n.rule.CommandOrDefinition? ==> r == Err(Unexpected(n.rule, n.text))
    ensures n.rule.CommandOrDefinition? && n.children == [] ==>
      r == Err(MissingChild(PT.CommandOrDefinition, n.text))
    ensures (n.rule.CommandOrDefinition? && n.children != [] &&
             !(n.children[0].rule.Command? || n.children[0].rule.Definition?)) ==>
      r == Err(Unexpected(n.children[0].rule, n.children[0].text))
    ensures (n.rule.CommandOrDefinition? && n.children != [] &&
             n.children[0].rule.Command? && n.children[0].children == []) ==>
      r == Err(MissingChild(PT.Command, n.children[0].text))
    ensures (n.rule.CommandOrDefinition? && n.children != [] &&
             n.children[0].rule.Command? && n.children[0].children != [] &&
             DecodeExpression(n.children[0].children[0]).Err?) ==>
      r == Err(DecodeExpression(n.children[0].children[0]).error)
  {
    if !n.rule.CommandOrDefinition? then Err(Unexpected(n.rule, n.text))
    else if |n.children| == 0 then Err(MissingChild(PT.CommandOrDefinition, n.text))
    else
      var c := n.children[0];
      match c.rule
      case Command =>
        if |c.children| == 0 then Err(MissingChild(PT.Command, c.text))
        else
          var e :- DecodeExpression(c.children[0]);
          Ok(Command(e))
      case Definition => Ok(Definition)
      case _ => Err(Unexpected(c.rule, c.text))
  }

  // ---------------------------------------------------------------------
  // Programs

  /** `AST::from`: one CDef per inner node of the program, pushed in order.
      The loop stops at the first inner node that fails. */
  method FromProgram(program: PT.Node) returns (r: Result<Ast>)
    ensures r.Ok? <==> forall i :: 0 <= i < |program.children| ==> DecodeCDef(program.children[i]).Ok?
    ensures r.Ok? ==> r.value.imports == [] && |r.value.cdefs| == |program.children|
    ensures r.Ok? ==> forall i :: 0 <= i < |program.children| ==>
      r.value.cdefs[i] == DecodeCDef(program.children[i]).value
    ensures r.Err? ==>
      exists k: nat :: FirstFailure(program.children, k) && r.error == DecodeCDef(program.children[k]).error
  {
    var imports: seq<Import> := [];
    var cdefs: seq<CDef> := [];
    for i := 0 to |program.children|
      invariant |cdefs| == i
      invariant forall j :: 0 <= j < i ==>
        DecodeCDef(program.children[j]).Ok? && cdefs[j] == DecodeCDef(program.children[j]).value
    {
      var child := program.children[i];
      match child.rule {
        case CommandOrDefinition =>
          var cdef := DecodeCDef(child);
          if cdef.Err? {
            assert FirstFailure(program.children, i);
            return Err(cdef.error);
          }
          cdefs := cdefs + [cdef.value];
        case _ =>
          assert FirstFailure(program.children, i);
          return Err(Unexpected(child.rule, child.text));
      }
    }
    r := Ok(Program(imports, cdefs));
  }

  /** `k` is the first inner node of a program that does not decode. */
  ghost predicate FirstFailure(children: seq<PT.Node>, k: nat) {
    && k < |children|
    && DecodeCDef(children[k]).Err?
    && forall j :: 0 <= j < k ==> DecodeCDef(children[j]).Ok?
  }

  // ---------------------------------------------------------------------
  // Properties of expression decoding

  /** Identifiers and literals: an identifier is exactly its matched text,
      and a literal is the decoding of the literal node's first inner node. */
  lemma LeafDecoding(n: PT.Node)
    ensures forall x :: DecodeExpression(n) == Ok(Identifier(x)) <==>
      PT.Heads(n, PT.Identifier) && n.children[0].text == x
    ensures forall l :: DecodeExpression(n) == Ok(Literal(l)) <==>
      PT.Heads(n, PT.Literal) && n.children[0].children != [] && DecodeLiteral(n.children[0].children[0]) == Ok(l)
    ensures PT.Heads(n, PT.Literal) && n.children[0].children == [] ==>
      DecodeExpression(n) == Err(MissingChild(PT.Literal, n.children[0].text))
    ensures (PT.Heads(n, PT.Literal) && n.children[0].children != [] &&
             DecodeLiteral(n.children[0].children[0]).Err?) ==>
      DecodeExpression(n) == Err(DecodeLiteral(n.children[0].children[0]).error)
  {
  }

  /** The tag each placeholder kind decodes to. */
  function PlaceholderTag(k: PT.Rule): (t: Expression)
    requires PT.IsPlaceholderKind(k)
  {
    match k
    case LambdaExpression => Lambda
    case Conditional => Conditional
    case Assignment => Assignment
    case DerivedExpression => DerivedExpression
    case MacroUse => MacroUse
    case MacroBlock => MacroBlock
    case Includer => Includer
  }

  /** The seven placeholder kinds decode to their tag whatever their inner
      nodes and text, and a tag comes from nothing else. */
  lemma PlaceholderDecoding(n: PT.Node, k: PT.Rule)
    requires PT.IsPlaceholderKind(k)
    ensures DecodeExpression(n) == Ok(PlaceholderTag(k)) <==> PT.Heads(n, k)
  {
  }

  /** `k` is the first operand node that does not decode. */
  ghost predicate FirstBadOperand(ns: seq<PT.Node>, k: nat) {
    && k < |ns|
    && DecodeExpression(ns[k]).Err?
    && forall j :: 0 <= j < k ==> DecodeExpression(ns[j]).Ok?
  }

  /** Operands are decoded one by one, in order, count preserved; the
      first operand that fails decides the error. */
  lemma {:induction false} OperandsInOrder(ns: seq<PT.Node>)
    ensures DecodeOperands(ns).Ok? <==> forall i :: 0 <= i < |ns| ==> DecodeExpression(ns[i]).Ok?
    ensures DecodeOperands(ns).Ok? ==>
      forall i :: 0 <= i < |ns| ==> DecodeOperands(ns).value[i] == Operand(DecodeExpression(ns[i]).value)
    ensures DecodeOperands(ns).Err? ==>
      exists k: nat :: FirstBadOperand(ns, k) && DecodeOperands(ns).error == DecodeExpression(ns[k]).error
    decreases ns
  {
    if ns != [] {
      OperandsInOrder(ns[1..]);
      if DecodeExpression(ns[0]).Err? {
        assert FirstBadOperand(ns, 0);
      } else if DecodeOperands(ns[1..]).Err? {
        var k: nat :| FirstBadOperand(ns[1..], k) && DecodeOperands(ns[1..]).error == DecodeExpression(ns[1..][k]).error;
        assert FirstBadOperand(ns, k + 1);
      } else {
        forall i | 0 < i < |ns| ensures DecodeExpression(ns[i]).Ok? {
          assert ns[i] == ns[1..][i - 1];
        }
      }
    }
  }

  /** A procedure call: the operator is the first inner node, the operands
      are the remaining ones in order, one operand per node; an empty call
      or any inner node that does not decode makes the call fail. */
  lemma ProcedureCallDecoding(n: PT.Node)
    requires PT.Heads(n, PT.ProcedureCall)
    ensures var call := n.children[0].children;
      DecodeExpression(n).Ok? <==> call != [] && forall i :: 0 <= i < |call| ==> DecodeExpression(call[i]).Ok?
    ensures var call := n.children[0].children;
      DecodeExpression(n).Ok? ==>
        && DecodeExpression(n).value.ProcedureCall?
        && Ok(DecodeExpression(n).value.operator.expr) == DecodeExpression(call[0])
        && |DecodeExpression(n).value.operands| == |call| - 1
        && forall i :: 0 <= i < |call| - 1 ==>
             Ok(DecodeExpression(n).value.operands[i].expr) == DecodeExpression(call[i + 1])
    ensures n.children[0].children == [] ==> DecodeExpression(n) == Err(MissingChild(PT.ProcedureCall, n.children[0].text))
  {
    var call := n.children[0].children;
    if call != [] {
      CallUnfolds(n);
      OperandsInOrder(call[1..]);
      if DecodeExpression(call[0]).Ok? && DecodeOperands(call[1..]).Ok? {
        forall i | 0 < i < |call| ensures DecodeExpression(call[i]).Ok? {
          assert call[i] == call[1..][i - 1];
        }
      }
    }
  }

  /** One step of `Expression::from` on a non-empty call: operator first,
      then the operands. */
  lemma CallUnfolds(n: PT.Node)
    requires PT.Heads(n, PT.ProcedureCall) && n.children[0].children != []
    ensures var call := n.children[0].children;
      DecodeExpression(n) ==
        if DecodeExpression(call[0]).Err? then Err(DecodeExpression(call[0]).error)
        else if DecodeOperands(call[1..]).Err? then Err(DecodeOperands(call[1..]).error)
        else Ok(ProcedureCall(Operator(DecodeExpression(call[0]).value), DecodeOperands(call[1..]).value))
  {
  }

  /** The text of `#t`/`#f` decides a boolean, not its spelling: the long
      form `#true` is a different text and decodes to false. */
  lemma LongFormTrueDecodesFalse()
    ensures DecodeLiteral(PT.Node(PT.Boolean, "#true", [])) == Ok(Bool(false))
    ensures DecodeLiteral(PT.Node(PT.Boolean, "#t", [])) == Ok(Bool(true))
  {
  }

  // ---------------------------------------------------------------------
  // Properties of character decoding

  /** The named-character table is one-to-one. */
  lemma NamedCharInjective(a: string, b: string)
    requires NamedChar(a).Ok? && NamedChar(a) == NamedChar(b)
    ensures a == b
  {
  }

  /** A hex literal written with the upper-case digits of a character's code
      point decodes back to that character, astral code points included. */
  lemma HexRoundTrip(c: char)
    ensures DecodeHexCharacter(Hex.ToHex(c as nat)) == Ok(c)
  {
    Hex.HexValueOfToHex(c as nat);
  }

  /** Leading zeros do not change what a hex literal decodes to. */
  lemma HexLeadingZeros(k: nat, digits: string)
    requires digits != [] && digits[0] != '+'
    ensures DecodeHexCharacter(Hex.Zeros(k) + digits).Ok? == DecodeHexCharacter(digits).Ok?
    ensures DecodeHexCharacter(digits).Ok? ==> DecodeHexCharacter(Hex.Zeros(k) + digits) == DecodeHexCharacter(digits)
  {
    var z := Hex.Zeros(k) + digits;
    assert z[0] == if k > 0 then '0' else digits[0];
    assert Hex.Unsigned(z) == z && Hex.Unsigned(digits) == digits;
    if Hex.IsHexDigits(digits) {
      Hex.LeadingZerosValue(k, digits);
    } else {
      var i :| 0 <= i < |digits| && !Hex.IsHexDigit(digits[i]);
      assert z[k + i] == digits[i];
    }
  }

  /** The direct and named character literals of the test table (ast.rs lines 259-263). */
  lemma DirectAndNamedExamples()
    ensures DecodeAnyCharacter("#\\a") == Ok('a') && DecodeAnyCharacter("#\\A") == Ok('A')
    ensures NamedChar("space") == Ok(' ') && NamedChar("newline") == Ok('\n')
  {
  }

  /** The hex character literals of the test table, with and without
      leading zeros (ast.rs lines 264-269). */
  lemma HexExamples()
    ensures DecodeHexCharacter("20") == Ok(' ') && DecodeHexCharacter("0A") == Ok('\n')
    ensures DecodeHexCharacter("00000020") == Ok(' ') && DecodeHexCharacter("0000000A") == Ok('\n')
  {
    assert Hex.Zeros(6) + "20" == "00000020";
    assert Hex.Zeros(6) + "0A" == "0000000A";
    HexLeadingZeros(6, "20");
    HexLeadingZeros(6, "0A");
  }

  /** Astral-plane emoji of the test table (ast.rs lines 270-307), the first and the last. */
  lemma EmojiExamples()
    ensures DecodeHexCharacter("1F600") == Ok('\U{1F600}')
    ensures DecodeHexCharacter("1F624") == Ok('\U{1F624}')
  {
    assert Hex.FromStrRadix16("1F600") == Hex.Value(0x1F600);
    assert Hex.FromStrRadix16("1F624") == Hex.Value(0x1F624);
  }

  /** Surrogates and values above U+10FFFF are not characters. */
  lemma NotScalarExamples()
    ensures DecodeHexCharacter("D800") == Err(NotScalar(0xD800))
    ensures DecodeHexCharacter("110000") == Err(NotScalar(0x110000))
  {
    assert Hex.FromStrRadix16("D800") == Hex.Value(0xD800);
    assert Hex.FromStrRadix16("110000") == Hex.Value(0x110000);
  }

  /** A numeral beyond `u32` fails in `from_str_radix` already. */
  lemma OverflowExample()
    ensures DecodeHexCharacter("100000000") == Err(BadHex("100000000", PosOverflow))
  {
    assert Hex.Scan(0x1000_0000, "0") == Hex.Rejected(PosOverflow);
    assert Hex.Scan(0x10_0000, "000") == Hex.Rejected(PosOverflow);
    assert Hex.Scan(0x1000, "00000") == Hex.Rejected(PosOverflow);
    assert Hex.Scan(0x10, "0000000") == Hex.Rejected(PosOverflow);
    assert Hex.Scan(0, "100000000") == Hex.Rejected(PosOverflow);
    assert Hex.FromStrRadix16("100000000") == Hex.Rejected(PosOverflow);
  }

  /** An empty numeral and a non-digit are rejected by `from_str_radix`. */
  lemma MalformedNumeralExamples()
    ensures DecodeHexCharacter("") == Err(BadHex("", Empty))
    ensures DecodeHexCharacter("G") == Err(BadHex("G", InvalidDigit))
    ensures DecodeHexCharacter("+") == Err(BadHex("+", InvalidDigit))
  {
  }

  // ---------------------------------------------------------------------
  // Parse trees for abstract syntax: the partner of the builder

  /** The `#\c` form of a character literal. */
  function DirectCharNode(c: char): PT.Node {
    var text := "#\\" + [c];
    PT.Node(PT.Character, text, [PT.Node(PT.AnyCharacter, text, [])])
  }

  /** The `#\<name>` form; the rule of the inner name node is not inspected. */
  function NamedCharNode(name: string): PT.Node {
    var text := "#\\" + name;
    PT.Node(PT.Character, text, [PT.Node(PT.NamedCharacter, text, [PT.Node(PT.Other("character_name"), name, [])])])
  }

  /** The `#\x<digits>` form; the rule of the inner digits node is not inspected. */
  function HexCharNode(digits: string): PT.Node {
    var text := "#\\x" + digits;
    PT.Node(PT.Character, text, [PT.Node(PT.HexCharacter, text, [PT.Node(PT.Other("hex_scalar_value"), digits, [])])])
  }

  /** A parse tree for a literal, characters in their direct form. */
  function LiteralTree(l: Literal): PT.Node {
    match l
    case String(t) => PT.Node(PT.String, t, [])
    case Bool(b) => PT.Node(PT.Boolean, if b then "#t" else "#f", [])
    case Char(c) => DirectCharNode(c)
  }

  /** A parse tree the grammar could hand over for `e`. The builder ignores
      the text of inner nodes that are not leaves, so those are left empty. */
  function ExprTree(e: Expression): PT.Node
    decreases e
  {
    match e
    case Identifier(x) => PT.Wrap(PT.Node(PT.Identifier, x, []))
    case Literal(l) => var t := LiteralTree(l); PT.Wrap(PT.Node(PT.Literal, t.text, [t]))
    case ProcedureCall(op, args) =>
      var operands := seq(|args|, i requires 0 <= i < |args| => assert args[i] in args; ExprTree(args[i].expr));
      PT.Wrap(PT.Node(PT.ProcedureCall, "", [ExprTree(op.expr)] + operands))
    case Lambda => PT.Wrap(PT.Node(PT.LambdaExpression, "", []))
    case Conditional => PT.Wrap(PT.Node(PT.Conditional, "", []))
    case Assignment => PT.Wrap(PT.Node(PT.Assignment, "", []))
    case DerivedExpression => PT.Wrap(PT.Node(PT.DerivedExpression, "", []))
    case MacroUse => PT.Wrap(PT.Node(PT.MacroUse, "", []))
    case MacroBlock => PT.Wrap(PT.Node(PT.MacroBlock, "", []))
    case Includer => PT.Wrap(PT.Node(PT.Includer, "", []))
  }

  function CDefTree(c: CDef): PT.Node {
    match c
    case Command(e) => PT.Node(PT.CommandOrDefinition, "", [PT.Node(PT.Command, "", [ExprTree(e)])])
    case Definition => PT.Node(PT.CommandOrDefinition, "", [PT.Node(PT.Definition, "", [])])
  }

  function ProgramTree(cdefs: seq<CDef>): (n: PT.Node)
    ensures |n.children| == |cdefs|
    ensures forall i :: 0 <= i < |cdefs| ==> n.children[i] == CDefTree(cdefs[i])
  {
    PT.Node(PT.Program, "", seq(|cdefs|, i requires 0 <= i < |cdefs| => CDefTree(cdefs[i])))
  }

  /** Each of the three character syntaxes decodes back to its character. */
  lemma CharacterRoundTrip(c: char, name: string)
    ensures DecodeCharacter(DirectCharNode(c)) == Ok(c)
    ensures DecodeCharacter(HexCharNode(Hex.ToHex(c as nat))) == Ok(c)
    ensures DecodeCharacter(NamedCharNode(name)) == NamedChar(name)
  {
    HexRoundTrip(c);
  }

  /** The round trip for every expression that is not a call. */
  lemma LeafRoundTrip(e: Expression)
    requires !e.ProcedureCall?
    ensures DecodeExpression(ExprTree(e)) == Ok(e)
  {
    match e
    case Identifier(_) => LeafDecoding(ExprTree(e));
    case Literal(l) =>
      assert DecodeLiteral(LiteralTree(l)) == Ok(l);
      LeafDecoding(ExprTree(e));
    case Lambda => PlaceholderDecoding(ExprTree(e), PT.LambdaExpression);
    case Conditional => PlaceholderDecoding(ExprTree(e), PT.Conditional);
    case Assignment => PlaceholderDecoding(ExprTree(e), PT.Assignment);
    case DerivedExpression => PlaceholderDecoding(ExprTree(e), PT.DerivedExpression);
    case MacroUse => PlaceholderDecoding(ExprTree(e), PT.MacroUse);
    case MacroBlock => PlaceholderDecoding(ExprTree(e), PT.MacroBlock);
    case Includer => PlaceholderDecoding(ExprTree(e), PT.Includer);
  }

  /** The call step of the round trip: a call node whose operator and
      operand nodes decode to `op` and `args` decodes to the call. */
  lemma CallFromParts(n: PT.Node, op: Operator, args: seq<Operand>)
    requires PT.Heads(n, PT.ProcedureCall) && |n.children[0].children| == |args| + 1
    requires DecodeExpression(n.children[0].children[0]) == Ok(op.expr)
    requires forall i :: 0 <= i < |args| ==> DecodeExpression(n.children[0].children[i + 1]) == Ok(args[i].expr)
    ensures DecodeExpression(n) == Ok(ProcedureCall(op, args))
  {
    var operands := n.children[0].children[1..];
    forall i | 0 <= i < |args| ensures DecodeExpression(operands[i]) == Ok(args[i].expr) {
      assert operands[i] == n.children[0].children[i + 1];
    }
    OperandsInOrder(operands);
    assert DecodeOperands(operands).value == args;
  }

  /** The parse tree of a call: the operator's tree, then one tree per operand. */
  lemma CallTreeShape(op: Operator, args: seq<Operand>)
    ensures var call := ExprTree(ProcedureCall(op, args)).children[0].children;
      && PT.Heads(ExprTree(ProcedureCall(op, args)), PT.ProcedureCall)
      && |call| == |args| + 1
      && call[0] == ExprTree(op.expr)
      && forall i :: 0 <= i < |args| ==> call[i + 1] == ExprTree(args[i].expr)
  {
  }

  /** Building an expression from its parse tree gives the expression back. */
  lemma {:induction false} ExprRoundTrip(e: Expression)
    ensures DecodeExpression(ExprTree(e)) == Ok(e)
    decreases e
  {
    if e.ProcedureCall? {
      ExprRoundTrip(e.operator.expr);
      forall i | 0 <= i < |e.operands|
        ensures DecodeExpression(ExprTree(e.operands[i].expr)) == Ok(e.operands[i].expr)
      {
        assert e.operands[i] in e.operands;
        ExprRoundTrip(e.operands[i].expr);
      }
      CallTreeShape(e.operator, e.operands);
      CallFromParts(ExprTree(e), e.operator, e.operands);
    } else {
      LeafRoundTrip(e);
    }
  }

  lemma CDefRoundTrip(c: CDef)
    ensures DecodeCDef(CDefTree(c)) == Ok(c)
  {
    if c.Command? {
      ExprRoundTrip(c.expr);
    }
  }

  /** A program built from the parse tree of a sequence of commands and
      definitions is exactly that sequence, with no imports. */
  method ProgramRoundTrip(cdefs: seq<CDef>) returns (r: Result<Ast>)
    ensures r == Ok(Program([], cdefs))
  {
    var tree := ProgramTree(cdefs);
    forall i | 0 <= i < |cdefs| ensures DecodeCDef(tree.children[i]) == Ok(cdefs[i]) {
      CDefRoundTrip(cdefs[i]);
    }
    r := FromProgram(tree);
    assert r.value.cdefs == cdefs;
  }

  /** `AST::from` has its `import_declaration` arm commented out, so the
      first import declaration of a program whose earlier commands and
      definitions all decode makes the whole program fail on that node. */
  method ImportDeclarationRejected(program: PT.Node, k: nat) returns (r: Result<Ast>)
    requires k < |program.children| && program.children[k].rule.ImportDeclaration?
    requires forall j :: 0 <= j < k ==> DecodeCDef(program.children[j]).Ok?
    ensures r == Err(Unexpected(PT.ImportDeclaration, program.children[k].text))
  {
    r := FromProgram(program);
    assert DecodeCDef(program.children[k]) == Err(Unexpected(PT.ImportDeclaration, program.children[k].text));
  }

  /** A character literal whose hex digits do not decode makes the whole
      expression fail with that decode error. */
  lemma BadHexInExpression(digits: string)
    requires DecodeHexCharacter(digits).Err?
    ensures var ch := HexCharNode(digits);
      DecodeExpression(PT.Wrap(PT.Node(PT.Literal, ch.text, [ch]))) == Err(DecodeHexCharacter(digits).error)
  {
    var ch := HexCharNode(digits);
    assert DecodeCharacter(ch) == DecodeHexCharacter(digits);
    LeafDecoding(PT.Wrap(PT.Node(PT.Literal, ch.text, [ch])));
  }

  /** Numbers are literals of the grammar, but the builder has no arm for
      them: `(+ 2 2)` fails at its first operand. */
  lemma NumberLiteralFails()
    ensures DecodeExpression(PT.Wrap(PT.Node(PT.ProcedureCall, "(+ 2 2)", [Plus(), Two(), Two()])))
      == Err(Unexpected(PT.Other("number"), "2"))
  {
    assert DecodeExpression(Plus()) == Ok(Identifier("+"));
    assert DecodeExpression(Two()) == Err(Unexpected(PT.Other("number"), "2"));
    assert DecodeOperands([Two(), Two()]) == Err(Unexpected(PT.Other("number"), "2"));
  }

  function Plus(): PT.Node { PT.Wrap(PT.Node(PT.Identifier, "+", [])) }

  function Two(): PT.Node { PT.Wrap(PT.Node(PT.Literal, "2", [PT.Node(PT.Other("number"), "2", [])])) }
}
