/** The earlier AST builder of `src/r7rs_ast.rs`. It has the same program,
    command and expression dispatch as `src/r7rs/ast.rs`, but its literals
    are only strings and booleans: a character literal is an unexpected
    kind. Where the Rust code panics, the model returns an `Err`. */
module LegacyAst {
  import PT = ParseTree
  import opened Failure

  // ---------------------------------------------------------------------
  // The abstract syntax tree

  datatype Literal = String(text: string) | Bool(b: bool)

  datatype Expression =
    | Identifier(name: string)
    | Literal(literal: Literal)
    | ProcedureCall(operator: Operator, operands: seq<Operand>)
    | Lambda
    | Conditional
    | Assignment
    | DerivedExpression
    | MacroUse
    | MacroBlock
    | Includer

  datatype Operator = Operator(expr: Expression)

  datatype Operand = Operand(expr: Expression)

  datatype CDef = Command(expr: Expression) | Definition

  /** Import sets; declared for the program's `imports`, never built. */
  datatype Import =
    | Library(name: string)
    | Only(imports: seq<Import>, identifiers: seq<string>)
    | Except(imports: seq<Import>, identifiers: seq<string>)
    | Prefix(imports: seq<Import>, prefix: string)
    // The source calls this field `identifiers` as well; a shared destructor
    // must keep one type, so the pairs of `Rename` are named `renames`.
    | Rename(imports: seq<Import>, renames: seq<(string, string)>)

  datatype Ast = Program(imports: seq<Import>, cdefs: seq<CDef>)

  // ---------------------------------------------------------------------
  // The builder

  /** The inner node of a `literal` node: only strings and booleans. */
  function DecodeLiteral(lit: PT.Node): (r: Result<Literal>)
    ensures lit.rule.String? <==> r.Ok? && r.value.String?
    ensures r.Ok? && r.value.String? ==> r.value.text == lit.text
    ensures lit.rule.Boolean? <==> r.Ok? && r.value.Bool?
    ensures r.Ok? && r.value.Bool? ==> (r.value.b <==> lit.text == "#t")
    ensures !(lit.rule.String? || lit.rule.Boolean?) ==> r == Err(Unexpected(lit.rule, lit.text))
  {
    match lit.rule
    case String => Ok(String(lit.text))
    case Boolean => Ok(Bool(lit.text == "#t"))
    case _ => Err(Unexpected(lit.rule, lit.text))
  }

  /** The inner kinds `Expression::from` has an arm for. */
  predicate KnownKind(k: PT.Rule) {
    k.Identifier? || k.Literal? || k.ProcedureCall? || PT.IsPlaceholderKind(k)
  }

  /** `Expression::from` of the earlier builder. */
  function DecodeExpression(n: PT.Node): (r: Result<Expression>)
    ensures !n.rule.Expression? ==> r == Err(Unexpected(n.rule, n.text))
    ensures n.rule.Expression? && n.children == [] ==> r == Err(MissingChild(PT.Expression, n.text))
    ensures n.rule.Expression? && n.children != [] && !KnownKind(n.children[0].rule) ==>
      r == Err(Unexpected(n.children[0].rule, n.children[0].text))
    decreases n
  {
    if !n.rule.Expression? then Err(Unexpected(n.rule, n.text))
    else if |n.children| == 0 then Err(MissingChild(PT.Expression, n.text))
    else
      var e := n.children[0];
      match e.rule
      case Identifier => Ok(Identifier(e.text))
      case Literal =>
        if |e.children| == 0 then Err(MissingChild(PT.Literal, e.text))
        else
          var l :- DecodeLiteral(e.children[0]);
          Ok(Literal(l))
      case ProcedureCall =>
        if |e.children| == 0 then Err(MissingChild(PT.ProcedureCall, e.text))
        else
          var op :- DecodeExpression(e.children[0]);
          var args :- DecodeOperands(e.children[1..]);
          Ok(ProcedureCall(Operator(op), args))
      case LambdaExpression => Ok(Lambda)
      case Conditional => Ok(Conditional)
      case Assignment => Ok(Assignment)
      case DerivedExpression => Ok(DerivedExpression)
      case MacroUse => Ok(MacroUse)
      case MacroBlock => Ok(MacroBlock)
      case Includer => Ok(Includer)
      case _ => Err(Unexpected(e.rule, e.text))
  }

  /** The operands of a call, decoded left to right; the first failure wins. */
  function DecodeOperands(ns: seq<PT.Node>): (r: Result<seq<Operand>>)
    ensures r.Ok? ==> |r.value| == |ns|
    decreases ns
  {
    if ns == [] then Ok([])
    else
      var e :- DecodeExpression(ns[0]);
      var rest :- DecodeOperands(ns[1..]);
      Ok([Operand(e)] + rest)
  }

  /** `CDef::from` of the earlier builder. */
  function DecodeCDef(n: PT.Node): (r: Result<CDef>)
    ensures r == Ok(Definition) <==>
      n.rule.CommandOrDefinition? && n.children != [] && n.children[0].rule.Definition?
    ensures r.Ok? && r.value.Command? <==>
      && n.rule.CommandOrDefinition? && n.children != []
      && n.children[0].rule.Command? && n.children[0].children != []
      && DecodeExpression(n.children[0].children[0]).Ok?
    ensures r.Ok? && r.value.Command? ==> Ok(r.value.expr) == DecodeExpression(n.children[0].children[0])
    ensures !n.rule.CommandOrDefinition? ==> r == Err(Unexpected(n.rule, n.text))
    ensures n.rule.CommandOrDefinition? && n.children == [] ==>
      r == Err(MissingChild(PT.CommandOrDefinition, n.text))
    ensures (n.rule.CommandOrDefinition? && n.children != [] &&
             !(n.children[0].rule.Command? || n.children[0].rule.Definition?)) ==>
      r == Err(Unexpected(n.children[0].rule, n.children[0].text))
    ensures (n.rule.CommandOrDefinition? && n.children != [] &&
             n.children[0].rule.Command? && n.children[0].children == []) ==>
      r == Err(MissingChild(PT.Command, n.children[0].text))
    ensures (n.rule.CommandOrDefinition? && n.children != [] &&
             n.children[0].rule.Command? && n.children[0].children != [] &&
             DecodeExpression(n.children[0].children[0]).Err?) ==>
      r == Err(DecodeExpression(n.children[0].children[0]).error)
  {
    if !n.rule.CommandOrDefinition? then Err(Unexpected(n.rule, n.text))
    else if |n.children| == 0 then Err(MissingChild(PT.CommandOrDefinition, n.text))
    else
      var c := n.children[0];
      match c.rule
      case Command =>
        if |c.children| == 0 then Err(MissingChild(PT.Command, c.text))
        else
          var e :- DecodeExpression(c.children[0]);
          Ok(Command(e))
      case Definition => Ok(Definition)
      case _ => Err(Unexpected(c.rule, c.text))
  }

  /** `AST::from` of the earlier builder: one CDef per inner node, in order. */
  method FromProgram(program: PT.Node) returns (r: Result<Ast>)
    ensures r.Ok? <==> forall i :: 0 <= i < |program.children| ==> DecodeCDef(program.children[i]).Ok?
    ensures r.Ok? ==> r.value.imports == [] && |r.value.cdefs| == |program.children|
    ensures r.Ok? ==> forall i :: 0 <= i < |program.children| ==>
      r.value.cdefs[i] == DecodeCDef(program.children[i]).value
    ensures r.Err? ==>
      exists k: nat :: FirstFailure(program.children, k) && r.error == DecodeCDef(program.children[k]).error
  {
    var imports: seq<Import> := [];
    var cdefs: seq<CDef> := [];
    for i := 0 to |program.children|
      invariant |cdefs| == i
      invariant forall j :: 0 <= j < i ==>
        DecodeCDef(program.children[j]).Ok? && cdefs[j] == DecodeCDef(program.children[j]).value
    {
      var child := program.children[i];
      match child.rule {
        case CommandOrDefinition =>
          var cdef := DecodeCDef(child);
          if cdef.Err? {
            assert FirstFailure(program.children, i);
            return Err(cdef.error);
          }
          cdefs := cdefs + [cdef.value];
        case _ =>
          assert FirstFailure(program.children, i);
          return Err(Unexpected(child.rule, child.text));
      }
    }
    r := Ok(Program(imports, cdefs));
  }

  /** `k` is the first inner node of a program that does not decode. */
  ghost predicate FirstFailure(children: seq<PT.Node>, k: nat) {
    && k < |children|
    && DecodeCDef(children[k]).Err?
    && forall j :: 0 <= j < k ==> DecodeCDef(children[j]).Ok?
  }

  // ---------------------------------------------------------------------
  // Properties

  /** Identifiers and literals: an identifier is exactly its matched text,
      and a literal is the decoding of the literal node's first inner node. */
  lemma LeafDecoding(n: PT.Node)
    ensures forall x :: DecodeExpression(n) == Ok(Identifier(x)) <==>
      PT.Heads(n, PT.Identifier) && n.children[0].text == x
    ensures forall l :: DecodeExpression(n) == Ok(Literal(l)) <==>
      PT.Heads(n, PT.Literal) && n.children[0].children != [] && DecodeLiteral(n.children[0].children[0]) == Ok(l)
    ensures PT.Heads(n, PT.Literal) && n.children[0].children == [] ==>
      DecodeExpression(n) == Err(MissingChild(PT.Literal, n.children[0].text))
    ensures (PT.Heads(n, PT.Literal) && n.children[0].children != [] &&
             DecodeLiteral(n.children[0].children[0]).Err?) ==>
      DecodeExpression(n) == Err(DecodeLiteral(n.children[0].children[0]).error)
  {
  }

  /** Character literals are not part of this builder's literals. */
  lemma CharacterLiteralFails(n: PT.Node)
    requires PT.Heads(n, PT.Literal) && n.children[0].children != []
    requires n.children[0].children[0].rule.Character?
    ensures DecodeExpression(n) == Err(Unexpected(PT.Character, n.children[0].children[0].text))
  {
  }

  function PlaceholderTag(k: PT.Rule): (t: Expression)
    requires PT.IsPlaceholderKind(k)
  {
    match k
    case LambdaExpression => Lambda
    case Conditional => Conditional
    case Assignment => Assignment
    case DerivedExpression => DerivedExpression
    case MacroUse => MacroUse
    case MacroBlock => MacroBlock
    case Includer => Includer
  }

  /** The seven placeholder kinds decode to their tag whatever their inner
      nodes and text, and a tag comes from nothing else. */
  lemma PlaceholderDecoding(n: PT.Node, k: PT.Rule)
    requires PT.IsPlaceholderKind(k)
    ensures DecodeExpression(n) == Ok(PlaceholderTag(k)) <==> PT.Heads(n, k)
  {
  }

  /** `k` is the first operand node that does not decode. */
  ghost predicate FirstBadOperand(ns: seq<PT.Node>, k: nat) {
    && k < |ns|
    && DecodeExpression(ns[k]).Err?
    && forall j :: 0 <= j < k ==> DecodeExpression(ns[j]).Ok?
  }

  /** Operands are decoded one by one, in order, count preserved; the
      first operand that fails decides the error. */
  lemma {:induction false} OperandsInOrder(ns: seq<PT.Node>)
    ensures DecodeOperands(ns).Ok? <==> forall i :: 0 <= i < |ns| ==> DecodeExpression(ns[i]).Ok?
    ensures DecodeOperands(ns).Ok? ==>
      forall i :: 0 <= i < |ns| ==> DecodeOperands(ns).value[i] == Operand(DecodeExpression(ns[i]).value)
    ensures DecodeOperands(ns).Err? ==>
      exists k: nat :: FirstBadOperand(ns, k) && DecodeOperands(ns).error == DecodeExpression(ns[k]).error
    decreases ns
  {
    if ns != [] {
      OperandsInOrder(ns[1..]);
      if DecodeExpression(ns[0]).Err? {
        assert FirstBadOperand(ns, 0);
      } else if DecodeOperands(ns[1..]).Err? {
        var k: nat :| FirstBadOperand(ns[1..], k) && DecodeOperands(ns[1..]).error == DecodeExpression(ns[1..][k]).error;
        assert FirstBadOperand(ns, k + 1);
      } else {
        forall i | 0 < i < |ns| ensures DecodeExpression(ns[i]).Ok? {
          assert ns[i] == ns[1..][i - 1];
        }
      }
    }
  }

  /** A procedure call: the operator is the first inner node, the operands
      are the remaining ones in order, one operand per node; an empty call
      or any inner node that does not decode makes the call fail. */
  lemma ProcedureCallDecoding(n: PT.Node)
    requires PT.Heads(n, PT.ProcedureCall)
    ensures var call := n.children[0].children;
      DecodeExpression(n).Ok? <==> call != [] && forall i :: 0 <= i < |call| ==> DecodeExpression(call[i]).Ok?
    ensures var call := n.children[0].children;
      DecodeExpression(n).Ok? ==>
        && DecodeExpression(n).value.ProcedureCall?
        && Ok(DecodeExpression(n).value.operator.expr) == DecodeExpression(call[0])
        && |DecodeExpression(n).value.operands| == |call| - 1
        && forall i :: 0 <= i < |call| - 1 ==>
             Ok(DecodeExpression(n).value.operands[i].expr) == DecodeExpression(call[i + 1])
    ensures n.children[0].children == [] ==> DecodeExpression(n) == Err(MissingChild(PT.ProcedureCall, n.children[0].text))
  {
    var call := n.children[0].children;
    if call != [] {
      CallUnfolds(n);
      OperandsInOrder(call[1..]);
      if DecodeExpression(call[0]).Ok? && DecodeOperands(call[1..]).Ok? {
        forall i | 0 < i < |call| ensures DecodeExpression(call[i]).Ok? {
          assert call[i] == call[1..][i - 1];
        }
      }
    }
  }

  /** One step of `Expression::from` on a non-empty call: operator first,
      then the operands. */
  lemma CallUnfolds(n: PT.Node)
    requires PT.Heads(n, PT.ProcedureCall) && n.children[0].children != []
    ensures var call := n.children[0].children;
      DecodeExpression(n) ==
        if DecodeExpression(call[0]).Err? then Err(DecodeExpression(call[0]).error)
        else if DecodeOperands(call[1..]).Err? then Err(DecodeOperands(call[1..]).error)
        else Ok(ProcedureCall(Operator(DecodeExpression(call[0]).value), DecodeOperands(call[1..]).value))
  {
  }

  // ---------------------------------------------------------------------
  // Parse trees for abstract syntax: the partner of the builder

  function LiteralTree(l: Literal): PT.Node {
    match l
    case String(t) => PT.Node(PT.String, t, [])
    case Bool(b) => PT.Node(PT.Boolean, if b then "#t" else "#f", [])
  }

  /** A parse tree the grammar could hand over for `e`; texts of inner nodes
      that are not leaves are left empty. */
  function ExprTree(e: Expression): PT.Node
    decreases e
  {
    match e
    case Identifier(x) => PT.Wrap(PT.Node(PT.Identifier, x, []))
    case Literal(l) => var t := LiteralTree(l); PT.Wrap(PT.Node(PT.Literal, t.text, [t]))
    case ProcedureCall(op, args) =>
      var operands := seq(|args|, i requires 0 <= i < |args| => assert args[i] in args; ExprTree(args[i].expr));
      PT.Wrap(PT.Node(PT.ProcedureCall, "", [ExprTree(op.expr)] + operands))
    case Lambda => PT.Wrap(PT.Node(PT.LambdaExpression, "", []))
    case Conditional => PT.Wrap(PT.Node(PT.Conditional, "", []))
    case Assignment => PT.Wrap(PT.Node(PT.Assignment, "", []))
    case DerivedExpression => PT.Wrap(PT.Node(PT.DerivedExpression, "", []))
    case MacroUse => PT.Wrap(PT.Node(PT.MacroUse, "", []))
    case MacroBlock => PT.Wrap(PT.Node(PT.MacroBlock, "", []))
    case Includer => PT.Wrap(PT.Node(PT.Includer, "", []))
  }

  /** The round trip for every expression that is not a call. */
  lemma LeafRoundTrip(e: Expression)
    requires !e.ProcedureCall?
    ensures DecodeExpression(ExprTree(e)) == Ok(e)
  {
    match e
    case Identifier(_) => LeafDecoding(ExprTree(e));
    case Literal(l) =>
      assert DecodeLiteral(LiteralTree(l)) == Ok(l);
      LeafDecoding(ExprTree(e));
    case Lambda => PlaceholderDecoding(ExprTree(e), PT.LambdaExpression);
    case Conditional => PlaceholderDecoding(ExprTree(e), PT.Conditional);
    case Assignment => PlaceholderDecoding(ExprTree(e), PT.Assignment);
    case DerivedExpression => PlaceholderDecoding(ExprTree(e), PT.DerivedExpression);
    case MacroUse => PlaceholderDecoding(ExprTree(e), PT.MacroUse);
    case MacroBlock => PlaceholderDecoding(ExprTree(e), PT.MacroBlock);
    case Includer => PlaceholderDecoding(ExprTree(e), PT.Includer);
  }

  /** The call step of the round trip: a call node whose operator and
      operand nodes decode to `op` and `args` decodes to the call. */
  lemma CallFromParts(n: PT.Node, op: Operator, args: seq<Operand>)
    requires PT.Heads(n, PT.ProcedureCall) && |n.children[0].children| == |args| + 1
    requires DecodeExpression(n.children[0].children[0]) == Ok(op.expr)
    requires forall i :: 0 <= i < |args| ==> DecodeExpression(n.children[0].children[i + 1]) == Ok(args[i].expr)
    ensures DecodeExpression(n) == Ok(ProcedureCall(op, args))
  {
    var operands := n.children[0].children[1..];
    forall i | 0 <= i < |args| ensures DecodeExpression(operands[i]) == Ok(args[i].expr) {
      assert operands[i] == n.children[0].children[i + 1];
    }
    OperandsInOrder(operands);
    assert DecodeOperands(operands).value == args;
  }

  /** The parse tree of a call: the operator's tree, then one tree per operand. */
  lemma CallTreeShape(op: Operator, args: seq<Operand>)
    ensures var call := ExprTree(ProcedureCall(op, args)).children[0].children;
      && PT.Heads(ExprTree(ProcedureCall(op, args)), PT.ProcedureCall)
      && |call| == |args| + 1
      && call[0] == ExprTree(op.expr)
      && forall i :: 0 <= i < |args| ==> call[i + 1] == ExprTree(args[i].expr)
  {
  }

  /** Building an expression from its parse tree gives the expression back. */
  lemma {:induction false} ExprRoundTrip(e: Expression)
    ensures DecodeExpression(ExprTree(e)) == Ok(e)
    decreases e
  {
    if e.ProcedureCall? {
      ExprRoundTrip(e.operator.expr);
      forall i | 0 <= i < |e.operands|
        ensures DecodeExpression(ExprTree(e.operands[i].expr)) == Ok(e.operands[i].expr)
      {
        assert e.operands[i] in e.operands;
        ExprRoundTrip(e.operands[i].expr);
      }
      CallTreeShape(e.operator, e.operands);
      CallFromParts(ExprTree(e), e.operator, e.operands);
    } else {
      LeafRoundTrip(e);
    }
  }

  function CDefTree(c: CDef): PT.Node {
    match c
    case Command(e) => PT.Node(PT.CommandOrDefinition, "", [PT.Node(PT.Command, "", [ExprTree(e)])])
    case Definition => PT.Node(PT.CommandOrDefinition, "", [PT.Node(PT.Definition, "", [])])
  }

  function ProgramTree(cdefs: seq<CDef>): (n: PT.Node)
    ensures |n.children| == |cdefs|
    ensures forall i :: 0 <= i < |cdefs| ==> n.children[i] == CDefTree(cdefs[i])
  {
    PT.Node(PT.Program, "", seq(|cdefs|, i requires 0 <= i < |cdefs| => CDefTree(cdefs[i])))
  }

  lemma CDefRoundTrip(c: CDef)
    ensures DecodeCDef(CDefTree(c)) == Ok(c)
  {
    if c.Command? {
      ExprRoundTrip(c.expr);
    }
  }

  /** A program built from the parse tree of a sequence of commands and
      definitions is exactly that sequence, with no imports. */
  method ProgramRoundTrip(cdefs: seq<CDef>) returns (r: Result<Ast>)
    ensures r == Ok(Program([], cdefs))
  {
    var tree := ProgramTree(cdefs);
    forall i | 0 <= i < |cdefs| ensures DecodeCDef(tree.children[i]) == Ok(cdefs[i]) {
      CDefRoundTrip(cdefs[i]);
    }
    r := FromProgram(tree);
    assert r.value.cdefs == cdefs;
  }

  /** `AST::from` has its `import_declaration` arm commented out, so the
      first import declaration of a program whose earlier commands and
      definitions all decode makes the whole program fail on that node. */
  method ImportDeclarationRejected(program: PT.Node, k: nat) returns (r: Result<Ast>)
    requires k < |program.children| && program.children[k].rule.ImportDeclaration?
    requires forall j :: 0 <= j < k ==> DecodeCDef(program.children[j]).Ok?
    ensures r == Err(Unexpected(PT.ImportDeclaration, program.children[k].text))
  {
    r := FromProgram(program);
    assert DecodeCDef(program.children[k]) == Err(Unexpected(PT.ImportDeclaration, program.children[k].text));
  }
}
