/** How the earlier builder (`src/r7rs_ast.rs`) relates to the current one
    (`src/r7rs/ast.rs`): on every parse tree the earlier one accepts, the
    current one builds the same tree, and the current one accepts nothing
    more than the earlier one except through character literals. */
module Compat {
  import PT = ParseTree
  import opened Failure
  import L = LegacyAst
  import R = R7rsAst

  function EmbedLiteral(l: L.Literal): R.Literal {
    match l
    case String(t) => R.String(t)
    case Bool(b) => R.Bool(b)
  }

  /** An expression of the earlier builder, as an expression of the current one. */
  function Embed(e: L.Expression): R.Expression
    decreases e
  {
    match e
    case Identifier(x) => R.Identifier(x)
    case Literal(l) => R.Literal(EmbedLiteral(l))
    case ProcedureCall(op, args) =>
      R.ProcedureCall(
        R.Operator(Embed(op.expr)),
        seq(|args|, i requires 0 <= i < |args| => assert args[i] in args; R.Operand(Embed(args[i].expr))))
    case Lambda => R.Lambda
    case Conditional => R.Conditional
    case Assignment => R.Assignment
    case DerivedExpression => R.DerivedExpression
    case MacroUse => R.MacroUse
    case MacroBlock => R.MacroBlock
    case Includer => R.Includer
  }

  function EmbedCDef(c: L.CDef): R.CDef {
    match c
    case Command(e) => R.Command(Embed(e))
    case Definition => R.Definition
  }

  /** No character literal occurs anywhere in `e`. */
  predicate CharFree(e: R.Expression)
    decreases e
  {
    match e
    case Literal(l) => !l.Char?
    case ProcedureCall(op, args) =>
      CharFree(op.expr) && forall i :: 0 <= i < |args| ==> assert args[i] in args; CharFree(args[i].expr)
    case _ => true
  }

  /** Whatever the earlier builder accepts, the current one builds the same. */
  lemma {:induction false} LegacyAccepted(n: PT.Node)
    requires L.DecodeExpression(n).Ok?
    ensures R.DecodeExpression(n) == Ok(Embed(L.DecodeExpression(n).value))
    decreases n
  {
    var e := n.children[0];
    if e.rule.ProcedureCall? {
      var call := e.children;
      L.ProcedureCallDecoding(n);
      R.OperandsInOrder(call[1..]);
      L.OperandsInOrder(call[1..]);
      LegacyAccepted(call[0]);
      forall i | 1 <= i < |call| ensures R.DecodeExpression(call[i]) == Ok(Embed(L.DecodeExpression(call[i]).value)) {
        LegacyAccepted(call[i]);
      }
      assert R.DecodeOperands(call[1..]).Ok? by {
        forall i | 0 <= i < |call| - 1 ensures R.DecodeExpression(call[1..][i]).Ok? {
          assert call[1..][i] == call[i + 1];
        }
      }
      var args := L.DecodeExpression(n).value.operands;
      assert R.DecodeOperands(call[1..]).value == Embed(L.DecodeExpression(n).value).operands by {
        forall i | 0 <= i < |args| ensures R.DecodeOperands(call[1..]).value[i] == R.Operand(Embed(args[i].expr)) {
          assert call[1..][i] == call[i + 1];
        }
      }
    }
  }

  /** Whatever the current builder accepts without a character literal, the
      earlier one accepts too. */
  lemma {:induction false} CurrentWithoutChars(n: PT.Node)
    requires R.DecodeExpression(n).Ok? && CharFree(R.DecodeExpression(n).value)
    ensures L.DecodeExpression(n).Ok?
    decreases n
  {
    var e := n.children[0];
    if e.rule.ProcedureCall? {
      var call := e.children;
      R.ProcedureCallDecoding(n);
      R.OperandsInOrder(call[1..]);
      var r := R.DecodeExpression(n).value;
      CurrentWithoutChars(call[0]);
      forall i | 1 <= i < |call| ensures L.DecodeExpression(call[i]).Ok? {
        assert r.operands[i - 1] in r.operands;
        CurrentWithoutChars(call[i]);
      }
      L.ProcedureCallDecoding(n);
    }
  }

  /** Command-or-definition nodes: the earlier builder's result carries over. */
  lemma LegacyCDefAccepted(n: PT.Node)
    requires L.DecodeCDef(n).Ok?
    ensures R.DecodeCDef(n) == Ok(EmbedCDef(L.DecodeCDef(n).value))
  {
    if L.DecodeCDef(n).value.Command? {
      LegacyAccepted(n.children[0].children[0]);
    }
  }

  predicate CDefCharFree(c: R.CDef) {
    c.Command? ==> CharFree(c.expr)
  }

  lemma CurrentCDefWithoutChars(n: PT.Node)
    requires R.DecodeCDef(n).Ok? && CDefCharFree(R.DecodeCDef(n).value)
    ensures L.DecodeCDef(n).Ok?
  {
    if R.DecodeCDef(n).value.Command? {
      CurrentWithoutChars(n.children[0].children[0]);
    }
  }

  /** Both builders on one program: where the earlier one succeeds, the
      current one yields the same commands and definitions, in order; where
      the current one succeeds without a character literal, so does the
      earlier one. */
  method BuildBoth(program: PT.Node) returns (legacy: Result<L.Ast>, current: Result<R.Ast>)
    ensures legacy.Ok? ==> current.Ok?
    ensures legacy.Ok? ==>
      && |current.value.cdefs| == |legacy.value.cdefs|
      && forall i :: 0 <= i < |legacy.value.cdefs| ==> current.value.cdefs[i] == EmbedCDef(legacy.value.cdefs[i])
    ensures current.Ok? && (forall c :: c in current.value.cdefs ==> CDefCharFree(c)) ==> legacy.Ok?
  {
    legacy := L.FromProgram(program);
    current := R.FromProgram(program);
    if legacy.Ok? {
      forall i | 0 <= i < |program.children|
        ensures R.DecodeCDef(program.children[i]) == Ok(EmbedCDef(L.DecodeCDef(program.children[i]).value))
      {
        LegacyCDefAccepted(program.children[i]);
      }
    }
    if current.Ok? && (forall c :: c in current.value.cdefs ==> CDefCharFree(c)) {
      forall i | 0 <= i < |program.children| ensures L.DecodeCDef(program.children[i]).Ok? {
        assert current.value.cdefs[i] in current.value.cdefs;
        CurrentCDefWithoutChars(program.children[i]);
      }
    }
  }
}
