/** The concrete parse tree that the external R7RS grammar hands to the AST
    builders.

    A grammar node is reduced to the three things the builders look at: its
    rule (`as_rule()`), the source text it matched (`as_str()`, which is the
    same slice as `as_span().as_str()`), and its inner nodes in source order
    (`into_inner()`). */
module ParseTree {

  /** Rules of the grammar that the builders match by name. The grammar has
      more rules than these; every rule the builders never name is `Other`,
      carrying the rule's name. */
  datatype Rule =
    | Program
    | CommandOrDefinition
    | Command
    | Definition
    | Expression
    | Identifier
    | Literal
    | String
    | Boolean
    | Character
    | AnyCharacter
    | NamedCharacter
    | HexCharacter
    | ProcedureCall
    | LambdaExpression
    | Conditional
    | Assignment
    | DerivedExpression
    | MacroUse
    | MacroBlock
    | Includer
    | ImportDeclaration
    | Other(name: string)

  datatype Node = Node(rule: Rule, text: string, children: seq<Node>)

  /** An `expression` node whose first inner node has rule `k`. */
  ghost predicate Heads(n: Node, k: Rule) {
    n.rule.Expression? && n.children != [] && n.children[0].rule == k
  }

  /** An `expression` node around `inner`. */
  function Wrap(inner: Node): Node {
    Node(Expression, inner.text, [inner])
  }

  /** The expression kinds both builders keep only as a payload-free tag. */
  predicate IsPlaceholderKind(k: Rule) {
    k.LambdaExpression? || k.Conditional? || k.Assignment? || k.DerivedExpression? ||
    k.MacroUse? || k.MacroBlock? || k.Includer?
  }
}
