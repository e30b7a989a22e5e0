/** The failures the AST builders report where the Rust code panics, and the
    result type that carries them. */
module Failure {
  import ParseTree

  /** Why `u32::from_str_radix` rejected a numeral (Rust's `IntErrorKind`). */
  datatype HexError = Empty | InvalidDigit | PosOverflow

  /** One variant per place where the builders would panic. */
  datatype BuildError =
      /** `unreachable!()`: a node whose rule the dispatch table does not list */
    | Unexpected(rule: ParseTree.Rule, text: string)
      /** `into_inner().next().unwrap()` on a node without inner nodes */
    | MissingChild(parent: ParseTree.Rule, text: string)
      /** `chars().nth(2).unwrap()` on a direct character shorter than three characters */
    | ShortCharacter(text: string)
      /** `unreachable!()` on a character name outside the table of nine */
    | UnknownCharName(name: string)
      /** `u32::from_str_radix(.., 16).unwrap()` on a bad numeral */
    | BadHex(digits: string, kind: HexError)
      /** `char::from_u32(..).unwrap()` on a value that is not a Unicode scalar value */
    | NotScalar(value: nat)

  datatype Result<+T> = Ok(value: T) | Err(error: BuildError) {
    predicate IsFailure() { Err? }

    function PropagateFailure<U>(): Result<U>
      requires Err?
    {
      Err(error)
    }

    function Extract(): T
      requires Ok?
    {
      value
    }
  }
}
