/** What the lexers return: `ptr` is the index of the token's first byte. */
module Tokens {
  import opened Bytes

  datatype Token =
    | Illegal
    | Literal(ptr: nat, text: Text)
    | Param(ptr: nat, text: Text)
    | Wildcard
    | Trailing
    | End

  datatype Error =
    | Ok
    | OutOfRange
    | IllegalPattern
    | DuplicateRoute
    | LiteralConflictsWithParam
    | ParamConflictsWithWildcard
    | ParamConflictsWithLiteral
    | ParamNameMismatch
    | WildcardConflictsWithParam
    | WildcardNotFinal
    | NullArgument
    | BuilderCorrupted
}
