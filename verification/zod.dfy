/**
 * The part of zod the schemas use: string and number fields with `min`,
 * `int`, `email` and `url` checks, optional fields, and the issue each
 * failed check reports. The email and URL formats are predicates given by
 * the caller; lengths count characters.
 */
module Zod {
  import opened Js

  /** The kinds of issue the schemas can report. */
  datatype Code = InvalidType | TooSmall | InvalidString | NotInteger | Custom

  /** A validation issue: its kind, the field it is about and its message. */
  datatype Issue = Issue(code: Code, path: string, message: string)

  /** The type name zod reports for a value it did not expect. */
  function TypeName(v: Value): string {
    match v
    case Undefined => "undefined"
    case Null => "null"
    case Bool(_) => "boolean"
    case Num(n) => if n.NaN? then "nan" else "number"
    case Str(_) => "string"
    case Obj(_) => "object"
    case Arr(_) => "array"
  }

  /** The `invalid_type` issue: "Required" for a missing value, otherwise what was expected and received. */
  function TypeIssue(path: string, expected: string, v: Value): Issue {
    Issue(InvalidType, path, if v.Undefined? then "Required" else "Expected " + expected + ", received " + TypeName(v))
  }

  /** `z.string().min(n, message)` on field `path`. */
  function StringMin(path: string, v: Value, n: nat, message: string): (r: seq<Issue>)
    ensures r == [] <==> v.Str? && |v.s| >= n
    ensures |r| <= 1
  {
    if !v.Str? then [TypeIssue(path, "string", v)]
    else if |v.s| < n then [Issue(TooSmall, path, message)]
    else []
  }

  /** `z.string().email(message)` on field `path`. */
  function StringEmail(path: string, v: Value, isEmail: string -> bool, message: string): (r: seq<Issue>)
    ensures r == [] <==> v.Str? && isEmail(v.s)
    ensures |r| <= 1
  {
    if !v.Str? then [TypeIssue(path, "string", v)]
    else if !isEmail(v.s) then [Issue(InvalidString, path, message)]
    else []
  }

  /** `z.coerce.number()` followed by `min(low, message)`, and `int()` when `integer`. */
  function NumberChecks(path: string, n: Number, integer: bool, intMessage: string, low: real, message: string): (r: seq<Issue>)
    ensures r == [] <==> n.Fin? && (integer ==> n.r == n.r.Floor as real) && n.r >= low
  {
    if n.NaN? then [TypeIssue(path, "number", Num(n))]
    else
      (if integer && n.r != n.r.Floor as real then [Issue(NotInteger, path, intMessage)] else [])
      + (if n.r < low then [Issue(TooSmall, path, message)] else [])
  }
}
