/**
 * The Starlark values the configuration builtins receive: strings, and any
 * other value by the text it prints as.
 */
module Starlark {

  datatype Value = Str(s: string) | Other(repr: string)

  /** `Value.String()`: a string prints between double quotes (escapes are not modelled). */
  function Repr(v: Value): (r: string)
    ensures v.Str? ==> |r| == |v.s| + 2 && r[0] == '"' && r[|r| - 1] == '"' && r[1..|r| - 1] == v.s
    ensures v.Other? ==> r == v.repr
  {
    match v
    case Str(s) => "\"" + s + "\""
    case Other(repr) => repr
  }
}
