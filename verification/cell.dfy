/**
 * Xlsxtream::Cell, the wrapper that gives a value a style, and the option hashes a style
 * is made of. Option keys are Symbols, known here by their names; option values are the
 * plain objects the style classes read: nil, true and false, Integers, Strings and Symbols.
 */
module Cells {
  import opened Text
  import Values

  datatype Scalar =
    | Nil
    | Bool(b: bool)
    | Int(i: int)
    | Str(s: string)
    | Sym(name: string)

  /** Ruby truthiness: everything but nil and false. */
  predicate Truthy(v: Scalar)
  {
    !(v.Nil? || v == Bool(false))
  }

  /** `to_s`, as string interpolation calls it. */
  function ToS(v: Scalar): (r: string)
    ensures v.Str? ==> r == v.s
    ensures v.Sym? ==> r == v.name
    ensures v.Nil? ==> r == ""
  {
    match v
    case Nil => ""
    case Bool(b) => if b then "true" else "false"
    case Int(i) => IntToString(i)
    case Str(s) => s
    case Sym(n) => n
  }

  /** Keyword options: a Hash from Symbol keys to values. */
  type Options = map<string, Scalar>

  /** A value stored in a style Hash: either a nested Hash or a plain object. */
  datatype Entry = Hash(options: Options) | Plain(value: Scalar)

  type Style = map<string, Entry>

  /** `Cell.new(content = nil, style = {})`. */
  datatype Cell = Cell(content: Values.Value, style: Style)

  /** The constructor's defaults. */
  const Blank: Cell := Cell(Values.Nil, map[])

  /** `styled?`: the style Hash has at least one key, whatever the keys are. */
  predicate Styled(c: Cell)
  {
    c.style != map[]
  }
}
