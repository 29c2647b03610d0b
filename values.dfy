/**
 * The values held by the option dictionary that the broadcaster assembles at
 * start-up (defaults, the TOML file, the command line), with Python's notion
 * of truthiness on them.
 */
module Values {

  /** A value of the option dictionary: a string, a boolean flag, `None`, or a list of strings. */
  datatype Value = Str(s: string) | Flag(b: bool) | Null | Items(items: seq<string>)

  /** A Python dict from option names to values; `+` on maps is `dict.update`. */
  type Dict = map<string, Value>

  /** Python's `bool(v)`: empty strings and lists, `False` and `None` are false. */
  predicate Truthy(v: Value)
  {
    match v
    case Str(s) => s != ""
    case Flag(b) => b
    case Null => false
    case Items(xs) => xs != []
  }
}
