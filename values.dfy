/** The dynamic values the chat server handles: a decoded JSON request is a Python
    object made of None, int, bool, str, dict and a few other kinds, and the
    Python code dispatches on their run-time type. Exceptions the core raises are
    modelled as an explicit outcome. */
module Values {

  datatype Option<+T> = None | Some(value: T)

  /** The exception classes the core raises or lets escape. */
  datatype Fault =
    | AttributeError       // `.keys()` on something that is not a dict, a method of None
    | ValueError           // `int(s, 10)` on text that is not a decimal numeral
    | KeyError             // a dict lookup of a missing key
    | TypeError            // `str + int`
    | RepositoryException  // any failure of the persistence layer

  /** Either the value a Python call returns or the exception it raises. */
  datatype Outcome<+T> = Ok(value: T) | Raised(fault: Fault)

  /** A Python value as produced by `json.loads`. Lists and floats are not
      inspected by the core beyond their truthiness, so they are `VOther`. */
  datatype Value =
    | VNone
    | VInt(i: int)
    | VBool(b: bool)
    | VStr(s: string)
    | VDict(entries: map<string, Value>)
    | VOther(truthy: bool)
  {
    /** Python's truth value (`not value` is its negation). */
    predicate Truthy()
    {
      match this
      case VNone => false
      case VInt(i) => i != 0
      case VBool(b) => b
      case VStr(s) => s != []
      case VDict(entries) => entries != map[]
      case VOther(truthy) => truthy
    }
  }
}
