/**
 * Values that flow through the gear's option dictionaries, Python
 * truthiness, and the error outcomes the code can raise.
 */
module Values {

  datatype Option<+T> = None | Some(value: T)

  /** The exceptions the modelled code can raise, as values. */
  datatype Error =
    | NoTaskSegment(file: string)    // IndexError: no `_`-segment of the name mentions "task"
    | NoEchoSegment(file: string)    // IndexError: no `_`-segment of the name mentions "echo"
    | NotText(key: string)           // AttributeError or TypeError: an option used as text is not a str
    | EmptyArchive                   // IndexError: the fmriprep zip lists no entries
    | MissingKey(key: string)        // KeyError: a dictionary lookup of an absent key

  datatype Result<+T> = Ok(value: T) | Err(error: Error)

  /** A JSON-like configuration value, as read from the gear's config. */
  datatype Value =
    | Null
    | Bool(b: bool)
    | Int(i: int)
    | Str(s: string)
    | Dict(entries: map<string, Value>)
    | Opaque                          // an object the model does not look into (an SDK client, the environment)

  /** Python truthiness: None, False, 0, "" and {} are false, everything else (objects included) true. */
  predicate Truthy(v: Value) {
    match v
    case Null => false
    case Bool(b) => b
    case Int(i) => i != 0
    case Str(s) => s != ""
    case Dict(m) => |m| > 0
    case Opaque => true
  }

  /** `d.get(key)`: the value, or None when the key is absent. */
  function Get(d: map<string, Value>, key: string): Value {
    if key in d then d[key] else Null
  }

  /** No element occurs twice: what a Python list built from a set, or a directory listing, guarantees. */
  predicate NoDuplicates<T(==)>(xs: seq<T>) {
    forall i, j :: 0 <= i < j < |xs| ==> xs[i] != xs[j]
  }
}
