/** The values a folder record holds: decoded JSON, plus Python's in-memory `set`. */
module Json {
  import opened Base

  /** A field value of a folder record. */
  datatype Value =
    | Str(s: string)                      // a JSON string
    | Literal(text: string)               // a JSON number, `true`, `false` or `null`, by its text
    | Items(xs: seq<string>)              // a JSON array of strings (a Python list)
    | Bag(elems: set<string>)             // a Python set; never read from JSON
    | Record(fields: map<string, Value>)  // a JSON object (a Python dict)

  /** A folder record: field name to value. */
  type Fields = map<string, Value>

  /** Python's `d.get(k)`. */
  function Get(d: Fields, k: string): Option<Value> {
    if k in d then Some(d[k]) else None
  }

  /** The one-character strings of `s`: what iterating a Python string yields. */
  function Chars(s: string): set<string> {
    set k | 0 <= k < |s| :: [s[k]]
  }

  /** Python's `set(v)`: the elements a value yields when iterated (the keys of a dict,
      the characters of a string); numbers, booleans and `None` are not iterable. */
  function ToSet(v: Value): (r: Result<set<string>>)
    ensures r.Err? <==> v.Literal?
    ensures r.Err? ==> r.error == TypeError
    ensures v.Items? ==> r == Ok(set x | x in v.xs)
    ensures v.Bag? ==> r == Ok(v.elems)
    ensures v.Str? ==> r == Ok(Chars(v.s))
    ensures v.Record? ==> r == Ok(v.fields.Keys)
  {
    match v
    case Str(s) => Ok(Chars(s))
    case Literal(_) => Err(TypeError)
    case Items(xs) => Ok(set x | x in xs)
    case Bag(elems) => Ok(elems)
    case Record(fields) => Ok(fields.Keys)
  }
}
