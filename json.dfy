/** The values `JSON.parse` can produce, and JavaScript truthiness over them. */
module Json {

  /** A parsed JSON document. Numbers are kept as reals; their precision is not modelled. */
  datatype Value =
    | Null
    | Bool(b: bool)
    | Number(n: real)
    | Str(s: string)
    | Arr(items: seq<Value>)
    | Obj(members: seq<(string, Value)>)

  /** `!!v`: null, false, 0 and the empty string are falsy; arrays and objects are truthy. */
  predicate Truthy(v: Value)
  {
    match v
    case Null => false
    case Bool(b) => b
    case Number(n) => n != 0.0
    case Str(s) => s != []
    case Arr(_) => true
    case Obj(_) => true
  }
}
