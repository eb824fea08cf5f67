/** JavaScript values as the binding engine sees them: the state tree, the values
    written into element properties, and the TypeErrors the engine can raise. */
module JsValues {

  /** A JavaScript value. Objects are plain key/value records; numbers are integers. */
  datatype Value =
    | Undefined
    | Null
    | Bool(b: bool)
    | Num(n: int)
    | Str(s: string)
    | Obj(fields: map<string, Value>)
  {
    /** `v == null` in JavaScript: undefined or null. */
    predicate IsNullish() {
      Undefined? || Null?
    }
  }

  /** The ways an engine operation fails. Each is a TypeError (or, for
      AlreadyDefined, a NotSupportedError) thrown by the JavaScript runtime. */
  datatype Fault =
    | MissingSeparator(pair: string)   // `pair.split(':')[1]` is undefined
    | ReadOfNullish(key: string)       // `value[key]` with value undefined or null
    | WriteToNullish(key: string)      // `parent[key] = ...` with parent undefined or null
    | WriteToPrimitive(key: string)    // `parent[key] = ...` on a primitive, strict mode
    | UnknownPath(path: string)        // `map[path].forEach` with no entry for path
    | EmptyName                        // `propName[0].toUpperCase()` on ""
    | AlreadyDefined(name: string)     // `customElements.define` of a taken name or class

  datatype Result<T> = Ok(value: T) | Err(fault: Fault)

  /** The completion of an operation that returns nothing: normal, or thrown. */
  datatype Outcome = Pass | Fail(fault: Fault)

  datatype Option<T> = None | Some(value: T)

  /** Property read `v[key]`: throws on undefined and null; a missing key of an object
      and any key of another primitive read as undefined. */
  function Get(v: Value, key: string): (r: Result<Value>)
    ensures r.Err? <==> v.IsNullish()
    ensures v.Obj? && key !in v.fields ==> r == Ok(Undefined)
    ensures v.Obj? && key in v.fields ==> r == Ok(v.fields[key])
    ensures !v.Obj? && !v.IsNullish() ==> r == Ok(Undefined)
  {
    match v
    case Undefined => Err(ReadOfNullish(key))
    case Null => Err(ReadOfNullish(key))
    case Obj(m) => Ok(if key in m then m[key] else Undefined)
    case _ => Ok(Undefined)
  }

  /** An argument whose parameter defaults to `null`: a missing or undefined
      argument is null, and every other value is passed as it is. */
  function OrNull(v: Value): (r: Value)
    ensures r != Undefined
    ensures v != Undefined ==> r == v
  {
    if v == Undefined then Null else v
  }

  /** JavaScript truthiness. */
  predicate Truthy(v: Value) {
    match v
    case Undefined => false
    case Null => false
    case Bool(b) => b
    case Num(n) => n != 0
    case Str(s) => s != []
    case Obj(_) => true
  }

  /** Decimal digits of a natural number. */
  function NatToDecimal(n: nat): string
    decreases n
  {
    var d := ['0', '1', '2', '3', '4', '5', '6', '7', '8', '9'];
    if n < 10 then [d[n]] else NatToDecimal(n / 10) + [d[n % 10]]
  }

  /** `String(v)`, the coercion `setAttribute` applies to its value. */
  function ToStr(v: Value): string {
    match v
    case Undefined => "undefined"
    case Null => "null"
    case Bool(b) => if b then "true" else "false"
    case Num(n) => if n < 0 then "-" + NatToDecimal(-n) else NatToDecimal(n)
    case Str(s) => s
    case Obj(_) => "[object Object]"
  }
}
