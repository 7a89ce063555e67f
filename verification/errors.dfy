/** The errors the codec raises, and a failure-compatible result type. */
module Errors {
  import opened Values
  import opened Registry

  /** What a call raises:
      - `BadTypeName`: "bad type t" from the registry;
      - `Expected`: a shape validator's 'expected "v" to be a …' (the value and the noun);
      - `Message`: an `Error` with a fixed message;
      - `Range`: a `RangeError` from the byte buffer;
      - `TypeErr`: a `TypeError` (a size that is not a number, a missing method,
        a property of null, an array length that is not valid);
      - `Remote`: the wire-level error signal, carrying the UTF-8 bytes of its text;
      - `Unmodelled`: the source does something here that this model leaves out. */
  datatype Error =
    | BadTypeName(t: TypeName)
    | Expected(got: Val, noun: string)
    | Message(text: string)
    | Range(text: string)
    | TypeErr(text: string)
    | Remote(bytes: seq<int>)
    | Unmodelled(what: string)

  datatype Result<+T> = Ok(value: T) | Err(error: Error) {
    predicate IsFailure() { Err? }

    function PropagateFailure<U>(): Result<U>
      requires Err?
    {
      Err(error)
    }

    function Extract(): T
      requires Ok?
    {
      value
    }
  }

  /** A registry lookup as a codec result. */
  function Lift<T>(r: Lookup<T>): (o: Result<T>)
    ensures r.Found? <==> o.Ok?
    ensures r.Found? ==> o.value == r.value
    ensures r.BadType? ==> o.error == BadTypeName(r.name)
  {
    match r
    case Found(v) => Ok(v)
    case BadType(t) => Err(BadTypeName(t))
  }

  const OUT_OF_BOUNDS: string := "\"value\" argument is out of bounds"
  const INDEX_OUT_OF_RANGE: string := "Index out of range"
  const NOT_UINT: string := "offset is not uint"
  const BEYOND_LENGTH: string := "Trying to access beyond buffer length"
  const NOT_A_FUNCTION: string := "is not a function"
  const INVALID_ARRAY_LENGTH: string := "Invalid array length"
}
