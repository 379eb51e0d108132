/** Dynamically typed values as they reach the token package: what a Go
    `interface{}` holds after the generic key/value mapping has been decoded,
    together with the Go type each value carries and the errors the package
    returns. */
module Values {

  datatype Option<+T> = None | Some(value: T)

  datatype Result<+T> = Ok(value: T) | Err(error: Error)

  /** An instant, in whole seconds relative to the Unix epoch (UTC). */
  type Instant = int

  /** Go's zero `time.Time`, 0001-01-01T00:00:00Z, as seconds since the epoch. */
  const ZeroTime: Instant := -62135596800

  /** The dynamic type of an interface value, as `reflect.TypeOf` reports it:
      no type at all for a nil interface, a named type, or a pointer to one. */
  datatype TypeTag = NoType | Named(name: string) | PointerTo(elem: string)

  /** A value stored in an `interface{}`.  `Num` is a decoded wire number
      (a Go float64 holding a whole number), `Map` is a
      `map[string]interface{}`, and `Opaque` is any other application value:
      its type tag plus its field values. */
  datatype Value =
    | Nil
    | Str(s: string)
    | Num(n: int)
    | Time(t: Instant)
    | Bool(b: bool)
    | Map(entries: map<string, Value>)
    | Opaque(tag: TypeTag, contents: seq<Value>)

  function TypeOf(v: Value): TypeTag
  {
    match v
    case Nil => NoType
    case Str(_) => Named("string")
    case Num(_) => Named("float64")
    case Time(_) => Named("time.Time")
    case Bool(_) => Named("bool")
    case Map(_) => Named("map[string]interface {}")
    case Opaque(tag, _) => tag
  }

  /** The errors of token.go and legacy.go.  Several source messages print a
      variable that is always the zero value at that point (the failed type
      assertion's result), so those variants carry nothing. */
  datatype Error =
    | BadTime(v: Value)                // a time key holding neither time, string nor number
    | TimeParse(text: string)          // a time string that is not RFC 3339
    | BadSub                           // a non-string subject
    | UnknownField                     // a key outside iat, exp, sub, data
    | CannotParseToken(t: TypeTag)     // Decode given neither a map nor a token
    | TokenExpired
    | TokenInvalid
    | TypeMismatch                     // Reify into a destination of another type
    | Panic                            // a Go runtime panic (nil reflection, failed assertion)
    | BadLegacyTime                    // a legacy time key that is not a number
    | BadLegacySub                     // a legacy non-string subject
    | CannotParseLegacy(t: TypeTag)    // legacy New given a non-map
}
