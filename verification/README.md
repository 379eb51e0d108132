# vaper tokens in Dafny

A model of the token record of the `vaper` Go package and of its adapter for
the legacy token layout. A token holds an opaque payload (`Data`), a subject
(`Sub`), an issue time (`Iat`) and an expiry time (`Exp`). The package
rebuilds a token from the generic key/value mapping that comes back from the
encryption layer. It checks the token's validity window against the current
time. It copies the payload back into a caller's variable of the same type.

Modules:

- `Values` (values.dfy): the dynamically typed values an `interface{}`
  holds after the mapping is decoded: `Str`, `Num` (a wire number), `Time`,
  `Bool`, `Map` (a `map[string]interface{}`), `Opaque` (any other
  application value, with its Go type tag) and `Nil`. The module also has
  the Go type of each value and the package's errors. Instants are whole
  seconds since the Unix epoch. Go's zero `time.Time` (0001-01-01) is
  `ZeroTime`.
- `MapRange` (map_range.dfy): Go's `for k, v := range m { if err = step(k, v); err != nil { break } }`.
  Go does not specify the iteration order, so the order is a parameter: any
  enumeration of the map's keys. `Run` is the loop as a function. Its lemmas
  say that the loop stops at the first failure and never applies the entries
  after it.
- `Tokens` (tokens.dfy): token.go. `Token` is a class whose methods update
  its fields in place, as the Go methods on `*Token` do. `State()` gives the
  fields as a `Fields` value. Each method is proved against a pure function
  on `Fields`:
  - `TimeFromValue` specifies `decodeTime`.
  - `ApplyField` specifies `decode`.
  - `Run(TokenStep(parse), …)` specifies the map case of `Decode`.
  
  `IsExpired` and `Reify` are pure functions that read the token.
- `LegacyTokens` (legacy.dfy): legacy.go. `Legacy` holds a token
  reference. `Sort` updates that token in place and is specified by
  `SortField`. `New` allocates a fresh token with an empty payload map and
  runs `Sort` over the mapping.

Behaviour kept exactly as the code has it:

- `Decode` on a map always returns no error, even when an entry is rejected.
  It stops at the first rejected entry, and the entries before that one stay
  applied.
- A rejected `iat`/`exp` in `decodeTime` still overwrites its field with the
  zero time.
- `Decode` given a `Token` or `*Token` only rebinds its local receiver, so the
  token is left unchanged and no error is returned.
- `Reify` succeeds only for a pointer destination whose type equals the
  payload's type, because `CanSet` is false for a value that is not a pointer.
  Reflecting on a nil interface panics. A map payload, which is what the
  legacy adapter builds, therefore cannot be reified with `Reify`
  (`LegacyPayloadNotReifiable`). Neither token.go nor legacy.go has another
  way to copy a legacy payload into a caller's variable.
- The legacy adapter accepts only numbers for `exp`/`iat`, not time values or
  RFC 3339 strings. This is stricter than `decode` (`LegacyTimeStricter`).
  When an entry is rejected, `New` returns the partly built token together
  with the error.
- legacy.go writes to a token field named `Thing`, which `Token` does not
  declare (it declares `Data`). The model treats it as `Data`.

## Model

| member | source | states |
|---|---|---|
| `MapRange.RunAppend` | token.go:83-88 | running the entries `p + q` is running `p` and, only if no entry of `p` failed, continuing with `q` from the state `p` left |
| `MapRange.EntriesAfterFailureIgnored` | legacy.go:45-49 | once an entry has failed, whatever entries follow are never applied |
| `MapRange.RunNext` | token.go:83-87 | one loop iteration: an accepted entry extends the applied prefix by one step; a rejected one ends the whole loop with that step's state and error |
| `Tokens.TimeFromValue` | token.go:38-50 | a time value is accepted as it is, a number as that many seconds after the epoch, a string iff the RFC 3339 parser accepts it; anything else is an error; every error comes with the zero time |
| `Tokens.TimeFormsAgree` | token.go:41-48 | a native time, its epoch-seconds number and a string that the RFC 3339 parser maps to that instant all decode to that instant |
| `Tokens.ApplyField` | token.go:60-77 | an entry is accepted iff it is a valid timestamp under `iat`/`exp`, a string under `sub`, or anything under `data`; only the field the key names can change; a non-string subject or an unknown key changes nothing and yields `BadSub`/`UnknownField`; a rejected timestamp zeroes its field |
| `Tokens.DecodeRun` | token.go:82-88 | the map loop meets no rejected entry iff every entry is accepted, and then each of `data`, `exp`, `iat`, `sub` holds the value from the map where the key is present and keeps its old value otherwise |
| `Tokens.DecodeStopsAtFirstRejected` | token.go:83-87 | if entry `i` is the first rejected one, the token holds what the accepted entries before it set, plus entry `i`'s own effect, and nothing after it |
| `Tokens.DecodeOrderIndependent` | token.go:82-88 | whether the loop meets a rejected entry does not depend on the iteration order, and without one the resulting token is the same for every order |
| `Tokens.Token.Zero` | legacy.go:43 | `&Token{}`: nil payload, zero times, empty subject |
| `Tokens.Token.New` | token.go:140-147 | the token holds exactly the given payload, subject, issue time and expiry |
| `Tokens.Token.DecodeTime` | token.go:38-58 | stores the decoded instant (the zero time on error) into `iat` or `exp` as the key says, returns the decoding error, and leaves every other field unchanged |
| `Tokens.Token.DecodeField` | token.go:60-77 | the new fields and the error are those `ApplyField` gives for the old fields |
| `Tokens.Token.Decode` | token.go:79-97 | on a map: returns no error and leaves the fields the map loop gives in the given order; on a `Token`/`*Token`: changes nothing and returns no error; otherwise: changes nothing and returns `CannotParseToken` with the argument's type |
| `Tokens.Token.IsExpired` | token.go:103-113 | `TokenExpired` iff `now` is not strictly before `exp` (whatever `iat` is); `TokenInvalid` iff `now < exp` and `iat` is not strictly before `now`; no error iff `iat < now < exp` |
| `Tokens.Token.Reify` | token.go:115-138 | succeeds iff the destination is a pointer whose type equals the payload's type, and then the destination holds the payload; a nil destination or payload panics; any other case is `TypeMismatch` |
| `LegacyTokens.SortField` | legacy.go:14-37 | an entry is accepted iff `exp`/`iat` hold a number and `sub` a string (any other key is payload); a rejected entry changes nothing; an accepted one sets only its own field or inserts only its own payload slot |
| `LegacyTokens.SortRun` | legacy.go:45-49 | the loop succeeds iff every entry is accepted, and then the payload map gains exactly the non-reserved entries and the times and subject come from the map where present |
| `LegacyTokens.LegacyResult` | legacy.go:39-56 | from a map, New succeeds iff every entry is accepted, and then its payload map is exactly the input minus `exp`, `iat`, `sub`, and the times and subject are taken from the input or zero |
| `LegacyTokens.LegacyStopsAtFirstRejected` | legacy.go:45-55 | if entry `i` is the first rejected one, New returns the token the entries before it built, together with `BadLegacyTime` or `BadLegacySub` as the key says |
| `LegacyTokens.LegacyOrderIndependent` | legacy.go:45-49 | success does not depend on the iteration order, and on success the token is the same for every order |
| `LegacyTokens.LegacyTimeStricter` | legacy.go:16-26 | a timestamp the legacy adapter accepts is accepted by `decode` with the same effect |
| `LegacyTokens.LegacyPayloadNotReifiable` | token.go:119-123 | a token whose payload is a map cannot be reified into any destination |
| `LegacyTokens.Legacy.constructor` | legacy.go:10-12 | a new adapter holds no token |
| `LegacyTokens.Legacy.Sort` | legacy.go:14-37 | the token's new fields and the error are those `SortField` gives for its old fields |
| `LegacyTokens.Legacy.New` | legacy.go:39-56 | on a map: a freshly allocated token, also stored in the adapter, holding what the loop builds from an empty payload map, together with the loop's first error; otherwise: no token, `CannotParseLegacy`, and the adapter unchanged |

## Left out

- Encryption and the marshal/unmarshal entry points (`MarshalToken`,
  `UnmarshalToken`, `CryptOpts`), the key globals and `Init`
  (token.go:11-25), and logging. They are configuration or external
  collaborators. The codec layer that routes between the current and the
  legacy layout is not part of this model.
- `time.Parse` with the RFC 3339 layout is a library routine. It is a
  parameter `parse: string -> Option<Instant>`.
- `time.Now()` (token.go:104) is the parameter `now` of `IsExpired`.
- Time zones and sub-second precision of `time.Time`: instants are whole
  seconds.
- Wire numbers are Go `float64`. Here they are integers, so the
  `int64(float64)` truncation and any 64-bit overflow in `time.Unix` are not
  modelled.
- Go reflection is abstracted as type tags. An `Opaque` value whose tag is a
  pointer type stands for a non-nil pointer, so typed nil pointers are not
  modelled. `Reify`'s result is the destination's new value. Pointer identity,
  and aliasing between the destination and the payload, are not modelled.
- Go runtime panics (a nil interface in `reflectValue`, the failed map type
  assertion in legacy.go:34) are the error value `Panic`, not stack
  unwinding.
- Legacy.Sort: requires a non-nil token, because the Go nil dereference is
  not modelled. `New`, its only caller, always sets one.
- Nil receivers: in Go, calling `Decode` on a nil `*Token` panics as soon as a
  field is written (token.go:53-55, 67, 72), `IsExpired` on a nil `*Token`
  panics (token.go:105), and `Legacy.New` on a nil `*Legacy` panics when
  given a map (legacy.go:43). A Dafny receiver is never null, so these panics
  are not modelled.
- Reference sharing. The payload map in legacy.go is a Go map, shared by
  reference. Here it is a `map` value that `Sort` reassigns. In the same way,
  `decode` stores the `data` value itself (token.go:72) and `sort` stores each
  payload entry's value (legacy.go:34). When such a value is a Go map, or holds
  one, the token shares it with the caller's input mapping. `Value` is a value
  type, so none of this sharing is modelled: a later change to the input
  mapping is not seen through the token, and the reverse does not happen
  either.
- Error message texts are not modelled, only which error occurs. Several
  messages print a value that is always the zero value at that point
  (token.go:69, legacy.go:25, legacy.go:31), or a reflection type instead of
  the real types (token.go:122). Those errors carry no data.
- The `TokenValidator` and `TokenDecoder` interfaces (token.go:27-29,
  token.go:99-101) only declare method sets.
