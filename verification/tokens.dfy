/** The token record of token.go: its fields, the constructor, the decoder
    that fills it from a generic key/value mapping, the validity check and
    the type-checked payload retrieval. */
module Tokens {
  import opened Values
  import opened MapRange

  /** The name Go's type switch and `%T` use for the Token struct. */
  const TokenTypeName := "vaper.Token"

  /** The keys that hold timestamps. */
  const TimeKeys: set<string> := {"iat", "exp"}

  /** The only keys a token's mapping may hold. */
  const TokenKeys: set<string> := {"iat", "exp", "sub", "data"}

  /** A snapshot of the four fields of a Token. */
  datatype Fields = Fields(data: Value, exp: Instant, iat: Instant, sub: string)

  /** `time.Parse` with the RFC 3339 layout (section 5.6 of RFC 3339): the
      instant a string denotes, or None when the string is not in that
      format.  The parser is a library routine and is taken as a parameter. */
  type Parser = string -> Option<Instant>

  /** The instant a wire value denotes for `iat`/`exp` and whether it was
      accepted: a native time as it is, a string through the RFC 3339 parser,
      a number as seconds after the epoch.  On failure the instant is the
      zero time, which decodeTime still stores. */
  function TimeFromValue(v: Value, parse: Parser): (r: (Instant, Option<Error>))
    ensures r.1.None? <==> v.Time? || v.Num? || (v.Str? && parse(v.s).Some?)
    ensures r.1.Some? ==> r.0 == ZeroTime
    ensures v.Time? ==> r.0 == v.t
    ensures v.Num? ==> r.0 == v.n
    ensures v.Str? ==> r.0 == (if parse(v.s).Some? then parse(v.s).value else ZeroTime)
    ensures v.Str? && parse(v.s).None? ==> r.1 == Some(TimeParse(v.s))
    ensures !(v.Time? || v.Num? || v.Str?) ==> r.1 == Some(BadTime(v))
  {
    match v
    case Time(t) => (t, None)
    case Str(s) =>
      (match parse(s)
       case Some(t) => (t, None)
       case None => (ZeroTime, Some(TimeParse(s))))
    case Num(n) => (n, None)
    case _ => (ZeroTime, Some(BadTime(v)))
  }

  /** The three accepted forms of a timestamp denote the same instant. */
  lemma TimeFormsAgree(t: Instant, text: string, parse: Parser)
    requires parse(text) == Some(t)
    ensures TimeFromValue(Time(t), parse) == (t, None)
    ensures TimeFromValue(Num(t), parse) == (t, None)
    ensures TimeFromValue(Str(text), parse) == (t, None)
  {
  }

  /** Whether decode accepts the entry `k: v`, whatever the token holds. */
  predicate Accepted(k: string, v: Value, parse: Parser)
  {
    if k in TimeKeys then TimeFromValue(v, parse).1.None?
    else if k == "sub" then v.Str?
    else k == "data"
  }

  /** One entry applied by decode: the new fields and the error, if any.
      Only the field named by the key can change; a rejected subject or an
      unknown key changes nothing, while a rejected timestamp still sets its
      field to the zero time. */
  function ApplyField(f: Fields, k: string, v: Value, parse: Parser): (r: (Fields, Option<Error>))
    ensures r.1.None? <==> Accepted(k, v, parse)
    ensures r.0.data == (if k == "data" then v else f.data)
    ensures r.0.sub == (if k == "sub" && v.Str? then v.s else f.sub)
    ensures r.0.iat == (if k == "iat" then TimeFromValue(v, parse).0 else f.iat)
    ensures r.0.exp == (if k == "exp" then TimeFromValue(v, parse).0 else f.exp)
    ensures k in TimeKeys ==> r.1 == TimeFromValue(v, parse).1
    ensures k == "sub" && !v.Str? ==> r == (f, Some(BadSub))
    ensures k !in TokenKeys ==> r == (f, Some(UnknownField))
  {
    if k == "iat" || k == "exp" then
      var (t, e) := TimeFromValue(v, parse);
      (if k == "iat" then f.(iat := t) else f.(exp := t), e)
    else if k == "sub" then
      if v.Str? then (f.(sub := v.s), None) else (f, Some(BadSub))
    else if k == "data" then
      (f.(data := v), None)
    else
      (f, Some(UnknownField))
  }

  /** decode as a step of the map loop. */
  function TokenStep(parse: Parser): (Fields, string, Value) -> (Fields, Option<Error>)
  {
    (f: Fields, k: string, v: Value) => ApplyField(f, k, v, parse)
  }

  /** The fields once every entry of `m` named in `keys` has been accepted:
      each key sets its own field, so the order does not matter. */
  function Decoded(f: Fields, m: map<string, Value>, keys: set<string>, parse: Parser): Fields
    requires keys <= m.Keys
    requires "sub" in keys ==> m["sub"].Str?
  {
    Fields(
      if "data" in keys then m["data"] else f.data,
      if "exp" in keys then TimeFromValue(m["exp"], parse).0 else f.exp,
      if "iat" in keys then TimeFromValue(m["iat"], parse).0 else f.iat,
      if "sub" in keys then m["sub"].s else f.sub)
  }

  /** One accepted entry followed by the rest equals the closed form over
      all of them. */
  lemma DecodedStep(f: Fields, m: map<string, Value>, k: string, keys: set<string>, parse: Parser)
    requires k in m && keys <= m.Keys
    requires Accepted(k, m[k], parse)
    requires "sub" in keys ==> m["sub"].Str?
    ensures Decoded(ApplyField(f, k, m[k], parse).0, m, keys, parse) == Decoded(f, m, {k} + keys, parse)
  {
  }

  /** The map loop of Decode succeeds exactly when every entry is accepted,
      and then leaves the fields given by Decoded. */
  lemma {:induction false} DecodeRun(f: Fields, m: map<string, Value>, ks: seq<string>, parse: Parser)
    requires forall k | k in ks :: k in m
    decreases |ks|
    ensures Run(TokenStep(parse), f, m, ks).1.None? <==> forall k | k in ks :: Accepted(k, m[k], parse)
    ensures (forall k | k in ks :: Accepted(k, m[k], parse)) ==>
              Run(TokenStep(parse), f, m, ks).0 == Decoded(f, m, (set k | k in ks), parse)
  {
    if ks != [] {
      var k := ks[0];
      var (g, e) := ApplyField(f, k, m[k], parse);
      assert TokenStep(parse)(f, k, m[k]) == (g, e);
      if e.None? {
        DecodeRun(g, m, ks[1..], parse);
        assert (set j | j in ks) == {k} + (set j | j in ks[1..]);
        if forall j | j in ks :: Accepted(j, m[j], parse) {
          DecodedStep(f, m, k, (set j | j in ks[1..]), parse);
        }
      }
    }
  }

  /** On a map, whether the loop of Decode meets a rejected entry does not
      depend on the iteration order, and when it meets none the token ends up
      the same in every order. */
  lemma DecodeOrderIndependent(f: Fields, m: map<string, Value>, o1: seq<string>, o2: seq<string>, parse: Parser)
    requires Enumerates(o1, m) && Enumerates(o2, m)
    ensures Run(TokenStep(parse), f, m, o1).1.None? <==> Run(TokenStep(parse), f, m, o2).1.None?
    ensures Run(TokenStep(parse), f, m, o1).1.None? ==>
              Run(TokenStep(parse), f, m, o1) == Run(TokenStep(parse), f, m, o2)
  {
    DecodeRun(f, m, o1, parse);
    DecodeRun(f, m, o2, parse);
    assert (set k | k in o1) == (set k | k in o2);
  }

  /** When the entry at index `i` is the first one decode rejects, the loop
      ends with the fields the accepted entries before it give, followed by
      that entry's own effect (a rejected timestamp still zeroes its field)
      and its error; the entries after it are never applied. */
  lemma DecodeStopsAtFirstRejected(f: Fields, m: map<string, Value>, order: seq<string>, i: nat, parse: Parser)
    requires forall k | k in order :: k in m
    requires i < |order|
    requires forall j | 0 <= j < i :: Accepted(order[j], m[order[j]], parse)
    requires !Accepted(order[i], m[order[i]], parse)
    ensures "sub" in order[..i] ==> m["sub"].Str?
    ensures Run(TokenStep(parse), f, m, order) ==
            ApplyField(Decoded(f, m, (set k | k in order[..i]), parse), order[i], m[order[i]], parse)
  {
    assert forall k | k in order[..i] :: Accepted(k, m[k], parse);
    DecodeRun(f, m, order[..i], parse);
    RunNext(TokenStep(parse), f, m, order, i);
  }

  /** Types the receiver-rebinding cases of Decode accept: Token and *Token. */
  predicate IsTokenType(t: TypeTag)
  {
    t == Named(TokenTypeName) || t == PointerTo(TokenTypeName)
  }

  class Token {
    var data: Value
    var exp: Instant
    var iat: Instant
    var sub: string

    function State(): Fields
      reads this
    {
      Fields(data, exp, iat, sub)
    }

    /** `&Token{}`: every field holds its zero value. */
    constructor Zero()
      ensures State() == Fields(Nil, ZeroTime, ZeroTime, "")
    {
      data, exp, iat, sub := Nil, ZeroTime, ZeroTime, "";
    }

    /** A token holding exactly the given payload, subject and validity window. */
    constructor New(data: Value, sub: string, iat: Instant, exp: Instant)
      ensures State() == Fields(data, exp, iat, sub)
    {
      this.data := data;
      this.sub := sub;
      this.iat := iat;
      this.exp := exp;
    }

    /** Stores the instant `v` denotes in the field named by `k` (if it is
        `iat` or `exp`), the zero time when `v` is not a valid timestamp. */
    method DecodeTime(k: string, v: Value, parse: Parser) returns (err: Option<Error>)
      modifies this
      ensures err == TimeFromValue(v, parse).1
      ensures data == old(data) && sub == old(sub)
      ensures iat == (if k == "iat" then TimeFromValue(v, parse).0 else old(iat))
      ensures exp == (if k == "exp" then TimeFromValue(v, parse).0 else old(exp))
    {
      var tt := ZeroTime;
      err := None;
      match v {
        case Time(ts) =>
          tt := ts;
        case Str(ts) =>
          match parse(ts) {
            case Some(t) => tt := t;
            case None => err := Some(TimeParse(ts));
          }
        case Num(ts) =>
          tt := ts;
        case _ =>
          err := Some(BadTime(v));
      }
      if k == "iat" {
        iat := tt;
      } else if k == "exp" {
        exp := tt;
      }
    }

    /** Applies one entry of a generic mapping to the token. */
    method DecodeField(k: string, v: Value, parse: Parser) returns (err: Option<Error>)
      modifies this
      ensures (State(), err) == ApplyField(old(State()), k, v, parse)
    {
      if k == "iat" || k == "exp" {
        err := DecodeTime(k, v, parse);
      } else if k == "sub" {
        if v.Str? {
          sub := v.s;
          err := None;
        } else {
          err := Some(BadSub);
        }
      } else if k == "data" {
        data := v;
        err := None;
      } else {
        err := Some(UnknownField);
      }
    }

    /** Fills the token from a generic mapping visited in `order`, stopping
        at the first rejected entry; the error is dropped and nothing is
        reported.  A Token or *Token argument only rebinds the local receiver,
        so the token is left as it was; any other argument is an error. */
    method Decode(m: Value, order: seq<string>, parse: Parser) returns (err: Option<Error>)
      requires m.Map? ==> Enumerates(order, m.entries)
      modifies this
      ensures m.Map? ==> err == None && State() == Run(TokenStep(parse), old(State()), m.entries, order).0
      ensures !m.Map? ==> unchanged(this)
      ensures !m.Map? ==> err == (if IsTokenType(TypeOf(m)) then None else Some(CannotParseToken(TypeOf(m))))
    {
      match m {
        case Map(entries) =>
          ghost var start := State();
          var i := 0;
          while i < |order|
            invariant 0 <= i <= |order|
            invariant Run(TokenStep(parse), start, entries, order[..i]) == (State(), None)
          {
            var e := DecodeField(order[i], entries[order[i]], parse);
            RunNext(TokenStep(parse), start, entries, order, i);
            if e.Some? {
              break;
            }
            i := i + 1;
          }
          assert order[..|order|] == order;
          return None;
        case _ =>
          if IsTokenType(TypeOf(m)) {
            return None;
          }
          return Some(CannotParseToken(TypeOf(m)));
      }
    }

    /** The validity verdict at instant `now`: expired unless `now` is
        strictly before the expiry, otherwise invalid unless the issue time is
        strictly before `now`.  Expiry is tested first. */
    function IsExpired(now: Instant): (r: Option<Error>)
      reads this
      ensures r == Some(TokenExpired) <==> !(now < exp)
      ensures r == Some(TokenInvalid) <==> now < exp && !(iat < now)
      ensures r == None <==> iat < now < exp
    {
      if !(now < exp) then Some(TokenExpired)
      else if !(iat < now) then Some(TokenInvalid)
      else None
    }

    /** Copies the payload into the destination `thing`, giving the value
        `thing` holds afterwards.  Only a (non-nil) pointer destination can be
        set, and only when its type is the payload's type; reflecting on a nil
        interface panics. */
    function Reify(thing: Value): (r: Result<Value>)
      reads this
      ensures TypeOf(thing) == NoType || TypeOf(data) == NoType ==> r == Err(Panic)
      ensures r.Ok? <==> TypeOf(thing).PointerTo? && TypeOf(thing) == TypeOf(data)
      ensures r.Ok? ==> r.value == data
      ensures r.Err? && TypeOf(thing) != NoType && TypeOf(data) != NoType ==> r.error == TypeMismatch
    {
      if TypeOf(thing) == NoType || TypeOf(data) == NoType then Err(Panic)
      else if TypeOf(thing).PointerTo? && TypeOf(thing) == TypeOf(data) then Ok(data)
      else Err(TypeMismatch)
    }
  }
}
