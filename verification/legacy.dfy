/** The legacy-layout adapter of legacy.go: it rebuilds a token from a
    mapping whose `exp`, `iat` and `sub` sit beside the payload's own keys,
    collecting every other key into a fresh payload map. */
module LegacyTokens {
  import opened Values
  import opened MapRange
  import opened Tokens

  /** The keys the legacy layout keeps on the token itself. */
  const LegacyReserved: set<string> := {"exp", "iat", "sub"}

  /** What New starts from: `&Token{}` whose payload is a fresh, empty map. */
  const Blank: Fields := Fields(Map(map[]), ZeroTime, ZeroTime, "")

  /** Whether sort accepts the entry `k: v` into a token whose payload is a
      map: timestamps must be numbers, the subject a string, anything else is
      payload. */
  predicate LegacyAccepted(k: string, v: Value)
  {
    if k == "exp" || k == "iat" then v.Num?
    else k == "sub" ==> v.Str?
  }

  /** One entry applied by sort.  A rejected entry changes nothing; an
      accepted one sets its own field or its own payload slot. */
  function SortField(f: Fields, k: string, v: Value): (r: (Fields, Option<Error>))
    ensures r.1.None? <==> LegacyAccepted(k, v) && (k !in LegacyReserved ==> f.data.Map?)
    ensures r.1.Some? ==> r.0 == f
    ensures r.0.exp == (if k == "exp" && v.Num? then v.n else f.exp)
    ensures r.0.iat == (if k == "iat" && v.Num? then v.n else f.iat)
    ensures r.0.sub == (if k == "sub" && v.Str? then v.s else f.sub)
    ensures k in LegacyReserved ==> r.0.data == f.data
    ensures k !in LegacyReserved && f.data.Map? ==> r.0.data == Map(f.data.entries[k := v])
    ensures k in TimeKeys && !v.Num? ==> r.1 == Some(BadLegacyTime)
    ensures k == "sub" && !v.Str? ==> r.1 == Some(BadLegacySub)
    ensures k !in LegacyReserved && !f.data.Map? ==> r.1 == Some(Panic)
  {
    if k == "exp" || k == "iat" then
      if v.Num? then (if k == "iat" then f.(iat := v.n) else f.(exp := v.n), None)
      else (f, Some(BadLegacyTime))
    else if k == "sub" then
      if v.Str? then (f.(sub := v.s), None) else (f, Some(BadLegacySub))
    else
      match f.data
      case Map(entries) => (f.(data := Map(entries[k := v])), None)
      case _ => (f, Some(Panic))
  }

  /** The payload entries among `keys`: every key that is not reserved. */
  function Payload(m: map<string, Value>, keys: set<string>): map<string, Value>
    requires keys <= m.Keys
  {
    map k | k in keys && k !in LegacyReserved :: m[k]
  }

  /** The fields once every entry of `m` named in `keys` has been accepted. */
  function Sorted(f: Fields, m: map<string, Value>, keys: set<string>): Fields
    requires f.data.Map?
    requires keys <= m.Keys
    requires forall k | k in keys :: LegacyAccepted(k, m[k])
  {
    Fields(
      Map(f.data.entries + Payload(m, keys)),
      if "exp" in keys then assert LegacyAccepted("exp", m["exp"]); m["exp"].n else f.exp,
      if "iat" in keys then assert LegacyAccepted("iat", m["iat"]); m["iat"].n else f.iat,
      if "sub" in keys then assert LegacyAccepted("sub", m["sub"]); m["sub"].s else f.sub)
  }

  /** One accepted entry followed by the rest equals the closed form over
      all of them; the payload stays a map. */
  lemma SortedStep(f: Fields, m: map<string, Value>, k: string, keys: set<string>)
    requires f.data.Map?
    requires k in m && keys <= m.Keys
    requires LegacyAccepted(k, m[k])
    requires forall j | j in keys :: LegacyAccepted(j, m[j])
    ensures SortField(f, k, m[k]).0.data.Map?
    ensures Sorted(SortField(f, k, m[k]).0, m, keys) == Sorted(f, m, {k} + keys)
  {
    if k !in LegacyReserved {
      assert f.data.entries[k := m[k]] + Payload(m, keys) == f.data.entries + Payload(m, {k} + keys);
    } else {
      assert Payload(m, keys) == Payload(m, {k} + keys);
    }
  }

  /** The loop of New succeeds exactly when every entry is accepted, and then
      leaves the fields given by Sorted. */
  lemma {:induction false} SortRun(f: Fields, m: map<string, Value>, ks: seq<string>)
    requires f.data.Map?
    requires forall k | k in ks :: k in m
    decreases |ks|
    ensures Run(SortField, f, m, ks).1.None? <==> forall k | k in ks :: LegacyAccepted(k, m[k])
    ensures (forall k | k in ks :: LegacyAccepted(k, m[k])) ==>
              Run(SortField, f, m, ks).0 == Sorted(f, m, (set k | k in ks))
  {
    if ks != [] {
      var k := ks[0];
      var (g, e) := SortField(f, k, m[k]);
      if e.None? {
        SortRun(g, m, ks[1..]);
        assert (set j | j in ks) == {k} + (set j | j in ks[1..]);
        if forall j | j in ks :: LegacyAccepted(j, m[j]) {
          SortedStep(f, m, k, (set j | j in ks[1..]));
        }
      }
    }
  }

  /** What New builds from a map `m`, in any iteration order: it succeeds
      exactly when every entry is accepted, and then the payload map holds
      exactly the non-reserved entries of `m`, and the timestamps and subject
      come from `m` where present and are zero otherwise. */
  lemma LegacyResult(m: map<string, Value>, order: seq<string>)
    requires Enumerates(order, m)
    ensures Run(SortField, Blank, m, order).1.None? <==> forall k | k in m :: LegacyAccepted(k, m[k])
    ensures Run(SortField, Blank, m, order).1.None? ==>
              Run(SortField, Blank, m, order).0 == Fields(
                Map(m - LegacyReserved),
                if "exp" in m then m["exp"].n else ZeroTime,
                if "iat" in m then m["iat"].n else ZeroTime,
                if "sub" in m then m["sub"].s else "")
  {
    SortRun(Blank, m, order);
    assert (set k | k in order) == m.Keys;
    assert map[] + Payload(m, m.Keys) == m - LegacyReserved;
  }

  /** When the entry at index `i` is the first one sort rejects, New
      returns the token the accepted entries before it build, and the error
      says which kind of reserved key was malformed. */
  lemma LegacyStopsAtFirstRejected(m: map<string, Value>, order: seq<string>, i: nat)
    requires forall k | k in order :: k in m
    requires i < |order|
    requires forall j | 0 <= j < i :: LegacyAccepted(order[j], m[order[j]])
    requires !LegacyAccepted(order[i], m[order[i]])
    ensures Run(SortField, Blank, m, order).0 == Sorted(Blank, m, (set k | k in order[..i]))
    ensures Run(SortField, Blank, m, order).1 ==
            Some(if order[i] in TimeKeys then BadLegacyTime else BadLegacySub)
  {
    assert forall k | k in order[..i] :: LegacyAccepted(k, m[k]);
    SortRun(Blank, m, order[..i]);
    RunNext(SortField, Blank, m, order, i);
  }

  /** The outcome of New on a map is the same for every iteration order
      when it succeeds, and whether it succeeds does not depend on the order. */
  lemma LegacyOrderIndependent(m: map<string, Value>, o1: seq<string>, o2: seq<string>)
    requires Enumerates(o1, m) && Enumerates(o2, m)
    ensures Run(SortField, Blank, m, o1).1.None? <==> Run(SortField, Blank, m, o2).1.None?
    ensures Run(SortField, Blank, m, o1).1.None? ==> Run(SortField, Blank, m, o1) == Run(SortField, Blank, m, o2)
  {
    LegacyResult(m, o1);
    LegacyResult(m, o2);
  }

  /** The legacy adapter is stricter than decode on timestamps: what it
      accepts, decode accepts with the same effect. */
  lemma LegacyTimeStricter(f: Fields, k: string, v: Value, parse: Parser)
    requires k in TimeKeys
    requires SortField(f, k, v).1.None?
    ensures ApplyField(f, k, v, parse) == SortField(f, k, v)
  {
  }

  /** A payload map can never be reified: a map destination cannot be set and
      a pointer destination never has the map's type. */
  lemma LegacyPayloadNotReifiable(t: Token, thing: Value)
    requires t.data.Map?
    ensures t.Reify(thing).Err?
  {
  }

  class Legacy {
    var token: Token?

    /** `Legacy{}`: no token yet. */
    constructor ()
      ensures token == null
    {
      token := null;
    }

    /** Applies one entry of a legacy mapping to the token, in place. */
    method Sort(k: string, v: Value) returns (err: Option<Error>)
      requires token != null
      modifies token
      ensures (token.State(), err) == SortField(old(token.State()), k, v)
    {
      if k == "exp" || k == "iat" {
        if v.Num? {
          if k == "iat" {
            token.iat := v.n;
          }
          if k == "exp" {
            token.exp := v.n;
          }
        } else {
          return Some(BadLegacyTime);
        }
      } else if k == "sub" {
        if v.Str? {
          token.sub := v.s;
        } else {
          return Some(BadLegacySub);
        }
      } else {
        match token.data {
          case Map(entries) =>
            token.data := Map(entries[k := v]);
          case _ =>
            return Some(Panic);
        }
      }
      return None;
    }

    /** Builds a fresh token from a legacy mapping visited in `order`,
        stopping at the first rejected entry and returning the token built so
        far together with that error.  Any other argument yields no token and
        an error, and leaves the adapter as it was. */
    method New(m: Value, order: seq<string>) returns (t: Token?, err: Option<Error>)
      requires m.Map? ==> Enumerates(order, m.entries)
      modifies this
      ensures m.Map? ==> t != null && fresh(t) && token == t
                         && (t.State(), err) == Run(SortField, Blank, m.entries, order)
      ensures !m.Map? ==> t == null && err == Some(CannotParseLegacy(TypeOf(m))) && token == old(token)
    {
      if m.Map? {
        var entries := m.entries;
        var tok := new Token.Zero();
        tok.data := Map(map[]);
        token := tok;
        err := None;
        var i := 0;
        assert tok.State() == Blank;
        while i < |order|
          invariant 0 <= i <= |order|
          invariant token == tok && err == None
          modifies tok
          invariant Run(SortField, Blank, entries, order[..i]) == (tok.State(), None)
        {
          err := Sort(order[i], entries[order[i]]);
          RunNext(SortField, Blank, entries, order, i);
          if err.Some? {
            break;
          }
          i := i + 1;
        }
        assert order[..|order|] == order;
        t := token;
      } else {
        t, err := null, Some(CannotParseLegacy(TypeOf(m)));
      }
    }
  }
}
