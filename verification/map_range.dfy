/** Go's `for k, v := range m` over a `map[string]interface{}` whose body
    applies one entry and breaks on the first error.  Go leaves the iteration
    order unspecified, so the order is a parameter: any enumeration of the
    map's keys. */
module MapRange {
  import opened Values

  /** `order` lists every key of `m` exactly once. */
  predicate Enumerates(order: seq<string>, m: map<string, Value>)
  {
    && (forall k | k in order :: k in m)
    && (forall k | k in m :: k in order)
    && (forall i, j | 0 <= i < j < |order| :: order[i] != order[j])
  }

  /** Applies the entries of `m` named by `ks`, in that order, to the state
      `s`; stops after the first entry whose step fails and returns the state
      that step left together with its error. */
  function Run<S>(step: (S, string, Value) -> (S, Option<Error>), s: S,
                  m: map<string, Value>, ks: seq<string>): (S, Option<Error>)
    requires forall k | k in ks :: k in m
    decreases |ks|
  {
    if ks == [] then (s, None)
    else
      var (t, e) := step(s, ks[0], m[ks[0]]);
      if e.Some? then (t, e) else Run(step, t, m, ks[1..])
  }

  /** Running `p + q` is running `p` and, only if that did not fail, running
      `q` from where `p` stopped. */
  lemma {:induction false} RunAppend<S>(step: (S, string, Value) -> (S, Option<Error>), s: S,
                                        m: map<string, Value>, p: seq<string>, q: seq<string>)
    requires forall k | k in p + q :: k in m
    ensures Run(step, s, m, p + q) ==
            if Run(step, s, m, p).1.Some? then Run(step, s, m, p)
            else Run(step, Run(step, s, m, p).0, m, q)
  {
    if p == [] {
      assert p + q == q;
    } else {
      assert (p + q)[0] == p[0];
      assert (p + q)[1..] == p[1..] + q;
      var (t, e) := step(s, p[0], m[p[0]]);
      if e.None? {
        RunAppend(step, t, m, p[1..], q);
      }
    }
  }

  /** Once an entry has failed, the entries after it are never applied:
      the outcome is the same whatever follows. */
  lemma EntriesAfterFailureIgnored<S>(step: (S, string, Value) -> (S, Option<Error>), s: S,
                                      m: map<string, Value>, p: seq<string>, q: seq<string>)
    requires forall k | k in p + q :: k in m
    requires Run(step, s, m, p).1.Some?
    ensures Run(step, s, m, p + q) == Run(step, s, m, p)
  {
    RunAppend(step, s, m, p, q);
  }

  /** One more loop iteration: extending a run that has not failed by the key
      `k` applies exactly one more step. */
  lemma RunSnoc<S>(step: (S, string, Value) -> (S, Option<Error>), s: S,
                   m: map<string, Value>, p: seq<string>, k: string)
    requires forall j | j in p :: j in m
    requires k in m
    requires Run(step, s, m, p).1.None?
    ensures Run(step, s, m, p + [k]) == step(Run(step, s, m, p).0, k, m[k])
  {
    RunAppend(step, s, m, p, [k]);
    var (t, e) := step(Run(step, s, m, p).0, k, m[k]);
    assert [k][1..] == [];
  }

  /** One iteration of the loop at index `i`: after the step on `ks[i]`,
      either the loop goes on with the prefix one longer, or the step failed
      and the whole run ends with that step's outcome. */
  lemma RunNext<S>(step: (S, string, Value) -> (S, Option<Error>), s: S,
                   m: map<string, Value>, ks: seq<string>, i: nat)
    requires forall k | k in ks :: k in m
    requires i < |ks|
    requires Run(step, s, m, ks[..i]).1.None?
    ensures step(Run(step, s, m, ks[..i]).0, ks[i], m[ks[i]]).1.None? ==>
              Run(step, s, m, ks[..i + 1]) == step(Run(step, s, m, ks[..i]).0, ks[i], m[ks[i]])
    ensures step(Run(step, s, m, ks[..i]).0, ks[i], m[ks[i]]).1.Some? ==>
              Run(step, s, m, ks) == step(Run(step, s, m, ks[..i]).0, ks[i], m[ks[i]])
  {
    assert ks[..i + 1] == ks[..i] + [ks[i]];
    RunSnoc(step, s, m, ks[..i], ks[i]);
    if step(Run(step, s, m, ks[..i]).0, ks[i], m[ks[i]]).1.Some? {
      assert ks[..i + 1] + ks[i + 1..] == ks;
      EntriesAfterFailureIgnored(step, s, m, ks[..i + 1], ks[i + 1..]);
    }
  }
}
