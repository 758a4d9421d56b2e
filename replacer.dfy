/**
 * The literal multi-pattern replacer of Go's `strings.NewReplacer`, for the
 * case the mail handler builds (the generic replacer).
 *
 * Go's rule: scanning left to right, at each position the pair given EARLIEST
 * whose key is a prefix of the rest of the string wins; its value is emitted and
 * scanning resumes after the key; matches never overlap and replaced text is
 * never rescanned. Pairs are listed in argument order.
 *
 * An empty key is special in Go: it matches at every position and emits its
 * value there. The handler's argument list always starts with the pairs ("", "")
 * (see Replacements), and the earliest pair for a key takes priority, so the
 * empty key can only ever emit "". That is the same as never matching it, which
 * is how Replace treats empty keys.
 */
module Replacer {
  import opened Wrappers

  /** A (key, value) pair: replace every unrivalled occurrence of key by value. */
  type Pair = (string, string)

  predicate IsPrefix(k: string, s: string) {
    |k| <= |s| && s[..|k|] == k
  }

  /** Does key `k` take part in matching, and does it match at the front of `s`? */
  predicate Matches(k: string, s: string) {
    k != "" && IsPrefix(k, s)
  }

  /** The winning pair at the front of `s`: the earliest whose key matches there. */
  function FirstMatch(pairs: seq<Pair>, s: string): (r: Option<Pair>)
    ensures r.Some? ==> r.value in pairs && Matches(r.value.0, s)
    ensures r.None? ==> forall i :: 0 <= i < |pairs| ==> !Matches(pairs[i].0, s)
  {
    if pairs == [] then None
    else if Matches(pairs[0].0, s) then Some(pairs[0])
    else
      var r := FirstMatch(pairs[1..], s);
      assert forall i :: 1 <= i < |pairs| ==> pairs[i] == pairs[1..][i - 1];
      r
  }

  /** Pair i matches at the front of `s` and no earlier pair does. */
  predicate EarliestMatch(pairs: seq<Pair>, s: string, i: int) {
    0 <= i < |pairs| && Matches(pairs[i].0, s) && forall j :: 0 <= j < i ==> !Matches(pairs[j].0, s)
  }

  /** The winner is the earliest pair in the argument list whose key matches. */
  lemma {:induction false} FirstMatchEarliest(pairs: seq<Pair>, s: string)
    ensures FirstMatch(pairs, s).Some? <==> exists i :: EarliestMatch(pairs, s, i)
    ensures FirstMatch(pairs, s).Some? ==> exists i :: EarliestMatch(pairs, s, i) && pairs[i] == FirstMatch(pairs, s).value
  {
    if pairs != [] && !Matches(pairs[0].0, s) {
      var tail := pairs[1..];
      FirstMatchEarliest(tail, s);
      assert forall i :: 1 <= i < |pairs| ==> pairs[i] == tail[i - 1];
      if FirstMatch(tail, s).Some? {
        var i :| EarliestMatch(tail, s, i) && tail[i] == FirstMatch(tail, s).value;
        assert EarliestMatch(pairs, s, i + 1);
      }
    } else if pairs != [] {
      assert EarliestMatch(pairs, s, 0);
    }
  }

  /** `replacer.Replace(s)`. */
  function Replace(pairs: seq<Pair>, s: string): string
    decreases |s|
  {
    if s == [] then []
    else
      match FirstMatch(pairs, s)
      case Some(p) => p.1 + Replace(pairs, s[|p.0|..])
      case None => [s[0]] + Replace(pairs, s[1..])
  }

  /** n pairs ("", ""): the 2n empty strings `make([]string, n*2)` starts with. */
  function Padding(n: nat): (r: seq<Pair>)
    ensures |r| == n && forall i :: 0 <= i < n ==> r[i] == ("", "")
  {
    if n == 0 then [] else Padding(n - 1) + [("", "")]
  }

  /**
   * The argument list the handler passes to `strings.NewReplacer`: the padding
   * followed by the substitutions in map-iteration order.
   */
  function Replacements(subs: seq<Pair>): seq<Pair> {
    Padding(|subs|) + subs
  }

  /** No key of `pairs` occurs anywhere in `s`. */
  predicate NoKeyOccurs(pairs: seq<Pair>, s: string) {
    forall j, i :: 0 <= j < |s| && 0 <= i < |pairs| ==> !Matches(pairs[i].0, s[j..])
  }

  /** Pairs whose keys cannot match are invisible to the winner at every position. */
  lemma {:induction false} FirstMatchSkipsEmptyKeys(pad: seq<Pair>, subs: seq<Pair>, s: string)
    requires forall i :: 0 <= i < |pad| ==> pad[i].0 == ""
    ensures FirstMatch(pad + subs, s) == FirstMatch(subs, s)
  {
    if pad != [] {
      assert (pad + subs)[0] == pad[0];
      assert !Matches((pad + subs)[0].0, s);
      assert FirstMatch(pad + subs, s) == FirstMatch((pad + subs)[1..], s);
      assert (pad + subs)[1..] == pad[1..] + subs;
      FirstMatchSkipsEmptyKeys(pad[1..], subs, s);
    } else {
      assert pad + subs == subs;
    }
  }

  /** The leading ("", "") pairs never change the output. */
  lemma {:induction false} ReplacePaddingInvisible(subs: seq<Pair>, s: string)
    ensures Replace(Replacements(subs), s) == Replace(subs, s)
    decreases |s|
  {
    if s != [] {
      FirstMatchSkipsEmptyKeys(Padding(|subs|), subs, s);
      match FirstMatch(subs, s)
      case Some(p) =>
        ReplacePaddingInvisible(subs, s[|p.0|..]);
      case None =>
        ReplacePaddingInvisible(subs, s[1..]);
    }
  }

  /** A string in which no key occurs comes out unchanged. */
  lemma {:induction false} ReplaceUntouched(pairs: seq<Pair>, s: string)
    requires NoKeyOccurs(pairs, s)
    ensures Replace(pairs, s) == s
    decreases |s|
  {
    if s != [] {
      assert s[0..] == s;
      assert FirstMatch(pairs, s).None?;
      forall j, i | 0 <= j < |s[1..]| && 0 <= i < |pairs|
        ensures !Matches(pairs[i].0, s[1..][j..])
      {
        assert s[1..][j..] == s[j + 1..];
      }
      ReplaceUntouched(pairs, s[1..]);
      assert s == [s[0]] + s[1..];
    }
  }

  /** With no substitutions at all the replacer is the identity. */
  lemma ReplaceEmptyIdentity(s: string)
    ensures Replace(Replacements([]), s) == s
  {
    assert Replacements([]) == [];
    ReplaceUntouched([], s);
  }

  /** Once no key is left in the output, replacing again changes nothing. */
  lemma ReplaceIdempotent(pairs: seq<Pair>, s: string)
    requires NoKeyOccurs(pairs, Replace(pairs, s))
    ensures Replace(pairs, Replace(pairs, s)) == Replace(pairs, s)
  {
    ReplaceUntouched(pairs, Replace(pairs, s));
  }

  /** No non-empty key is a prefix of another key: at most one key matches anywhere. */
  predicate PrefixFree(pairs: seq<Pair>) {
    forall i, j :: 0 <= i < |pairs| && 0 <= j < |pairs| && i != j ==> !Matches(pairs[i].0, pairs[j].0)
  }

  lemma PrefixOfBoth(a: string, b: string, s: string)
    requires IsPrefix(a, s) && IsPrefix(b, s) && |a| <= |b|
    ensures IsPrefix(a, b)
  {
    assert b[..|a|] == s[..|b|][..|a|] == s[..|a|];
  }

  /** When keys cannot overlap, the order of the pairs does not decide the winner. */
  lemma FirstMatchOrderIrrelevant(p: seq<Pair>, q: seq<Pair>, s: string)
    requires PrefixFree(p) && multiset(p) == multiset(q)
    ensures FirstMatch(p, s) == FirstMatch(q, s)
  {
    var rp, rq := FirstMatch(p, s), FirstMatch(q, s);
    if rp.Some? {
      var ip :| 0 <= ip < |p| && p[ip] == rp.value;
      assert p[ip] in multiset(q);
      assert rq.Some?;
      assert rq.value in multiset(p);
      var jp :| 0 <= jp < |p| && p[jp] == rq.value;
      if ip != jp {
        if |p[ip].0| <= |p[jp].0| {
          PrefixOfBoth(p[ip].0, p[jp].0, s);
        } else {
          PrefixOfBoth(p[jp].0, p[ip].0, s);
        }
      }
    } else {
      forall i | 0 <= i < |q|
        ensures !Matches(q[i].0, s)
      {
        assert q[i] in multiset(p);
      }
    }
  }

  /**
   * When no key is a prefix of another, every listing order of the same pairs
   * gives the same output, so the unspecified order of Go's map iteration is
   * harmless in that case.
   */
  lemma {:induction false} ReplaceOrderIrrelevant(p: seq<Pair>, q: seq<Pair>, s: string)
    requires PrefixFree(p) && multiset(p) == multiset(q)
    ensures Replace(p, s) == Replace(q, s)
    decreases |s|
  {
    if s != [] {
      FirstMatchOrderIrrelevant(p, q, s);
      match FirstMatch(p, s)
      case Some(x) =>
        ReplaceOrderIrrelevant(p, q, s[|x.0|..]);
      case None =>
        ReplaceOrderIrrelevant(p, q, s[1..]);
    }
  }

  /** No key that takes part in matching starts with a character of `u`. */
  predicate NoKeyStartsIn(pairs: seq<Pair>, u: string) {
    forall i :: 0 <= i < |pairs| && pairs[i].0 != "" ==> pairs[i].0[0] !in u
  }

  /** A single placeholder filled in: "hi {{name}}" with {{name}} -> Bob, behind its padding pair. */
  lemma ReplaceExample()
    ensures Replace(Replacements([("{{name}}", "Bob")]), "hi {{name}}") == "hi Bob"
  {
    var p, u, k := [("{{name}}", "Bob")], "hi ", "{{name}}";
    assert u + k == "hi {{name}}";
    ReplaceAtKey(k, "Bob");
    assert NoKeyStartsIn(p, u);
    ReplaceSkipsPlain(p, u, k);
    ReplacePaddingInvisible(p, u + k);
  }

  /** Text in which no key can start is copied through unchanged, and replacing resumes after it. */
  lemma {:induction false} ReplaceSkipsPlain(p: seq<Pair>, u: string, t: string)
    requires NoKeyStartsIn(p, u)
    ensures Replace(p, u + t) == u + Replace(p, t)
    decreases |u|
  {
    if u == [] {
      assert u + t == t;
    } else {
      assert NoKeyStartsIn(p, u[1..]) by {
        forall i | 0 <= i < |p| && p[i].0 != ""
          ensures p[i].0[0] !in u[1..]
        {
          assert p[i].0[0] !in u;
        }
      }
      ReplaceNoMatchHere(p, u + t);
      assert (u + t)[1..] == u[1..] + t;
      ReplaceSkipsPlain(p, u[1..], t);
    }
  }

  /** A lone key is replaced by its value. */
  lemma ReplaceAtKey(k: string, v: string)
    requires k != ""
    ensures Replace([(k, v)], k) == v
  {
    assert k[..|k|] == k && k[|k|..] == [];
    assert FirstMatch([(k, v)], k) == Some((k, v));
  }

  /** Where no key can start, the first character is copied and scanning moves on. */
  lemma ReplaceNoMatchHere(p: seq<Pair>, s: string)
    requires 0 < |s| && NoKeyStartsIn(p, [s[0]])
    ensures Replace(p, s) == [s[0]] + Replace(p, s[1..])
  {
    forall i | 0 <= i < |p|
      ensures !Matches(p[i].0, s)
    {
      if p[i].0 != "" && |p[i].0| <= |s| {
        assert s[..|p[i].0|][0] == s[0];
        assert p[i].0[0] !in [s[0]];
      }
    }
    assert FirstMatch(p, s) == None;
  }
}
