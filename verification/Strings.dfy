/** The string searches of the C and C++ libraries. */
module Strings {
  import opened Options

  /** pat occurs in s at p. */
  predicate Match(s: string, pat: string, p: nat)
  {
    p + |pat| <= |s| && s[p..p + |pat|] == pat
  }

  /** The first place at or behind from where pat occurs in s. */
  function FindAt(s: string, pat: string, from: nat): (r: Option<nat>)
    requires from <= |s|
    ensures r.Some? ==> from <= r.value && Match(s, pat, r.value)
    decreases |s| - from
  {
    if Match(s, pat, from) then Some(from)
    else if from == |s| then None
    else FindAt(s, pat, from + 1)
  }

  lemma MatchBehind(a: string, b: string, pat: string, p: nat)
    ensures Match(a + b, pat, |a| + p) <==> Match(b, pat, p)
  {
    if p + |pat| <= |b| { assert (a + b)[|a| + p..|a| + p + |pat|] == b[p..p + |pat|]; }
  }

  lemma MatchHead(s: string, pat: string, p: nat)
    requires Match(s, pat, p) && pat != ""
    ensures p < |s| && s[p] == pat[0]
  {
    assert s[p..p + |pat|][0] == s[p];
  }

  function Plus(r: Option<nat>, d: nat): Option<nat> { if r.None? then None else Some(r.value + d) }

  /** What stands before the searched part does not matter. */
  lemma {:induction false} FindBehind(a: string, b: string, pat: string, from: nat)
    requires from <= |b|
    ensures FindAt(a + b, pat, |a| + from) == Plus(FindAt(b, pat, from), |a|)
    decreases |b| - from
  {
    MatchBehind(a, b, pat, from);
    hide Match;
    if from < |b| { FindBehind(a, b, pat, from + 1); }
  }

  /** A stretch without a match is passed over. */
  lemma {:induction false} FindSkips(s: string, pat: string, from: nat, to: nat)
    requires from <= to <= |s| && forall p :: from <= p < to ==> !Match(s, pat, p)
    ensures FindAt(s, pat, from) == FindAt(s, pat, to)
    decreases |s| - from
  {
    hide Match;
    if from < to { FindSkips(s, pat, from + 1, to); }
  }

  /** The first place of character c, or |s|. */
  function IndexOf(s: string, c: char): (i: nat)
    ensures i <= |s|
    ensures c !in s[..i]
    ensures i < |s| ==> s[i] == c
  {
    if s == "" || s[0] == c then 0
    else
      var i := 1 + IndexOf(s[1..], c);
      assert s[..i] == [s[0]] + s[1..][..i - 1];
      i
  }

  lemma {:induction false} IndexOfIn(a: string, c: char, b: string)
    requires c !in a
    ensures IndexOf(a + [c] + b, c) == |a|
  {
    if a == "" {
      assert a + [c] + b == [c] + b;
    } else {
      assert (a + [c] + b)[1..] == a[1..] + [c] + b;
      IndexOfIn(a[1..], c, b);
    }
  }

  lemma {:induction false} IndexOfAbsent(a: string, c: char)
    requires c !in a
    ensures IndexOf(a, c) == |a|
  {
    if a != "" { IndexOfAbsent(a[1..], c); }
  }

  /** The C string in s: what comes before the first NUL. */
  function CStr(s: string): string { s[..IndexOf(s, '\0')] }

  /** strstr(list, item) != NULL, on C strings. */
  predicate Infix(list: string, item: string) { FindAt(list, item, 0).Some? }
}
