/**
 * How Python's `re` looks for a pattern in a string, independently of the
 * pattern: `re.search` tries the pattern at each position from left to right
 * and stops at the first one where it matches; `re.finditer` and `re.findall`
 * repeat that search from the end of each match, so the matches they report
 * never overlap. The pattern is a parameter: `at(p)` is what the pattern
 * finds when the engine tries it at position `p` of a text of length `n`.
 */
module Scan {
  import opened Options

  /** Every match the pattern finds at a position `p <= n` is non-empty and ends within the text. */
  ghost predicate Advances<M>(n: nat, at: nat -> Option<M>, end: M -> nat) {
    forall p: nat :: p <= n && at(p).Some? ==> p < end(at(p).value) <= n
  }

  /** The pattern matches at no position of `[a, b)`. */
  predicate NoneIn<M>(a: nat, b: nat, at: nat -> Option<M>)
    decreases b - a
  {
    a >= b || (at(a).None? && NoneIn(a + 1, b, at))
  }

  /** A stretch without matches has no match at any of its positions. */
  lemma {:induction false} NoneInAt<M>(a: nat, b: nat, at: nat -> Option<M>, q: nat)
    requires NoneIn(a, b, at) && a <= q < b
    ensures at(q).None?
    decreases q - a
  {
    if q > a {
      NoneInAt(a + 1, b, at, q);
    }
  }

  /** A stretch without matches has none in any shorter stretch with the same start. */
  lemma {:induction false} NoneInPrefix<M>(a: nat, b: nat, c: nat, at: nat -> Option<M>)
    requires NoneIn(a, b, at) && c <= b
    ensures NoneIn(a, c, at)
    decreases b - a
  {
    if a < c {
      NoneInPrefix(a + 1, b, c, at);
    }
  }

  /** `re.search` from position `from`: the leftmost position where the pattern matches, with its match. */
  function Search<M>(n: nat, from: nat, at: nat -> Option<M>): (r: Option<(nat, M)>)
    requires from <= n
    ensures r.Some? ==> from <= r.value.0 <= n && at(r.value.0) == Some(r.value.1)
    ensures r.Some? ==> NoneIn(from, r.value.0, at)
    ensures r.None? ==> NoneIn(from, n + 1, at)
    decreases n - from
  {
    match at(from)
    case Some(m) => Some((from, m))
    case None => if from == n then None else Search(n, from + 1, at)
  }

  /**
   * `re.search` finds a match exactly when the pattern matches somewhere, and
   * it finds the leftmost one.
   */
  lemma SearchIsLeftmost<M>(n: nat, from: nat, at: nat -> Option<M>, q: nat)
    requires from <= q <= n && at(q).Some?
    ensures Search(n, from, at).Some? && Search(n, from, at).value.0 <= q
  {
    var r := Search(n, from, at);
    if r.None? {
      NoneInAt(from, n + 1, at, q);
    } else if q < r.value.0 {
      NoneInAt(from, r.value.0, at, q);
    }
  }

  /**
   * `re.finditer` from position `from`: the leftmost match, then the matches
   * found by searching again from where it ends.
   */
  function Matches<M>(n: nat, from: nat, at: nat -> Option<M>, end: M -> nat): (r: seq<(nat, M)>)
    requires from <= n && Advances(n, at, end)
    ensures forall i :: 0 <= i < |r| ==> from <= r[i].0 < end(r[i].1) <= n && at(r[i].0) == Some(r[i].1)
    ensures forall i :: 0 <= i < |r| - 1 ==> end(r[i].1) <= r[i + 1].0
    decreases n - from
  {
    match Search(n, from, at)
    case None => []
    case Some((p, m)) => [(p, m)] + Matches(n, end(m), at, end)
  }

  /**
   * `re.finditer` misses no match except those that overlap a reported one:
   * wherever the pattern matches, a reported match starts there or covers it.
   */
  lemma {:induction false} MatchesCover<M>(n: nat, from: nat, at: nat -> Option<M>, end: M -> nat, q: nat)
    requires from <= q <= n && Advances(n, at, end) && at(q).Some?
    ensures exists i :: 0 <= i < |Matches(n, from, at, end)| &&
              Matches(n, from, at, end)[i].0 <= q < end(Matches(n, from, at, end)[i].1)
    decreases n - from
  {
    SearchIsLeftmost(n, from, at, q);
    var (p, m) := Search(n, from, at).value;
    var r := Matches(n, from, at, end);
    assert r == [(p, m)] + Matches(n, end(m), at, end);
    if q >= end(m) {
      MatchesCover(n, end(m), at, end, q);
      var i :| 0 <= i < |Matches(n, end(m), at, end)| &&
               Matches(n, end(m), at, end)[i].0 <= q < end(Matches(n, end(m), at, end)[i].1);
      assert r[i + 1] == Matches(n, end(m), at, end)[i];
    } else {
      assert r[0] == (p, m);
    }
  }

  /** `re.finditer` as the engine runs it: search, report, resume at the end of the match. */
  method FindIter<M>(n: nat, at: nat -> Option<M>, end: M -> nat) returns (found: seq<(nat, M)>)
    requires Advances(n, at, end)
    ensures found == Matches(n, 0, at, end)
  {
    found := [];
    var pos := 0;
    while true
      invariant pos <= n
      invariant found + Matches(n, pos, at, end) == Matches(n, 0, at, end)
      decreases n - pos
    {
      match Search(n, pos, at)
      case None =>
        assert found == Matches(n, 0, at, end);
        return;
      case Some((p, m)) =>
        assert Matches(n, pos, at, end) == [(p, m)] + Matches(n, end(m), at, end);
        found := found + [(p, m)];
        pos := end(m);
    }
  }

  /** Matches `ms`, searched for from `from`, come one after another and end within a text of length `n`. */
  predicate Chained<M>(from: nat, ms: seq<(nat, M)>, end: M -> nat, n: nat)
    decreases |ms|
  {
    if ms == [] then from <= n
    else from <= ms[0].0 <= end(ms[0].1) <= n && Chained(end(ms[0].1), ms[1..], end, n)
  }

  /** What `re.finditer` reports is chained. */
  lemma {:induction false} MatchesChained<M>(n: nat, from: nat, at: nat -> Option<M>, end: M -> nat)
    requires from <= n && Advances(n, at, end)
    ensures Chained(from, Matches(n, from, at, end), end, n)
    decreases n - from
  {
    match Search(n, from, at)
    case None =>
    case Some((p, m)) =>
      var r := Matches(n, from, at, end);
      assert r[0] == (p, m) && r[1..] == Matches(n, end(m), at, end);
      MatchesChained(n, end(m), at, end);
  }

  /** `re.split`: the pieces of `s` before, between and after the matches `ms`. */
  function Split<T, M>(s: seq<T>, from: nat, ms: seq<(nat, M)>, end: M -> nat): (r: seq<seq<T>>)
    requires Chained(from, ms, end, |s|)
    ensures |r| == |ms| + 1
    decreases |ms|
  {
    if ms == [] then [s[from..]]
    else [s[from..ms[0].0]] + Split(s, end(ms[0].1), ms[1..], end)
  }

  /** The text each match covers. */
  function Separators<T, M>(s: seq<T>, ms: seq<(nat, M)>, end: M -> nat): (r: seq<seq<T>>)
    requires forall i :: 0 <= i < |ms| ==> ms[i].0 <= end(ms[i].1) <= |s|
    ensures |r| == |ms|
  {
    seq(|ms|, i requires 0 <= i < |ms| => s[ms[i].0..end(ms[i].1)])
  }

  /** The pieces with the separators between them, one after another. */
  function Rejoin<T>(pieces: seq<seq<T>>, seps: seq<seq<T>>): seq<T>
    requires |pieces| == |seps| + 1
    decreases |seps|
  {
    if seps == [] then pieces[0] else pieces[0] + seps[0] + Rejoin(pieces[1..], seps[1..])
  }

  /** Chained matches lie in order inside the text. */
  lemma {:induction false} ChainedBounds<M>(from: nat, ms: seq<(nat, M)>, end: M -> nat, n: nat)
    requires Chained(from, ms, end, n)
    ensures from <= n
    ensures forall i :: 0 <= i < |ms| ==> from <= ms[i].0 <= end(ms[i].1) <= n
    decreases |ms|
  {
    if ms != [] {
      ChainedBounds(end(ms[0].1), ms[1..], end, n);
      forall i | 0 < i < |ms| ensures from <= ms[i].0 <= end(ms[i].1) <= n {
        assert ms[i] == ms[1..][i - 1];
      }
    }
  }

  /** Splitting loses nothing: the pieces and the separators put back together give the text again. */
  lemma {:induction false} SplitRejoin<T, M>(s: seq<T>, from: nat, ms: seq<(nat, M)>, end: M -> nat)
    requires Chained(from, ms, end, |s|)
    ensures forall i :: 0 <= i < |ms| ==> ms[i].0 <= end(ms[i].1) <= |s|
    ensures Rejoin(Split(s, from, ms, end), Separators(s, ms, end)) == s[from..]
    decreases |ms|
  {
    ChainedBounds(from, ms, end, |s|);
    if ms != [] {
      var e := end(ms[0].1);
      SplitRejoin(s, e, ms[1..], end);
      var seps := Separators(s, ms, end);
      assert seps[1..] == Separators(s, ms[1..], end);
      assert Split(s, from, ms, end)[1..] == Split(s, e, ms[1..], end);
      assert s[from..] == s[from..ms[0].0] + s[ms[0].0..e] + s[e..];
    }
  }

  /**
   * The second piece `re.split` gives, when there is one: the text from the
   * end of the leftmost match to the start of the next match found after it,
   * or to the end of the text; the pattern matches nowhere in it.
   */
  lemma SecondPiece<T, M>(s: seq<T>, at: nat -> Option<M>, end: M -> nat)
    requires Advances(|s|, at, end)
    ensures Chained(0, Matches(|s|, 0, at, end), end, |s|)
    ensures |Matches(|s|, 0, at, end)| > 0 <==> Search(|s|, 0, at).Some?
    ensures |Matches(|s|, 0, at, end)| > 0 ==>
              var ms := Matches(|s|, 0, at, end);
              var e := if |ms| > 1 then ms[1].0 else |s|;
              ms[0] == Search(|s|, 0, at).value && end(ms[0].1) <= e <= |s|
              && Split(s, 0, ms, end)[1] == s[end(ms[0].1)..e] && NoneIn(end(ms[0].1), e, at)
  {
    MatchesChained(|s|, 0, at, end);
    var ms := Matches(|s|, 0, at, end);
    match Search(|s|, 0, at)
    case None =>
    case Some((p, m)) =>
      var rest := Matches(|s|, end(m), at, end);
      assert ms == [(p, m)] + rest;
      MatchesChained(|s|, end(m), at, end);
      assert Split(s, 0, ms, end)[1..] == Split(s, end(m), rest, end);
      match Search(|s|, end(m), at)
      case None =>
        assert rest == [];
        NoneInPrefix(end(m), |s| + 1, |s|, at);
      case Some((q, _)) =>
        assert rest[0].0 == q;
  }
}
