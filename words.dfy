/**
 * The `\b<term>\b` search that both the skills extractor and the project
 * extractor run over lower-cased text.
 */
module Words {
  import opened Options
  import opened Text

  /** `\b` at position `i`: exactly one of the characters around `i` is a word character. */
  predicate Boundary(t: string, i: nat)
    requires i <= |t|
  {
    (i > 0 && IsWordChar(t[i - 1])) != (i < |t| && IsWordChar(t[i]))
  }

  /** `\b<w>\b` matches at position `i` (the term is matched literally, as `re.escape` makes it). */
  predicate WholeWordAt(t: string, i: nat, w: string) {
    MatchesAt(t, i, w) && Boundary(t, i) && Boundary(t, i + |w|)
  }

  /** `re.search(r'\b' + re.escape(w) + r'\b', t)` finds something. */
  ghost predicate ContainsWholeWord(t: string, w: string) {
    exists i :: 0 <= i <= |t| && WholeWordAt(t, i, w)
  }

  /** Leftmost position at or after `from` where `\b<w>\b` matches. */
  function FindWholeWord(t: string, w: string, from: nat): (r: Option<nat>)
    requires from <= |t|
    ensures r.Some? ==> from <= r.value <= |t| && WholeWordAt(t, r.value, w)
    ensures r.Some? ==> forall j :: from <= j < r.value ==> !WholeWordAt(t, j, w)
    ensures r.None? ==> forall j :: from <= j <= |t| ==> !WholeWordAt(t, j, w)
    decreases |t| - from
  {
    if WholeWordAt(t, from, w) then Some(from)
    else if from == |t| then None
    else FindWholeWord(t, w, from + 1)
  }

  /** The search for a term succeeds exactly when the term occurs as a whole word. */
  predicate HasWholeWord(t: string, w: string)
    ensures HasWholeWord(t, w) <==> ContainsWholeWord(t, w)
  {
    FindWholeWord(t, w, 0).Some?
  }

  /**
   * A term ending in a non-word character, such as `c++`, only matches when a
   * word character follows it: `\b` after `+` needs a word character next.
   */
  lemma {:induction false} TrailingSymbolNeedsWordAfter(t: string, i: nat, w: string)
    requires |w| > 0 && !IsWordChar(w[|w| - 1])
    requires WholeWordAt(t, i, w)
    ensures i + |w| < |t| && IsWordChar(t[i + |w|])
  {
    assert t[i + |w| - 1] == w[|w| - 1];
  }

  /** The terms of `terms`, in their own order, that occur as whole words in `t`. */
  function FoundTerms(t: string, terms: seq<string>): (r: seq<string>)
    ensures |r| <= |terms|
  {
    if terms == [] then []
    else (if HasWholeWord(t, terms[0]) then [terms[0]] else []) + FoundTerms(t, terms[1..])
  }

  /** `sub` is `s` with some elements dropped and the rest kept in order. */
  predicate IsSubsequence<T(==)>(sub: seq<T>, s: seq<T>)
    decreases |s|
  {
    sub == [] ||
    (s != [] && ((sub[0] == s[0] && IsSubsequence(sub[1..], s[1..])) || IsSubsequence(sub, s[1..])))
  }

  predicate NoDuplicates<T(==)>(s: seq<T>) {
    forall i, j :: 0 <= i < j < |s| ==> s[i] != s[j]
  }

  /** A term is reported exactly when it is one of the terms and occurs as a whole word. */
  lemma {:induction false} FoundTermsMembership(t: string, terms: seq<string>, w: string)
    ensures w in FoundTerms(t, terms) <==> w in terms && ContainsWholeWord(t, w)
  {
    if terms != [] {
      FoundTermsMembership(t, terms[1..], w);
      assert terms == [terms[0]] + terms[1..];
    }
  }

  /** Reported terms follow the order of the term list, not the order in the text. */
  lemma {:induction false} FoundTermsInListOrder(t: string, terms: seq<string>)
    ensures IsSubsequence(FoundTerms(t, terms), terms)
  {
    if terms != [] {
      var rest := FoundTerms(t, terms[1..]);
      FoundTermsInListOrder(t, terms[1..]);
      if HasWholeWord(t, terms[0]) {
        assert FoundTerms(t, terms) == [terms[0]] + rest;
        assert ([terms[0]] + rest)[1..] == rest;
      } else {
        assert FoundTerms(t, terms) == rest;
      }
    }
  }

  /** No term is reported twice when the term list has no duplicates. */
  lemma {:induction false} FoundTermsNoDuplicates(t: string, terms: seq<string>)
    requires NoDuplicates(terms)
    ensures NoDuplicates(FoundTerms(t, terms))
  {
    if terms != [] {
      FoundTermsNoDuplicates(t, terms[1..]);
      var rest := FoundTerms(t, terms[1..]);
      FoundTermsMembership(t, terms[1..], terms[0]);
      assert terms[0] !in terms[1..];
      assert terms[0] !in rest;
    }
  }

  /** Searching two lists one after the other reports the two results one after the other. */
  lemma {:induction false} FoundTermsAppend(t: string, a: seq<string>, b: seq<string>)
    ensures FoundTerms(t, a + b) == FoundTerms(t, a) + FoundTerms(t, b)
  {
    if a != [] {
      assert a + b != [] && (a + b)[0] == a[0] && (a + b)[1..] == a[1..] + b;
      FoundTermsAppend(t, a[1..], b);
      var head := if HasWholeWord(t, a[0]) then [a[0]] else [];
      calc {
        FoundTerms(t, a + b);
        head + FoundTerms(t, a[1..] + b);
        head + (FoundTerms(t, a[1..]) + FoundTerms(t, b));
        (head + FoundTerms(t, a[1..])) + FoundTerms(t, b);
        FoundTerms(t, a) + FoundTerms(t, b);
      }
    } else {
      assert a + b == b;
    }
  }
}
