/** Optional values: a regex search that finds nothing, a missing profile field. */
module Options {
  datatype Option<T> = None | Some(value: T)
}

/**
 * Character classes and string helpers shared by every extractor: the
 * `\s`, `\w` and `\d` classes of Python's `re`, `str.lower()`, `str.strip()`
 * and `str.title()`, and literal matching with and without `re.IGNORECASE`.
 */
module Text {

  /** Python's `\s` and `str.isspace()`: the Unicode whitespace characters. */
  predicate IsSpace(c: char) {
    ('\t' <= c <= '\r') || ('\U{1C}' <= c <= '\U{1F}') || c == ' ' || c == '\U{85}' || c == '\U{A0}'
    || c == '\U{1680}' || ('\U{2000}' <= c <= '\U{200A}') || c == '\U{2028}' || c == '\U{2029}'
    || c == '\U{202F}' || c == '\U{205F}' || c == '\U{3000}'
  }

  predicate IsDigit(c: char) { '0' <= c <= '9' }

  predicate IsUpper(c: char) { 'A' <= c <= 'Z' }

  predicate IsLower(c: char) { 'a' <= c <= 'z' }

  predicate IsLetter(c: char) { IsUpper(c) || IsLower(c) }

  /** `\w`: letters, digits and the underscore. */
  predicate IsWordChar(c: char) { IsLetter(c) || IsDigit(c) || c == '_' }

  /** `[\w\s]` */
  predicate IsWordOrSpace(c: char) { IsWordChar(c) || IsSpace(c) }

  function LowerChar(c: char): char {
    if IsUpper(c) then (c as int + 32) as char else c
  }

  function UpperChar(c: char): char {
    if IsLower(c) then (c as int - 32) as char else c
  }

  /** `str.lower()` */
  function Lower(s: string): string {
    seq(|s|, i requires 0 <= i < |s| => LowerChar(s[i]))
  }

  /** `c` and `d` match each other under `re.IGNORECASE`. */
  predicate SameIgnoringCase(c: char, d: char) { LowerChar(c) == LowerChar(d) }

  /** The literal `w` occurs in `t` at position `p`. */
  predicate MatchesAt(t: string, p: nat, w: string) {
    p + |w| <= |t| && t[p..p + |w|] == w
  }

  /** The literal `w` occurs in `t` at position `p` under `re.IGNORECASE`. */
  predicate MatchesAtIgnoringCase(t: string, p: nat, w: string) {
    p + |w| <= |t| && forall i :: 0 <= i < |w| ==> SameIgnoringCase(t[p + i], w[i])
  }

  /** Every character of `t[a..b]` satisfies `cls`. */
  predicate All(t: string, a: nat, b: nat, cls: char -> bool)
    requires a <= b <= |t|
  {
    forall i :: a <= i < b ==> cls(t[i])
  }

  predicate AllSpace(s: string) { forall i :: 0 <= i < |s| ==> IsSpace(s[i]) }

  predicate NoNewline(t: string, a: nat, b: nat)
    requires a <= b <= |t|
  {
    forall i :: a <= i < b ==> t[i] != '\n'
  }

  /**
   * End of the longest run of `cls` characters starting at `p`: what a
   * greedy `cls*` consumes before it has to give anything back.
   */
  function RunEnd(t: string, p: nat, cls: char -> bool): (e: nat)
    requires p <= |t|
    ensures p <= e <= |t|
    ensures All(t, p, e, cls)
    ensures e == |t| || !cls(t[e])
    decreases |t| - p
  {
    if p < |t| && cls(t[p]) then RunEnd(t, p + 1, cls) else p
  }

  /** A run that is followed by a non-member ends where `RunEnd` says. */
  lemma RunEndUnique(t: string, p: nat, e: nat, cls: char -> bool)
    requires p <= e <= |t| && All(t, p, e, cls) && (e == |t| || !cls(t[e]))
    ensures RunEnd(t, p, cls) == e
  {
  }

  /** Number of leading whitespace characters `str.strip()` removes. */
  function LeadingSpace(s: string): (n: nat)
    ensures n <= |s|
    ensures AllSpace(s[..n])
    ensures n == |s| || !IsSpace(s[n])
  {
    RunEnd(s, 0, IsSpace)
  }

  /** Length that remains of `s` once trailing whitespace is removed. */
  function TrailingCut(s: string): (n: nat)
    ensures n <= |s|
    ensures AllSpace(s[n..])
    ensures n == 0 || !IsSpace(s[n - 1])
  {
    if |s| == 0 || !IsSpace(s[|s| - 1]) then |s|
    else
      var n := TrailingCut(s[..|s| - 1]);
      assert s[n..] == s[..|s| - 1][n..] + [s[|s| - 1]];
      n
  }

  /** `str.strip()`: the part of `s` between its leading and its trailing whitespace. */
  function Strip(s: string): (r: string)
    ensures |r| <= |s|
  {
    var a := LeadingSpace(s);
    s[a..][..TrailingCut(s[a..])]
  }

  /**
   * What `str.strip()` returns: a piece of `s` with only whitespace before and
   * after it, which starts and ends with a non-whitespace character, and is
   * empty exactly when `s` is all whitespace.
   */
  lemma StripSpec(s: string)
    ensures var r := Strip(s);
            exists a :: 0 <= a <= a + |r| <= |s| && s[a..a + |r|] == r
                        && AllSpace(s[..a]) && AllSpace(s[a + |r|..])
    ensures var r := Strip(s); r == [] || (!IsSpace(r[0]) && !IsSpace(r[|r| - 1]))
    ensures AllSpace(s) <==> Strip(s) == []
  {
    var a := LeadingSpace(s);
    var n := TrailingCut(s[a..]);
    StripParts(s, a, n);
  }

  /** Stripping keeps only characters of `s`: a class every character of `s` is in holds for the result too. */
  lemma StripKeepsClass(s: string, cls: char -> bool)
    requires forall i :: 0 <= i < |s| ==> cls(s[i])
    ensures forall i :: 0 <= i < |Strip(s)| ==> cls(Strip(s)[i])
  {
    var a := LeadingSpace(s);
    var r := Strip(s);
    forall i | 0 <= i < |r| ensures cls(r[i]) {
      assert r[i] == s[a..][i] == s[a + i];
    }
  }

  /** What remains between the leading run and the trailing run of whitespace. */
  lemma StripParts(s: string, a: nat, n: nat)
    requires a <= |s| && AllSpace(s[..a]) && (a == |s| || !IsSpace(s[a]))
    requires n <= |s| - a && AllSpace(s[a..][n..]) && (n == 0 || !IsSpace(s[a..][n - 1]))
    ensures s[a..a + n] == s[a..][..n] && s[a + n..] == s[a..][n..]
    ensures n == 0 || (!IsSpace(s[a]) && !IsSpace(s[a + n - 1]))
    ensures AllSpace(s) <==> n == 0
  {
    assert s[a + n..] == s[a..][n..];
    if n == 0 {
      assert s == s[..a] + s[a..][n..];
    } else {
      assert s[a..][n - 1] == s[a + n - 1];
    }
  }

  /** `str.title()` for a character, given whether the one before it is cased. */
  function TitleChar(c: char, afterLetter: bool): char {
    if afterLetter then LowerChar(c) else UpperChar(c)
  }

  function TitleFrom(s: string, afterLetter: bool): (r: string)
    ensures |r| == |s|
    ensures |s| > 0 ==> r[0] == TitleChar(s[0], afterLetter)
    ensures forall i :: 0 < i < |s| ==> r[i] == TitleChar(s[i], IsLetter(s[i - 1]))
  {
    if s == [] then []
    else [TitleChar(s[0], afterLetter)] + TitleFrom(s[1..], IsLetter(s[0]))
  }

  /**
   * `str.title()`: a letter is upper-cased when it starts a run of letters and
   * lower-cased otherwise; every other character is kept.
   */
  function Title(s: string): (r: string)
    ensures |r| == |s|
    ensures forall i :: 0 <= i < |s| ==>
              r[i] == (if i > 0 && IsLetter(s[i - 1]) then LowerChar(s[i]) else UpperChar(s[i]))
  {
    TitleFrom(s, false)
  }

  /** `str.title()` changes only the case of letters: each character still matches its original under `re.IGNORECASE` and stays in its class. */
  lemma TitleKeepsCharacters(s: string)
    ensures |Title(s)| == |s|
    ensures forall i :: 0 <= i < |s| ==> SameIgnoringCase(Title(s)[i], s[i])
    ensures forall i :: 0 <= i < |s| ==> (IsWordOrSpace(Title(s)[i]) <==> IsWordOrSpace(s[i]))
    ensures forall i :: 0 <= i < |s| ==> (Title(s)[i] == '\n' <==> s[i] == '\n')
  {
    forall i | 0 <= i < |s| ensures SameIgnoringCase(Title(s)[i], s[i]) {
      CaseChangeKeepsCharacter(s[i]);
      if i > 0 {
        assert Title(s)[i] == (if IsLetter(s[i - 1]) then LowerChar(s[i]) else UpperChar(s[i]));
      }
    }
    forall i | 0 <= i < |s| ensures IsWordOrSpace(Title(s)[i]) <==> IsWordOrSpace(s[i]) {
      CaseChangeKeepsCharacter(s[i]);
    }
    forall i | 0 <= i < |s| ensures Title(s)[i] == '\n' <==> s[i] == '\n' {
      CaseChangeKeepsCharacter(s[i]);
    }
  }

  lemma CaseChangeKeepsCharacter(c: char)
    ensures SameIgnoringCase(UpperChar(c), c) && SameIgnoringCase(LowerChar(c), c)
    ensures IsWordOrSpace(UpperChar(c)) == IsWordOrSpace(c) && IsWordOrSpace(LowerChar(c)) == IsWordOrSpace(c)
    ensures (UpperChar(c) == '\n') == (c == '\n') && (LowerChar(c) == '\n') == (c == '\n')
  {
  }
}
