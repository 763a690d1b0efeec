/**
 * The duration token that ends both the education and the work-experience
 * pattern, `\(?\d{4}\s*[-–]\s*(?:\d{4}|present|current)\)?`, and the
 * year arithmetic the resume analysis does on it: `re.findall(r'\d{4}', …)`
 * and the contribution of one duration to the total experience.
 */
module YearRange {
  import opened Options
  import opened Text

  /** What follows the dash: a second year, or "present"/"current" as written. */
  datatype RangeEnd = EndYear(digits: string) | Ongoing(word: string)

  /** A duration split into the pieces of its pattern. */
  datatype YearToken = YearToken(open: bool, from: string, gapBefore: string, dash: char,
                                 gapAfter: string, to: RangeEnd, close: bool)

  /** `[-–]`: a hyphen or an en dash. */
  predicate IsDash(c: char) { c == '-' || c == '\U{2013}' }

  predicate IsFourDigits(s: string) { |s| == 4 && forall i :: 0 <= i < 4 ==> IsDigit(s[i]) }

  function EndText(e: RangeEnd): string {
    match e
    case EndYear(d) => d
    case Ongoing(w) => w
  }

  /** Every piece has the shape its part of the pattern demands. */
  predicate WellFormed(tok: YearToken) {
    IsFourDigits(tok.from) && AllSpace(tok.gapBefore) && IsDash(tok.dash) && AllSpace(tok.gapAfter)
    && match tok.to
       case EndYear(d) => IsFourDigits(d)
       case Ongoing(w) =>
         |w| == 7 && (MatchesAtIgnoringCase(w, 0, "present") || MatchesAtIgnoringCase(w, 0, "current"))
  }

  /** The token without its optional opening parenthesis. */
  function Body(tok: YearToken): string {
    tok.from + tok.gapBefore + [tok.dash] + tok.gapAfter + EndText(tok.to) + (if tok.close then ")" else "")
  }

  /** The text a token was read from. */
  function Render(tok: YearToken): string {
    (if tok.open then "(" else "") + Body(tok)
  }

  /** `d` is a duration string as the extractors capture it. */
  ghost predicate IsYearRange(d: string) {
    exists tok :: WellFormed(tok) && Render(tok) == d
  }

  /** `\d{4}` at position `q`. */
  predicate FourDigitsAt(t: string, q: nat) {
    q + 4 <= |t| && IsFourDigits(t[q..q + 4])
  }

  /** `(?:\d{4}|present|current)` at position `q`; the alternatives start with different characters. */
  function RangeEndAt(t: string, q: nat): (r: Option<RangeEnd>)
    ensures r.Some? ==> q + |EndText(r.value)| <= |t| && t[q..q + |EndText(r.value)|] == EndText(r.value)
    ensures r.Some? && r.value.EndYear? ==> IsFourDigits(r.value.digits)
    ensures r.Some? && r.value.Ongoing? ==>
              |r.value.word| == 7 &&
              (MatchesAtIgnoringCase(r.value.word, 0, "present") || MatchesAtIgnoringCase(r.value.word, 0, "current"))
  {
    if FourDigitsAt(t, q) then Some(EndYear(t[q..q + 4]))
    else if MatchesAtIgnoringCase(t, q, "present") then Some(Ongoing(t[q..q + 7]))
    else if MatchesAtIgnoringCase(t, q, "current") then Some(Ongoing(t[q..q + 7]))
    else None
  }

  /**
   * The pattern after its optional `(`, at position `q`. Each `\s*` is
   * followed by a dash or a digit/letter, never by whitespace, so the greedy
   * run is the only way it can match; the trailing `\)?` is greedy and
   * nothing follows it.
   */
  function BodyAt(t: string, q: nat, open: bool): (r: Option<(YearToken, nat)>)
    requires q <= |t|
    ensures r.Some? ==> q < r.value.1 <= |t| && WellFormed(r.value.0) && r.value.0.open == open
                        && t[q..r.value.1] == Body(r.value.0)
  {
    if !FourDigitsAt(t, q) then None
    else
      var g1 := RunEnd(t, q + 4, IsSpace);
      if !(g1 < |t| && IsDash(t[g1])) then None
      else
        var g2 := RunEnd(t, g1 + 1, IsSpace);
        match RangeEndAt(t, g2)
        case None => None
        case Some(to) =>
          var te := g2 + |EndText(to)|;
          var close := te < |t| && t[te] == ')';
          var e := if close then te + 1 else te;
          var tok := YearToken(open, t[q..q + 4], t[q + 4..g1], t[g1], t[g1 + 1..g2], to, close);
          BodyPieces(t, q, g1, g2, te, e, tok);
          Some((tok, e))
  }

  lemma BodyPieces(t: string, q: nat, g1: nat, g2: nat, te: nat, e: nat, tok: YearToken)
    requires q + 4 <= g1 < g2 <= te <= e <= |t| && e <= te + 1
    requires tok.from == t[q..q + 4] && IsFourDigits(tok.from)
    requires tok.gapBefore == t[q + 4..g1] && All(t, q + 4, g1, IsSpace)
    requires tok.dash == t[g1] && IsDash(t[g1])
    requires tok.gapAfter == t[g1 + 1..g2] && All(t, g1 + 1, g2, IsSpace)
    requires EndText(tok.to) == t[g2..te]
    requires tok.to.EndYear? ==> IsFourDigits(tok.to.digits)
    requires tok.to.Ongoing? ==>
               |tok.to.word| == 7 &&
               (MatchesAtIgnoringCase(tok.to.word, 0, "present") || MatchesAtIgnoringCase(tok.to.word, 0, "current"))
    requires tok.close == (e == te + 1) && (tok.close ==> t[te] == ')')
    ensures WellFormed(tok) && t[q..e] == Body(tok)
  {
    assert AllSpace(tok.gapBefore);
    assert AllSpace(tok.gapAfter);
    assert t[q..q + 4] + t[q + 4..g1] == t[q..g1];
    assert t[q..g1] + [t[g1]] == t[q..g1 + 1];
    assert t[q..g1 + 1] + t[g1 + 1..g2] == t[q..g2];
    assert t[q..g2] + t[g2..te] == t[q..te];
    assert t[te..e] == (if tok.close then ")" else "");
    assert t[q..te] + t[te..e] == t[q..e];
  }

  /** The duration token at position `y`: `\(?` is greedy, so the form with `(` is tried first. */
  function YearTokenAt(t: string, y: nat): (r: Option<(YearToken, nat)>)
    requires y <= |t|
    ensures r.Some? ==> y < r.value.1 <= |t| && WellFormed(r.value.0) && t[y..r.value.1] == Render(r.value.0)
  {
    var withParen := if y < |t| && t[y] == '(' then BodyAt(t, y + 1, true) else None;
    if withParen.Some? then
      RenderAt(t, y, withParen.value.1, withParen.value.0);
      withParen
    else
      var plain := BodyAt(t, y, false);
      if plain.Some? then
        RenderAt(t, y, plain.value.1, plain.value.0);
        plain
      else plain
  }

  /** The text of a token is its body, after a `(` when it has one. */
  lemma RenderAt(t: string, y: nat, e: nat, tok: YearToken)
    requires y <= e <= |t|
    requires (tok.open && y < e && t[y] == '(' && t[y + 1..e] == Body(tok)) || (!tok.open && t[y..e] == Body(tok))
    ensures t[y..e] == Render(tok)
  {
    if tok.open {
      assert t[y..e] == [t[y]] + t[y + 1..e];
    }
  }

  /** `re.findall(r'\d{4}', s)`: non-overlapping runs of four digits, left to right. */
  function FindAll4Digits(s: string): (r: seq<string>)
    ensures forall k :: 0 <= k < |r| ==> IsFourDigits(r[k])
    decreases |s|
  {
    if |s| < 4 then []
    else if IsFourDigits(s[..4]) then [s[..4]] + FindAll4Digits(s[4..])
    else FindAll4Digits(s[1..])
  }

  /** Python's `int()` on a string of decimal digits. */
  function DecimalValue(s: string): nat {
    if s == [] then 0
    else DecimalValue(s[..|s| - 1]) * 10 + (if IsDigit(s[|s| - 1]) then s[|s| - 1] as int - '0' as int else 0)
  }

  /**
   * What one work entry adds to the total experience: the second year minus
   * the first when exactly two four-digit runs are found, and nothing otherwise.
   */
  function Contribution(duration: string): int {
    var years := FindAll4Digits(duration);
    if |years| == 2 then DecimalValue(years[1]) - DecimalValue(years[0]) else 0
  }

  predicate NoDigits(s: string) { forall i :: 0 <= i < |s| ==> !IsDigit(s[i]) }

  /** A prefix without digits contributes no four-digit run. */
  lemma {:induction false} SkipNoDigits(a: string, b: string)
    requires NoDigits(a)
    ensures FindAll4Digits(a + b) == FindAll4Digits(b)
    decreases |a|
  {
    if a != [] {
      assert (a + b)[1..] == a[1..] + b;
      if |a + b| >= 4 {
        assert !IsDigit((a + b)[..4][0]);
      } else {
        assert |b| < 4;
      }
      SkipNoDigits(a[1..], b);
    } else {
      assert a + b == b;
    }
  }

  /** Four leading digits are one run, and the scan resumes after them. */
  lemma TakeFourDigits(d: string, b: string)
    requires IsFourDigits(d)
    ensures FindAll4Digits(d + b) == [d] + FindAll4Digits(b)
  {
    assert (d + b)[..4] == d;
    assert (d + b)[4..] == b;
  }

  /**
   * The four-digit runs of a duration are its first year, followed by its
   * second year when it has one ("present"/"current" adds none).
   */
  lemma {:induction false} YearsOfDuration(tok: YearToken)
    requires WellFormed(tok)
    ensures FindAll4Digits(Render(tok)) ==
              [tok.from] + (if tok.to.EndYear? then [tok.to.digits] else [])
  {
    var p := if tok.open then "(" else "";
    var c := if tok.close then ")" else "";
    var gap := tok.gapBefore + [tok.dash] + tok.gapAfter;
    var x := EndText(tok.to);
    assert NoDigits(gap);
    assert Body(tok) == tok.from + (gap + (x + c));
    SkipNoDigits(p, Body(tok));
    TakeFourDigits(tok.from, gap + (x + c));
    SkipNoDigits(gap, x + c);
    if tok.to.EndYear? {
      TakeFourDigits(x, c);
      EmptyWithoutDigits(c);
    } else {
      OngoingHasNoDigits(tok.to.word);
      assert NoDigits(x + c);
      EmptyWithoutDigits(x + c);
    }
  }

  lemma EmptyWithoutDigits(s: string)
    requires NoDigits(s)
    ensures FindAll4Digits(s) == []
  {
    SkipNoDigits(s, []);
    assert s + [] == s;
  }

  lemma OngoingHasNoDigits(w: string)
    requires |w| == 7 && (MatchesAtIgnoringCase(w, 0, "present") || MatchesAtIgnoringCase(w, 0, "current"))
    ensures NoDigits(w)
  {
    forall i | 0 <= i < 7 ensures !IsDigit(w[i]) {
      assert SameIgnoringCase(w[i], "present"[i]) || SameIgnoringCase(w[i], "current"[i]);
    }
  }

  /**
   * A duration adds `second - first` years when it ends in a year (negative
   * for a reversed range) and nothing when it ends in "present"/"current".
   */
  lemma ContributionOfDuration(tok: YearToken)
    requires WellFormed(tok)
    ensures Contribution(Render(tok)) ==
              if tok.to.EndYear? then DecimalValue(tok.to.digits) - DecimalValue(tok.from) else 0
  {
    YearsOfDuration(tok);
  }
}
