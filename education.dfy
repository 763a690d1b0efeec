/**
 * `extract_education`: every non-overlapping match, left to right, of
 *
 *   (?P<degree>bachelor|master|ph\.?d|m\.?tech|b\.?tech|mba|msc?|bsc?)\s*(?:in|of)?\s*(?P<field>[\w\s]+)\s*
 *   (?:at|from|,)\s*(?P<institution>[^\n]+?)\s*(?P<year>…duration…)
 *
 * under `re.IGNORECASE`. The matcher is written layer by layer: each layer is
 * one quantifier or alternation of the pattern, tries its choices in the order
 * Python's backtracking engine does, and hands each choice to the next layer;
 * the first choice with which the rest of the pattern succeeds wins. The record
 * being built carries the positions fixed so far.
 */
module Education {
  import opened Options
  import opened Text
  import opened YearRange
  import Scan

  /** Number of spellings the degree alternation accepts (`ph\.?d` and the like count twice). */
  const DEGREE_COUNT := 13

  /** The `k`-th spelling of the degree alternation, in the order the engine tries them. */
  function DegreeForm(k: nat): string
    requires k < DEGREE_COUNT
  {
    if k == 0 then "bachelor" else if k == 1 then "master" else if k == 2 then "ph.d" else if k == 3 then "phd"
    else if k == 4 then "m.tech" else if k == 5 then "mtech" else if k == 6 then "b.tech" else if k == 7 then "btech"
    else if k == 8 then "mba" else if k == 9 then "msc" else if k == 10 then "ms" else if k == 11 then "bsc" else "bs"
  }

  /** Positions of one match: each group and each separator between them. */
  datatype EduMatch = EduMatch(start: nat, degree: nat, degreeEnd: nat, inOfStart: nat, inOfEnd: nat,
                               fieldStart: nat, fieldEnd: nat, sepStart: nat, sepEnd: nat,
                               instStart: nat, instEnd: nat, yearStart: nat, end: nat, year: YearToken)

  datatype EducationEntry = EducationEntry(degree: string, field: string, institution: string, duration: string)

  predicate InOfAt(t: string, q: nat) {
    MatchesAtIgnoringCase(t, q, "in") || MatchesAtIgnoringCase(t, q, "of")
  }

  /** `(?:at|from|,)` spans `t[a..b]`. */
  predicate IsSeparator(t: string, a: nat, b: nat) {
    (b == a + 2 && MatchesAtIgnoringCase(t, a, "at"))
    || (b == a + 4 && MatchesAtIgnoringCase(t, a, "from"))
    || (b == a + 1 && a < |t| && t[a] == ',')
  }

  // The parts of the pattern matched so far, one predicate per layer.

  ghost predicate DegreeDone(t: string, m: EduMatch) {
    m.degree < DEGREE_COUNT && m.degreeEnd == m.start + |DegreeForm(m.degree)|
    && MatchesAtIgnoringCase(t, m.start, DegreeForm(m.degree))
  }

  ghost predicate Space1Done(t: string, m: EduMatch) {
    DegreeDone(t, m) && m.degreeEnd <= m.inOfStart <= |t| && All(t, m.degreeEnd, m.inOfStart, IsSpace)
  }

  ghost predicate InOfDone(t: string, m: EduMatch) {
    Space1Done(t, m) && m.inOfStart <= m.inOfEnd <= |t|
    && (m.inOfEnd == m.inOfStart || (m.inOfEnd == m.inOfStart + 2 && InOfAt(t, m.inOfStart)))
  }

  ghost predicate Space2Done(t: string, m: EduMatch) {
    InOfDone(t, m) && m.inOfEnd <= m.fieldStart <= |t| && All(t, m.inOfEnd, m.fieldStart, IsSpace)
  }

  ghost predicate FieldDone(t: string, m: EduMatch) {
    Space2Done(t, m) && m.fieldStart < m.fieldEnd <= |t| && All(t, m.fieldStart, m.fieldEnd, IsWordOrSpace)
  }

  ghost predicate SeparatorDone(t: string, m: EduMatch) {
    FieldDone(t, m) && m.fieldEnd <= m.sepStart < m.sepEnd <= |t|
    && All(t, m.fieldEnd, m.sepStart, IsSpace) && IsSeparator(t, m.sepStart, m.sepEnd)
  }

  ghost predicate Space4Done(t: string, m: EduMatch) {
    SeparatorDone(t, m) && m.sepEnd <= m.instStart <= |t| && All(t, m.sepEnd, m.instStart, IsSpace)
  }

  ghost predicate InstitutionDone(t: string, m: EduMatch) {
    Space4Done(t, m) && m.instStart < m.instEnd <= |t| && NoNewline(t, m.instStart, m.instEnd)
  }

  /** The whole pattern matches `t[m.start..m.end]` with the groups where `m` puts them. */
  ghost predicate EduShape(t: string, m: EduMatch) {
    InstitutionDone(t, m) && m.instEnd <= m.yearStart < m.end <= |t|
    && All(t, m.instEnd, m.yearStart, IsSpace)
    && WellFormed(m.year) && t[m.yearStart..m.end] == Render(m.year)
  }

  /** The pattern tried at position `p` only. */
  function MatchAt(t: string, p: nat): (r: Option<EduMatch>)
    requires p <= |t|
    ensures r.Some? ==> r.value.start == p < r.value.end <= |t| && EduShape(t, r.value)
  {
    TryDegrees(t, p, 0)
  }

  /** The degree alternation from its `k`-th spelling on, each followed by the rest of the pattern. */
  function TryDegrees(t: string, p: nat, k: nat): (r: Option<EduMatch>)
    requires p <= |t| && k <= DEGREE_COUNT
    ensures r.Some? ==> r.value.start == p && EduShape(t, r.value)
    decreases DEGREE_COUNT - k
  {
    if k == DEGREE_COUNT then None
    else
      var w := DegreeForm(k);
      var r := if MatchesAtIgnoringCase(t, p, w) then
                 var m := EduMatch(p, k, p + |w|, 0, 0, 0, 0, 0, 0, 0, 0, 0, 0,
                                   YearToken(false, "", "", '-', "", EndYear(""), false));
                 TrySpace1(t, m, RunEnd(t, p + |w|, IsSpace))
               else None;
      if r.Some? then r else TryDegrees(t, p, k + 1)
  }

  /** `\s*` after the degree: longest run first. */
  function TrySpace1(t: string, m: EduMatch, q: nat): (r: Option<EduMatch>)
    requires DegreeDone(t, m) && m.degreeEnd <= q <= |t| && All(t, m.degreeEnd, q, IsSpace)
    ensures r.Some? ==> r.value.start == m.start && EduShape(t, r.value)
    decreases q
  {
    var r := InOf(t, m.(inOfStart := q));
    if r.Some? then r else if q == m.degreeEnd then None else TrySpace1(t, m, q - 1)
  }

  /** `(?:in|of)?`: with the word first, then without it. */
  function InOf(t: string, m: EduMatch): (r: Option<EduMatch>)
    requires Space1Done(t, m)
    ensures r.Some? ==> r.value.start == m.start && EduShape(t, r.value)
  {
    var q := m.inOfStart;
    var r := if InOfAt(t, q) then TrySpace2(t, m.(inOfEnd := q + 2), RunEnd(t, q + 2, IsSpace)) else None;
    if r.Some? then r else TrySpace2(t, m.(inOfEnd := q), RunEnd(t, q, IsSpace))
  }

  /** `\s*` before the field: longest run first. */
  function TrySpace2(t: string, m: EduMatch, q: nat): (r: Option<EduMatch>)
    requires InOfDone(t, m) && m.inOfEnd <= q <= |t| && All(t, m.inOfEnd, q, IsSpace)
    ensures r.Some? ==> r.value.start == m.start && EduShape(t, r.value)
    decreases q
  {
    var r := Field(t, m.(fieldStart := q));
    if r.Some? then r else if q == m.inOfEnd then None else TrySpace2(t, m, q - 1)
  }

  /** `(?P<field>[\w\s]+)`: at least one character, longest run first. */
  function Field(t: string, m: EduMatch): (r: Option<EduMatch>)
    requires Space2Done(t, m)
    ensures r.Some? ==> r.value.start == m.start && EduShape(t, r.value)
  {
    var e := RunEnd(t, m.fieldStart, IsWordOrSpace);
    if e == m.fieldStart then None else TryField(t, m, e)
  }

  function TryField(t: string, m: EduMatch, q: nat): (r: Option<EduMatch>)
    requires Space2Done(t, m) && m.fieldStart < q <= |t| && All(t, m.fieldStart, q, IsWordOrSpace)
    ensures r.Some? ==> r.value.start == m.start && EduShape(t, r.value)
    decreases q
  {
    var r := Separator(t, m.(fieldEnd := q));
    if r.Some? then r else if q == m.fieldStart + 1 then None else TryField(t, m, q - 1)
  }

  /**
   * `\s*(?:at|from|,)`: the separator never starts with whitespace, so only the
   * longest run of whitespace can precede it, and its three alternatives start
   * with different characters, so at most one of them matches.
   */
  function Separator(t: string, m: EduMatch): (r: Option<EduMatch>)
    requires FieldDone(t, m)
    ensures r.Some? ==> r.value.start == m.start && EduShape(t, r.value)
  {
    var s := RunEnd(t, m.fieldEnd, IsSpace);
    var sepEnd :=
      if MatchesAtIgnoringCase(t, s, "at") then Some(s + 2)
      else if MatchesAtIgnoringCase(t, s, "from") then Some(s + 4)
      else if s < |t| && t[s] == ',' then Some(s + 1)
      else None;
    match sepEnd
    case None => None
    case Some(e) =>
      var m' := m.(sepStart := s, sepEnd := e);
      TrySpace4(t, m', RunEnd(t, e, IsSpace))
  }

  /** `\s*` before the institution: longest run first. */
  function TrySpace4(t: string, m: EduMatch, q: nat): (r: Option<EduMatch>)
    requires SeparatorDone(t, m) && m.sepEnd <= q <= |t| && All(t, m.sepEnd, q, IsSpace)
    ensures r.Some? ==> r.value.start == m.start && EduShape(t, r.value)
    decreases q
  {
    var r := Institution(t, m.(instStart := q));
    if r.Some? then r else if q == m.sepEnd then None else TrySpace4(t, m, q - 1)
  }

  /** `(?P<institution>[^\n]+?)`: lazy, so the shortest institution is tried first. */
  function Institution(t: string, m: EduMatch): (r: Option<EduMatch>)
    requires Space4Done(t, m)
    ensures r.Some? ==> r.value.start == m.start && EduShape(t, r.value)
  {
    if m.instStart < |t| && t[m.instStart] != '\n' then TryInstitution(t, m, m.instStart + 1) else None
  }

  function TryInstitution(t: string, m: EduMatch, q: nat): (r: Option<EduMatch>)
    requires Space4Done(t, m) && m.instStart < q <= |t| && NoNewline(t, m.instStart, q)
    ensures r.Some? ==> r.value.start == m.start && EduShape(t, r.value)
    decreases |t| - q
  {
    var r := Year(t, m.(instEnd := q));
    if r.Some? then r
    else if q < |t| && t[q] != '\n' then TryInstitution(t, m, q + 1)
    else None
  }

  /** `\s*(?P<year>…)`: the duration starts with `(` or a digit, so only the longest run can precede it. */
  function Year(t: string, m: EduMatch): (r: Option<EduMatch>)
    requires InstitutionDone(t, m)
    ensures r.Some? ==> r.value.start == m.start && EduShape(t, r.value)
  {
    var y := RunEnd(t, m.instEnd, IsSpace);
    match YearTokenAt(t, y)
    case None => None
    case Some((tok, e)) => Some(m.(yearStart := y, end := e, year := tok))
  }

  /** The pattern tried at every position of `t`, as the scanning engine sees it. */
  function At(t: string): nat -> Option<EduMatch> {
    (p: nat) => if p <= |t| then MatchAt(t, p) else None
  }

  function EndOf(m: EduMatch): nat { m.end }

  /** Every match is non-empty, so `finditer` moves forward after each one. */
  lemma AtAdvances(t: string)
    ensures Scan.Advances(|t|, At(t), EndOf)
  {
    forall p: nat | p <= |t| && At(t)(p).Some? ensures p < EndOf(At(t)(p).value) <= |t| {
      assert At(t)(p) == MatchAt(t, p);
    }
  }

  /** The matches `finditer` reports from `from` on, each with the shape of the pattern. */
  lemma FoundShapes(t: string, from: nat)
    requires from <= |t|
    ensures Scan.Advances(|t|, At(t), EndOf)
    ensures forall i :: 0 <= i < |Scan.Matches(|t|, from, At(t), EndOf)| ==>
              EduShape(t, Scan.Matches(|t|, from, At(t), EndOf)[i].1)
  {
    AtAdvances(t);
    var ms := Scan.Matches(|t|, from, At(t), EndOf);
    forall i | 0 <= i < |ms| ensures EduShape(t, ms[i].1) {
      assert At(t)(ms[i].0) == MatchAt(t, ms[i].0);
    }
  }

  /** Every match `finditer` reports from `from` on starts with a degree spelling. */
  lemma FoundDegrees(t: string, from: nat)
    requires from <= |t|
    ensures Scan.Advances(|t|, At(t), EndOf)
    ensures forall i :: 0 <= i < |Scan.Matches(|t|, from, At(t), EndOf)| ==>
              var m := Scan.Matches(|t|, from, At(t), EndOf)[i];
              m.0 <= |t| && m.1.degree < DEGREE_COUNT && MatchesAtIgnoringCase(t, m.0, DegreeForm(m.1.degree))
  {
    AtAdvances(t);
    var ms := Scan.Matches(|t|, from, At(t), EndOf);
    forall i | 0 <= i < |ms|
      ensures ms[i].0 <= |t| && ms[i].1.degree < DEGREE_COUNT && MatchesAtIgnoringCase(t, ms[i].0, DegreeForm(ms[i].1.degree))
    {
      assert At(t)(ms[i].0) == MatchAt(t, ms[i].0);
    }
  }

  /** The groups of every match `finditer` reports from `from` on can be taken out of the text. */
  lemma FoundInOrder(t: string, from: nat)
    requires from <= |t|
    ensures Scan.Advances(|t|, At(t), EndOf)
    ensures forall i :: 0 <= i < |Scan.Matches(|t|, from, At(t), EndOf)| ==>
              InOrder(t, Scan.Matches(|t|, from, At(t), EndOf)[i].1)
  {
    FoundShapes(t, from);
  }

  /**
   * Each entry's degree is one of the degree spellings up to case, its field
   * is non-empty and made of word characters and whitespace, its institution
   * is non-empty and on one line, and its duration is a year range.
   */
  lemma EducationEntryFields(t: string, i: nat)
    requires i < |EducationOf(t)|
    ensures EntryFields(EducationOf(t)[i])
  {
    FoundShapes(t, 0);
    var ms := Scan.Matches(|t|, 0, At(t), EndOf);
    ToEntryFields(t, ms[i].1);
  }

  /** What every education entry satisfies. */
  ghost predicate EntryFields(e: EducationEntry) {
    (exists k :: 0 <= k < DEGREE_COUNT && |e.degree| == |DegreeForm(k)| && MatchesAtIgnoringCase(e.degree, 0, DegreeForm(k)))
    && e.field != [] && (forall j :: 0 <= j < |e.field| ==> IsWordOrSpace(e.field[j]))
    && e.institution != [] && (forall j :: 0 <= j < |e.institution| ==> e.institution[j] != '\n')
    && IsYearRange(e.duration)
  }

  lemma ToEntryFields(t: string, m: EduMatch)
    requires EduShape(t, m)
    ensures InOrder(t, m) && EntryFields(ToEntry(t, m))
  {
    var e := ToEntry(t, m);
    DegreeOfEntry(t, m);
    FieldOfEntry(t, m);
    var institution := t[m.instStart..m.instEnd];
    forall j | 0 <= j < |institution| ensures institution[j] != '\n' {
      assert institution[j] == t[m.instStart + j];
    }
    assert WellFormed(m.year) && Render(m.year) == e.duration;
  }

  lemma DegreeOfEntry(t: string, m: EduMatch)
    requires DegreeDone(t, m) && m.degreeEnd <= |t|
    ensures var d := Title(t[m.start..m.degreeEnd]);
            |d| == |DegreeForm(m.degree)| && MatchesAtIgnoringCase(d, 0, DegreeForm(m.degree))
  {
    var degree := t[m.start..m.degreeEnd];
    TitleKeepsCharacters(degree);
    forall j | 0 <= j < |degree| ensures SameIgnoringCase(Title(degree)[j], DegreeForm(m.degree)[j]) {
      assert degree[j] == t[m.start + j];
    }
  }

  lemma FieldOfEntry(t: string, m: EduMatch)
    requires m.fieldStart < m.fieldEnd <= |t| && All(t, m.fieldStart, m.fieldEnd, IsWordOrSpace)
    ensures var f := Title(t[m.fieldStart..m.fieldEnd]);
            f != [] && forall j :: 0 <= j < |f| ==> IsWordOrSpace(f[j])
  {
    var field := t[m.fieldStart..m.fieldEnd];
    TitleKeepsCharacters(field);
    forall j | 0 <= j < |field| ensures IsWordOrSpace(Title(field)[j]) {
      assert field[j] == t[m.fieldStart + j];
    }
  }

  /** A text without any degree spelling yields no education. */
  lemma NoDegreeNoEducation(t: string)
    requires forall p: nat, k: nat :: p <= |t| && k < DEGREE_COUNT ==> !MatchesAtIgnoringCase(t, p, DegreeForm(k))
    ensures EducationOf(t) == []
  {
    FoundDegrees(t, 0);
    var ms := Scan.Matches(|t|, 0, At(t), EndOf);
    if ms != [] {
      assert false;
    }
  }

  /** The groups of `m` lie in order inside `t`: what taking them out of the text needs. */
  predicate InOrder(t: string, m: EduMatch) {
    m.start <= m.degreeEnd <= m.fieldStart <= m.fieldEnd <= m.instStart <= m.instEnd <= m.yearStart <= m.end <= |t|
  }

  /** The dictionary one match contributes: degree and field title-cased, the rest as captured. */
  function ToEntry(t: string, m: EduMatch): EducationEntry
    requires InOrder(t, m)
  {
    EducationEntry(Title(t[m.start..m.degreeEnd]), Title(t[m.fieldStart..m.fieldEnd]),
                   t[m.instStart..m.instEnd], t[m.yearStart..m.end])
  }

  function Entries(t: string, ms: seq<(nat, EduMatch)>): (r: seq<EducationEntry>)
    requires forall i :: 0 <= i < |ms| ==> InOrder(t, ms[i].1)
    ensures |r| == |ms|
    ensures forall i :: 0 <= i < |ms| ==> r[i] == ToEntry(t, ms[i].1)
  {
    seq(|ms|, i requires 0 <= i < |ms| => ToEntry(t, ms[i].1))
  }

  lemma EntriesSnoc(t: string, ms: seq<(nat, EduMatch)>, m: (nat, EduMatch))
    requires forall i :: 0 <= i < |ms| ==> InOrder(t, ms[i].1)
    requires InOrder(t, m.1)
    ensures Entries(t, ms + [m]) == Entries(t, ms) + [ToEntry(t, m.1)]
  {
  }

  /** What `extract_education` returns for `t`: one entry per match `finditer` reports. */
  function EducationOf(t: string): seq<EducationEntry> {
    FoundInOrder(t, 0);
    Entries(t, Scan.Matches(|t|, 0, At(t), EndOf))
  }

  /** `extract_education`: one dictionary appended per match, in the order `finditer` reports them. */
  method ExtractEducation(text: string) returns (education: seq<EducationEntry>)
    ensures education == EducationOf(text)
  {
    FoundInOrder(text, 0);
    var found := Scan.FindIter(|text|, At(text), EndOf);
    education := AppendEntries(text, found);
  }

  /** The body of the `finditer` loop: build each match's dictionary and append it. */
  method AppendEntries(text: string, found: seq<(nat, EduMatch)>) returns (education: seq<EducationEntry>)
    requires forall i :: 0 <= i < |found| ==> InOrder(text, found[i].1)
    ensures education == Entries(text, found)
  {
    education := [];
    for i := 0 to |found|
      invariant |education| == i
      invariant forall j :: 0 <= j < i ==> education[j] == ToEntry(text, found[j].1)
    {
      education := education + [ToEntry(text, found[i].1)];
    }
  }
}
