/**
 * `extract_work_experience`: every non-overlapping match, left to right, of
 *
 *   (?P<title>[A-Z][\w\s]+(?:Engineer|Developer|Analyst|Scientist|Manager))\s*
 *   (?:at|@|,)\s*(?P<company>[^\n,;]+?)\s*(?P<duration>…duration…)
 *
 * under `re.IGNORECASE`, written layer by layer as the education pattern is:
 * each layer tries its choices in the engine's order and hands each one to the
 * next layer.
 */
module WorkExperience {
  import opened Options
  import opened Text
  import opened YearRange
  import Scan

  /** Number of role words the title must end with. */
  const ROLE_COUNT := 5

  /** The `k`-th role word; `re.IGNORECASE` makes its case irrelevant. */
  function RoleWord(k: nat): string
    requires k < ROLE_COUNT
  {
    if k == 0 then "engineer" else if k == 1 then "developer" else if k == 2 then "analyst"
    else if k == 3 then "scientist" else "manager"
  }

  /** Positions of one match: the title with its role word, the separator, the company and the duration. */
  datatype WorkMatch = WorkMatch(start: nat, roleStart: nat, role: nat, titleEnd: nat, sepStart: nat, sepEnd: nat,
                                 companyStart: nat, companyEnd: nat, yearStart: nat, end: nat, year: YearToken)

  datatype WorkEntry = WorkEntry(position: string, company: string, duration: string)

  /** `[^\n,;]` */
  predicate IsCompanyChar(c: char) { c != '\n' && c != ',' && c != ';' }

  /** `(?:at|@|,)` spans `t[a..b]`. */
  predicate IsSeparator(t: string, a: nat, b: nat) {
    (b == a + 2 && MatchesAtIgnoringCase(t, a, "at"))
    || (b == a + 1 && a < |t| && (t[a] == '@' || t[a] == ','))
  }

  // The parts of the pattern matched so far, one predicate per layer.

  /** `[A-Z][\w\s]+` followed by a role word; under `re.IGNORECASE` `[A-Z]` takes either case. */
  ghost predicate TitleDone(t: string, m: WorkMatch) {
    m.start + 1 < m.roleStart <= |t| && IsLetter(t[m.start]) && All(t, m.start + 1, m.roleStart, IsWordOrSpace)
    && m.role < ROLE_COUNT && m.titleEnd == m.roleStart + |RoleWord(m.role)|
    && MatchesAtIgnoringCase(t, m.roleStart, RoleWord(m.role))
  }

  ghost predicate SeparatorDone(t: string, m: WorkMatch) {
    TitleDone(t, m) && m.titleEnd <= m.sepStart < m.sepEnd <= |t|
    && All(t, m.titleEnd, m.sepStart, IsSpace) && IsSeparator(t, m.sepStart, m.sepEnd)
  }

  ghost predicate SpaceDone(t: string, m: WorkMatch) {
    SeparatorDone(t, m) && m.sepEnd <= m.companyStart <= |t| && All(t, m.sepEnd, m.companyStart, IsSpace)
  }

  ghost predicate CompanyDone(t: string, m: WorkMatch) {
    SpaceDone(t, m) && m.companyStart < m.companyEnd <= |t| && All(t, m.companyStart, m.companyEnd, IsCompanyChar)
  }

  /** The whole pattern matches `t[m.start..m.end]` with the groups where `m` puts them. */
  ghost predicate WorkShape(t: string, m: WorkMatch) {
    CompanyDone(t, m) && m.companyEnd <= m.yearStart < m.end <= |t|
    && All(t, m.companyEnd, m.yearStart, IsSpace)
    && WellFormed(m.year) && t[m.yearStart..m.end] == Render(m.year)
  }

  /** The pattern tried at position `p` only. */
  function MatchAt(t: string, p: nat): (r: Option<WorkMatch>)
    requires p <= |t|
    ensures r.Some? ==> r.value.start == p < r.value.end <= |t| && WorkShape(t, r.value)
  {
    if p < |t| && IsLetter(t[p]) then
      var e := RunEnd(t, p + 1, IsWordOrSpace);
      if e == p + 1 then None else TryTitle(t, p, e)
    else None
  }

  /** The role word at `q`: the five words start with different letters, so at most one matches. */
  function RoleAt(t: string, q: nat): (r: Option<nat>)
    ensures r.Some? ==> r.value < ROLE_COUNT && MatchesAtIgnoringCase(t, q, RoleWord(r.value))
  {
    if MatchesAtIgnoringCase(t, q, RoleWord(0)) then Some(0)
    else if MatchesAtIgnoringCase(t, q, RoleWord(1)) then Some(1)
    else if MatchesAtIgnoringCase(t, q, RoleWord(2)) then Some(2)
    else if MatchesAtIgnoringCase(t, q, RoleWord(3)) then Some(3)
    else if MatchesAtIgnoringCase(t, q, RoleWord(4)) then Some(4)
    else None
  }

  /** `[\w\s]+` after the first letter: longest run first, then one character less each time. */
  function TryTitle(t: string, p: nat, q: nat): (r: Option<WorkMatch>)
    requires p + 1 < q <= |t| && IsLetter(t[p]) && All(t, p + 1, q, IsWordOrSpace)
    ensures r.Some? ==> r.value.start == p && WorkShape(t, r.value)
    decreases q
  {
    var r := match RoleAt(t, q)
             case None => None
             case Some(k) =>
               Separator(t, WorkMatch(p, q, k, q + |RoleWord(k)|, 0, 0, 0, 0, 0, 0,
                                      YearToken(false, "", "", '-', "", EndYear(""), false)));
    if r.Some? then r else if q == p + 2 then None else TryTitle(t, p, q - 1)
  }

  /**
   * `\s*(?:at|@|,)`: the separator never starts with whitespace, so only the
   * longest run of whitespace can precede it, and its alternatives start with
   * different characters.
   */
  function Separator(t: string, m: WorkMatch): (r: Option<WorkMatch>)
    requires TitleDone(t, m)
    ensures r.Some? ==> r.value.start == m.start && WorkShape(t, r.value)
  {
    var s := RunEnd(t, m.titleEnd, IsSpace);
    var sepEnd :=
      if MatchesAtIgnoringCase(t, s, "at") then Some(s + 2)
      else if s < |t| && (t[s] == '@' || t[s] == ',') then Some(s + 1)
      else None;
    match sepEnd
    case None => None
    case Some(e) =>
      var m' := m.(sepStart := s, sepEnd := e);
      TrySpace(t, m', RunEnd(t, e, IsSpace))
  }

  /** `\s*` before the company: longest run first. */
  function TrySpace(t: string, m: WorkMatch, q: nat): (r: Option<WorkMatch>)
    requires SeparatorDone(t, m) && m.sepEnd <= q <= |t| && All(t, m.sepEnd, q, IsSpace)
    ensures r.Some? ==> r.value.start == m.start && WorkShape(t, r.value)
    decreases q
  {
    var r := Company(t, m.(companyStart := q));
    if r.Some? then r else if q == m.sepEnd then None else TrySpace(t, m, q - 1)
  }

  /** `(?P<company>[^\n,;]+?)`: lazy, so the shortest company is tried first. */
  function Company(t: string, m: WorkMatch): (r: Option<WorkMatch>)
    requires SpaceDone(t, m)
    ensures r.Some? ==> r.value.start == m.start && WorkShape(t, r.value)
  {
    if m.companyStart < |t| && IsCompanyChar(t[m.companyStart]) then TryCompany(t, m, m.companyStart + 1) else None
  }

  function TryCompany(t: string, m: WorkMatch, q: nat): (r: Option<WorkMatch>)
    requires SpaceDone(t, m) && m.companyStart < q <= |t| && All(t, m.companyStart, q, IsCompanyChar)
    ensures r.Some? ==> r.value.start == m.start && WorkShape(t, r.value)
    decreases |t| - q
  {
    var r := Duration(t, m.(companyEnd := q));
    if r.Some? then r
    else if q < |t| && IsCompanyChar(t[q]) then TryCompany(t, m, q + 1)
    else None
  }

  /** `\s*(?P<duration>…)`: the duration starts with `(` or a digit, so only the longest run can precede it. */
  function Duration(t: string, m: WorkMatch): (r: Option<WorkMatch>)
    requires CompanyDone(t, m)
    ensures r.Some? ==> r.value.start == m.start && WorkShape(t, r.value)
  {
    var y := RunEnd(t, m.companyEnd, IsSpace);
    match YearTokenAt(t, y)
    case None => None
    case Some((tok, e)) => Some(m.(yearStart := y, end := e, year := tok))
  }

  /** The pattern tried at every position of `t`, as the scanning engine sees it. */
  function At(t: string): nat -> Option<WorkMatch> {
    (p: nat) => if p <= |t| then MatchAt(t, p) else None
  }

  function EndOf(m: WorkMatch): nat { m.end }

  /** Every match is non-empty, so `finditer` moves forward after each one. */
  lemma AtAdvances(t: string)
    ensures Scan.Advances(|t|, At(t), EndOf)
  {
    forall p: nat | p <= |t| && At(t)(p).Some? ensures p < EndOf(At(t)(p).value) <= |t| {
      assert At(t)(p) == MatchAt(t, p);
    }
  }

  /** The matches `finditer` reports from `from` on, each with the shape of the pattern. */
  lemma FoundShapes(t: string, from: nat)
    requires from <= |t|
    ensures Scan.Advances(|t|, At(t), EndOf)
    ensures forall i :: 0 <= i < |Scan.Matches(|t|, from, At(t), EndOf)| ==>
              WorkShape(t, Scan.Matches(|t|, from, At(t), EndOf)[i].1)
  {
    AtAdvances(t);
    var ms := Scan.Matches(|t|, from, At(t), EndOf);
    forall i | 0 <= i < |ms| ensures WorkShape(t, ms[i].1) {
      assert At(t)(ms[i].0) == MatchAt(t, ms[i].0);
    }
  }

  /** The groups of every match `finditer` reports from `from` on can be taken out of the text. */
  lemma FoundInOrder(t: string, from: nat)
    requires from <= |t|
    ensures Scan.Advances(|t|, At(t), EndOf)
    ensures forall i :: 0 <= i < |Scan.Matches(|t|, from, At(t), EndOf)| ==>
              InOrder(t, Scan.Matches(|t|, from, At(t), EndOf)[i].1)
  {
    FoundShapes(t, from);
  }

  /** The groups of `m` lie in order inside `t`: what taking them out of the text needs. */
  predicate InOrder(t: string, m: WorkMatch) {
    m.start <= m.titleEnd <= m.companyStart <= m.companyEnd <= m.yearStart <= m.end <= |t|
  }

  /** The dictionary one match contributes: the title as written, the company stripped, the duration. */
  function ToEntry(t: string, m: WorkMatch): WorkEntry
    requires InOrder(t, m)
  {
    WorkEntry(t[m.start..m.titleEnd], Strip(t[m.companyStart..m.companyEnd]), t[m.yearStart..m.end])
  }

  function Entries(t: string, ms: seq<(nat, WorkMatch)>): (r: seq<WorkEntry>)
    requires forall i :: 0 <= i < |ms| ==> InOrder(t, ms[i].1)
    ensures |r| == |ms|
    ensures forall i :: 0 <= i < |ms| ==> r[i] == ToEntry(t, ms[i].1)
  {
    seq(|ms|, i requires 0 <= i < |ms| => ToEntry(t, ms[i].1))
  }

  lemma EntriesSnoc(t: string, ms: seq<(nat, WorkMatch)>, m: (nat, WorkMatch))
    requires forall i :: 0 <= i < |ms| ==> InOrder(t, ms[i].1)
    requires InOrder(t, m.1)
    ensures Entries(t, ms + [m]) == Entries(t, ms) + [ToEntry(t, m.1)]
  {
  }

  /** What `extract_work_experience` returns for `t`: one entry per match `finditer` reports. */
  function WorkOf(t: string): seq<WorkEntry> {
    FoundInOrder(t, 0);
    Entries(t, Scan.Matches(|t|, 0, At(t), EndOf))
  }

  /** What every work entry satisfies. */
  ghost predicate EntryFields(e: WorkEntry) {
    |e.position| >= 3 && IsLetter(e.position[0])
    && (forall j :: 0 <= j < |e.position| ==> IsWordOrSpace(e.position[j]))
    && (exists k :: 0 <= k < ROLE_COUNT && |RoleWord(k)| <= |e.position|
                    && MatchesAtIgnoringCase(e.position, |e.position| - |RoleWord(k)|, RoleWord(k)))
    && (forall j :: 0 <= j < |e.company| ==> IsCompanyChar(e.company[j]))
    && (e.company == [] || (!IsSpace(e.company[0]) && !IsSpace(e.company[|e.company| - 1])))
    && IsYearRange(e.duration)
  }

  /**
   * Each entry's position starts with a letter, is made of word characters
   * and whitespace and ends with a role word; its company is stripped and
   * holds no newline, comma or semicolon; its duration is a year range.
   */
  lemma WorkEntryFields(t: string, i: nat)
    requires i < |WorkOf(t)|
    ensures EntryFields(WorkOf(t)[i])
  {
    FoundShapes(t, 0);
    var ms := Scan.Matches(|t|, 0, At(t), EndOf);
    ToEntryFields(t, ms[i].1);
  }

  lemma ToEntryFields(t: string, m: WorkMatch)
    requires WorkShape(t, m)
    ensures InOrder(t, m) && EntryFields(ToEntry(t, m))
  {
    var e := ToEntry(t, m);
    PositionOfEntry(t, m);
    CompanyOfEntry(t, m);
    assert WellFormed(m.year) && Render(m.year) == e.duration;
  }

  lemma PositionOfEntry(t: string, m: WorkMatch)
    requires TitleDone(t, m)
    ensures var s := t[m.start..m.titleEnd];
            |s| >= 3 && IsLetter(s[0]) && (forall j :: 0 <= j < |s| ==> IsWordOrSpace(s[j]))
            && |RoleWord(m.role)| <= |s| && MatchesAtIgnoringCase(s, |s| - |RoleWord(m.role)|, RoleWord(m.role))
  {
    var s := t[m.start..m.titleEnd];
    RoleIsWord(t, m.roleStart, m.role);
    forall j | 0 <= j < |s| ensures IsWordOrSpace(s[j]) {
      assert s[j] == t[m.start + j];
    }
    RoleAtEnd(t, m);
  }

  /** A role word is made of letters, so the text it matches is made of word characters. */
  lemma RoleIsWord(t: string, q: nat, k: nat)
    requires k < ROLE_COUNT && MatchesAtIgnoringCase(t, q, RoleWord(k))
    ensures All(t, q, q + |RoleWord(k)|, IsWordOrSpace)
  {
    var w := RoleWord(k);
    assert forall j :: 0 <= j < |w| ==> IsLower(w[j]);
    forall i | q <= i < q + |w| ensures IsWordOrSpace(t[i]) {
      assert SameIgnoringCase(t[q + (i - q)], w[i - q]);
    }
  }

  lemma RoleAtEnd(t: string, m: WorkMatch)
    requires TitleDone(t, m)
    ensures var s := t[m.start..m.titleEnd];
            |RoleWord(m.role)| <= |s| && MatchesAtIgnoringCase(s, |s| - |RoleWord(m.role)|, RoleWord(m.role))
  {
    var s := t[m.start..m.titleEnd];
    var w := RoleWord(m.role);
    forall j | 0 <= j < |w| ensures SameIgnoringCase(s[|s| - |w| + j], w[j]) {
      assert s[|s| - |w| + j] == t[m.roleStart + j];
    }
  }

  lemma CompanyOfEntry(t: string, m: WorkMatch)
    requires m.companyStart < m.companyEnd <= |t| && All(t, m.companyStart, m.companyEnd, IsCompanyChar)
    ensures var c := Strip(t[m.companyStart..m.companyEnd]);
            (forall j :: 0 <= j < |c| ==> IsCompanyChar(c[j]))
            && (c == [] || (!IsSpace(c[0]) && !IsSpace(c[|c| - 1])))
  {
    var s := t[m.companyStart..m.companyEnd];
    assert forall j :: 0 <= j < |s| ==> IsCompanyChar(s[j]) by {
      forall j | 0 <= j < |s| ensures IsCompanyChar(s[j]) {
        assert s[j] == t[m.companyStart + j];
      }
    }
    StripKeepsClass(s, IsCompanyChar);
    StripSpec(s);
  }

  /** `extract_work_experience`: one dictionary appended per match, in the order `finditer` reports them. */
  method ExtractWorkExperience(text: string) returns (experience: seq<WorkEntry>)
    ensures experience == WorkOf(text)
  {
    FoundInOrder(text, 0);
    var found := Scan.FindIter(|text|, At(text), EndOf);
    experience := AppendEntries(text, found);
  }

  /** The body of the `finditer` loop: build each match's dictionary and append it. */
  method AppendEntries(text: string, found: seq<(nat, WorkMatch)>) returns (experience: seq<WorkEntry>)
    requires forall i :: 0 <= i < |found| ==> InOrder(text, found[i].1)
    ensures experience == Entries(text, found)
  {
    experience := [];
    for i := 0 to |found|
      invariant |experience| == i
      invariant forall j :: 0 <= j < i ==> experience[j] == ToEntry(text, found[j].1)
    {
      experience := experience + [ToEntry(text, found[i].1)];
    }
  }
}
