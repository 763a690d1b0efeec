/**
 * `extract_projects`: the text after the first "projects" / "work
 * experience" / "experience" heading line, up to the next such heading, is
 * split into blocks; every non-blank block becomes a project with a name, its
 * stripped text and the taxonomy terms it mentions.
 */
module Projects {
  import opened Options
  import opened Text
  import opened Words
  import opened Taxonomy
  import Scan

  // ---------------------------------------------------------------------
  // Sections: \n\s*(?:projects|work experience|experience)\s*\n, IGNORECASE
  // ---------------------------------------------------------------------

  const HEADING_COUNT := 3

  /** The alternatives of the heading, in the order the alternation tries them. */
  function HeadingWord(k: nat): string
    requires k < HEADING_COUNT
  {
    if k == 0 then "projects" else if k == 1 then "work experience" else "experience"
  }

  /**
   * A heading match: the newline at `start`, the heading word from `word` to
   * `wordEnd`, and the newline just before `end` that closes it.
   */
  datatype HeadingMatch = HeadingMatch(start: nat, word: nat, wordEnd: nat, end: nat)

  /** A heading word, in any case, runs from `a` to `e`. */
  predicate HeadingWordEnds(t: string, a: nat, e: nat) {
    (e == a + |HeadingWord(0)| && MatchesAtIgnoringCase(t, a, HeadingWord(0)))
    || (e == a + |HeadingWord(1)| && MatchesAtIgnoringCase(t, a, HeadingWord(1)))
    || (e == a + |HeadingWord(2)| && MatchesAtIgnoringCase(t, a, HeadingWord(2)))
  }

  /**
   * `t[m.start..m.end]` is a newline, whitespace, a heading word in any case,
   * whitespace and a newline, and that newline is the last one of the
   * whitespace after the word.
   */
  ghost predicate HeadingShape(t: string, m: HeadingMatch) {
    m.start < m.word <= m.wordEnd < m.end <= |t| && t[m.start] == '\n'
    && All(t, m.start + 1, m.word, IsSpace) && HeadingWordEnds(t, m.word, m.wordEnd)
    && All(t, m.wordEnd, m.end, IsSpace) && t[m.end - 1] == '\n'
    && forall y :: m.end <= y < RunEnd(t, m.wordEnd, IsSpace) ==> t[y] != '\n'
  }

  /** The alternation at `a`: the end of the first heading word that occurs there, in any case. */
  function TryHeadingWords(t: string, a: nat, k: nat): (r: Option<nat>)
    requires k <= HEADING_COUNT
    ensures r.Some? ==> HeadingWordEnds(t, a, r.value)
    decreases HEADING_COUNT - k
  {
    if k == HEADING_COUNT then None
    else if MatchesAtIgnoringCase(t, a, HeadingWord(k)) then Some(a + |HeadingWord(k)|)
    else TryHeadingWords(t, a, k + 1)
  }

  /** The greedy `\s*` before the closing `\n` gives back characters until it stands on a newline. */
  function LastNewline(t: string, w: nat, x: nat): (r: Option<nat>)
    requires w <= x <= |t|
    ensures r.Some? ==> w <= r.value < x && t[r.value] == '\n' && forall y :: r.value < y < x ==> t[y] != '\n'
    ensures r.None? ==> forall y :: w <= y < x ==> t[y] != '\n'
    decreases x
  {
    if x == w then None
    else if t[x - 1] == '\n' then Some(x - 1)
    else LastNewline(t, w, x - 1)
  }

  /** The heading pattern tried at `p`. */
  function HeadingAt(t: string, p: nat): (r: Option<HeadingMatch>)
    requires p <= |t|
    ensures r.Some? ==> r.value.start == p && HeadingShape(t, r.value)
  {
    if p == |t| || t[p] != '\n' then None
    else
      var a := RunEnd(t, p + 1, IsSpace);
      match TryHeadingWords(t, a, 0)
      case None => None
      case Some(w) => HeadingClose(t, p, a, w)
  }

  /** `\s*\n` after the heading word. */
  function HeadingClose(t: string, p: nat, a: nat, w: nat): (r: Option<HeadingMatch>)
    requires p < a <= w <= |t| && t[p] == '\n' && All(t, p + 1, a, IsSpace) && HeadingWordEnds(t, a, w)
    ensures r.Some? ==> r.value.start == p && HeadingShape(t, r.value)
  {
    var b := RunEnd(t, w, IsSpace);
    match LastNewline(t, w, b)
    case None => None
    case Some(x) => Some(HeadingMatch(p, a, w, x + 1))
  }

  function HeadingMatcher(t: string): nat -> Option<HeadingMatch> {
    (p: nat) => if p <= |t| then HeadingAt(t, p) else None
  }

  function HeadingEnd(m: HeadingMatch): nat { m.end }

  lemma HeadingAdvances(t: string)
    ensures Scan.Advances(|t|, HeadingMatcher(t), HeadingEnd)
  {
    forall p: nat | p <= |t| && HeadingMatcher(t)(p).Some?
      ensures p < HeadingEnd(HeadingMatcher(t)(p).value) <= |t|
    {
      assert HeadingMatcher(t)(p) == HeadingAt(t, p);
    }
  }

  /** The headings `re.split` splits at. */
  function Headings(t: string): (r: seq<(nat, HeadingMatch)>)
    ensures Scan.Chained(0, r, HeadingEnd, |t|)
  {
    HeadingAdvances(t);
    Scan.MatchesChained(|t|, 0, HeadingMatcher(t), HeadingEnd);
    Scan.Matches(|t|, 0, HeadingMatcher(t), HeadingEnd)
  }

  /** `re.split(heading, text, flags=re.IGNORECASE)` */
  function Sections(t: string): (r: seq<string>)
    ensures |r| == |Headings(t)| + 1
  {
    Scan.Split(t, 0, Headings(t), HeadingEnd)
  }

  /**
   * There is a second section exactly when some heading matches, and it is
   * the text from the end of the leftmost heading to the start of the next
   * heading found after it, or to the end of the text.
   */
  lemma SecondSection(t: string)
    ensures |Sections(t)| > 1 <==> exists p :: 0 <= p <= |t| && HeadingAt(t, p).Some?
    ensures |Sections(t)| > 1 ==>
              var m := Headings(t)[0].1;
              m.start == Headings(t)[0].0 && HeadingShape(t, m) && Scan.NoneIn(0, m.start, HeadingMatcher(t))
              && var e := (if |Headings(t)| > 1 then Headings(t)[1].0 else |t|);
                 m.end <= e <= |t| && Sections(t)[1] == t[m.end..e] && Scan.NoneIn(m.end, e, HeadingMatcher(t))
  {
    var at := HeadingMatcher(t);
    HeadingAdvances(t);
    Scan.SecondPiece(t, at, HeadingEnd);
    match Scan.Search(|t|, 0, at)
    case None =>
      forall p | 0 <= p <= |t| ensures HeadingAt(t, p).None? {
        Scan.NoneInAt(0, |t| + 1, at, p);
        assert at(p) == HeadingAt(t, p);
      }
    case Some((p, m)) =>
      assert at(p) == HeadingAt(t, p);
  }

  // ---------------------------------------------------------------------
  // Blocks: \n\s*(?=\w)
  // ---------------------------------------------------------------------

  /**
   * The block break at `q`: a newline and whitespace up to a word character,
   * which the lookahead leaves in place. A line that starts, after its
   * indentation, with anything else (a `-` bullet, say) is no break.
   */
  function BreakAt(s: string, q: nat): (r: Option<nat>)
    requires q <= |s|
    ensures r.Some? <==> q < |s| && s[q] == '\n' && exists b :: q < b < |s| && All(s, q + 1, b, IsSpace) && IsWordChar(s[b])
    ensures r.Some? ==> q < r.value < |s| && All(s, q + 1, r.value, IsSpace) && IsWordChar(s[r.value])
    ensures r.Some? ==> r.value == RunEnd(s, q + 1, IsSpace)
  {
    if q < |s| && s[q] == '\n' then
      var b := RunEnd(s, q + 1, IsSpace);
      if b < |s| && IsWordChar(s[b]) then Some(b)
      else
        assert forall b' :: q < b' < |s| && All(s, q + 1, b', IsSpace) && IsWordChar(s[b']) ==> b' == b;
        None
    else None
  }

  function BreakMatcher(s: string): nat -> Option<nat> {
    (q: nat) => if q <= |s| then BreakAt(s, q) else None
  }

  function BreakEnd(b: nat): nat { b }

  lemma BreakAdvances(s: string)
    ensures Scan.Advances(|s|, BreakMatcher(s), BreakEnd)
  {
    forall q: nat | q <= |s| && BreakMatcher(s)(q).Some?
      ensures q < BreakEnd(BreakMatcher(s)(q).value) <= |s|
    {
      assert BreakMatcher(s)(q) == BreakAt(s, q);
    }
  }

  /** `re.split(r'\n\s*(?=\w)', project_text)` */
  function Blocks(s: string): (r: seq<string>)
  {
    BreakAdvances(s);
    Scan.MatchesChained(|s|, 0, BreakMatcher(s), BreakEnd);
    Scan.Split(s, 0, Scan.Matches(|s|, 0, BreakMatcher(s), BreakEnd), BreakEnd)
  }

  /** The blocks and the breaks between them give back the section. */
  lemma BlocksRejoin(s: string)
    ensures var ms := Scan.Matches(|s|, 0, BreakMatcher(s), BreakEnd);
            (forall i :: 0 <= i < |ms| ==> ms[i].0 <= ms[i].1 <= |s|)
            && Scan.Rejoin(Blocks(s), Scan.Separators(s, ms, BreakEnd)) == s
  {
    BreakAdvances(s);
    var ms := Scan.Matches(|s|, 0, BreakMatcher(s), BreakEnd);
    Scan.MatchesChained(|s|, 0, BreakMatcher(s), BreakEnd);
    Scan.SplitRejoin(s, 0, ms, BreakEnd);
    assert s[0..] == s;
  }

  // ---------------------------------------------------------------------
  // One project
  // ---------------------------------------------------------------------

  predicate IsNameStop(c: char) { c == ':' || c == '-' }

  /** `^(.*?)[:-]` from `i`: the first `:` or `-` before the end of the first line. */
  function NameEnd(s: string, i: nat): (r: Option<nat>)
    requires i <= |s|
    ensures r.Some? ==> i <= r.value < |s| && IsNameStop(s[r.value])
                        && forall j :: i <= j < r.value ==> !IsNameStop(s[j]) && s[j] != '\n'
    ensures r.None? ==> forall j :: i <= j < |s| && NoNewline(s, i, j) ==> !IsNameStop(s[j])
    decreases |s| - i
  {
    if i < |s| && IsNameStop(s[i]) then Some(i)
    else if i == |s| || s[i] == '\n' then None
    else NameEnd(s, i + 1)
  }

  const UNNAMED := "Unnamed Project"

  /** `name_match.group(1).strip() if name_match else "Unnamed Project"` */
  function ProjectName(item: string): string {
    match NameEnd(item, 0)
    case Some(k) => Strip(item[..k])
    case None => UNNAMED
  }

  /**
   * The name is the stripped text before the first `:` or `-` of the first
   * line, which holds neither; without one, the project is unnamed.
   */
  lemma ProjectNameSpec(item: string)
    ensures (exists j :: 0 <= j < |item| && NoNewline(item, 0, j) && IsNameStop(item[j])) ==>
              exists k :: 0 <= k < |item| && IsNameStop(item[k]) && NoNewline(item, 0, k)
                          && (forall j :: 0 <= j < k ==> !IsNameStop(item[j]))
                          && ProjectName(item) == Strip(item[..k])
    ensures (forall j :: 0 <= j < |item| && NoNewline(item, 0, j) ==> !IsNameStop(item[j])) ==>
              ProjectName(item) == UNNAMED
  {
    match NameEnd(item, 0)
    case Some(k) =>
    case None =>
  }

  /** A project: `{'name': …, 'description': …, 'technologies': …}`. */
  datatype Project = Project(name: string, description: string, technologies: seq<string>)

  /** The terms of `table` found as whole words in the lower-cased block, across all categories, in table order. */
  function Technologies(item: string, table: Table): seq<string> {
    FoundTerms(Lower(item), AllTerms(table))
  }

  /** A technology is listed exactly when it is a taxonomy term that occurs as a whole word in the lower-cased block. */
  lemma TechnologiesSpec(item: string, table: Table, w: string)
    ensures w in Technologies(item, table) <==>
              (exists k :: 0 <= k < |table| && w in table[k].1) && ContainsWholeWord(Lower(item), w)
    ensures IsSubsequence(Technologies(item, table), AllTerms(table))
  {
    FoundTermsMembership(Lower(item), AllTerms(table), w);
    FoundTermsInListOrder(Lower(item), AllTerms(table));
  }

  function ToProject(item: string, table: Table): Project {
    Project(ProjectName(item), Strip(item), Technologies(item, table))
  }

  /** `f` of each element that satisfies `keep`, in order: the blocks a loop keeps, each converted. */
  function FilterMap(xs: seq<string>, keep: string -> bool, f: string -> Project): (r: seq<Project>)
    ensures |r| <= |xs|
  {
    if xs == [] then []
    else FilterMap(xs[..|xs| - 1], keep, f) + (if keep(xs[|xs| - 1]) then [f(xs[|xs| - 1])] else [])
  }

  /** `y` is what `f` gives for some kept element of `xs`. */
  ghost predicate FromKept(xs: seq<string>, keep: string -> bool, f: string -> Project, y: Project) {
    exists j :: 0 <= j < |xs| && keep(xs[j]) && y == f(xs[j])
  }

  /** Every element of the result is `f` of a kept element. */
  lemma {:induction false} FilterMapSound(xs: seq<string>, keep: string -> bool, f: string -> Project)
    ensures forall i :: 0 <= i < |FilterMap(xs, keep, f)| ==> FromKept(xs, keep, f, FilterMap(xs, keep, f)[i])
    decreases |xs|
  {
    if xs != [] {
      var init := xs[..|xs| - 1];
      FilterMapSound(init, keep, f);
      var r := FilterMap(xs, keep, f);
      forall i | 0 <= i < |r| ensures FromKept(xs, keep, f, r[i]) {
        if i < |FilterMap(init, keep, f)| {
          assert FromKept(init, keep, f, FilterMap(init, keep, f)[i]);
          var j :| 0 <= j < |init| && keep(init[j]) && FilterMap(init, keep, f)[i] == f(init[j]);
          assert init[j] == xs[j];
          assert r[i] == FilterMap(init, keep, f)[i];
        } else {
          assert r[i] == f(xs[|xs| - 1]);
        }
      }
    }
  }

  /** Every kept element is converted. */
  lemma {:induction false} FilterMapComplete(xs: seq<string>, keep: string -> bool, f: string -> Project, j: nat)
    requires j < |xs| && keep(xs[j])
    ensures f(xs[j]) in FilterMap(xs, keep, f)
    decreases |xs|
  {
    var init := xs[..|xs| - 1];
    if j < |init| {
      assert init[j] == xs[j];
      FilterMapComplete(init, keep, f, j);
    }
  }

  /** `if not item.strip(): continue` */
  function NotBlank(item: string): bool { Strip(item) != [] }

  /** The projects the blocks give, in order, skipping blank ones. */
  function ProjectsFrom(items: seq<string>, table: Table): (r: seq<Project>)
    ensures |r| <= |items|
  {
    FilterMap(items, NotBlank, (item: string) => ToProject(item, table))
  }

  /** `extract_projects` as a function of the text. */
  function ProjectsOf(text: string): seq<Project> {
    var sections := Sections(text);
    if |sections| > 1 then ProjectsFrom(Blocks(sections[1]), TECH_SKILLS) else []
  }

  /** Without a heading line there are no projects. */
  lemma NoHeadingNoProjects(text: string)
    requires forall p :: 0 <= p <= |text| ==> HeadingAt(text, p).None?
    ensures ProjectsOf(text) == []
  {
    SecondSection(text);
  }

  /** `project` is what some non-blank block among `items` gives. */
  ghost predicate FromBlock(items: seq<string>, table: Table, project: Project) {
    exists j :: 0 <= j < |items| && Strip(items[j]) != [] && project == ToProject(items[j], table)
  }

  /**
   * Exactly the non-blank blocks give projects: every project is what some
   * non-blank block gives, and every non-blank block gives one.
   */
  lemma ProjectsFromBlocks(items: seq<string>, table: Table)
    ensures forall i :: 0 <= i < |ProjectsFrom(items, table)| ==> FromBlock(items, table, ProjectsFrom(items, table)[i])
    ensures forall j :: 0 <= j < |items| && Strip(items[j]) != [] ==> ToProject(items[j], table) in ProjectsFrom(items, table)
  {
    var f := (item: string) => ToProject(item, table);
    var r := ProjectsFrom(items, table);
    FilterMapSound(items, NotBlank, f);
    forall i | 0 <= i < |r| ensures FromBlock(items, table, r[i]) {
      assert FromKept(items, NotBlank, f, r[i]);
      var j :| 0 <= j < |items| && NotBlank(items[j]) && r[i] == f(items[j]);
      assert Strip(items[j]) != [] && r[i] == ToProject(items[j], table);
    }
    forall j | 0 <= j < |items| && Strip(items[j]) != [] ensures ToProject(items[j], table) in r {
      FilterMapComplete(items, NotBlank, f, j);
    }
  }

  /** A description is a block stripped of surrounding whitespace, and never blank. */
  lemma DescriptionSpec(item: string, table: Table)
    requires Strip(item) != []
    ensures var d := ToProject(item, table).description;
            d != [] && !IsSpace(d[0]) && !IsSpace(d[|d| - 1])
            && exists a :: 0 <= a && a + |d| <= |item| && d == item[a..a + |d|]
                           && AllSpace(item[..a]) && AllSpace(item[a + |d|..])
  {
    assert ToProject(item, table).description == Strip(item);
    StripSpec(item);
  }

  // ---------------------------------------------------------------------
  // The loops
  // ---------------------------------------------------------------------

  /** The technology loop over a table's categories and terms, on a lower-cased block. */
  method TechnologiesIn(t: string, table: Table) returns (technologies: seq<string>)
    ensures technologies == FoundTerms(t, AllTerms(table))
  {
    technologies := [];
    for k := 0 to |table|
      invariant technologies == FoundTerms(t, AllTerms(table[..k]))
    {
      var terms := table[k].1;
      assert AllTerms(table[..k]) + terms[..0] == AllTerms(table[..k]);
      for j := 0 to |terms|
        invariant technologies == FoundTerms(t, AllTerms(table[..k]) + terms[..j])
      {
        assert AllTerms(table[..k]) + terms[..j + 1] == (AllTerms(table[..k]) + terms[..j]) + [terms[j]];
        FoundTermsAppend(t, AllTerms(table[..k]) + terms[..j], [terms[j]]);
        assert [terms[j]][1..] == [];
        if HasWholeWord(t, terms[j]) {
          technologies := technologies + [terms[j]];
        }
      }
      AllTermsSnoc(table, k);
      assert terms[..|terms|] == terms;
    }
    assert table[..|table|] == table;
  }

  /** The loop over the blocks. */
  method ProjectsLoop(items: seq<string>, table: Table) returns (projects: seq<Project>)
    ensures projects == ProjectsFrom(items, table)
  {
    projects := [];
    for i := 0 to |items|
      invariant projects == ProjectsFrom(items[..i], table)
    {
      assert items[..i + 1][..i] == items[..i] && items[..i + 1][i] == items[i];
      var item := items[i];
      if Strip(item) == [] {
        continue;
      }
      var name := ProjectName(item);
      var technologies := TechnologiesIn(Lower(item), table);
      projects := projects + [Project(name, Strip(item), technologies)];
    }
    assert items[..|items|] == items;
  }

  /** `extract_projects` */
  method ExtractProjects(text: string) returns (projects: seq<Project>)
    ensures projects == ProjectsOf(text)
  {
    var sections := Sections(text);
    projects := [];
    if |sections| > 1 {
      var items := Blocks(sections[1]);
      projects := ProjectsLoop(items, TECH_SKILLS);
    }
  }
}
