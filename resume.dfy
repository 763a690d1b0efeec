/**
 * `analyze_resume`: the text of the PDF goes through every extractor and the
 * total experience is summed over the work entries; a PDF without text, or
 * one that cannot be read, gives a single error instead.
 */
module Resume {
  import opened Options
  import opened Text
  import opened YearRange
  import opened Taxonomy
  import PersonalInfo
  import Education
  import WorkExperience
  import Skills
  import Projects

  /**
   * What the PDF library gives for a file: the text of each page (`None` for a
   * page without a text layer), or the message of the exception it raised.
   * Reading the file is not modelled; this is its outcome.
   */
  datatype PdfText = Pages(pages: seq<Option<string>>) | Unreadable(reason: string)

  /** The pages that have text: `if page.extract_text()` drops `None` and `""`. */
  function TextPages(pages: seq<Option<string>>): (r: seq<string>)
    ensures forall i :: 0 <= i < |r| ==> r[i] != []
    ensures |r| == 0 <==> forall i :: 0 <= i < |pages| ==> pages[i].None? || pages[i].value == []
    ensures forall s :: s in r <==> s != [] && Some(s) in pages
  {
    if pages == [] then []
    else
      var rest := TextPages(pages[1..]);
      assert forall i :: 1 <= i < |pages| ==> pages[i] == pages[1..][i - 1];
      if pages[0].Some? && pages[0].value != [] then [pages[0].value] + rest else rest
  }

  /** The kept texts follow page order: one more page appends its text when it has any. */
  lemma {:induction false} TextPagesSnoc(pages: seq<Option<string>>, page: Option<string>)
    ensures TextPages(pages + [page]) == TextPages(pages) + (if page.Some? && page.value != [] then [page.value] else [])
  {
    if pages != [] {
      assert (pages + [page])[1..] == pages[1..] + [page];
      TextPagesSnoc(pages[1..], page);
    }
  }

  /** `sep.join(parts)` */
  function Join(parts: seq<string>, sep: string): string {
    if parts == [] then [] else if |parts| == 1 then parts[0] else parts[0] + sep + Join(parts[1..], sep)
  }

  /** The joined text is empty exactly when no part is non-empty. */
  lemma {:induction false} JoinEmpty(parts: seq<string>, sep: string)
    requires sep != [] && forall i :: 0 <= i < |parts| ==> parts[i] != []
    ensures Join(parts, sep) == [] <==> parts == []
  {
    if |parts| > 1 {
      assert |Join(parts, sep)| >= |parts[0]| > 0;
    }
  }

  /** `"\n".join(page.extract_text() for page in pdf.pages if page.extract_text())` */
  function PdfToText(pages: seq<Option<string>>): string {
    Join(TextPages(pages), "\n")
  }

  /** The text is empty exactly when no page has any text. */
  lemma NoTextIffNoPageText(pages: seq<Option<string>>)
    ensures PdfToText(pages) == [] <==> forall i :: 0 <= i < |pages| ==> pages[i].None? || pages[i].value == []
  {
    JoinEmpty(TextPages(pages), "\n");
  }

  // ---------------------------------------------------------------------
  // Total experience
  // ---------------------------------------------------------------------

  /** The total the loop over the work entries reaches. */
  function TotalYears(work: seq<WorkExperience.WorkEntry>): int {
    if work == [] then 0 else TotalYears(work[..|work| - 1]) + Contribution(work[|work| - 1].duration)
  }

  /** The total is additive: overlapping or repeated ranges are counted as often as they occur. */
  lemma {:induction false} TotalYearsAppend(a: seq<WorkExperience.WorkEntry>, b: seq<WorkExperience.WorkEntry>)
    ensures TotalYears(a + b) == TotalYears(a) + TotalYears(b)
    decreases |b|
  {
    if b == [] {
      assert a + b == a;
    } else {
      var b' := b[..|b| - 1];
      assert (a + b)[..|a + b| - 1] == a + b';
      assert (a + b)[|a + b| - 1] == b[|b| - 1];
      TotalYearsAppend(a, b');
    }
  }

  /**
   * A duration adds its second year minus its first (a negative amount for a
   * reversed range), or nothing when it runs to "present"/"current".
   */
  lemma DurationContribution(d: string)
    requires IsYearRange(d)
    ensures exists tok :: WellFormed(tok) && d == Render(tok)
                          && Contribution(d) == (if tok.to.EndYear? then DecimalValue(tok.to.digits) - DecimalValue(tok.from) else 0)
  {
    var tok :| WellFormed(tok) && Render(tok) == d;
    ContributionOfDuration(tok);
  }

  /** Every extracted work entry has such a duration. */
  lemma EntryContribution(text: string, i: nat)
    requires i < |WorkExperience.WorkOf(text)|
    ensures IsYearRange(WorkExperience.WorkOf(text)[i].duration)
    ensures exists tok :: WellFormed(tok) && WorkExperience.WorkOf(text)[i].duration == Render(tok)
                          && Contribution(Render(tok)) == (if tok.to.EndYear? then DecimalValue(tok.to.digits) - DecimalValue(tok.from) else 0)
  {
    WorkExperience.WorkEntryFields(text, i);
    DurationContribution(WorkExperience.WorkOf(text)[i].duration);
  }

  /** The loop `for exp in result['work_experience']`. */
  method TotalExperience(work: seq<WorkExperience.WorkEntry>) returns (total: int)
    ensures total == TotalYears(work)
  {
    total := 0;
    for i := 0 to |work|
      invariant total == TotalYears(work[..i])
    {
      assert work[..i + 1][..i] == work[..i];
      var years := FindAll4Digits(work[i].duration);
      if |years| == 2 {
        total := total + (DecimalValue(years[1]) - DecimalValue(years[0]));
      }
    }
    assert work[..|work|] == work;
  }

  // ---------------------------------------------------------------------
  // The analysis
  // ---------------------------------------------------------------------

  /** The result: a single error, or every extractor's output and the total. */
  datatype Analysis =
    | Failed(error: string)
    | Analysed(personalInfo: PersonalInfo.Info, education: seq<Education.EducationEntry>,
               workExperience: seq<WorkExperience.WorkEntry>, skills: seq<(string, seq<Skills.Skill>)>,
               projects: seq<Projects.Project>, totalExperienceYears: int)

  const NO_TEXT := "No text could be extracted from the PDF"
  const ANALYSIS_FAILED := "Resume analysis failed: "
  const PDF_FAILED := "PDF processing failed: "

  /** The record built from a non-empty text. */
  function AnalysisOf(text: string, ner: string -> seq<PersonalInfo.Entity>): Analysis {
    var work := WorkExperience.WorkOf(text);
    Analysed(PersonalInfo.ExtractPersonalInfo(text, ner), Education.EducationOf(text), work,
             Skills.SkillsOf(Lower(text), TECH_SKILLS), Projects.ProjectsOf(text), TotalYears(work))
  }

  /**
   * `analyze_resume`: an unreadable PDF gives the loader's message wrapped in
   * the analysis failure message, a PDF without text gives the no-text error,
   * and anything else gives the full record with no error in it.
   */
  method AnalyzeResume(pdf: PdfText, ner: string -> seq<PersonalInfo.Entity>) returns (result: Analysis)
    ensures pdf.Unreadable? ==> result == Failed(ANALYSIS_FAILED + PDF_FAILED + pdf.reason)
    ensures pdf.Pages? && PdfToText(pdf.pages) == [] ==> result == Failed(NO_TEXT)
    ensures pdf.Pages? && PdfToText(pdf.pages) != [] ==> result == AnalysisOf(PdfToText(pdf.pages), ner)
    ensures result.Failed? <==> pdf.Unreadable? || PdfToText(pdf.pages) == []
  {
    match pdf
    case Unreadable(reason) =>
      return Failed(ANALYSIS_FAILED + PDF_FAILED + reason);
    case Pages(pages) =>
      var text := PdfToText(pages);
      if text == [] {
        return Failed(NO_TEXT);
      }
      var personal := PersonalInfo.ExtractPersonalInfo(text, ner);
      var education := Education.ExtractEducation(text);
      var work := WorkExperience.ExtractWorkExperience(text);
      var skills := Skills.ExtractTechnicalSkills(text);
      var projects := Projects.ExtractProjects(text);
      var total := TotalExperience(work);
      result := Analysed(personal, education, work, skills, projects, total);
  }
}
