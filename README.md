# Résumé analyser and job-keyword extractor

This project models two text-extraction components in Dafny.

- **The résumé analyser** (`resume.py`) takes the text of a résumé and extracts:
  - personal information: the first e-mail address, the first phone number, and the first person's name a named-entity recogniser reports for the first 500 characters;
  - education entries and work-experience entries, each ending in a year range;
  - technical skills, grouped by the categories of the fixed `TECH_SKILLS` taxonomy, each with a proficiency level;
  - projects, taken from the section after a "projects" / "experience" heading.

  `analyze_resume` assembles these into one record. It sums the years of the work entries into `total_experience_years`, or it returns a single error.
- **`JobKeywordExtractor`** (`job_keyword_extractor.py`) does two things:
  - `extract_keywords`: for every keyword of a category, it collects the lower-cased text after each occurrence of the keyword and its `:`/whitespace, up to the next `.`, `!` or `?`;
  - `process_url`: it does that for every category on the page found at a URL.

Every regular expression of the core is written as a hand-made matcher:

- Each quantifier or alternation of the pattern is one layer, which tries its choices in the order Python's backtracking engine tries them.
- Module `Scan` models how `re` uses a pattern, independently of which pattern it is:
  - `re.search` is the leftmost position where the pattern matches;
  - `re.finditer` searches again from the end of each match;
  - `re.split` is the text between consecutive matches.
- Tables are ordered sequences, because the order of a Python dict is visible in the output.

Modules:

- `Options`, `Text` (`text.dfy`): character classes and string helpers — `\s`, `\w`, `lower()`, `strip()`, `title()`, and literal matching.
- `Scan` (`scan.dfy`): `re.search`, `re.finditer` and `re.split` over any pattern.
- `Words` (`words.dfy`): the `\b<term>\b` search and the taxonomy-order scan over a term list.
- `Taxonomy` (`taxonomy.dfy`): `TECH_SKILLS`.
- `YearRange` (`year_range.dfy`): the duration token, `re.findall(r'\d{4}', …)`, and what one duration adds to the total experience.
- `PersonalInfo`, `Education`, `WorkExperience`, `Skills`, `Projects`: one module per extractor.
- `Resume` (`resume.dfy`): `analyze_resume`.
- `JobKeywords` (`job_keywords.dfy`): the `JobKeywordExtractor` class, with its keyword table, `extract_keywords` and `process_url`.

The extractors that append to a list in a loop are modelled as Dafny methods with loops. Each method is proved equal to a specification function, and the lemmas state what that function means. This covers `extract_education`, `extract_work_experience`, `extract_technical_skills`, `extract_projects`, the total-experience loop, `extract_keywords` and `process_url`. `extract_personal_info` is a single expression, so it is modelled as a function.

Where the code and its own documentation differ, the model follows the code:

- The education `field` group `[\w\s]+` is greedy, so it keeps the whitespace before "at"/"from"/",". `title()` keeps that whitespace too, so "Computer Science " is returned with its trailing space.
- The work title `[A-Z]` is compiled with `re.IGNORECASE`, so a lower-case first letter is accepted. The title is therefore not necessarily capitalised.
- A company made only of whitespace can match, and it strips to the empty string: in "Senior Engineer at  2019-2020" the `\s*` before the company gives back one space, which becomes the company.
- The level of a skill is not taken from a short window after a whole-word hit. It is the first level word on the same line after the leftmost occurrence of the skill's characters for which such a word exists, and that occurrence need not be a whole word.
- A project heading must be preceded by a newline, so a heading on the very first line is not recognised. A heading whose leading newline is the closing newline of the previous heading is not recognised either.
- Only the text between the first and the second heading is used, not everything after the first heading.
- A project name is searched for on the first line of the block only, because `.` does not cross a newline.
- In `keyword[:\s]+([^.!?]+)`, the separators are taken greedily. When a terminator or the end of the text follows them directly, the engine gives one separator back, and that separator alone becomes the captured value. After `strip()` the value is then `""` or `":"`.

## Model

| member | source | states |
|---|---|---|
| Text.StripSpec | resume.py:82 | `strip()` returns a piece of its argument with only whitespace around it, starting and ending with non-whitespace, and empty exactly when the argument is all whitespace |
| Text.StripKeepsClass | job_keyword_extractor.py:60 | stripping keeps only characters of the original, so any class all of whose characters belong stays so |
| Text.Title | resume.py:60-61 | `title()` upper-cases a letter that starts a run of letters and lower-cases the others, keeping every other character and the length |
| Text.TitleKeepsCharacters | resume.py:60-61 | title-casing changes only letter case: word characters, whitespace and newlines stay where they are |
| Text.RunEnd | resume.py:52 | a greedy character-class run ends at the first character outside the class or at the end of the text |
| Text.RunEndUnique | resume.py:52 | any end with that property is the greedy run's end |
| Scan.Search | resume.py:32 | `re.search` returns a position where the pattern matches with no match before it, and `None` only when the pattern matches nowhere |
| Scan.SearchIsLeftmost | resume.py:32-36 | whenever the pattern matches at some position, `re.search` finds a match at or before it |
| Scan.Matches | resume.py:58 | `finditer` reports matches in increasing order, each where the pattern matches, none overlapping the next |
| Scan.MatchesCover | resume.py:58 | every position where the pattern matches lies inside some reported match |
| Scan.FindIter | job_keyword_extractor.py:57 | the loop collecting `finditer`'s matches returns exactly the matches of the specification |
| Scan.MatchesChained | resume.py:116 | the matches are chained, so they can be used as split points |
| Scan.Split | resume.py:116 | `re.split` gives one more piece than there are separators |
| Scan.SplitRejoin | resume.py:116 | the pieces and separators, interleaved, give back the text |
| Scan.SecondPiece | resume.py:118-119 | there is a second piece exactly when the pattern matches somewhere; it is the text from the end of the leftmost match to the next match or to the end, and the pattern matches nowhere inside it |
| Words.FindWholeWord | resume.py:95 | the leftmost position where the term occurs with a word boundary on both sides, and none when it occurs nowhere |
| Words.HasWholeWord | resume.py:95 | the search succeeds exactly when the term occurs as a whole word |
| Words.TrailingSymbolNeedsWordAfter | resume.py:95 | a term ending in a non-word character, such as `c++`, only matches when a word character follows it |
| Words.FoundTermsMembership | resume.py:94-95 | a term is reported exactly when it is in the list and occurs as a whole word |
| Words.FoundTermsInListOrder | resume.py:93-94 | reported terms follow the list's order, not the text's |
| Words.FoundTermsNoDuplicates | resume.py:105-108 | no term is reported twice when the list holds none twice |
| Words.FoundTermsAppend | resume.py:133-136 | scanning two lists in turn reports the two results in turn |
| Taxonomy.AllTerms | resume.py:133-134 | every term of every category is visited, and nothing else |
| Taxonomy.AllTermsSnoc | resume.py:133-134 | visiting one more category appends exactly its terms |
| YearRange.RangeEndAt | resume.py:54 | `(?:\d{4}\|present\|current)` matches four digits or one of the two words in any case, as written in the text |
| YearRange.BodyAt | resume.py:54 | the duration after its optional `(` is a well-formed token: year, spaces, a hyphen or en dash, spaces, the end, and an optional `)` |
| YearRange.YearTokenAt | resume.py:54 | a duration found in the text is exactly the rendering of a well-formed token |
| YearRange.RenderAt | resume.py:54 | the text of a duration is its body, after the optional `(` when the token has one |
| YearRange.FindAll4Digits | resume.py:164 | `re.findall(r'\d{4}')` returns runs of exactly four digits |
| YearRange.SkipNoDigits | resume.py:164 | a digit-free prefix adds no four-digit run |
| YearRange.TakeFourDigits | resume.py:164 | four leading digits are one run, and the scan resumes after them |
| YearRange.EmptyWithoutDigits | resume.py:164 | a digit-free string has no four-digit run |
| YearRange.OngoingHasNoDigits | resume.py:54 | "present"/"current" in any case holds no digit |
| YearRange.YearsOfDuration | resume.py:164 | the four-digit runs of a duration are its first year, followed by its second year when it ends in one |
| YearRange.ContributionOfDuration | resume.py:165-166 | a duration adds second minus first year (negative for a reversed range), and nothing for "present"/"current" |
| PersonalInfo.EmailAt | resume.py:32 | the e-mail pattern at a position gives a local part that is the whole `[\w.-]` run, then `@`, a domain, and a top-level domain of two or more letters that is as long as it can be |
| PersonalInfo.TryDot | resume.py:32 | the domain gives characters back from its end, so the dot chosen is the last dot in the domain that can be followed by a top-level domain of two or more letters |
| PersonalInfo.EmailAtComplete | resume.py:32 | wherever text of the e-mail shape starts, the pattern matches there |
| PersonalInfo.EmailFound | resume.py:32 | the e-mail found has the pattern's shape and starts at the leftmost position where the pattern matches; none is found only when it matches nowhere |
| PersonalInfo.EmailHasOneAt | resume.py:32 | an address found contains exactly one `@` |
| PersonalInfo.Available | resume.py:34 | a bounded repetition of a character class takes at most its bound, and stops early only at a character outside the class |
| PersonalInfo.MatchPieces | resume.py:34 | the phone pattern's pieces, tried greedily with give-back, match text that each piece's count bounds allow |
| PersonalInfo.TryCount | resume.py:34 | each give-back step still yields a fitting match |
| PersonalInfo.PhoneAt | resume.py:34 | a phone match is the number optionally preceded by a country code |
| PersonalInfo.FitsShape | resume.py:34 | a phone match ends in four digits and holds only digits, `+`, parentheses and separators |
| PersonalInfo.PhoneFound | resume.py:33-36 | the phone number found is the text of a match of the pattern at some position, with no match at any earlier position; it ends in four digits and holds only phone characters; none is found only when the pattern matches nowhere |
| PersonalInfo.PhoneMatchShape | resume.py:33-34 | the text of any match of the phone pattern ends in four digits and holds only phone characters |
| PersonalInfo.NoPhoneBefore | resume.py:33 | where `re.search` skipped a stretch from the start, the phone pattern matches at none of its positions |
| PersonalInfo.Prefix500 | resume.py:39 | `text[:500]` is the first 500 characters, or the whole text when shorter |
| PersonalInfo.FirstPerson | resume.py:40 | the name is `None` exactly when no entity is labelled PERSON, and otherwise the text of the first such entity |
| PersonalInfo.ExtractPersonalInfo | resume.py:42-46 | the record holds the e-mail and phone searches and the first PERSON of the prefix |
| PersonalInfo.NameOnlyFromPrefix | resume.py:39 | text after the first 500 characters never changes the name |
| Education.MatchAt | resume.py:51-56 | a match of the education pattern at a position has its full shape: degree, optional "in"/"of", field, separator, institution on one line, year range |
| Education.TryDegrees | resume.py:52 | each degree spelling, tried in the alternation's order, gives only matches of the full shape |
| Education.TrySpace1 | resume.py:52 | the whitespace after the degree, longest first, gives only matches of the full shape |
| Education.InOf | resume.py:52 | "in"/"of" is tried present, then absent, with only full-shape matches |
| Education.TrySpace2 | resume.py:52 | the whitespace before the field, longest first, gives only full-shape matches |
| Education.Field | resume.py:52 | the field is at least one `[\w\s]` character, taken greedily |
| Education.TryField | resume.py:52 | shorter fields are tried in turn, with only full-shape matches |
| Education.Separator | resume.py:53 | "at", "from" or "," after the maximal whitespace run gives only full-shape matches |
| Education.TrySpace4 | resume.py:53 | the whitespace before the institution, longest first, gives only full-shape matches |
| Education.Institution | resume.py:53 | the institution is lazy and one line long |
| Education.TryInstitution | resume.py:53 | longer institutions are tried in turn, with only full-shape matches |
| Education.Year | resume.py:53-54 | the duration follows the maximal whitespace run |
| Education.AtAdvances | resume.py:58 | every match is non-empty, so `finditer` moves forward |
| Education.FoundShapes | resume.py:58 | every match `finditer` reports has the full shape |
| Education.FoundDegrees | resume.py:52 | every match `finditer` reports starts with one of the degree spellings, in any case |
| Education.FoundInOrder | resume.py:58-64 | every reported match's groups lie in order inside the text |
| Education.ToEntryFields | resume.py:59-64 | the entry built from a match satisfies the entry properties |
| Education.EducationEntryFields | resume.py:59-64 | each entry's degree is a degree spelling up to case, its field is non-empty `[\w\s]`, its institution is non-empty and on one line, and its duration is a year range |
| Education.DegreeOfEntry | resume.py:60 | the title-cased degree is the matched spelling up to case |
| Education.FieldOfEntry | resume.py:61 | the title-cased field is non-empty and made of word characters and whitespace |
| Education.NoDegreeNoEducation | resume.py:52 | a text containing no degree spelling yields no entries |
| Education.Entries | resume.py:58-64 | one entry per match, in match order |
| Education.EntriesSnoc | resume.py:58-64 | one more match appends one entry |
| Education.ExtractEducation | resume.py:48-66 | the loop returns one entry per match of `finditer`, in document order |
| Education.AppendEntries | resume.py:58-64 | the loop body appends each match's dictionary in order |
| WorkExperience.MatchAt | resume.py:72-77 | a match of the work pattern has its full shape: title ending in a role word, separator, company without newline, comma or semicolon, year range |
| WorkExperience.RoleAt | resume.py:73 | a role word found at a position is one of the five, in any case |
| WorkExperience.TryTitle | resume.py:73 | a letter, then `[\w\s]+`, longest first, gives only full-shape matches |
| WorkExperience.Separator | resume.py:74 | "at", "@" or "," after the maximal whitespace run gives only full-shape matches |
| WorkExperience.TrySpace | resume.py:74 | the whitespace before the company, longest first, gives only full-shape matches |
| WorkExperience.Company | resume.py:74 | the company is lazy and free of newline, comma and semicolon |
| WorkExperience.TryCompany | resume.py:74 | longer companies are tried in turn, with only full-shape matches |
| WorkExperience.Duration | resume.py:74-75 | the duration follows the maximal whitespace run |
| WorkExperience.AtAdvances | resume.py:79 | every match is non-empty, so `finditer` moves forward |
| WorkExperience.FoundShapes | resume.py:79 | every match `finditer` reports has the full shape |
| WorkExperience.FoundInOrder | resume.py:79-84 | every reported match's groups lie in order inside the text |
| WorkExperience.ToEntryFields | resume.py:80-84 | the entry built from a match satisfies the entry properties |
| WorkExperience.WorkEntryFields | resume.py:80-84 | each position starts with a letter of either case, is `[\w\s]` and ends with a role word; each company is stripped and free of newline, comma and semicolon; each duration is a year range |
| WorkExperience.PositionOfEntry | resume.py:81 | the position is passed through as matched: at least three characters, a letter first, a role word last |
| WorkExperience.RoleIsWord | resume.py:73 | a role word is made of word characters |
| WorkExperience.RoleAtEnd | resume.py:73 | the title ends with its role word |
| WorkExperience.CompanyOfEntry | resume.py:82 | the stripped company keeps the company's character class and has no surrounding whitespace |
| WorkExperience.Entries | resume.py:79-84 | one entry per match, in match order |
| WorkExperience.EntriesSnoc | resume.py:79-84 | one more match appends one entry |
| WorkExperience.ExtractWorkExperience | resume.py:68-86 | the loop returns one entry per match of `finditer`, in document order |
| WorkExperience.AppendEntries | resume.py:79-84 | the loop body appends each match's dictionary in order |
| Skills.TryLevels | resume.py:99 | the level alternation gives the first level word, in its own order, that occurs at a position |
| Skills.LevelFrom | resume.py:99 | the lazy `.*?` finds a level word on the same line when there is one, and fails only when there is none |
| Skills.LevelSound | resume.py:98-103 | a reported level is one of the five words and follows some occurrence of the skill on the same line |
| Skills.LevelComplete | resume.py:98-103 | whenever a level word follows an occurrence of the skill on the same line, some level is reported |
| Skills.WithLevels | resume.py:105-108 | each found term gets an entry with its own name |
| Skills.SkillReported | resume.py:94-108 | a skill is reported under its category exactly when it is one of the category's terms and occurs as a whole word, and it carries the level detected for it |
| Skills.SkillsInOrder | resume.py:93-108 | within a category, skills follow taxonomy order, and none repeats when the category's terms are distinct |
| Skills.SkillsOfSound | resume.py:110 | every category present has hits, and they are exactly that category's hits |
| Skills.SkillsOfComplete | resume.py:110 | every category with a hit is present, with its hits |
| Skills.SkillsInSnoc | resume.py:94-108 | one more term appends its entry exactly when it occurs as a whole word |
| Skills.TechSkillsDistinct | resume.py:93-94 | no category of the taxonomy lists the same term twice |
| Skills.SkillsOfDistinct | resume.py:93-108 | when no category lists a term twice, no category of the result names a skill twice |
| Skills.ExtractTechnicalSkills | resume.py:88-110 | the nested loop on the lower-cased text returns the specification's categories and skills, and each skill appears at most once in its category |
| Skills.SkillsByCategory | resume.py:93-108 | the nested loop over any table returns its categories with hits, each with its hits |
| Projects.TryHeadingWords | resume.py:116 | the heading alternation matches one of its three words in any case |
| Projects.LastNewline | resume.py:116 | the greedy `\s*` before the closing newline gives back characters up to the last newline in the run |
| Projects.HeadingAt | resume.py:116 | a heading match is a newline, whitespace, a heading word, whitespace and a newline |
| Projects.HeadingClose | resume.py:116 | the closing part of a heading gives only heading-shaped matches |
| Projects.HeadingAdvances | resume.py:116 | every heading match is non-empty |
| Projects.Headings | resume.py:116 | the headings split at are chained through the text |
| Projects.Sections | resume.py:116 | the split gives one more section than there are headings |
| Projects.SecondSection | resume.py:116-119 | a second section exists exactly when some heading matches; it runs from the end of the leftmost heading to the next heading found after it, or to the end of the text, and holds no heading |
| Projects.BreakAt | resume.py:121 | a block break is a newline, and whitespace up to a word character that stays in the next block; a line starting with anything else is no break |
| Projects.BreakAdvances | resume.py:121 | every break is non-empty |
| Projects.BlocksRejoin | resume.py:121 | the blocks and the breaks between them give back the section |
| Projects.NameEnd | resume.py:128 | the name ends at the first `:` or `-` of the first line, or there is none |
| Projects.ProjectNameSpec | resume.py:128-129 | the name is the stripped text before the first `:` or `-` of the first line, which holds neither; without one it is "Unnamed Project" |
| Projects.TechnologiesSpec | resume.py:132-136 | a technology is listed exactly when it is a taxonomy term that occurs as a whole word in the lower-cased block, in taxonomy order |
| Projects.FilterMap | resume.py:123-142 | the kept blocks give at most one project each |
| Projects.FilterMapSound | resume.py:123-142 | every project comes from a kept block |
| Projects.FilterMapComplete | resume.py:123-142 | every kept block gives its project |
| Projects.ProjectsFrom | resume.py:123-142 | at most one project per block |
| Projects.ProjectsFromBlocks | resume.py:123-142 | exactly the non-blank blocks give projects: every project comes from one, and every one gives its project |
| Projects.NoHeadingNoProjects | resume.py:118 | without a heading line there are no projects |
| Projects.DescriptionSpec | resume.py:140 | the description is the block without surrounding whitespace, and is never blank |
| Projects.TechnologiesIn | resume.py:132-136 | the nested technology loop returns the taxonomy terms found, in taxonomy order |
| Projects.ProjectsLoop | resume.py:123-142 | the loop over the blocks returns the specification's projects |
| Projects.ExtractProjects | resume.py:112-144 | `extract_projects` returns the projects of the second section's blocks |
| Resume.TextPages | resume.py:26 | a text is kept exactly when it is the non-empty text of some page, and none is kept exactly when no page has text |
| Resume.TextPagesSnoc | resume.py:26 | the kept texts follow page order: one more page appends its text exactly when it has non-empty text |
| Resume.JoinEmpty | resume.py:26 | joining non-empty parts gives empty text exactly when there are no parts |
| Resume.NoTextIffNoPageText | resume.py:26 | the PDF text is empty exactly when no page has text |
| Resume.TotalYearsAppend | resume.py:161-167 | the total is additive over the entries: overlapping or repeated ranges count as often as they occur |
| Resume.DurationContribution | resume.py:164-166 | a year-range duration adds second minus first year, or nothing when it is open-ended |
| Resume.EntryContribution | resume.py:163-166 | every extracted work entry's duration is a year range and contributes that amount |
| Resume.TotalExperience | resume.py:161-167 | the loop returns the sum of the contributions of the work entries |
| Resume.AnalyzeResume | resume.py:146-172 | an unreadable PDF gives only the wrapped loader message, a PDF without text gives only the no-text error, and otherwise the record holds every extractor's output and the total |
| JobKeywords.KeywordKeysDistinct | job_keyword_extractor.py:22-29 | the keyword table names each category once |
| JobKeywords.Lookup | job_keyword_extractor.py:54 | a category is found exactly when the table has it, with its own keywords; an unknown one is the `KeyError` |
| JobKeywords.LookupOwnKey | job_keyword_extractor.py:78-79 | each category of the table finds its own keywords |
| JobKeywords.CaptureAt | job_keyword_extractor.py:56 | a capture is the keyword, at least one `:`/whitespace, and a group of non-terminators up to the next terminator or the end; the group starts after all the separators, or takes the last one when nothing else follows |
| JobKeywords.CaptureComplete | job_keyword_extractor.py:56 | wherever a keyword is followed by text of that shape, the pattern matches there |
| JobKeywords.FollowedByLetter | job_keyword_extractor.py:56 | a keyword immediately followed by a letter captures nothing there |
| JobKeywords.SuffixKeywordSameCapture | job_keyword_extractor.py:23 | a keyword that ends another ("experience" in "work experience") captures the same group inside it: nothing deduplicates them |
| JobKeywords.CaptureAdvances | job_keyword_extractor.py:57 | every capture is non-empty and inside the text |
| JobKeywords.KeywordMatchesShape | job_keyword_extractor.py:57-60 | every match of one keyword has the capture shape, and matches do not overlap |
| JobKeywords.CaptureTexts | job_keyword_extractor.py:59-60 | one value per match |
| JobKeywords.ConcatAppend | job_keyword_extractor.py:54 | the values of a list of keywords are those of its first part followed by those of the rest |
| JobKeywords.CapturesForAppend | job_keyword_extractor.py:54-60 | values come in keyword-table order first and document order within one keyword |
| JobKeywords.CaptureTextClean | job_keyword_extractor.py:60 | a stripped group holds no terminator and no surrounding whitespace |
| JobKeywords.KeywordTextsClean | job_keyword_extractor.py:57-60 | every value of one keyword is clean in that sense |
| JobKeywords.CapturesClean | job_keyword_extractor.py:54-60 | every value collected is clean in that sense |
| JobKeywords.CaseInsensitive | job_keyword_extractor.py:51 | texts differing only in letter case give the same values |
| JobKeywords.FieldsOf | job_keyword_extractor.py:77-80 | one list per category, in table order, each that category's values |
| JobKeywords.GroupTexts | job_keyword_extractor.py:59-60 | the loop over the matches appends each stripped group in order |
| JobKeywords.KeywordValues | job_keyword_extractor.py:57-60 | the values of one keyword are the stripped groups of its `finditer` matches |
| JobKeywords.CapturesLoop | job_keyword_extractor.py:54-60 | the loop over a category's keywords returns the values of each in turn |
| JobKeywords.JobKeywordExtractor.constructor | job_keyword_extractor.py:22-29 | the extractor holds the keyword table |
| JobKeywords.JobKeywordExtractor.ExtractKeywords | job_keyword_extractor.py:49-62 | an unknown category is the `KeyError`; otherwise the result is the values of the category's keywords on the lower-cased text |
| JobKeywords.JobKeywordExtractor.ProcessUrl | job_keyword_extractor.py:64-82 | an invalid URL gives "Invalid URL" whatever the page; a failed or empty fetch gives "Failed to fetch content"; otherwise one list per category, in table order |

## Left out

- PDF loading (pdfplumber) is not modelled. Its outcome is an input: the text of each page, or the message of the exception it raised.
- The spaCy named-entity recogniser is an input function from text to entities, applied to `text[:500]`.
- `is_valid_url` (`urlparse`), `fetch_page_content` (requests, headers, timeout, logging) and BeautifulSoup's `get_text` are input functions of `ProcessUrl`. In the model, "without fetching" means that the result does not depend on the fetch function.
- `process_csv`, `time.sleep`, logging, JSON printing and the `__main__` drivers are file, console and network glue.
- The other scraper scripts (`extra.py`, `extr.py`, `parsing.py`) do network access, concurrency and browser automation.
- `\w`, `\d`, `str.lower()`, `str.title()` and `re.IGNORECASE` are modelled on ASCII letters only. `\s` and `strip()` use Python's Unicode whitespace set. Unicode case mapping, including IGNORECASE's matching of `ſ`, `ı` and the Kelvin sign, is not modelled.
- Running time and catastrophic backtracking are not modelled; only the result of each search is.
- Exceptions other than the PDF loader's are not modelled; every other extractor is total on any text.
- Education.MatchAt: proved sound (each result has the pattern's full shape), not proved to be the engine's first choice among all shapes at that position.
- WorkExperience.MatchAt: proved sound only, in the same sense.
- PersonalInfo.PhoneAt: proved sound only, in the same sense. `PersonalInfo.PhoneFound` proves exactly that the number found comes from the leftmost position where `PhoneAt` matches, and that none is found only when it matches nowhere.

