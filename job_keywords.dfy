/**
 * `JobKeywordExtractor`: for every keyword of a category, the lower-cased
 * text after each occurrence of the keyword and its `:`/whitespace, up to the
 * next `.`, `!` or `?`; and `process_url`, which does that for every category
 * of the page found at a URL.
 */
module JobKeywords {
  import opened Options
  import opened Text
  import Scan

  /** Category and its keywords, in the order the dict literal gives them. */
  type Table = seq<(string, seq<string>)>

  const KEYWORDS: Table := [
    ("experience", ["experience", "years of experience", "work experience"]),
    ("skills", ["skills", "required skills", "qualifications", "requirements"]),
    ("education", ["education", "degree", "qualification"]),
    ("location", ["location", "place", "work location"]),
    ("salary", ["salary", "compensation", "pay", "package"]),
    ("job_type", ["job type", "employment type", "full-time", "part-time", "contract"])
  ]

  /** A dict has each key once. */
  predicate DistinctKeys(table: Table) {
    forall i, j :: 0 <= i < j < |table| ==> table[i].0 != table[j].0
  }

  lemma KeywordKeysDistinct()
    ensures DistinctKeys(KEYWORDS)
  {
    var keys := seq(|KEYWORDS|, i requires 0 <= i < |KEYWORDS| => KEYWORDS[i].0);
    assert keys == ["experience", "skills", "education", "location", "salary", "job_type"];
    assert forall i, j :: 0 <= i < j < |keys| ==> keys[i][0] != keys[j][0] || keys[i][1] != keys[j][1];
  }

  /** `self.keywords[key]`: `None` stands for the `KeyError`. */
  function Lookup(table: Table, key: string): (r: Option<seq<string>>)
    ensures r.Some? <==> exists i :: 0 <= i < |table| && table[i].0 == key
    ensures r.Some? ==> exists i :: 0 <= i < |table| && table[i] == (key, r.value)
  {
    if table == [] then None
    else if table[0].0 == key then Some(table[0].1)
    else
      var r := Lookup(table[1..], key);
      assert forall i :: 1 <= i < |table| ==> table[i] == table[1..][i - 1];
      r
  }

  /** With distinct keys, each key finds its own entry. */
  lemma {:induction false} LookupOwnKey(table: Table, k: nat)
    requires DistinctKeys(table) && k < |table|
    ensures Lookup(table, table[k].0) == Some(table[k].1)
  {
    if k > 0 {
      assert table[k] == table[1..][k - 1];
      LookupOwnKey(table[1..], k - 1);
    }
  }

  // ---------------------------------------------------------------------
  // One keyword: {keyword}[:\s]+([^.!?]+)
  // ---------------------------------------------------------------------

  predicate IsTerminator(c: char) { c == '.' || c == '!' || c == '?' }

  predicate NotTerminator(c: char) { !IsTerminator(c) }

  /** `[:\s]` */
  predicate IsSeparator(c: char) { c == ':' || IsSpace(c) }

  /** A match: the keyword at `start`, and group 1 from `from` to `to`. */
  datatype Capture = Capture(start: nat, from: nat, to: nat)

  /**
   * The keyword, at least one separator, and a group of non-terminators that
   * runs up to the next terminator or the end of the text.
   */
  ghost predicate CaptureShape(t: string, kw: string, m: Capture) {
    MatchesAt(t, m.start, kw) && m.start + |kw| < m.from < m.to <= |t|
    && All(t, m.start + |kw|, m.from, IsSeparator) && All(t, m.from, m.to, NotTerminator)
    && (m.to == |t| || IsTerminator(t[m.to]))
  }

  /**
   * The pattern tried at `p`. The separators are taken greedily; only when
   * nothing but a terminator or the end follows them does `[:\s]+` give one
   * back, which then becomes the whole group.
   */
  function CaptureAt(t: string, p: nat, kw: string): (r: Option<Capture>)
    requires p <= |t|
    ensures r.Some? ==> r.value.start == p && CaptureShape(t, kw, r.value)
    ensures r.Some? ==> var b := RunEnd(t, p + |kw|, IsSeparator);
                        r.value.from == b || (r.value.from + 1 == b && r.value.to == b)
  {
    if !MatchesAt(t, p, kw) then None
    else
      var s := p + |kw|;
      var b := RunEnd(t, s, IsSeparator);
      if b == s then None
      else if b < |t| && !IsTerminator(t[b]) then Some(Capture(p, b, RunEnd(t, b, NotTerminator)))
      else if b - s >= 2 then Some(Capture(p, b - 1, b))
      else None
  }

  /** Wherever text of the captured shape follows an occurrence of the keyword, the pattern matches there. */
  lemma CaptureComplete(t: string, kw: string, m: Capture)
    requires CaptureShape(t, kw, m)
    ensures CaptureAt(t, m.start, kw).Some?
  {
    var s := m.start + |kw|;
    var b := RunEnd(t, s, IsSeparator);
    if b == m.from {
      assert NotTerminator(t[b]);
    }
  }

  /** A keyword immediately followed by a letter ("experienced" for "experience") captures nothing there. */
  lemma FollowedByLetter(t: string, p: nat, kw: string)
    requires MatchesAt(t, p, kw) && p + |kw| < |t| && IsLetter(t[p + |kw|])
    ensures CaptureAt(t, p, kw).None?
  {
    assert RunEnd(t, p + |kw|, IsSeparator) == p + |kw|;
  }

  /**
   * Keywords are not bounded on the left: where a keyword that ends another
   * keyword ("experience" in "work experience") occurs inside it, both
   * capture the same group.
   */
  lemma SuffixKeywordSameCapture(t: string, p: nat, kw: string, suffix: string)
    requires p <= |t| && |suffix| <= |kw| && kw[|kw| - |suffix|..] == suffix && MatchesAt(t, p, kw)
    ensures var q := p + |kw| - |suffix|;
            CaptureAt(t, p, kw).Some? ==>
              (CaptureAt(t, q, suffix).Some?
               && CaptureAt(t, q, suffix).value.from == CaptureAt(t, p, kw).value.from
               && CaptureAt(t, q, suffix).value.to == CaptureAt(t, p, kw).value.to)
  {
    var q := p + |kw| - |suffix|;
    assert t[q..q + |suffix|] == t[p..p + |kw|][|kw| - |suffix|..];
  }

  function CaptureMatcher(t: string, kw: string): nat -> Option<Capture> {
    (p: nat) => if p <= |t| then CaptureAt(t, p, kw) else None
  }

  function CaptureEnd(m: Capture): nat { m.to }

  lemma CaptureAdvances(t: string, kw: string)
    ensures Scan.Advances(|t|, CaptureMatcher(t, kw), CaptureEnd)
  {
    forall p: nat | p <= |t| && CaptureMatcher(t, kw)(p).Some?
      ensures p < CaptureEnd(CaptureMatcher(t, kw)(p).value) <= |t|
    {
      assert CaptureMatcher(t, kw)(p) == CaptureAt(t, p, kw);
    }
  }

  /** `re.finditer(pattern, text)` for one keyword. */
  function KeywordMatches(t: string, kw: string): seq<(nat, Capture)> {
    CaptureAdvances(t, kw);
    Scan.Matches(|t|, 0, CaptureMatcher(t, kw), CaptureEnd)
  }

  /** `match.group(1)` */
  function GroupText(t: string, m: Capture): string {
    if m.from <= m.to <= |t| then t[m.from..m.to] else []
  }

  /** `match.group(1).strip()` for each match, in order. */
  function CaptureTexts(t: string, ms: seq<(nat, Capture)>): (r: seq<string>)
    ensures |r| == |ms|
  {
    seq(|ms|, i requires 0 <= i < |ms| => Strip(GroupText(t, ms[i].1)))
  }

  /** The values of each keyword in turn, one list after the other. */
  function Concat(kws: seq<string>, values: string -> seq<string>): seq<string> {
    if kws == [] then [] else Concat(kws[..|kws| - 1], values) + values(kws[|kws| - 1])
  }

  lemma {:induction false} ConcatAppend(a: seq<string>, b: seq<string>, values: string -> seq<string>)
    ensures Concat(a + b, values) == Concat(a, values) + Concat(b, values)
    decreases |b|
  {
    if b == [] {
      assert a + b == a;
    } else {
      var b' := b[..|b| - 1];
      assert (a + b)[..|a + b| - 1] == a + b';
      assert (a + b)[|a + b| - 1] == b[|b| - 1];
      ConcatAppend(a, b', values);
    }
  }

  /** What `extract_keywords` collects for the keywords `kws`, on lower-cased text: keyword order first, then text order. */
  function CapturesFor(t: string, kws: seq<string>): seq<string> {
    Concat(kws, kw => KeywordTexts(t, kw))
  }

  /** The values one keyword contributes. */
  function KeywordTexts(t: string, kw: string): seq<string> {
    CaptureTexts(t, KeywordMatches(t, kw))
  }

  /** The captures of a list of keywords are those of its first part followed by those of the rest. */
  lemma {:induction false} CapturesForAppend(t: string, a: seq<string>, b: seq<string>)
    ensures CapturesFor(t, a + b) == CapturesFor(t, a) + CapturesFor(t, b)
  {
    ConcatAppend(a, b, kw => KeywordTexts(t, kw));
  }

  /**
   * Every match of one keyword has the captured shape, and each starts no
   * earlier than where the previous one ended: matches never overlap.
   */
  lemma KeywordMatchesShape(t: string, kw: string)
    ensures forall i :: 0 <= i < |KeywordMatches(t, kw)| ==>
              KeywordMatches(t, kw)[i].0 == KeywordMatches(t, kw)[i].1.start
              && CaptureShape(t, kw, KeywordMatches(t, kw)[i].1)
    ensures forall i :: 0 <= i < |KeywordMatches(t, kw)| - 1 ==>
              KeywordMatches(t, kw)[i].1.to <= KeywordMatches(t, kw)[i + 1].0
  {
    var ms := KeywordMatches(t, kw);
    forall i | 0 <= i < |ms| ensures ms[i].0 == ms[i].1.start && CaptureShape(t, kw, ms[i].1) {
      assert CaptureMatcher(t, kw)(ms[i].0) == CaptureAt(t, ms[i].0, kw);
    }
  }

  /** A kept value: no terminator in it, and no whitespace at either end. */
  predicate Clean(c: string) {
    (forall k :: 0 <= k < |c| ==> !IsTerminator(c[k])) && (c == [] || (!IsSpace(c[0]) && !IsSpace(c[|c| - 1])))
  }

  lemma CaptureTextClean(t: string, m: Capture)
    requires m.from <= m.to <= |t| && All(t, m.from, m.to, NotTerminator)
    ensures Clean(Strip(GroupText(t, m)))
  {
    var g := GroupText(t, m);
    assert forall k :: 0 <= k < |g| ==> NotTerminator(g[k]) by {
      forall k | 0 <= k < |g| ensures NotTerminator(g[k]) {
        assert g[k] == t[m.from + k];
      }
    }
    StripKeepsClass(g, NotTerminator);
    StripSpec(g);
  }

  /** Every value one keyword contributes is clean. */
  lemma KeywordTextsClean(t: string, kw: string)
    ensures forall c :: c in KeywordTexts(t, kw) ==> Clean(c)
  {
    var ms := KeywordMatches(t, kw);
    KeywordMatchesShape(t, kw);
    var texts := CaptureTexts(t, ms);
    forall i | 0 <= i < |texts| ensures Clean(texts[i]) {
      CaptureTextClean(t, ms[i].1);
    }
  }

  /** Every value collected for a list of keywords is clean. */
  lemma {:induction false} CapturesClean(t: string, kws: seq<string>)
    ensures forall c :: c in CapturesFor(t, kws) ==> Clean(c)
    decreases |kws|
  {
    if kws != [] {
      var init := kws[..|kws| - 1];
      var kw := kws[|kws| - 1];
      CapturesClean(t, init);
      KeywordTextsClean(t, kw);
      assert CapturesFor(t, kws) == CapturesFor(t, init) + KeywordTexts(t, kw);
    }
  }

  /** Texts that differ only in ASCII letter case give the same values. */
  lemma CaseInsensitive(a: string, b: string, kws: seq<string>)
    requires |a| == |b| && forall i :: 0 <= i < |a| ==> SameIgnoringCase(a[i], b[i])
    ensures CapturesFor(Lower(a), kws) == CapturesFor(Lower(b), kws)
  {
    assert Lower(a) == Lower(b);
  }

  // ---------------------------------------------------------------------
  // process_url
  // ---------------------------------------------------------------------

  /** What `process_url` returns: an error, or the values found for every category, in table order. */
  datatype UrlResult = UrlFailed(url: string, error: string) | UrlKeywords(url: string, fields: Table)

  const INVALID_URL := "Invalid URL"
  const FETCH_FAILED := "Failed to fetch content"

  /** The values of every category for a page's text. */
  function FieldsOf(text: string, table: Table): (r: Table)
    ensures |r| == |table|
    ensures forall k :: 0 <= k < |table| ==> r[k] == (table[k].0, CapturesFor(Lower(text), table[k].1))
  {
    seq(|table|, k requires 0 <= k < |table| => (table[k].0, CapturesFor(Lower(text), table[k].1)))
  }

  /** The inner loop of `extract_keywords`: `match.group(1).strip()` for each match of one keyword. */
  method KeywordValues(t: string, kw: string) returns (values: seq<string>)
    ensures values == KeywordTexts(t, kw)
  {
    CaptureAdvances(t, kw);
    var ms := Scan.FindIter(|t|, CaptureMatcher(t, kw), CaptureEnd);
    values := GroupTexts(t, ms);
  }

  /** `for match in matches: found_keywords.append(match.group(1).strip())` */
  method GroupTexts(t: string, ms: seq<(nat, Capture)>) returns (values: seq<string>)
    ensures values == CaptureTexts(t, ms)
  {
    values := [];
    for j := 0 to |ms|
      invariant values == CaptureTexts(t, ms[..j])
    {
      assert CaptureTexts(t, ms[..j + 1]) == CaptureTexts(t, ms[..j]) + [Strip(GroupText(t, ms[j].1))];
      values := values + [Strip(GroupText(t, ms[j].1))];
    }
    assert ms[..|ms|] == ms;
  }

  /** The outer loop of `extract_keywords`, over the keywords of one category. */
  method CapturesLoop(t: string, kws: seq<string>) returns (acc: seq<string>)
    ensures acc == CapturesFor(t, kws)
  {
    acc := [];
    for i := 0 to |kws|
      invariant acc == CapturesFor(t, kws[..i])
    {
      var values := KeywordValues(t, kws[i]);
      acc := acc + values;
      assert kws[..i + 1][..i] == kws[..i];
    }
    assert kws[..|kws|] == kws;
  }

  class JobKeywordExtractor {
    const keywords: Table

    constructor()
      ensures keywords == KEYWORDS
    {
      keywords := KEYWORDS;
    }

    /**
     * `extract_keywords`: the values of every keyword of the category, in
     * keyword order and, for one keyword, in text order; `None` when the
     * category is not in the table.
     */
    method ExtractKeywords(text: string, keywordType: string) returns (found: Option<seq<string>>)
      ensures found.None? <==> Lookup(keywords, keywordType).None?
      ensures found.Some? ==> found.value == CapturesFor(Lower(text), Lookup(keywords, keywordType).value)
    {
      var kws := Lookup(keywords, keywordType);
      if kws.None? {
        return None;
      }
      var acc := CapturesLoop(Lower(text), kws.value);
      found := Some(acc);
    }

    /**
     * `process_url`. `isValidUrl`, `fetch` and `pageText` stand for
     * `is_valid_url`, `fetch_page_content` (`None` when the request fails) and
     * BeautifulSoup's `get_text`. An invalid URL is reported without looking
     * at the page, an empty or failed fetch is reported next, and otherwise
     * every category of the table gets its list, possibly empty.
     */
    method ProcessUrl(url: string, isValidUrl: string -> bool, fetch: string -> Option<string>, pageText: string -> string)
      returns (result: UrlResult)
      requires DistinctKeys(keywords)
      ensures !isValidUrl(url) ==> result == UrlFailed(url, INVALID_URL)
      ensures isValidUrl(url) && (fetch(url).None? || fetch(url).value == []) ==> result == UrlFailed(url, FETCH_FAILED)
      ensures isValidUrl(url) && fetch(url).Some? && fetch(url).value != [] ==>
                result == UrlKeywords(url, FieldsOf(pageText(fetch(url).value), keywords))
    {
      if !isValidUrl(url) {
        return UrlFailed(url, INVALID_URL);
      }
      var content := fetch(url);
      if content.None? || content.value == [] {
        return UrlFailed(url, FETCH_FAILED);
      }
      var text := pageText(content.value);
      var fields: Table := [];
      for k := 0 to |keywords|
        invariant fields == FieldsOf(text, keywords[..k])
      {
        LookupOwnKey(keywords, k);
        var extracted := ExtractKeywords(text, keywords[k].0);
        fields := fields + [(keywords[k].0, extracted.value)];
      }
      assert keywords[..|keywords|] == keywords;
      result := UrlKeywords(url, fields);
    }
  }
}
