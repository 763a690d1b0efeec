/**
 * `extract_personal_info`: the first e-mail address and the first phone
 * number `re.search` finds in the text, and the first PERSON entity a named
 * entity recogniser reports for the first 500 characters.
 */
module PersonalInfo {
  import opened Options
  import opened Text
  import Scan

  // ---------------------------------------------------------------------
  // E-mail: [\w\.-]+@[\w\.-]+\.[a-zA-Z]{2,}
  // ---------------------------------------------------------------------

  /** `[\w\.-]` */
  predicate IsEmailChar(c: char) { IsWordChar(c) || c == '.' || c == '-' }

  /** An e-mail match: local part `t[start..at]`, `@`, domain `t[at + 1..dot]`, `.`, top-level domain `t[dot + 1..end]`. */
  datatype EmailMatch = EmailMatch(start: nat, at: nat, dot: nat, end: nat)

  /** A dot at `x` followed by at least two ASCII letters: where `\.[a-zA-Z]{2,}` can match. */
  predicate DotFits(t: string, x: nat) {
    x < |t| && t[x] == '.' && RunEnd(t, x + 1, IsLetter) >= x + 3
  }

  /** `t[m.start..m.end]` has the shape of the e-mail pattern, with the top-level domain as long as it can be. */
  ghost predicate EmailShape(t: string, m: EmailMatch) {
    m.start < m.at && m.at + 1 < m.dot && m.dot + 3 <= m.end <= |t|
    && All(t, m.start, m.at, IsEmailChar) && t[m.at] == '@'
    && All(t, m.at + 1, m.dot, IsEmailChar) && t[m.dot] == '.'
    && All(t, m.dot + 1, m.end, IsLetter) && (m.end == |t| || !IsLetter(t[m.end]))
  }

  /**
   * The e-mail pattern tried at `p`. `@` is not in `[\w\.-]`, so the local part
   * is the whole run before it; the domain gives back characters from the end
   * of its run until a dot followed by two letters is found.
   */
  function EmailAt(t: string, p: nat): (r: Option<EmailMatch>)
    requires p <= |t|
    ensures r.Some? ==> r.value.start == p && EmailShape(t, r.value)
    ensures r.Some? ==> r.value.at == RunEnd(t, p, IsEmailChar)
  {
    var at := RunEnd(t, p, IsEmailChar);
    if at == p || at == |t| || t[at] != '@' then None
    else
      var b := RunEnd(t, at + 1, IsEmailChar);
      if b < at + 3 then None else TryDot(t, p, at, b, b - 1)
  }

  /** Domain ends from `x` down: the first dot that fits wins, so no later dot in the domain run fits. */
  function TryDot(t: string, p: nat, at: nat, b: nat, x: nat): (r: Option<EmailMatch>)
    requires p < at < |t| && All(t, p, at, IsEmailChar) && t[at] == '@'
    requires at + 1 <= x < b <= |t| && All(t, at + 1, b, IsEmailChar)
    ensures r.Some? ==> r.value.start == p && r.value.at == at && EmailShape(t, r.value)
    ensures r.Some? ==> forall y :: r.value.dot < y <= x ==> !DotFits(t, y)
    ensures r.None? ==> forall y :: at + 1 < y <= x ==> !DotFits(t, y)
    decreases x
  {
    if x <= at + 1 then None
    else if DotFits(t, x) then Some(EmailMatch(p, at, x, RunEnd(t, x + 1, IsLetter)))
    else TryDot(t, p, at, b, x - 1)
  }

  /**
   * Wherever text of the e-mail shape starts, the engine matches there too,
   * and the top-level domain it takes starts at the same dot or a later one.
   */
  lemma EmailAtComplete(t: string, m: EmailMatch)
    requires EmailShape(t, m)
    ensures EmailAt(t, m.start).Some? && EmailAt(t, m.start).value.dot >= m.dot
  {
    RunEndUnique(t, m.start, m.at, IsEmailChar);
    assert IsEmailChar(t[m.dot]);
    assert DotFits(t, m.dot);
  }

  function EmailMatcher(t: string): nat -> Option<EmailMatch> {
    (p: nat) => if p <= |t| then EmailAt(t, p) else None
  }

  /** `email.group() if email else None`: the text of the leftmost match. */
  function Email(t: string): (r: Option<string>)
  {
    match Scan.Search(|t|, 0, EmailMatcher(t))
    case None => None
    case Some((p, m)) => EmailText(t, m)
  }

  function EmailText(t: string, m: EmailMatch): Option<string> {
    if m.start <= m.end <= |t| then Some(t[m.start..m.end]) else None
  }

  /**
   * The address found is a piece of the text that starts at the leftmost
   * position where the pattern matches, has a non-empty local part, one `@`
   * after it, a non-empty domain and a top-level domain of two or more
   * letters; no match starts before it, and none exists when nothing is found.
   */
  lemma EmailFound(t: string)
    ensures Email(t).Some? ==>
              exists m :: EmailShape(t, m) && Email(t).value == t[m.start..m.end]
                          && Scan.NoneIn(0, m.start, EmailMatcher(t))
    ensures Email(t).None? ==> forall p: nat :: p <= |t| ==> EmailAt(t, p).None?
  {
    match Scan.Search(|t|, 0, EmailMatcher(t))
    case None =>
      forall p: nat | p <= |t| ensures EmailAt(t, p).None? {
        Scan.NoneInAt(0, |t| + 1, EmailMatcher(t), p);
        assert EmailMatcher(t)(p) == EmailAt(t, p);
      }
    case Some((p, m)) =>
      assert EmailMatcher(t)(p) == EmailAt(t, p);
      assert EmailShape(t, m) && m.start == p;
  }

  /** The address has exactly one `@`, between the local part and the domain. */
  lemma EmailHasOneAt(t: string, m: EmailMatch)
    requires EmailShape(t, m)
    ensures var s := t[m.start..m.end];
            s[m.at - m.start] == '@' && forall i :: 0 <= i < |s| && i != m.at - m.start ==> s[i] != '@'
  {
    var s := t[m.start..m.end];
    forall i | 0 <= i < |s| && i != m.at - m.start ensures s[i] != '@' {
      assert s[i] == t[m.start + i];
    }
  }

  // ---------------------------------------------------------------------
  // Phone: (?:\+?\d{1,3}[-.\s]?)?\(?\d{2,3}\)?[-.\s]?\d{3}[-.\s]?\d{4}
  // ---------------------------------------------------------------------

  /** The character classes of the phone pattern. */
  datatype CharClass = Plus | Digit | Separator | Open | Close

  predicate InClass(c: char, k: CharClass) {
    match k
    case Plus => c == '+'
    case Digit => IsDigit(c)
    case Separator => c == '-' || c == '.' || IsSpace(c)
    case Open => c == '('
    case Close => c == ')'
  }

  /** One piece of the pattern: a class repeated `lo` to `hi` times, greedily. */
  datatype Piece = Piece(cls: CharClass, lo: nat, hi: nat)

  /** `\+?\d{1,3}[-.\s]?`, the optional country code. */
  const COUNTRY_CODE: seq<Piece> := [Piece(Plus, 0, 1), Piece(Digit, 1, 3), Piece(Separator, 0, 1)]

  /** `\(?\d{2,3}\)?[-.\s]?\d{3}[-.\s]?\d{4}`, the number itself. */
  const NUMBER: seq<Piece> :=
    [Piece(Open, 0, 1), Piece(Digit, 2, 3), Piece(Close, 0, 1), Piece(Separator, 0, 1),
     Piece(Digit, 3, 3), Piece(Separator, 0, 1), Piece(Digit, 4, 4)]

  /** The run of class `k` from `p` that a piece may take, up to `hi` characters. */
  function Available(t: string, p: nat, k: CharClass, hi: nat): (n: nat)
    requires p <= |t|
    ensures n <= hi && p + n <= |t|
    ensures forall i :: p <= i < p + n ==> InClass(t[i], k)
    ensures n < hi ==> p + n == |t| || !InClass(t[p + n], k)
    decreases hi
  {
    if hi == 0 || p == |t| || !InClass(t[p], k) then 0 else 1 + Available(t, p + 1, k, hi - 1)
  }

  /** Every character of `t[a..b]` is in class `k`. */
  predicate AllIn(t: string, a: nat, b: nat, k: CharClass)
    requires a <= b <= |t|
  {
    forall i :: a <= i < b ==> InClass(t[i], k)
  }

  /** `t[p..e]` is matched by `pieces`, each piece taking a number of characters of its class within its bounds. */
  ghost predicate Fits(t: string, p: nat, e: nat, pieces: seq<Piece>)
    decreases |pieces|
  {
    if pieces == [] then p == e
    else exists q :: p + pieces[0].lo <= q <= p + pieces[0].hi && q <= e <= |t|
                     && AllIn(t, p, q, pieces[0].cls) && Fits(t, q, e, pieces[1..])
  }

  /** The pieces tried from `p` with the engine's backtracking: each piece takes as much as it can first. */
  function MatchPieces(t: string, p: nat, pieces: seq<Piece>): (r: Option<nat>)
    requires p <= |t|
    ensures r.Some? ==> p <= r.value <= |t| && Fits(t, p, r.value, pieces)
    decreases |pieces|, |t| - p + 1
  {
    if pieces == [] then Some(p)
    else
      var n := Available(t, p, pieces[0].cls, pieces[0].hi);
      if n < pieces[0].lo then None else TryCount(t, p, pieces, n)
  }

  /** The first piece takes `n` characters; on failure of the rest it gives one back. */
  function TryCount(t: string, p: nat, pieces: seq<Piece>, n: nat): (r: Option<nat>)
    requires pieces != [] && pieces[0].lo <= n <= pieces[0].hi && p + n <= |t|
    requires forall i :: p <= i < p + n ==> InClass(t[i], pieces[0].cls)
    ensures r.Some? ==> p <= r.value <= |t| && Fits(t, p, r.value, pieces)
    decreases |pieces|, n
  {
    var r := MatchPieces(t, p + n, pieces[1..]);
    if r.Some? then
      assert Fits(t, p + n, r.value, pieces[1..]);
      r
    else if n == pieces[0].lo then None
    else TryCount(t, p, pieces, n - 1)
  }

  /** The phone pattern at `p`: the optional country code is greedy, so the form with it is tried first. */
  function PhoneAt(t: string, p: nat): (r: Option<nat>)
    requires p <= |t|
    ensures r.Some? ==> p <= r.value <= |t| && (Fits(t, p, r.value, COUNTRY_CODE + NUMBER) || Fits(t, p, r.value, NUMBER))
  {
    var r := MatchPieces(t, p, COUNTRY_CODE + NUMBER);
    if r.Some? then r else MatchPieces(t, p, NUMBER)
  }

  function PhoneMatcher(t: string): nat -> Option<nat> {
    (p: nat) => if p <= |t| then PhoneAt(t, p) else None
  }

  /** `phone.group() if phone else None`: the text of the leftmost match. */
  function Phone(t: string): Option<string> {
    match Scan.Search(|t|, 0, PhoneMatcher(t))
    case None => None
    case Some((p, e)) => if p <= e <= |t| then Some(t[p..e]) else None
  }

  /** A piece list that ends with `\d{4}` only fits text ending in four digits, and all its characters are phone characters. */
  lemma {:induction false} FitsShape(t: string, p: nat, e: nat, pieces: seq<Piece>)
    requires Fits(t, p, e, pieces)
    requires pieces != [] && pieces[|pieces| - 1] == Piece(Digit, 4, 4)
    ensures p + 4 <= e <= |t| && forall i :: e - 4 <= i < e ==> IsDigit(t[i])
    ensures forall i :: p <= i < e ==> IsPhoneChar(t[i])
    decreases |pieces|
  {
    var q :| p + pieces[0].lo <= q <= p + pieces[0].hi && q <= e <= |t|
             && AllIn(t, p, q, pieces[0].cls) && Fits(t, q, e, pieces[1..]);
    if |pieces| == 1 {
      assert pieces[1..] == [];
    } else {
      FitsShape(t, q, e, pieces[1..]);
    }
    forall i | p <= i < q ensures IsPhoneChar(t[i]) {
      assert InClass(t[i], pieces[0].cls);
    }
  }

  /** The characters a phone number can contain: digits, `+`, parentheses and separators. */
  predicate IsPhoneChar(c: char) {
    IsDigit(c) || c == '+' || c == '(' || c == ')' || c == '-' || c == '.' || IsSpace(c)
  }

  /** The text of a phone match ends in four digits and holds only phone characters. */
  lemma PhoneMatchShape(t: string, p: nat, e: nat)
    requires p <= |t| && PhoneAt(t, p) == Some(e)
    ensures var s := t[p..e];
            |s| >= 4 && (forall i :: |s| - 4 <= i < |s| ==> IsDigit(s[i]))
            && (forall i :: 0 <= i < |s| ==> IsPhoneChar(s[i]))
  {
    assert (COUNTRY_CODE + NUMBER)[|COUNTRY_CODE + NUMBER| - 1] == Piece(Digit, 4, 4);
    if Fits(t, p, e, COUNTRY_CODE + NUMBER) {
      FitsShape(t, p, e, COUNTRY_CODE + NUMBER);
    } else {
      FitsShape(t, p, e, NUMBER);
    }
    var s := t[p..e];
    forall i | 0 <= i < |s| ensures IsPhoneChar(s[i]) {
      assert s[i] == t[p + i];
    }
    forall i | |s| - 4 <= i < |s| ensures IsDigit(s[i]) {
      assert s[i] == t[p + i];
    }
  }

  /** A stretch from the start where the matcher finds nothing holds no phone match. */
  lemma NoPhoneBefore(t: string, p: nat)
    requires p <= |t| && Scan.NoneIn(0, p, PhoneMatcher(t))
    ensures forall q: nat :: q < p ==> PhoneAt(t, q).None?
  {
    forall q: nat | q < p ensures PhoneAt(t, q).None? {
      Scan.NoneInAt(0, p, PhoneMatcher(t), q);
      assert PhoneMatcher(t)(q) == PhoneAt(t, q);
    }
  }

  /**
   * The number found is made of phone characters only and ends in four
   * digits; it is taken from the leftmost position where the pattern matches,
   * and none is found only when the pattern matches nowhere.
   */
  lemma PhoneFound(t: string)
    ensures Phone(t).Some? ==>
              var s := Phone(t).value;
              |s| >= 4 && (forall i :: |s| - 4 <= i < |s| ==> IsDigit(s[i]))
              && (forall i :: 0 <= i < |s| ==> IsPhoneChar(s[i]))
    ensures Phone(t).Some? ==>
              exists p: nat, e: nat :: p <= e <= |t| && PhoneAt(t, p) == Some(e) && Phone(t).value == t[p..e]
                                      && forall q: nat :: q < p ==> PhoneAt(t, q).None?
    ensures Phone(t).None? ==> forall p: nat :: p <= |t| ==> PhoneAt(t, p).None?
  {
    match Scan.Search(|t|, 0, PhoneMatcher(t))
    case None =>
      forall p: nat | p <= |t| ensures PhoneAt(t, p).None? {
        Scan.NoneInAt(0, |t| + 1, PhoneMatcher(t), p);
        assert PhoneMatcher(t)(p) == PhoneAt(t, p);
      }
    case Some((p, e)) =>
      assert PhoneMatcher(t)(p) == PhoneAt(t, p);
      PhoneMatchShape(t, p, e);
      NoPhoneBefore(t, p);
  }

  // ---------------------------------------------------------------------
  // Name: the first PERSON entity in the first 500 characters
  // ---------------------------------------------------------------------

  /** An entity the recogniser reports: its text and its label (`label_`). */
  datatype Entity = Entity(text: string, kind: string)

  /** `text[:500]` */
  function Prefix500(t: string): (r: string)
    ensures |r| == if |t| < 500 then |t| else 500
    ensures r == t[..|r|]
  {
    if |t| < 500 then t else t[..500]
  }

  /** `next((ent.text for ent in doc.ents if ent.label_ == "PERSON"), None)` */
  function FirstPerson(ents: seq<Entity>): (r: Option<string>)
    ensures r.None? <==> forall i :: 0 <= i < |ents| ==> ents[i].kind != "PERSON"
    ensures r.Some? ==> exists i :: 0 <= i < |ents| && ents[i].kind == "PERSON" && ents[i].text == r.value
                                    && forall j :: 0 <= j < i ==> ents[j].kind != "PERSON"
  {
    if ents == [] then None
    else if ents[0].kind == "PERSON" then Some(ents[0].text)
    else
      var r := FirstPerson(ents[1..]);
      assert forall i :: 1 <= i < |ents| ==> ents[i] == ents[1..][i - 1];
      r
  }

  datatype Info = Info(name: Option<string>, email: Option<string>, phone: Option<string>)

  /** `extract_personal_info`; `ner` is the recogniser, given the text it analyses. */
  function ExtractPersonalInfo(text: string, ner: string -> seq<Entity>): (r: Info)
    ensures r.email == Email(text) && r.phone == Phone(text)
    ensures r.name == FirstPerson(ner(Prefix500(text)))
  {
    Info(FirstPerson(ner(Prefix500(text))), Email(text), Phone(text))
  }

  /** The name depends only on the first 500 characters: text after them never changes it. */
  lemma NameOnlyFromPrefix(t: string, u: string, ner: string -> seq<Entity>)
    requires |t| >= 500 && |u| >= 500 && t[..500] == u[..500]
    ensures ExtractPersonalInfo(t, ner).name == ExtractPersonalInfo(u, ner).name
  {
    assert Prefix500(t) == Prefix500(u);
  }
}
