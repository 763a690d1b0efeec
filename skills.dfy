/**
 * `extract_technical_skills`: every taxonomy term found as a whole word in
 * the lower-cased text, grouped by category, each with the proficiency word
 * that follows some occurrence of it on the same line.
 */
module Skills {
  import opened Options
  import opened Text
  import opened Words
  import opened Taxonomy
  import Scan

  /** `(advanced|intermediate|expert|beginner|proficient)`, in the order the alternation tries them. */
  const LEVELS: seq<string> := ["advanced", "intermediate", "expert", "beginner", "proficient"]

  /** The alternation at `q`: the first level word, from the `k`-th on, that occurs there. */
  function TryLevels(t: string, q: nat, k: nat): (r: Option<string>)
    requires k <= |LEVELS|
    ensures r.Some? ==> r.value in LEVELS && MatchesAt(t, q, r.value)
    ensures r.None? ==> forall j :: k <= j < |LEVELS| ==> !MatchesAt(t, q, LEVELS[j])
    decreases |LEVELS| - k
  {
    if k == |LEVELS| then None
    else if MatchesAt(t, q, LEVELS[k]) then Some(LEVELS[k])
    else TryLevels(t, q, k + 1)
  }

  /**
   * `.*?(advanced|…)` from `q`: the lazy `.*?` first tries the alternation
   * where it stands and takes one more character only when that fails; `.`
   * takes any character but a newline.
   */
  function LevelFrom(t: string, q: nat): (r: Option<string>)
    requires q <= |t|
    ensures r.Some? ==> r.value in LEVELS &&
                        exists e :: q <= e <= |t| && NoNewline(t, q, e) && MatchesAt(t, e, r.value)
    ensures r.None? ==> forall e, w :: q <= e <= |t| && NoNewline(t, q, e) && w in LEVELS ==> !MatchesAt(t, e, w)
    decreases |t| - q
  {
    var here := TryLevels(t, q, 0);
    if here.Some? then here
    else if q == |t| || t[q] == '\n' then None
    else LevelFrom(t, q + 1)
  }

  /** `re.escape(skill) + '.*?(…)'` tried at `p`. */
  function LevelMatcher(t: string, skill: string): nat -> Option<string> {
    (p: nat) => if p <= |t| && MatchesAt(t, p, skill) then LevelFrom(t, p + |skill|) else None
  }

  /** `level_match.group(1) if level_match else None` */
  function Level(t: string, skill: string): Option<string> {
    match Scan.Search(|t|, 0, LevelMatcher(t, skill))
    case None => None
    case Some((_, l)) => Some(l)
  }

  /** Some occurrence of `skill` (not necessarily a whole word) is followed on its own line by level word `l`. */
  ghost predicate FollowedByLevel(t: string, skill: string, l: string) {
    exists p: nat, e: nat :: p + |skill| <= e <= |t| && MatchesAt(t, p, skill) && NoNewline(t, p + |skill|, e) && MatchesAt(t, e, l)
  }

  /** A reported level is a level word that follows an occurrence of the skill on the same line. */
  lemma LevelSound(t: string, skill: string)
    ensures Level(t, skill).Some? ==> Level(t, skill).value in LEVELS && FollowedByLevel(t, skill, Level(t, skill).value)
  {
    var at := LevelMatcher(t, skill);
    match Scan.Search(|t|, 0, at)
    case Some((p, l)) =>
      assert at(p) == LevelFrom(t, p + |skill|);
    case None =>
  }

  /** A level word after an occurrence of the skill on the same line is always noticed. */
  lemma LevelComplete(t: string, skill: string, l: string, p: nat, e: nat)
    requires l in LEVELS && p + |skill| <= e <= |t|
    requires MatchesAt(t, p, skill) && NoNewline(t, p + |skill|, e) && MatchesAt(t, e, l)
    ensures Level(t, skill).Some?
  {
    var at := LevelMatcher(t, skill);
    assert at(p) == LevelFrom(t, p + |skill|);
    Scan.SearchIsLeftmost(|t|, 0, at, p);
  }

  /** A skill entry: `{'skill': skill, 'level': level}`. */
  datatype Skill = Skill(name: string, level: Option<string>)

  /** Each name with the level detected for it. */
  function WithLevels(t: string, names: seq<string>): (r: seq<Skill>)
    ensures |r| == |names|
    ensures forall i :: 0 <= i < |r| ==> r[i].name == names[i]
  {
    seq(|names|, i requires 0 <= i < |names| => Skill(names[i], Level(t, names[i])))
  }

  /** The entries one category contributes: its terms found as whole words, in the category's order. */
  function SkillsIn(t: string, terms: seq<string>): seq<Skill> {
    WithLevels(t, FoundTerms(t, terms))
  }

  /** What `dict(skills_found)` holds after the categories of `table`: only the categories with at least one hit, in table order. */
  function SkillsOf(t: string, table: Table): seq<(string, seq<Skill>)> {
    if table == [] then []
    else
      var last := table[|table| - 1];
      var hits := SkillsIn(t, last.1);
      SkillsOf(t, table[..|table| - 1]) + (if hits == [] then [] else [(last.0, hits)])
  }

  /**
   * Within a category, a term is reported exactly when it is one of the
   * category's terms and occurs as a whole word, and it carries the level
   * detected for it.
   */
  lemma SkillReported(t: string, terms: seq<string>, w: string)
    ensures (exists i :: 0 <= i < |SkillsIn(t, terms)| && SkillsIn(t, terms)[i].name == w)
            <==> w in terms && ContainsWholeWord(t, w)
    ensures forall i :: 0 <= i < |SkillsIn(t, terms)| ==> SkillsIn(t, terms)[i].level == Level(t, SkillsIn(t, terms)[i].name)
  {
    FoundTermsMembership(t, terms, w);
    var found := FoundTerms(t, terms);
    if w in found {
      var i :| 0 <= i < |found| && found[i] == w;
      assert SkillsIn(t, terms)[i].name == w;
    }
  }

  /** Within a category, names follow the category's order and, when its terms are distinct, none repeats. */
  lemma SkillsInOrder(t: string, terms: seq<string>)
    ensures |SkillsIn(t, terms)| == |FoundTerms(t, terms)|
    ensures forall i :: 0 <= i < |SkillsIn(t, terms)| ==> SkillsIn(t, terms)[i].name == FoundTerms(t, terms)[i]
    ensures IsSubsequence(FoundTerms(t, terms), terms)
    ensures NoDuplicates(terms) ==> NoDuplicates(FoundTerms(t, terms))
  {
    FoundTermsInListOrder(t, terms);
    if NoDuplicates(terms) {
      FoundTermsNoDuplicates(t, terms);
    }
  }

  /** Every category present has hits, and they are exactly the hits of a table category of that name. */
  lemma {:induction false} SkillsOfSound(t: string, table: Table)
    ensures |SkillsOf(t, table)| <= |table|
    ensures forall i :: 0 <= i < |SkillsOf(t, table)| ==>
              SkillsOf(t, table)[i].1 != [] &&
              exists k :: 0 <= k < |table| && SkillsOf(t, table)[i] == (table[k].0, SkillsIn(t, table[k].1))
    decreases |table|
  {
    if table != [] {
      var init := table[..|table| - 1];
      SkillsOfSound(t, init);
      var r := SkillsOf(t, table);
      var n := |SkillsOf(t, init)|;
      forall i | 0 <= i < |r|
        ensures r[i].1 != [] && exists k :: 0 <= k < |table| && r[i] == (table[k].0, SkillsIn(t, table[k].1))
      {
        if i < n {
          var k :| 0 <= k < |init| && SkillsOf(t, init)[i] == (init[k].0, SkillsIn(t, init[k].1));
          assert init[k] == table[k];
        } else {
          assert r[i] == (table[|table| - 1].0, SkillsIn(t, table[|table| - 1].1));
        }
      }
    }
  }

  /** Every table category with at least one hit is present, with its hits. */
  lemma {:induction false} SkillsOfComplete(t: string, table: Table, k: nat)
    requires k < |table| && SkillsIn(t, table[k].1) != []
    ensures (table[k].0, SkillsIn(t, table[k].1)) in SkillsOf(t, table)
    decreases |table|
  {
    var init := table[..|table| - 1];
    if k < |init| {
      assert init[k] == table[k];
      SkillsOfComplete(t, init, k);
    }
  }

  /** One more term of a category: its entry, if it is found, comes after the others. */
  lemma SkillsInSnoc(t: string, terms: seq<string>, j: nat)
    requires j < |terms|
    ensures SkillsIn(t, terms[..j + 1]) ==
            SkillsIn(t, terms[..j]) + (if HasWholeWord(t, terms[j]) then [Skill(terms[j], Level(t, terms[j]))] else [])
  {
    assert terms[..j + 1] == terms[..j] + [terms[j]];
    FoundTermsAppend(t, terms[..j], [terms[j]]);
    assert [terms[j]][1..] == [];
  }

  /** No category of the taxonomy lists a term twice. */
  lemma TechSkillsDistinct()
    ensures forall k :: 0 <= k < |TECH_SKILLS| ==> NoDuplicates(TECH_SKILLS[k].1)
  {
    forall k, i, j | 0 <= k < |TECH_SKILLS| && 0 <= i < j < |TECH_SKILLS[k].1|
      ensures TECH_SKILLS[k].1[i] != TECH_SKILLS[k].1[j]
    {
      var v := TECH_SKILLS[k].1[i];
      var w := TECH_SKILLS[k].1[j];
      if |v| == |w| && v[0] == w[0] {
        assert v[5] != w[5];
      }
    }
  }

  /** No skill is named twice in a category's list. */
  predicate DistinctNames(skills: seq<Skill>) {
    forall a, b :: 0 <= a < b < |skills| ==> skills[a].name != skills[b].name
  }

  /** When no category lists a term twice, no category of the result names a skill twice. */
  lemma SkillsOfDistinct(t: string, table: Table)
    requires forall k :: 0 <= k < |table| ==> NoDuplicates(table[k].1)
    ensures forall i :: 0 <= i < |SkillsOf(t, table)| ==> DistinctNames(SkillsOf(t, table)[i].1)
  {
    SkillsOfSound(t, table);
    forall i | 0 <= i < |SkillsOf(t, table)| ensures DistinctNames(SkillsOf(t, table)[i].1) {
      var k :| 0 <= k < |table| && SkillsOf(t, table)[i] == (table[k].0, SkillsIn(t, table[k].1));
      SkillsInOrder(t, table[k].1);
    }
  }

  /**
   * `extract_technical_skills`: the nested loop over the categories of the
   * taxonomy and their terms; each skill appears at most once in its category.
   */
  method ExtractTechnicalSkills(text: string) returns (skills: seq<(string, seq<Skill>)>)
    ensures skills == SkillsOf(Lower(text), TECH_SKILLS)
    ensures forall i :: 0 <= i < |skills| ==> DistinctNames(skills[i].1)
  {
    skills := SkillsByCategory(Lower(text), TECH_SKILLS);
    TechSkillsDistinct();
    SkillsOfDistinct(Lower(text), TECH_SKILLS);
  }

  /** The loops of `extract_technical_skills` over any table, on text already lower-cased. */
  method SkillsByCategory(t: string, table: Table) returns (skills: seq<(string, seq<Skill>)>)
    ensures skills == SkillsOf(t, table)
  {
    skills := [];
    for k := 0 to |table|
      invariant skills == SkillsOf(t, table[..k])
    {
      var category := table[k].0;
      var terms := table[k].1;
      var hits: seq<Skill> := [];
      for j := 0 to |terms|
        invariant hits == SkillsIn(t, terms[..j])
      {
        SkillsInSnoc(t, terms, j);
        if HasWholeWord(t, terms[j]) {
          var level := Level(t, terms[j]);
          hits := hits + [Skill(terms[j], level)];
        }
      }
      assert terms[..|terms|] == terms;
      if hits != [] {
        skills := skills + [(category, hits)];
      }
      assert table[..k + 1][..k] == table[..k];
    }
    assert table[..|table|] == table;
  }
}
