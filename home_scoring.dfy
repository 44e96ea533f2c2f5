/** The live home page's recommendation scorers: each issue gets a weighted
    sum of a recency term, a language-rank term and a topic-overlap term;
    each mentor gets a language term and a preference term. Both lists are
    then sorted from the highest score down. The viewer's languages, the
    viewer's preferences and the mentors come in as plain values. */
module HomeScoring {
  import opened Records
  import opened Text
  import opened Seqs
  import opened Numeric

  const RecencyWeight: real := 0.2
  const IssueLanguageWeight: real := 0.35
  const TopicWeight: real := 0.45
  const MaxDaysForScoring: real := 180.0

  const MentorLanguageWeight: real := 0.55
  const PreferenceWeight: real := 0.45

  /** A mentor's profile row, with the languages fetched for it. The
      optional fields are the `?` fields of the page's `Mentor` interface. */
  datatype Mentor = Mentor(
    id: string,
    username: string,
    email: string,
    languages: Option<seq<LangShare>>,
    preferences: Option<seq<string>>,
    score: Option<real>)

  /** `Array.isArray(preferences) ? preferences : []`: anything that is not
      an array (the page starts from `null`) counts as no preference. */
  function PreferencesOf(preferences: Option<seq<string>>): seq<string>
  {
    preferences.GetOr([])
  }

  /** `findIndex` by case-insensitive language name, searching from `from`. */
  function FindLangFrom(langs: seq<LangShare>, name: string, from: nat): (r: Option<nat>)
    requires from <= |langs|
    ensures r.Some? ==> from <= r.value < |langs| && EqualsIgnoreCase(langs[r.value].lang, name)
    ensures r.Some? ==> forall j :: from <= j < r.value ==> !EqualsIgnoreCase(langs[j].lang, name)
    ensures r.None? ==> forall j :: from <= j < |langs| ==> !EqualsIgnoreCase(langs[j].lang, name)
    decreases |langs| - from
  {
    if from == |langs| then None
    else if EqualsIgnoreCase(langs[from].lang, name) then Some(from)
    else FindLangFrom(langs, name, from + 1)
  }

  /** The index of the first entry of `langs` whose name equals `name` up to case. */
  function FindLang(langs: seq<LangShare>, name: string): (r: Option<nat>)
    ensures r.Some? ==> r.value < |langs| && EqualsIgnoreCase(langs[r.value].lang, name)
    ensures r.Some? ==> forall j :: 0 <= j < r.value ==> !EqualsIgnoreCase(langs[j].lang, name)
    ensures r.None? <==> forall j :: 0 <= j < |langs| ==> !EqualsIgnoreCase(langs[j].lang, name)
  {
    FindLangFrom(langs, name, 0)
  }

  // ---------------------------------------------------------------- issues

  /** `(1 - min(daysOpen, 180) / 180) * 100 * 0.2` */
  function RecencyTerm(daysOpen: int): real
  {
    (1.0 - MinReal(daysOpen as real, MaxDaysForScoring) / MaxDaysForScoring) * 100.0 * RecencyWeight
  }

  /** The recency term is 20 for a new issue, 0 from 180 days on, and
      within [0, 20] for every non-negative age. */
  lemma RecencyTermBounds(daysOpen: int)
    ensures RecencyTerm(0) == 20.0
    ensures daysOpen >= 180 ==> RecencyTerm(daysOpen) == 0.0
    ensures daysOpen >= 0 ==> 0.0 <= RecencyTerm(daysOpen) <= 20.0
  {
  }

  /** An older issue never gets a larger recency term. */
  lemma RecencyTermAntitone(d1: int, d2: int)
    requires d1 <= d2
    ensures RecencyTerm(d2) <= RecencyTerm(d1)
  {
  }

  /** `((L - i) / L) * 100 * 0.35` for the first viewer language `i` equal to
      the issue's primary language up to case; nothing for an empty primary
      language or no match. */
  function IssueLanguageTerm(primaryLanguage: string, viewer: seq<LangShare>): real
  {
    if primaryLanguage == "" then 0.0
    else
      match FindLang(viewer, primaryLanguage)
      case None => 0.0
      case Some(i) =>
        ((|viewer| - i) as real / |viewer| as real) * 100.0 * IssueLanguageWeight
  }

  /** The language term is 35 when the issue's language is the viewer's first,
      0 when the viewer does not list it, and always within [0, 35]; a
      higher-ranked language earns more. */
  lemma IssueLanguageTermBounds(primaryLanguage: string, viewer: seq<LangShare>)
    ensures 0.0 <= IssueLanguageTerm(primaryLanguage, viewer) <= 35.0
    ensures primaryLanguage != "" && |viewer| > 0 && EqualsIgnoreCase(viewer[0].lang, primaryLanguage)
            ==> IssueLanguageTerm(primaryLanguage, viewer) == 35.0
    ensures (forall j :: 0 <= j < |viewer| ==> !EqualsIgnoreCase(viewer[j].lang, primaryLanguage))
            ==> IssueLanguageTerm(primaryLanguage, viewer) == 0.0
  {
    if primaryLanguage != "" && FindLang(viewer, primaryLanguage).Some? {
      var i := FindLang(viewer, primaryLanguage).value;
      RatioBounds(|viewer| - i, |viewer|);
      if i == 0 {
        DivSelf(|viewer| as real);
      }
    }
  }

  /** A language listed earlier by the viewer gives a larger term. */
  lemma IssueLanguageTermRank(a: string, b: string, viewer: seq<LangShare>)
    requires a != "" && b != ""
    requires FindLang(viewer, a).Some? && FindLang(viewer, b).Some?
    requires FindLang(viewer, a).value < FindLang(viewer, b).value
    ensures IssueLanguageTerm(a, viewer) > IssueLanguageTerm(b, viewer)
  {
    var ia := FindLang(viewer, a).value;
    var ib := FindLang(viewer, b).value;
    DivStrictMono((|viewer| - ia) as real, (|viewer| - ib) as real, |viewer| as real);
  }

  /** Some entry of `prefs` equals `s` up to case: `prefs.some(...)`. */
  predicate MatchesSome(prefs: seq<string>, s: string)
  {
    exists p :: p in prefs && EqualsIgnoreCase(p, s)
  }

  /** `xs.filter(x => prefs.some(p => p.toLowerCase() === x.toLowerCase())).length`:
      repetitions in `xs` are counted each time. */
  function CountMatching(xs: seq<string>, prefs: seq<string>): (n: nat)
    ensures n <= |xs|
    ensures n == 0 <==> forall i :: 0 <= i < |xs| ==> !MatchesSome(prefs, xs[i])
  {
    if xs == [] then 0
    else
      var rest := CountMatching(xs[1..], prefs);
      assert forall i :: 1 <= i < |xs| ==> xs[i] == xs[1..][i - 1];
      (if MatchesSome(prefs, xs[0]) then 1 else 0) + rest
  }

  /** `Math.min(matches / denominator * 100, 100)`: a share in percent, capped at 100. */
  function CappedShare(matches: nat, denominator: nat): (r: real)
    requires denominator > 0
    ensures 0.0 <= r <= 100.0
    ensures matches <= denominator ==> r == matches as real / denominator as real * 100.0
  {
    var share := matches as real / denominator as real;
    RatioBounds(matches, denominator);
    MinReal(share * 100.0, 100.0)
  }

  /** `min(matches / |prefs| * 100, 100) * 0.45`, and nothing without a
      preference or without a matching topic. */
  function TopicTerm(topics: seq<string>, prefs: seq<string>): real
  {
    var matches := CountMatching(topics, prefs);
    if |prefs| > 0 && matches > 0 then
      CappedShare(matches, |prefs|) * TopicWeight
    else 0.0
  }

  /** The topic term is 0 without preferences or without a matching topic,
      and always within [0, 45]. */
  lemma TopicTermBounds(topics: seq<string>, prefs: seq<string>)
    ensures 0.0 <= TopicTerm(topics, prefs) <= 45.0
    ensures prefs == [] ==> TopicTerm(topics, prefs) == 0.0
    ensures (forall i :: 0 <= i < |topics| ==> !MatchesSome(prefs, topics[i])) ==> TopicTerm(topics, prefs) == 0.0
  {
  }

  /** The unrounded issue score: the sum of the three terms. */
  function RawIssueScore(issue: GitHubIssue, viewer: seq<LangShare>, prefs: seq<string>): real
  {
    RecencyTerm(issue.daysOpen) + IssueLanguageTerm(issue.primaryLanguage, viewer)
    + TopicTerm(issue.repositoryTopics, prefs)
  }

  /** For a non-negative age the three terms add up to a value within
      [0, 100], and so does its rounding. */
  lemma RawIssueScoreBounds(issue: GitHubIssue, viewer: seq<LangShare>, prefs: seq<string>)
    requires issue.daysOpen >= 0
    ensures 0.0 <= RawIssueScore(issue, viewer, prefs) <= 100.0
    ensures 0.0 <= RoundCents(RawIssueScore(issue, viewer, prefs)) <= 100.0
  {
    RecencyTermBounds(issue.daysOpen);
    IssueLanguageTermBounds(issue.primaryLanguage, viewer);
    TopicTermBounds(issue.repositoryTopics, prefs);
    RoundCentsWithin(RawIssueScore(issue, viewer, prefs), 0, 100);
  }

  /** `{ ...issue, score: Math.round(score * 100) / 100 }` */
  function ScoreIssue(issue: GitHubIssue, viewer: seq<LangShare>, prefs: seq<string>): (r: GitHubIssue)
    ensures r == issue.(score := r.score)
    ensures issue.daysOpen >= 0 ==> 0.0 <= r.score <= 100.0
    ensures RawIssueScore(issue, viewer, prefs) - 0.005 < r.score <= RawIssueScore(issue, viewer, prefs) + 0.005
    ensures (r.score * 100.0).Floor as real == r.score * 100.0
  {
    if issue.daysOpen >= 0 then
      RawIssueScoreBounds(issue, viewer, prefs);
      issue.(score := RoundCents(RawIssueScore(issue, viewer, prefs)))
    else
      issue.(score := RoundCents(RawIssueScore(issue, viewer, prefs)))
  }

  /** The sort key of `(a, b) => (b.score || 0) - (a.score || 0)`. */
  function IssueScore(issue: GitHubIssue): real
  {
    issue.score
  }

  /** The scoring `map`, before the sort. */
  function ScoreEach(raw: seq<GitHubIssue>, viewer: seq<LangShare>, prefs: seq<string>): (r: seq<GitHubIssue>)
    ensures |r| == |raw|
    ensures forall i :: 0 <= i < |raw| ==> r[i] == ScoreIssue(raw[i], viewer, prefs)
  {
    seq(|raw|, i requires 0 <= i < |raw| => ScoreIssue(raw[i], viewer, prefs))
  }

  /** The `issues` memo: the raw list when it is empty, every score reset to
      0 (order kept) when the viewer has no languages, and otherwise the
      scored list sorted from the highest score down. */
  function ScoreIssues(raw: seq<GitHubIssue>, viewer: seq<LangShare>, preferences: Option<seq<string>>)
    : (r: seq<GitHubIssue>)
    ensures |r| == |raw|
    ensures raw == [] ==> r == raw
    ensures raw != [] && viewer == [] ==> forall i :: 0 <= i < |raw| ==> r[i] == raw[i].(score := 0.0)
    ensures viewer != [] ==> multiset(r) == multiset(ScoreEach(raw, viewer, PreferencesOf(preferences)))
    ensures viewer != [] ==> SortedDesc(r, IssueScore)
  {
    if |raw| == 0 then raw
    else if |viewer| == 0 then seq(|raw|, i requires 0 <= i < |raw| => raw[i].(score := 0.0))
    else SortDesc(ScoreEach(raw, viewer, PreferencesOf(preferences)), IssueScore)
  }

  /** Every issue the scorer returns is one input issue with only its score
      replaced by the rounded three-term sum. */
  lemma ScoredIssueFacts(raw: seq<GitHubIssue>, viewer: seq<LangShare>, preferences: Option<seq<string>>, k: int)
    requires viewer != [] && 0 <= k < |raw|
    ensures exists j :: 0 <= j < |raw| &&
              ScoreIssues(raw, viewer, preferences)[k] == ScoreIssue(raw[j], viewer, PreferencesOf(preferences))
  {
    var mapped := ScoreEach(raw, viewer, PreferencesOf(preferences));
    var r := ScoreIssues(raw, viewer, preferences);
    assert r[k] in multiset(mapped);
    var j :| 0 <= j < |mapped| && mapped[j] == r[k];
  }

  /** When no issue has a negative age, every score the scorer returns lies within [0, 100]. */
  lemma ScoredIssuesWithinRange(raw: seq<GitHubIssue>, viewer: seq<LangShare>, preferences: Option<seq<string>>)
    requires forall i :: 0 <= i < |raw| ==> raw[i].daysOpen >= 0
    ensures forall i :: 0 <= i < |raw| ==> 0.0 <= ScoreIssues(raw, viewer, preferences)[i].score <= 100.0
  {
    if viewer != [] {
      var prefs := PreferencesOf(preferences);
      var r := ScoreIssues(raw, viewer, preferences);
      var mapped := ScoreEach(raw, viewer, prefs);
      forall i | 0 <= i < |raw| ensures 0.0 <= r[i].score <= 100.0 {
        assert r[i] in multiset(mapped);
        var j :| 0 <= j < |mapped| && mapped[j] == r[i];
      }
    }
  }

  // ---------------------------------------------------------------- mentors

  /** The viewer's language `u` contributes `((L - u) / L) * (pct / 100) * 100`
      when the mentor lists it with percentage `pct` (first match), else 0. */
  function MentorLangContribution(viewer: seq<LangShare>, mentorLangs: seq<LangShare>, u: nat): real
    requires u < |viewer|
  {
    match FindLang(mentorLangs, viewer[u].lang)
    case None => 0.0
    case Some(j) =>
      ((|viewer| - u) as real / |viewer| as real) * (mentorLangs[j].percentage / 100.0) * 100.0
  }

  /** `languageScore` after the `forEach` has visited the first `n` viewer languages. */
  function MentorLangSum(viewer: seq<LangShare>, mentorLangs: seq<LangShare>, n: nat): real
    requires n <= |viewer|
  {
    if n == 0 then 0.0
    else MentorLangSum(viewer, mentorLangs, n - 1) + MentorLangContribution(viewer, mentorLangs, n - 1)
  }

  /** `matchCount` after the `forEach` has visited the first `n` viewer languages. */
  function MentorMatchCount(viewer: seq<LangShare>, mentorLangs: seq<LangShare>, n: nat): nat
    requires n <= |viewer|
  {
    if n == 0 then 0
    else MentorMatchCount(viewer, mentorLangs, n - 1)
         + (if FindLang(mentorLangs, viewer[n - 1].lang).Some? then 1 else 0)
  }

  /** The mentor's language term: the sum divided by `L`, weighted 0.55,
      when at least one viewer language matched; 0 for a mentor without
      languages. */
  function MentorLanguageTerm(viewer: seq<LangShare>, mentorLangs: Option<seq<LangShare>>): real
    requires viewer != []
  {
    if mentorLangs.None? || mentorLangs.value == [] then 0.0
    else if MentorMatchCount(viewer, mentorLangs.value, |viewer|) > 0 then
      MentorLangSum(viewer, mentorLangs.value, |viewer|) / |viewer| as real * MentorLanguageWeight
    else 0.0
  }

  /** The `forEach` over the viewer's languages that accumulates
      `languageScore` and `matchCount`, then the division and the weight. */
  method MentorLanguageScore(viewer: seq<LangShare>, mentorLangs: Option<seq<LangShare>>) returns (term: real)
    requires viewer != []
    ensures term == MentorLanguageTerm(viewer, mentorLangs)
  {
    term := 0.0;
    if mentorLangs.Some? && |mentorLangs.value| > 0 {
      var langs := mentorLangs.value;
      var languageScore := 0.0;
      var matchCount := 0;
      var userIndex := 0;
      while userIndex < |viewer|
        invariant 0 <= userIndex <= |viewer|
        invariant languageScore == MentorLangSum(viewer, langs, userIndex)
        invariant matchCount == MentorMatchCount(viewer, langs, userIndex)
      {
        var found := FindLang(langs, viewer[userIndex].lang);
        if found.Some? {
          var userWeight := (|viewer| - userIndex) as real / |viewer| as real;
          var mentorWeight := langs[found.value].percentage / 100.0;
          languageScore := languageScore + userWeight * mentorWeight * 100.0;
          matchCount := matchCount + 1;
        }
        userIndex := userIndex + 1;
      }
      if matchCount > 0 {
        languageScore := languageScore / |viewer| as real;
        term := term + languageScore * MentorLanguageWeight;
      }
    }
  }

  /** Without a viewer language the mentor also lists, the sum stays 0. */
  lemma {:induction false} NoMatchNoSum(viewer: seq<LangShare>, mentorLangs: seq<LangShare>, n: nat)
    requires n <= |viewer|
    requires MentorMatchCount(viewer, mentorLangs, n) == 0
    ensures MentorLangSum(viewer, mentorLangs, n) == 0.0
  {
    if n > 0 {
      NoMatchNoSum(viewer, mentorLangs, n - 1);
    }
  }

  /** With percentages in [0, 100], one viewer language contributes at most 100. */
  lemma MentorLangContributionBounds(viewer: seq<LangShare>, mentorLangs: seq<LangShare>, u: nat)
    requires u < |viewer|
    requires forall j :: 0 <= j < |mentorLangs| ==> 0.0 <= mentorLangs[j].percentage <= 100.0
    ensures 0.0 <= MentorLangContribution(viewer, mentorLangs, u) <= 100.0
  {
    match FindLang(mentorLangs, viewer[u].lang)
    case None =>
    case Some(j) =>
      RatioBounds(|viewer| - u, |viewer|);
      DivBound(mentorLangs[j].percentage, 100.0, 1.0);
      UnitProductBound((|viewer| - u) as real / |viewer| as real, mentorLangs[j].percentage / 100.0);
  }

  /** With percentages in [0, 100], the first `n` contributions add up to
      at most `100 * n` and at least 0. */
  lemma {:induction false} MentorLangSumBounds(viewer: seq<LangShare>, mentorLangs: seq<LangShare>, n: nat)
    requires n <= |viewer|
    requires forall j :: 0 <= j < |mentorLangs| ==> 0.0 <= mentorLangs[j].percentage <= 100.0
    ensures 0.0 <= MentorLangSum(viewer, mentorLangs, n) <= 100.0 * n as real
  {
    if n > 0 {
      MentorLangSumBounds(viewer, mentorLangs, n - 1);
      MentorLangContributionBounds(viewer, mentorLangs, n - 1);
    }
  }

  /** The mentor language term is 0 unless some viewer language appears
      among the mentor's, and with percentages in [0, 100] it lies within [0, 55]. */
  lemma MentorLanguageTermBounds(viewer: seq<LangShare>, mentorLangs: Option<seq<LangShare>>)
    requires viewer != []
    ensures (mentorLangs.None? ||
             forall u :: 0 <= u < |viewer| ==> FindLang(mentorLangs.value, viewer[u].lang).None?)
            ==> MentorLanguageTerm(viewer, mentorLangs) == 0.0
    ensures mentorLangs.Some? && (forall j :: 0 <= j < |mentorLangs.value| ==> 0.0 <= mentorLangs.value[j].percentage <= 100.0)
            ==> 0.0 <= MentorLanguageTerm(viewer, mentorLangs) <= 55.0
  {
    if mentorLangs.Some? {
      var langs := mentorLangs.value;
      if forall u :: 0 <= u < |viewer| ==> FindLang(langs, viewer[u].lang).None? {
        NoMatchCounted(viewer, langs, |viewer|);
      }
      if forall j :: 0 <= j < |langs| ==> 0.0 <= langs[j].percentage <= 100.0 {
        MentorLangSumBounds(viewer, langs, |viewer|);
        DivBound(MentorLangSum(viewer, langs, |viewer|), |viewer| as real, 100.0);
      }
    }
  }

  /** With no viewer language found among the mentor's, the match count is 0. */
  lemma {:induction false} NoMatchCounted(viewer: seq<LangShare>, mentorLangs: seq<LangShare>, n: nat)
    requires n <= |viewer|
    requires forall u :: 0 <= u < n ==> FindLang(mentorLangs, viewer[u].lang).None?
    ensures MentorMatchCount(viewer, mentorLangs, n) == 0
  {
    if n > 0 {
      NoMatchCounted(viewer, mentorLangs, n - 1);
    }
  }

  /** `min(matches / max(|viewer prefs|, |mentor prefs|) * 100, 100) * 0.45`,
      with matches the mentor preferences that equal some viewer preference
      up to case; 0 when either side has no preference or nothing matches. */
  function PreferenceTerm(userPrefs: seq<string>, mentorPrefs: Option<seq<string>>): real
  {
    if |userPrefs| > 0 && mentorPrefs.Some? && |mentorPrefs.value| > 0 then
      var matches := CountMatching(mentorPrefs.value, userPrefs);
      if matches > 0 then
        var denominator := if |userPrefs| >= |mentorPrefs.value| then |userPrefs| else |mentorPrefs.value|;
        CappedShare(matches, denominator) * PreferenceWeight
      else 0.0
    else 0.0
  }

  /** The preference term lies within [0, 45], and the cap at 100 never
      bites: the ratio is already at most 1 because the denominator is at
      least the number of mentor preferences. */
  lemma PreferenceTermBounds(userPrefs: seq<string>, mentorPrefs: Option<seq<string>>)
    ensures 0.0 <= PreferenceTerm(userPrefs, mentorPrefs) <= 45.0
    ensures |userPrefs| > 0 && mentorPrefs.Some? && |mentorPrefs.value| > 0 ==>
              var matches := CountMatching(mentorPrefs.value, userPrefs);
              var denominator := if |userPrefs| >= |mentorPrefs.value| then |userPrefs| else |mentorPrefs.value|;
              CappedShare(matches, denominator) == matches as real / denominator as real * 100.0
    ensures userPrefs == [] || mentorPrefs.None? ==> PreferenceTerm(userPrefs, mentorPrefs) == 0.0
  {
    if |userPrefs| > 0 && mentorPrefs.Some? && |mentorPrefs.value| > 0 {
      var matches := CountMatching(mentorPrefs.value, userPrefs);
      var denominator := if |userPrefs| >= |mentorPrefs.value| then |userPrefs| else |mentorPrefs.value|;
      assert matches <= denominator;
    }
  }

  /** `{ ...mentor, score: Math.round(score * 100) / 100 }` */
  function ScoreMentor(mentor: Mentor, viewer: seq<LangShare>, userPrefs: seq<string>): (r: Mentor)
    requires viewer != []
    ensures r == mentor.(score := r.score) && r.score.Some?
    ensures var raw := MentorLanguageTerm(viewer, mentor.languages) + PreferenceTerm(userPrefs, mentor.preferences);
            raw - 0.005 < r.score.value <= raw + 0.005
    ensures (r.score.value * 100.0).Floor as real == r.score.value * 100.0
  {
    var raw := MentorLanguageTerm(viewer, mentor.languages) + PreferenceTerm(userPrefs, mentor.preferences);
    mentor.(score := Some(RoundCents(raw)))
  }

  /** The sort key of `(a, b) => (b.score || 0) - (a.score || 0)`. */
  function MentorScore(mentor: Mentor): real
  {
    mentor.score.GetOr(0.0)
  }

  /** The scoring `map` over the mentors, before the sort. */
  function ScoreEachMentor(raw: seq<Mentor>, viewer: seq<LangShare>, userPrefs: seq<string>): (r: seq<Mentor>)
    requires viewer != []
    ensures |r| == |raw|
    ensures forall i :: 0 <= i < |raw| ==> r[i] == ScoreMentor(raw[i], viewer, userPrefs)
  {
    seq(|raw|, i requires 0 <= i < |raw| => ScoreMentor(raw[i], viewer, userPrefs))
  }

  /** The `mentors` memo: the raw list, unscored, when there is no mentor or
      the viewer has no languages; otherwise the scored mentors, sorted from
      the highest score down. */
  function ScoreMentors(raw: seq<Mentor>, viewer: seq<LangShare>, preferences: Option<seq<string>>): (r: seq<Mentor>)
    ensures |r| == |raw|
    ensures raw == [] || viewer == [] ==> r == raw
    ensures raw != [] && viewer != [] ==>
              multiset(r) == multiset(ScoreEachMentor(raw, viewer, PreferencesOf(preferences)))
    ensures SortedDesc(r, MentorScore) || viewer == []
  {
    if |raw| == 0 || |viewer| == 0 then raw
    else SortDesc(ScoreEachMentor(raw, viewer, PreferencesOf(preferences)), MentorScore)
  }

  /** Every mentor the scorer returns is one input mentor with only the score set. */
  lemma ScoredMentorFacts(raw: seq<Mentor>, viewer: seq<LangShare>, preferences: Option<seq<string>>, k: int)
    requires viewer != [] && 0 <= k < |raw|
    ensures exists j :: 0 <= j < |raw| &&
              ScoreMentors(raw, viewer, preferences)[k] == ScoreMentor(raw[j], viewer, PreferencesOf(preferences))
  {
    var r := ScoreMentors(raw, viewer, preferences);
    var mapped := ScoreEachMentor(raw, viewer, PreferencesOf(preferences));
    assert r[k] in multiset(mapped);
    var j :| 0 <= j < |mapped| && mapped[j] == r[k];
  }

  /** The mentor's language percentages, when it has any, lie within [0, 100]. */
  predicate PercentagesInRange(mentor: Mentor)
  {
    mentor.languages.Some? ==>
      forall j :: 0 <= j < |mentor.languages.value| ==> 0.0 <= mentor.languages.value[j].percentage <= 100.0
  }

  /** With percentages in [0, 100] a mentor's score lies within [0, 100]. */
  lemma ScoreMentorWithinRange(mentor: Mentor, viewer: seq<LangShare>, userPrefs: seq<string>)
    requires viewer != [] && PercentagesInRange(mentor)
    ensures 0.0 <= ScoreMentor(mentor, viewer, userPrefs).score.value <= 100.0
  {
    MentorLanguageTermBounds(viewer, mentor.languages);
    PreferenceTermBounds(userPrefs, mentor.preferences);
    RoundCentsWithin(MentorLanguageTerm(viewer, mentor.languages) + PreferenceTerm(userPrefs, mentor.preferences), 0, 100);
  }

  /** When every mentor's percentages lie within [0, 100], every score in the
      scored list lies within [0, 100]. */
  lemma ScoredMentorsWithinRange(raw: seq<Mentor>, viewer: seq<LangShare>, preferences: Option<seq<string>>)
    requires viewer != []
    requires forall i :: 0 <= i < |raw| ==> PercentagesInRange(raw[i])
    ensures forall k :: 0 <= k < |raw| ==> 0.0 <= MentorScore(ScoreMentors(raw, viewer, preferences)[k]) <= 100.0
  {
    forall k | 0 <= k < |raw|
      ensures 0.0 <= MentorScore(ScoreMentors(raw, viewer, preferences)[k]) <= 100.0
    {
      ScoredMentorFacts(raw, viewer, preferences, k);
      var j :| 0 <= j < |raw| &&
        ScoreMentors(raw, viewer, preferences)[k] == ScoreMentor(raw[j], viewer, PreferencesOf(preferences));
      ScoreMentorWithinRange(raw[j], viewer, PreferencesOf(preferences));
    }
  }

  // ---------------------------------------------------------------- recency filter

  /** Created at or after `cutoff`. */
  function CreatedSince(cutoff: int): GitHubIssue -> bool
  {
    (issue: GitHubIssue) => issue.dateCreated >= cutoff
  }

  /** `filterRecentIssues`, with the date twelve months back as the parameter `cutoff`. */
  function FilterRecentIssues(issues: seq<GitHubIssue>, cutoff: int): (r: seq<GitHubIssue>)
    ensures forall i :: 0 <= i < |r| ==> r[i] in issues && r[i].dateCreated >= cutoff
    ensures forall i :: 0 <= i < |issues| && issues[i].dateCreated >= cutoff ==> issues[i] in r
  {
    Filter(issues, CreatedSince(cutoff))
  }

  /** The filter keeps the order of the issues: filtering a concatenation is
      the concatenation of the filtered parts, and a list of recent issues is
      kept whole. */
  lemma FilterRecentIssuesOrder(a: seq<GitHubIssue>, b: seq<GitHubIssue>, cutoff: int)
    ensures FilterRecentIssues(a + b, cutoff) == FilterRecentIssues(a, cutoff) + FilterRecentIssues(b, cutoff)
    ensures (forall i :: 0 <= i < |a| ==> a[i].dateCreated >= cutoff) ==> FilterRecentIssues(a, cutoff) == a
  {
    FilterConcat(a, b, CreatedSince(cutoff));
    if forall i :: 0 <= i < |a| ==> a[i].dateCreated >= cutoff {
      FilterAll(a, CreatedSince(cutoff));
    }
  }
}
