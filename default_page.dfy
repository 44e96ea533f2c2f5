/** The earlier draft of the home page: `sortLanguages` scores the issues
    with the same three weighted terms as the live page and aggregates
    them by repository, and `fetchUserLanguages` computes the viewer's
    language profile like the `user-languages` route, but without the
    route's guard against an all-zero byte total. */
module DefaultPage {
  import opened Records
  import opened Text
  import opened Seqs
  import opened Numeric
  import HomeScoring
  import RepoAggregation
  import UserLanguages

  /** The effect only runs `sortLanguages` when there are issues and
      languages and the preferences are truthy (any array, even an empty one). */
  predicate ShouldSort(issues: seq<GitHubIssue>, userLanguages: seq<LangShare>, preferences: Option<seq<string>>)
  {
    |issues| > 0 && |userLanguages| > 0 && preferences.Some?
  }

  // ---------------------------------------------------------------- scoring

  /** The draft's language term: `((L - i) / L) * 100 * 0.35` for the first
      viewer language equal to the issue's primary language up to case, and
      nothing without a match. Unlike the live page there is no check for
      an empty primary language. */
  function DraftLanguageTerm(primaryLanguage: string, viewer: seq<LangShare>): real
  {
    match HomeScoring.FindLang(viewer, primaryLanguage)
    case None => 0.0
    case Some(i) => ((|viewer| - i) as real / |viewer| as real) * 100.0 * HomeScoring.IssueLanguageWeight
  }

  /** The draft's language term is the live one for every issue with a
      primary language; for an issue without one it is the term of a
      viewer language named "" when the viewer lists one, where the live
      page gives nothing. */
  lemma DraftLanguageTermAgrees(primaryLanguage: string, viewer: seq<LangShare>)
    ensures primaryLanguage != "" ==>
              DraftLanguageTerm(primaryLanguage, viewer) == HomeScoring.IssueLanguageTerm(primaryLanguage, viewer)
    ensures 0.0 <= DraftLanguageTerm(primaryLanguage, viewer) <= 35.0
    ensures primaryLanguage == "" ==>
              (DraftLanguageTerm(primaryLanguage, viewer) > 0.0 <==> exists j :: 0 <= j < |viewer| && viewer[j].lang == "")
  {
    match HomeScoring.FindLang(viewer, primaryLanguage)
    case None =>
    case Some(i) =>
      var L := |viewer| as real;
      assert 0.0 < (|viewer| - i) as real <= L;
      assert 0.0 < (|viewer| - i) as real / L <= 1.0;
    if primaryLanguage == "" {
      forall j | 0 <= j < |viewer| ensures EqualsIgnoreCase(viewer[j].lang, "") <==> viewer[j].lang == "" {
        assert |LowerStr(viewer[j].lang)| == |viewer[j].lang| && LowerStr("") == "";
      }
    }
  }

  /** The unrounded draft score: recency, language and topic terms. */
  function DraftRawScore(issue: GitHubIssue, viewer: seq<LangShare>, prefs: seq<string>): real
  {
    HomeScoring.RecencyTerm(issue.daysOpen) + DraftLanguageTerm(issue.primaryLanguage, viewer)
    + HomeScoring.TopicTerm(issue.repositoryTopics, prefs)
  }

  /** `{ ...issue, score: Math.round(score * 100) / 100 }` */
  function DraftScoreIssue(issue: GitHubIssue, viewer: seq<LangShare>, prefs: seq<string>): (r: GitHubIssue)
    ensures r == issue.(score := r.score)
    ensures DraftRawScore(issue, viewer, prefs) - 0.005 < r.score <= DraftRawScore(issue, viewer, prefs) + 0.005
    ensures (r.score * 100.0).Floor as real == r.score * 100.0
  {
    issue.(score := RoundCents(DraftRawScore(issue, viewer, prefs)))
  }

  /** For a non-negative age the draft score lies within [0, 100]. */
  lemma DraftScoreWithinRange(issue: GitHubIssue, viewer: seq<LangShare>, prefs: seq<string>)
    requires issue.daysOpen >= 0
    ensures 0.0 <= DraftScoreIssue(issue, viewer, prefs).score <= 100.0
  {
    HomeScoring.RecencyTermBounds(issue.daysOpen);
    DraftLanguageTermAgrees(issue.primaryLanguage, viewer);
    HomeScoring.TopicTermBounds(issue.repositoryTopics, prefs);
    RoundCentsWithin(DraftRawScore(issue, viewer, prefs), 0, 100);
  }

  /** The scoring `map`, before the sort. */
  function DraftScoreEach(issues: seq<GitHubIssue>, viewer: seq<LangShare>, prefs: seq<string>): (r: seq<GitHubIssue>)
    ensures |r| == |issues|
    ensures forall i :: 0 <= i < |issues| ==> r[i] == DraftScoreIssue(issues[i], viewer, prefs)
  {
    seq(|issues|, i requires 0 <= i < |issues| => DraftScoreIssue(issues[i], viewer, prefs))
  }

  /** `scoredIssues.sort((a, b) => b.score - a.score)` */
  function DraftScoredIssues(issues: seq<GitHubIssue>, viewer: seq<LangShare>, prefs: seq<string>): (r: seq<GitHubIssue>)
    ensures multiset(r) == multiset(DraftScoreEach(issues, viewer, prefs))
    ensures SortedDesc(r, HomeScoring.IssueScore)
  {
    SortDesc(DraftScoreEach(issues, viewer, prefs), HomeScoring.IssueScore)
  }

  /** An issue with a primary language gets the live page's score. */
  lemma DraftIssueAgrees(issue: GitHubIssue, viewer: seq<LangShare>, prefs: seq<string>)
    requires issue.primaryLanguage != ""
    ensures DraftScoreIssue(issue, viewer, prefs) == HomeScoring.ScoreIssue(issue, viewer, prefs)
  {
    DraftLanguageTermAgrees(issue.primaryLanguage, viewer);
    assert DraftRawScore(issue, viewer, prefs) == HomeScoring.RawIssueScore(issue, viewer, prefs);
  }

  /** When every issue has a primary language, the draft ranks the issues
      exactly as the live page does for the same viewer and preferences. */
  lemma DraftAgreesWithLivePage(issues: seq<GitHubIssue>, viewer: seq<LangShare>, prefs: seq<string>)
    requires viewer != []
    requires forall i :: 0 <= i < |issues| ==> issues[i].primaryLanguage != ""
    ensures DraftScoredIssues(issues, viewer, prefs) == HomeScoring.ScoreIssues(issues, viewer, Some(prefs))
  {
    var draft := DraftScoreEach(issues, viewer, prefs);
    var live := HomeScoring.ScoreEach(issues, viewer, prefs);
    forall i | 0 <= i < |issues| ensures draft[i] == live[i] {
      DraftIssueAgrees(issues[i], viewer, prefs);
    }
    assert draft == live;
    if issues != [] {
      assert HomeScoring.ScoreIssues(issues, viewer, Some(prefs)) == SortDesc(live, HomeScoring.IssueScore);
    }
  }

  /** `sortLanguages`: the ranked issues, and the repository entries built
      from them in ranked order. */
  method SortLanguages(issues: seq<GitHubIssue>, viewer: seq<LangShare>, prefs: seq<string>)
    returns (sortedIssues: seq<GitHubIssue>, repositories: seq<Repository>)
    ensures sortedIssues == DraftScoredIssues(issues, viewer, prefs)
    ensures repositories == RepoAggregation.AggregateRepositories(sortedIssues)
  {
    sortedIssues := DraftScoredIssues(issues, viewer, prefs);
    repositories := RepoAggregation.BuildRepositories(sortedIssues);
  }

  /** The effect on `[issues, userLanguages, preferences]`: once all three
      are present it replaces the issues by their ranking and the
      repositories by their aggregation; otherwise both stay as they are. */
  method SortWhenReady(issues: seq<GitHubIssue>, userLanguages: seq<LangShare>, preferences: Option<seq<string>>,
                       repositories: seq<Repository>)
    returns (issues': seq<GitHubIssue>, repositories': seq<Repository>)
    ensures ShouldSort(issues, userLanguages, preferences) ==>
              issues' == DraftScoredIssues(issues, userLanguages, preferences.value)
              && repositories' == RepoAggregation.AggregateRepositories(issues')
    ensures !ShouldSort(issues, userLanguages, preferences) ==> issues' == issues && repositories' == repositories
  {
    if |issues| > 0 && |userLanguages| > 0 && preferences.Some? {
      issues', repositories' := SortLanguages(issues, userLanguages, preferences.value);
    } else {
      issues', repositories' := issues, repositories;
    }
  }

  /** Scoring ignores the stored score, so scoring an already scored issue
      gives it back unchanged. */
  lemma RescoreIssue(issue: GitHubIssue, viewer: seq<LangShare>, prefs: seq<string>)
    ensures DraftScoreIssue(DraftScoreIssue(issue, viewer, prefs), viewer, prefs) == DraftScoreIssue(issue, viewer, prefs)
  {
    var scored := DraftScoreIssue(issue, viewer, prefs);
    assert DraftRawScore(scored, viewer, prefs) == DraftRawScore(issue, viewer, prefs);
  }

  /** Setting the issues re-triggers the effect, which ranks its own output
      again: the second ranking is the first one unchanged. */
  lemma RankingIsFixedPoint(issues: seq<GitHubIssue>, viewer: seq<LangShare>, prefs: seq<string>)
    ensures var ranked := DraftScoredIssues(issues, viewer, prefs);
            DraftScoredIssues(ranked, viewer, prefs) == ranked
  {
    var ranked := DraftScoredIssues(issues, viewer, prefs);
    var scored := DraftScoreEach(issues, viewer, prefs);
    var again := DraftScoreEach(ranked, viewer, prefs);
    forall i | 0 <= i < |ranked| ensures again[i] == ranked[i] {
      assert ranked[i] in multiset(scored);
      var j :| 0 <= j < |scored| && scored[j] == ranked[i];
      RescoreIssue(issues[j], viewer, prefs);
    }
    assert again == ranked;
    SortDescOfSorted(ranked, HomeScoring.IssueScore);
  }

  // ---------------------------------------------------------------- languages

  /** A language share as the draft computes it: the percentage can be `NaN`. */
  datatype DraftShare = DraftShare(lang: string, percentage: JsNum)

  /** The draft's percentages, as written: the byte total is not checked,
      so when every sampled byte count is 0 each language gets `0 / 0`,
      which is `NaN`, and the comparator's `NaN` leaves the order alone. */
  function DraftProfileAsWritten(es: seq<UserLanguages.LangBytes>): (r: seq<DraftShare>)
    ensures |r| == |UserLanguages.KeyOrder(es)|
    ensures UserLanguages.AllBytes(es) == 0 ==>
              forall i :: 0 <= i < |r| ==> r[i] == DraftShare(UserLanguages.KeyOrder(es)[i], NaN)
    ensures UserLanguages.AllBytes(es) != 0 ==> forall i :: 0 <= i < |r| ==> r[i].percentage.Num?
  {
    UserLanguages.TotalIsAllBytes(es);
    var ks := UserLanguages.KeyOrder(es);
    var total := UserLanguages.TotalOver(UserLanguages.ByteMap(es), ks);
    if total == 0 then
      seq(|ks|, i requires 0 <= i < |ks| => DraftShare(ks[i], NaN))
    else
      var shares := UserLanguages.ProfileOf(es);
      assert |shares| == |ks|;
      seq(|shares|, i requires 0 <= i < |shares| => DraftShare(shares[i].lang, Num(shares[i].percentage)))
  }

  /** `fetchUserLanguages` as written: nothing is set when the listing is
      not an array. */
  function FetchUserLanguagesAsWritten(listing: UserLanguages.Listing): Option<seq<DraftShare>>
  {
    match listing
    case NotAnArray => None
    case Repos(repos) => Some(DraftProfileAsWritten(UserLanguages.Entries(UserLanguages.TopRepos(repos))))
  }

  /** With a non-zero byte total the draft's percentages are the route's. */
  lemma DraftProfileAgrees(es: seq<UserLanguages.LangBytes>)
    requires UserLanguages.AllBytes(es) > 0
    ensures |DraftProfileAsWritten(es)| == |UserLanguages.ProfileOf(es)|
    ensures forall i :: 0 <= i < |DraftProfileAsWritten(es)| ==>
              DraftProfileAsWritten(es)[i] ==
              DraftShare(UserLanguages.ProfileOf(es)[i].lang, Num(UserLanguages.ProfileOf(es)[i].percentage))
  {
    UserLanguages.TotalIsAllBytes(es);
  }

  /** One sampled language reporting 0 bytes: the draft answers a `NaN`
      share for it, where the guarded route answers no languages. */
  lemma ZeroBytesGiveNaN()
    ensures var es := [UserLanguages.LangBytes("Shell", 0)];
            && DraftProfileAsWritten(es) == [DraftShare("Shell", NaN)]
            && UserLanguages.ProfileOf(es) == []
  {
    var es := [UserLanguages.LangBytes("Shell", 0)];
    assert es[..0] == [];
    assert UserLanguages.AllBytes(es) == 0;
    UserLanguages.TotalIsAllBytes(es);
    assert UserLanguages.LangsOf(es) == ["Shell"];
    assert UserLanguages.KeyOrder(es) == ["Shell"] by {
      assert ["Shell"][..0] == [];
    }
  }

  /** `fetchUserLanguages` with the zero-total guard of the route: nothing
      when the listing is not an array, else the route's profile. */
  function FetchUserLanguages(listing: UserLanguages.Listing): (r: Option<seq<LangShare>>)
    ensures r.None? <==> listing.NotAnArray?
    ensures r.Some? ==> SortedDesc(r.value, UserLanguages.Percentage)
    ensures r.Some? ==> (r.value == [] <==> UserLanguages.AllBytes(UserLanguages.Entries(UserLanguages.TopRepos(listing.repos))) == 0)
  {
    match listing
    case NotAnArray => None
    case Repos(repos) =>
      UserLanguages.ProfileShares(UserLanguages.Entries(UserLanguages.TopRepos(repos)));
      Some(UserLanguages.ProfileOf(UserLanguages.Entries(UserLanguages.TopRepos(repos))))
  }
}
