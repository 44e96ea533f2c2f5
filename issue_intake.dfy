/** The issue route (`GET /api/github-issues`): for each watched repository,
    keep the open issues that are not pull requests, have no assignee and
    carry a "good first issue"-like label, turn them into `GitHubIssue`
    records, and answer with all of them ordered by age. The GitHub
    responses are inputs; a failed request is a constructor of its own. */
module IssueIntake {
  import opened Records
  import opened Text
  import opened Seqs
  import opened Numeric

  const Repositories: seq<string> := [
    "microsoft/vscode", "facebook/react", "vercel/next.js", "nodejs/node",
    "rust-lang/rust", "golang/go", "tensorflow/tensorflow",
    "kubernetes/kubernetes", "ansible/ansible", "django/django"]

  const GfiLabels: seq<string> := [
    "good first issue", "good-first-issue", "beginner", "easy", "starter",
    "first-timers-only", "help wanted"]

  const MillisPerDay: nat := 1000 * 60 * 60 * 24

  /** `GET /repos/{owner}/{repo}`: failed, or the fields the route reads. */
  datatype RepoDetails = DetailsFailed | Details(language: Option<string>, topics: Option<seq<string>>)

  /** `GET /repos/{owner}/{repo}/languages`: failed, or the keys of the answer. */
  datatype RepoLanguages = LanguagesFailed | LanguageKeys(keys: seq<string>)

  /** One item of `GET /repos/{owner}/{repo}/issues`, reduced to what the route reads. */
  datatype RawIssue = RawIssue(
    htmlUrl: string,
    number: int,
    title: string,
    body: Option<string>,
    labels: seq<string>,
    assigneeCount: nat,
    isPullRequest: bool,
    createdAt: int)

  datatype IssueListing = IssuesFailed | Issues(items: seq<RawIssue>)

  /** The three answers fetched for one repository. */
  datatype RepoFetch = RepoFetch(details: RepoDetails, languages: RepoLanguages, issues: IssueListing)

  /** The JSON body of a successful `GET`. */
  datatype IssuesResponse = IssuesResponse(success: bool, count: int, issues: seq<GitHubIssue>)

  /** Some needle of `needles`, lower-cased, is a substring of `hay`. */
  function IncludesAny(hay: string, needles: seq<string>): (r: bool)
    ensures r <==> exists g :: 0 <= g < |needles| && Includes(hay, LowerStr(needles[g]))
  {
    if needles == [] then false
    else if Includes(hay, LowerStr(needles[0])) then true
    else
      assert forall g :: 1 <= g < |needles| ==> needles[g] == needles[1..][g - 1];
      IncludesAny(hay, needles[1..])
  }

  /** `labels.some(label => needles.some(n => label.toLowerCase().includes(n.toLowerCase())))` */
  function HasMatchingLabel(labels: seq<string>, needles: seq<string>): (r: bool)
    ensures r <==> exists l :: 0 <= l < |labels| && IncludesAny(LowerStr(labels[l]), needles)
  {
    if labels == [] then false
    else if IncludesAny(LowerStr(labels[0]), needles) then true
    else
      var rest := HasMatchingLabel(labels[1..], needles);
      assert forall l :: 1 <= l < |labels| ==> labels[l] == labels[1..][l - 1];
      rest
  }

  /** When the needles are already lower case, a label matches exactly when
      one of them occurs, as written, in the lower-cased label. */
  lemma IncludesAnyOccurrence(name: string, needles: seq<string>)
    requires forall g :: 0 <= g < |needles| ==> LowerStr(needles[g]) == needles[g]
    ensures IncludesAny(LowerStr(name), needles) <==>
            exists g, k :: 0 <= g < |needles| && OccursAt(LowerStr(name), needles[g], k)
  {
    var low := LowerStr(name);
    if IncludesAny(low, needles) {
      var g :| 0 <= g < |needles| && Includes(low, LowerStr(needles[g]));
      var k :| OccursAt(low, LowerStr(needles[g]), k);
      assert OccursAt(low, needles[g], k);
    }
    if exists g, k :: 0 <= g < |needles| && OccursAt(low, needles[g], k) {
      var g, k :| 0 <= g < |needles| && OccursAt(low, needles[g], k);
      assert OccursAt(low, LowerStr(needles[g]), k);
      assert Includes(low, LowerStr(needles[g]));
    }
  }

  /** `hasGoodFirstIssueLabel`: the test against `GFI_LABELS`. */
  predicate HasGoodFirstIssueLabel(labels: seq<string>)
  {
    HasMatchingLabel(labels, GfiLabels)
  }

  /** With lower-case needles, some label matches exactly when one needle
      occurs, as written, in one lower-cased label. */
  lemma HasMatchingLabelOccurrence(labels: seq<string>, needles: seq<string>)
    requires forall g :: 0 <= g < |needles| ==> LowerStr(needles[g]) == needles[g]
    ensures HasMatchingLabel(labels, needles) <==>
            exists l, g, k :: 0 <= l < |labels| && 0 <= g < |needles|
                              && OccursAt(LowerStr(labels[l]), needles[g], k)
  {
    if HasMatchingLabel(labels, needles) {
      var l :| 0 <= l < |labels| && IncludesAny(LowerStr(labels[l]), needles);
      IncludesAnyOccurrence(labels[l], needles);
      var g, k :| 0 <= g < |needles| && OccursAt(LowerStr(labels[l]), needles[g], k);
    }
    if exists l, g, k :: 0 <= l < |labels| && 0 <= g < |needles| && OccursAt(LowerStr(labels[l]), needles[g], k) {
      var l, g, k :| 0 <= l < |labels| && 0 <= g < |needles| && OccursAt(LowerStr(labels[l]), needles[g], k);
      IncludesAnyOccurrence(labels[l], needles);
    }
  }

  /** An issue passes the label test exactly when one of the `GFI_LABELS`
      entries occurs in one of its lower-cased label names; no labels, no pass. */
  lemma GoodFirstIssueLabelSpec(labels: seq<string>)
    ensures HasGoodFirstIssueLabel(labels) <==>
            exists l, g, k :: 0 <= l < |labels| && 0 <= g < |GfiLabels|
                              && OccursAt(LowerStr(labels[l]), GfiLabels[g], k)
    ensures labels == [] ==> !HasGoodFirstIssueLabel(labels)
  {
    GfiLabelsAreLowerCase();
    HasMatchingLabelOccurrence(labels, GfiLabels);
  }

  /** Every entry of `GFI_LABELS` is already lower case, so lower-casing it changes nothing. */
  lemma GfiLabelsAreLowerCase()
    ensures forall g :: 0 <= g < |GfiLabels| ==> LowerStr(GfiLabels[g]) == GfiLabels[g]
  {
    forall g | 0 <= g < |GfiLabels| ensures LowerStr(GfiLabels[g]) == GfiLabels[g] {
      LowerStrOfLowerCase(GfiLabels[g]);
    }
  }

  /** `calculateDaysOpen`, with the current time as a parameter: the number of
      days between creation and now, rounded up, counted in either direction. */
  function DaysOpen(createdAt: int, now: int): (d: nat)
    ensures d * MillisPerDay >= Abs(now - createdAt)
    ensures d == 0 || (d - 1) * MillisPerDay < Abs(now - createdAt)
  {
    CeilDiv(Abs(now - createdAt), MillisPerDay)
  }

  function Abs(x: int): nat
  {
    if x < 0 then -x else x
  }

  /** `repoData.language || 'Unknown'`, and 'Unknown' when the request failed. */
  function PrimaryLanguageOf(details: RepoDetails): (lang: string)
    ensures details.Details? && details.language.Some? && details.language.value != "" ==> lang == details.language.value
    ensures details.DetailsFailed? || details.language.None? || details.language.value == "" ==> lang == "Unknown"
  {
    match details
    case DetailsFailed => "Unknown"
    case Details(language, _) =>
      if language.Some? && language.value != "" then language.value else "Unknown"
  }

  /** `repoData.topics || []`, and `[]` when the request failed. */
  function TopicsOf(details: RepoDetails): (topics: seq<string>)
    ensures details.DetailsFailed? ==> topics == []
    ensures details.Details? && details.topics.None? ==> topics == []
    ensures details.Details? && details.topics.Some? ==> topics == details.topics.value
  {
    match details
    case DetailsFailed => []
    case Details(_, topics) => topics.GetOr([])
  }

  /** `Object.keys(languages)`, and `[]` when the request failed. */
  function LanguagesOf(languages: RepoLanguages): (keys: seq<string>)
    ensures languages.LanguagesFailed? ==> keys == []
  {
    match languages
    case LanguagesFailed => []
    case LanguageKeys(keys) => keys
  }

  /** The text before the first `c`, or all of `s` when there is none. */
  function UpTo(s: string, c: char): (r: string)
    ensures c !in r
    ensures c !in s ==> r == s
    ensures |r| <= |s| && r == s[..|r|]
    ensures |r| < |s| ==> s[|r|] == c
  {
    if s == [] then []
    else if s[0] == c then []
    else [s[0]] + UpTo(s[1..], c)
  }

  /** `const [owner, name] = repo.split('/')`: the first two `/`-separated parts. */
  function SplitRepo(repo: string): (string, string)
    requires '/' in repo
  {
    var owner := UpTo(repo, '/');
    (owner, UpTo(repo[|owner| + 1..], '/'))
  }

  /** Splitting `owner/name` gives back the owner and the name, provided neither holds a `/`. */
  lemma SplitJoinRoundTrip(owner: string, name: string)
    requires '/' !in owner && '/' !in name
    ensures '/' in owner + "/" + name
    ensures SplitRepo(owner + "/" + name) == (owner, name)
  {
    var s := owner + "/" + name;
    assert s[|owner|] == '/';
    assert s[..|owner|] == owner;
    assert s[|owner| + 1..] == name;
  }

  /** The route's `filter`: not a pull request, no assignee, a good-first-issue label. */
  predicate Eligible(raw: RawIssue)
  {
    !raw.isPullRequest && raw.assigneeCount == 0 && HasGoodFirstIssueLabel(raw.labels)
  }

  /** The route's `map` from a GitHub issue to a `GitHubIssue`. */
  function ToGitHubIssue(raw: RawIssue, owner: string, name: string, primaryLanguage: string,
                         allLanguages: seq<string>, topics: seq<string>, now: int): GitHubIssue
  {
    GitHubIssue(
      issueUrl := raw.htmlUrl,
      primaryLanguage := primaryLanguage,
      allLanguages := allLanguages,
      repositoryOwner := owner,
      repositoryName := name,
      repositoryTopics := topics,
      issueNumber := raw.number,
      issueTitle := raw.title,
      issueBody := raw.body.GetOr(""),
      issueLabels := raw.labels,
      numberOfAssignees := raw.assigneeCount,
      hasGFILabel := true,
      dateCreated := raw.createdAt,
      daysOpen := DaysOpen(raw.createdAt, now),
      score := 0.0)
  }

  /** The route's `filter` then `map` over one repository's issue list. */
  function ProcessIssues(items: seq<RawIssue>, owner: string, name: string, lang: string,
                         langs: seq<string>, topics: seq<string>, now: int): (r: seq<GitHubIssue>)
    ensures |r| == |Filter(items, Eligible)|
    ensures forall i :: 0 <= i < |r| ==>
              r[i] == ToGitHubIssue(Filter(items, Eligible)[i], owner, name, lang, langs, topics, now)
  {
    var kept := Filter(items, Eligible);
    seq(|kept|, i requires 0 <= i < |kept| => ToGitHubIssue(kept[i], owner, name, lang, langs, topics, now))
  }

  /** `fetchIssuesFromRepository`: the eligible issues of one repository, in the
      order GitHub listed them; a failed issue request gives `[]`. */
  function FetchIssuesFromRepository(repo: string, fetch: RepoFetch, now: int): (r: seq<GitHubIssue>)
    requires '/' in repo
    ensures fetch.issues.IssuesFailed? ==> r == []
    ensures fetch.issues.Issues? ==> |r| == |Filter(fetch.issues.items, Eligible)|
  {
    match fetch.issues
    case IssuesFailed => []
    case Issues(items) =>
      var (owner, name) := SplitRepo(repo);
      ProcessIssues(items, owner, name, PrimaryLanguageOf(fetch.details), LanguagesOf(fetch.languages),
                    TopicsOf(fetch.details), now)
  }

  /** What every issue the route produces looks like: unassigned, flagged as
      a good first issue with a label that passes the test, score 0, a
      non-negative age, and the repository's split name, language and topics. */
  lemma ProducedIssueFacts(repo: string, fetch: RepoFetch, now: int)
    requires '/' in repo
    ensures forall issue :: issue in FetchIssuesFromRepository(repo, fetch, now) ==>
              && issue.numberOfAssignees == 0 && issue.hasGFILabel && issue.score == 0.0
              && HasGoodFirstIssueLabel(issue.issueLabels) && issue.daysOpen >= 0
              && (issue.repositoryOwner, issue.repositoryName) == SplitRepo(repo)
              && issue.primaryLanguage == PrimaryLanguageOf(fetch.details)
              && issue.repositoryTopics == TopicsOf(fetch.details)
              && issue.allLanguages == LanguagesOf(fetch.languages)
  {
    if fetch.issues.Issues? {
      var (owner, name) := SplitRepo(repo);
      forall issue | issue in FetchIssuesFromRepository(repo, fetch, now)
        ensures && issue.numberOfAssignees == 0 && issue.hasGFILabel && issue.score == 0.0
                && HasGoodFirstIssueLabel(issue.issueLabels)
                && issue.repositoryOwner == owner && issue.repositoryName == name
                && issue.primaryLanguage == PrimaryLanguageOf(fetch.details)
                && issue.repositoryTopics == TopicsOf(fetch.details)
                && issue.allLanguages == LanguagesOf(fetch.languages)
      {
        ProcessedIssueFacts(fetch.issues.items, owner, name, PrimaryLanguageOf(fetch.details),
                            LanguagesOf(fetch.languages), TopicsOf(fetch.details), now, issue);
      }
    }
  }

  /** One issue of a processed listing: it came from an eligible item and
      carries the repository data it was given. */
  lemma ProcessedIssueFacts(items: seq<RawIssue>, owner: string, name: string, lang: string,
                            langs: seq<string>, topics: seq<string>, now: int, issue: GitHubIssue)
    requires issue in ProcessIssues(items, owner, name, lang, langs, topics, now)
    ensures && issue.numberOfAssignees == 0 && issue.hasGFILabel && issue.score == 0.0
            && HasGoodFirstIssueLabel(issue.issueLabels)
            && issue.repositoryOwner == owner && issue.repositoryName == name
            && issue.primaryLanguage == lang && issue.repositoryTopics == topics && issue.allLanguages == langs
  {
    var r := ProcessIssues(items, owner, name, lang, langs, topics, now);
    var i :| 0 <= i < |r| && r[i] == issue;
    var raw := Filter(items, Eligible)[i];
    assert Eligible(raw);
    assert issue == ToGitHubIssue(raw, owner, name, lang, langs, topics, now);
  }

  /** Every eligible issue of a successful listing appears in the output, as
      the issue the route maps it to: with the repository's split name, its
      language, its languages and its topics. */
  lemma EligibleIssuesAreKept(repo: string, fetch: RepoFetch, now: int, raw: RawIssue)
    requires '/' in repo && fetch.issues.Issues?
    requires raw in fetch.issues.items && Eligible(raw)
    ensures exists issue :: issue in FetchIssuesFromRepository(repo, fetch, now)
                            && issue.issueUrl == raw.htmlUrl && issue.issueNumber == raw.number
                            && issue == ToGitHubIssue(raw, SplitRepo(repo).0, SplitRepo(repo).1,
                                                      PrimaryLanguageOf(fetch.details), LanguagesOf(fetch.languages),
                                                      TopicsOf(fetch.details), now)
  {
    var r := FetchIssuesFromRepository(repo, fetch, now);
    var kept := Filter(fetch.issues.items, Eligible);
    var j :| 0 <= j < |fetch.issues.items| && fetch.issues.items[j] == raw;
    assert raw in kept;
    var i :| 0 <= i < |kept| && kept[i] == raw;
    assert r[i].issueUrl == raw.htmlUrl;
  }

  /** Only eligible issues are kept: each output issue comes from an eligible listing item. */
  lemma OnlyEligibleIssuesAreKept(repo: string, fetch: RepoFetch, now: int, issue: GitHubIssue)
    requires '/' in repo && issue in FetchIssuesFromRepository(repo, fetch, now)
    ensures fetch.issues.Issues?
    ensures exists raw :: raw in fetch.issues.items && Eligible(raw)
                          && issue.issueUrl == raw.htmlUrl && issue.issueNumber == raw.number
  {
    var r := FetchIssuesFromRepository(repo, fetch, now);
    var kept := Filter(fetch.issues.items, Eligible);
    var i :| 0 <= i < |r| && r[i] == issue;
    assert kept[i] in fetch.issues.items && Eligible(kept[i]);
  }

  /** The sort key of `sort((a, b) => a.daysOpen - b.daysOpen)`, negated so
      that the non-increasing sort gives the youngest issue first. */
  function NegatedDaysOpen(issue: GitHubIssue): real
  {
    -(issue.daysOpen as real)
  }

  /** `issuesArrays` of `GET`: one list per repository, in the order of `repos`. */
  function PerRepository(repos: seq<string>, fetches: seq<RepoFetch>, now: int): (r: seq<seq<GitHubIssue>>)
    requires |repos| == |fetches|
    requires forall i :: 0 <= i < |repos| ==> '/' in repos[i]
    ensures |r| == |repos|
    ensures forall i :: 0 <= i < |repos| ==> r[i] == FetchIssuesFromRepository(repos[i], fetches[i], now)
  {
    seq(|repos|, i requires 0 <= i < |repos| => FetchIssuesFromRepository(repos[i], fetches[i], now))
  }

  /** `GET`: every repository's issues, one list after the other, sorted from
      the youngest to the oldest, with `count` the length of that list. */
  function Get(repos: seq<string>, fetches: seq<RepoFetch>, now: int): (resp: IssuesResponse)
    requires |repos| == |fetches|
    requires forall i :: 0 <= i < |repos| ==> '/' in repos[i]
    ensures resp.success && resp.count == |resp.issues|
    ensures multiset(resp.issues) == multiset(Concat(PerRepository(repos, fetches, now)))
    ensures forall i, j :: 0 <= i < j < |resp.issues| ==> resp.issues[i].daysOpen <= resp.issues[j].daysOpen
  {
    var sorted := SortDesc(Concat(PerRepository(repos, fetches, now)), NegatedDaysOpen);
    assert forall i, j :: 0 <= i < j < |sorted| ==> sorted[i].daysOpen <= sorted[j].daysOpen by {
      forall i, j | 0 <= i < j < |sorted| ensures sorted[i].daysOpen <= sorted[j].daysOpen {
        assert NegatedDaysOpen(sorted[i]) >= NegatedDaysOpen(sorted[j]);
      }
    }
    IssuesResponse(success := true, count := |sorted|, issues := sorted)
  }

  /** Every issue of the response came from one of the repositories' lists. */
  lemma GetIssuesComeFromRepositories(repos: seq<string>, fetches: seq<RepoFetch>, now: int, issue: GitHubIssue)
    requires |repos| == |fetches|
    requires forall i :: 0 <= i < |repos| ==> '/' in repos[i]
    requires issue in Get(repos, fetches, now).issues
    ensures exists i :: 0 <= i < |repos| && issue in FetchIssuesFromRepository(repos[i], fetches[i], now)
  {
    var per := PerRepository(repos, fetches, now);
    assert issue in Concat(per) by {
      var resp := Get(repos, fetches, now);
      assert issue in multiset(resp.issues);
    }
    InConcat(per, issue);
    var i :| 0 <= i < |per| && issue in per[i];
    assert per[i] == FetchIssuesFromRepository(repos[i], fetches[i], now);
  }

  /** A repository written `owner/name`, with a non-empty owner and name
      and no further `/`, splits back into that owner and name. */
  predicate IsOwnerSlashName(repo: string)
  {
    '/' in repo && SplitRepo(repo).0 != [] && SplitRepo(repo).1 != []
    && SplitRepo(repo).0 + "/" + SplitRepo(repo).1 == repo
  }

  lemma OwnerSlashName(owner: string, name: string)
    requires owner != [] && name != [] && '/' !in owner && '/' !in name
    ensures IsOwnerSlashName(owner + "/" + name)
  {
    SplitJoinRoundTrip(owner, name);
  }

  /** Every entry of the route's repository list is `owner/name`, so the
      split in `fetchIssuesFromRepository` always finds both parts. */
  lemma RepositoryIsOwnerSlashName(i: int)
    requires 0 <= i < |Repositories|
    ensures IsOwnerSlashName(Repositories[i])
  {
    if i == 0 {
      assert Repositories[i] == "microsoft" + "/" + "vscode";
      OwnerSlashName("microsoft", "vscode");
    } else if i == 1 {
      assert Repositories[i] == "facebook" + "/" + "react";
      OwnerSlashName("facebook", "react");
    } else if i == 2 {
      assert Repositories[i] == "vercel" + "/" + "next.js";
      OwnerSlashName("vercel", "next.js");
    } else if i == 3 {
      assert Repositories[i] == "nodejs" + "/" + "node";
      OwnerSlashName("nodejs", "node");
    } else if i == 4 {
      assert Repositories[i] == "rust-lang" + "/" + "rust";
      OwnerSlashName("rust-lang", "rust");
    } else if i == 5 {
      assert Repositories[i] == "golang" + "/" + "go";
      OwnerSlashName("golang", "go");
    } else if i == 6 {
      assert Repositories[i] == "tensorflow" + "/" + "tensorflow";
      OwnerSlashName("tensorflow", "tensorflow");
    } else if i == 7 {
      assert Repositories[i] == "kubernetes" + "/" + "kubernetes";
      OwnerSlashName("kubernetes", "kubernetes");
    } else if i == 8 {
      assert Repositories[i] == "ansible" + "/" + "ansible";
      OwnerSlashName("ansible", "ansible");
    } else {
      assert Repositories[i] == "django" + "/" + "django";
      OwnerSlashName("django", "django");
    }
  }

  /** The route's list as a whole meets the precondition of `Get`. */
  lemma RepositoriesAreOwnerSlashName()
    ensures forall i :: 0 <= i < |Repositories| ==> IsOwnerSlashName(Repositories[i])
  {
    forall i | 0 <= i < |Repositories| ensures IsOwnerSlashName(Repositories[i]) {
      RepositoryIsOwnerSlashName(i);
    }
  }

  /** The route's `GET` over its own repository list: given one fetch per
      entry, every issue it lists comes from the entry whose `owner/name`
      it carries. */
  lemma RouteIssuesNameTheirRepository(fetches: seq<RepoFetch>, now: int, issue: GitHubIssue)
    requires |fetches| == |Repositories|
    ensures forall i :: 0 <= i < |Repositories| ==> '/' in Repositories[i]
    ensures issue in Get(Repositories, fetches, now).issues ==>
              exists i :: 0 <= i < |Repositories|
                && issue in FetchIssuesFromRepository(Repositories[i], fetches[i], now)
                && issue.repositoryOwner + "/" + issue.repositoryName == Repositories[i]
  {
    RepositoriesAreOwnerSlashName();
    if issue in Get(Repositories, fetches, now).issues {
      GetIssuesComeFromRepositories(Repositories, fetches, now, issue);
      var i :| 0 <= i < |Repositories| && issue in FetchIssuesFromRepository(Repositories[i], fetches[i], now);
      ProducedIssueFacts(Repositories[i], fetches[i], now);
    }
  }
}
