/** The `repositories` memo of the home page: the scored issues are folded
    into a `Map` keyed by `owner/name`, each entry counting its issues and
    keeping a running mean of their scores, and the entries are listed from
    the highest mean down. The string key is modelled as the pair of owner
    and name, which is the same key as long as neither part contains `/`
    (see `IssueIntake.SplitJoinRoundTrip`). */
module RepoAggregation {
  import opened Records
  import opened Seqs

  datatype RepoKey = RepoKey(owner: string, name: string)

  function KeyOf(issue: GitHubIssue): RepoKey
  {
    RepoKey(issue.repositoryOwner, issue.repositoryName)
  }

  function RepoKeyOf(repo: Repository): RepoKey
  {
    RepoKey(repo.repositoryOwner, repo.repositoryName)
  }

  /** The key of every issue, in order. */
  function KeysOf(issues: seq<GitHubIssue>): (r: seq<RepoKey>)
    ensures |r| == |issues|
    ensures forall i :: 0 <= i < |issues| ==> r[i] == KeyOf(issues[i])
  {
    seq(|issues|, i requires 0 <= i < |issues| => KeyOf(issues[i]))
  }

  lemma KeysOfSnoc(issues: seq<GitHubIssue>, x: GitHubIssue)
    ensures KeysOf(issues + [x]) == KeysOf(issues) + [KeyOf(x)]
  {
  }

  /** The scores of the issues of repository `k`, in order. */
  function ScoresOf(issues: seq<GitHubIssue>, k: RepoKey): (r: seq<real>)
    ensures |r| <= |issues|
    ensures |r| > 0 <==> k in KeysOf(issues)
  {
    if issues == [] then []
    else
      var init := issues[..|issues| - 1];
      var last := issues[|issues| - 1];
      assert issues == init + [last];
      KeysOfSnoc(init, last);
      ScoresOf(init, k) + (if KeyOf(last) == k then [last.score] else [])
  }

  lemma ScoresOfSnoc(issues: seq<GitHubIssue>, x: GitHubIssue, k: RepoKey)
    ensures ScoresOf(issues + [x], k) == ScoresOf(issues, k) + (if KeyOf(x) == k then [x.score] else [])
  {
    assert (issues + [x])[..|issues|] == issues;
  }

  /** The first issue of repository `k`: the one that created the map entry. */
  function FirstWith(issues: seq<GitHubIssue>, k: RepoKey): (r: GitHubIssue)
    requires k in KeysOf(issues)
    ensures KeyOf(r) == k
  {
    var init := issues[..|issues| - 1];
    var last := issues[|issues| - 1];
    assert issues == init + [last];
    KeysOfSnoc(init, last);
    if k in KeysOf(init) then FirstWith(init, k) else last
  }

  /** `FirstWith` picks the issue at the first position holding key `k`. */
  lemma {:induction false} FirstWithIsFirst(issues: seq<GitHubIssue>, k: RepoKey, i: int)
    requires 0 <= i < |issues| && KeyOf(issues[i]) == k
    requires forall j :: 0 <= j < i ==> KeyOf(issues[j]) != k
    ensures FirstWith(issues, k) == issues[i]
  {
    var init := issues[..|issues| - 1];
    KeysOfSnoc(init, issues[|issues| - 1]);
    assert issues == init + [issues[|issues| - 1]];
    if i < |issues| - 1 {
      assert KeysOf(init)[i] == k;
      FirstWithIsFirst(init, k, i);
    } else {
      assert k !in KeysOf(init);
    }
  }

  function Identity(x: real): real
  {
    x
  }

  /** The arithmetic mean. */
  function Mean(xs: seq<real>): real
    requires |xs| > 0
  {
    SumBy(xs, Identity) / |xs| as real
  }

  /** The aggregator's update of a mean over `count` values when one more value `x` arrives. */
  function RunningAverage(average: real, count: nat, x: real): real
  {
    (average * count as real + x) / (count + 1) as real
  }

  /** The running-mean update of the aggregator computes the mean of the longer list. */
  lemma RunningMean(xs: seq<real>, x: real)
    requires |xs| > 0
    ensures Mean(xs + [x]) == RunningAverage(Mean(xs), |xs|, x)
  {
    assert (xs + [x])[..|xs|] == xs;
    var n := |xs| as real;
    assert Mean(xs) * n == SumBy(xs, Identity);
  }

  /** A mean of values within [lo, hi] lies within [lo, hi]. */
  lemma {:induction false} MeanWithin(xs: seq<real>, lo: real, hi: real)
    requires |xs| > 0
    requires forall i :: 0 <= i < |xs| ==> lo <= xs[i] <= hi
    ensures lo <= Mean(xs) <= hi
  {
    SumWithin(xs, lo, hi);
    var n := |xs| as real;
    var s := SumBy(xs, Identity);
    assert Mean(xs) * n == s;
  }

  lemma {:induction false} SumWithin(xs: seq<real>, lo: real, hi: real)
    requires forall i :: 0 <= i < |xs| ==> lo <= xs[i] <= hi
    ensures lo * |xs| as real <= SumBy(xs, Identity) <= hi * |xs| as real
  {
    if xs != [] {
      SumWithin(xs[..|xs| - 1], lo, hi);
    }
  }

  /** What the map holds for repository `k` once every issue has been seen:
      owner, name, topics and language of its first issue, the number of its
      issues and the mean of their scores. */
  function ReferenceRepo(issues: seq<GitHubIssue>, k: RepoKey): (r: Repository)
    requires k in KeysOf(issues)
    ensures RepoKeyOf(r) == k && r.issueCount >= 1
  {
    var first := FirstWith(issues, k);
    var scores := ScoresOf(issues, k);
    Repository(
      repositoryOwner := first.repositoryOwner,
      repositoryName := first.repositoryName,
      repositoryTopics := first.repositoryTopics,
      primaryLanguage := first.primaryLanguage,
      issueCount := |scores|,
      averageScore := Mean(scores))
  }

  /** The entries for the keys `ks`, in that order. */
  function ReposFor(issues: seq<GitHubIssue>, ks: seq<RepoKey>): (r: seq<Repository>)
    requires forall i :: 0 <= i < |ks| ==> ks[i] in KeysOf(issues)
    ensures |r| == |ks|
    ensures forall i :: 0 <= i < |ks| ==> r[i] == ReferenceRepo(issues, ks[i])
  {
    if ks == [] then []
    else ReposFor(issues, ks[..|ks| - 1]) + [ReferenceRepo(issues, ks[|ks| - 1])]
  }

  /** `Array.from(repoMap.values())`: one entry per key, in first-seen order. */
  function ReferenceRepos(issues: seq<GitHubIssue>): seq<Repository>
  {
    ReposFor(issues, DistinctInOrder(KeysOf(issues)))
  }

  /** The sort key of `(a, b) => b.averageScore - a.averageScore`. */
  function AverageScore(repo: Repository): real
  {
    repo.averageScore
  }

  /** The memo's result: `[]` for no issues, else the entries sorted by mean score, highest first. */
  function AggregateRepositories(issues: seq<GitHubIssue>): seq<Repository>
  {
    if issues == [] then [] else SortDesc(ReferenceRepos(issues), AverageScore)
  }

  // The effect of one more issue on the reference entries.

  lemma FirstWithSnoc(issues: seq<GitHubIssue>, x: GitHubIssue, k: RepoKey)
    requires k in KeysOf(issues + [x])
    ensures FirstWith(issues + [x], k) == if k in KeysOf(issues) then FirstWith(issues, k) else x
  {
    assert (issues + [x])[..|issues|] == issues;
  }

  lemma StepNewKey(issues: seq<GitHubIssue>, x: GitHubIssue)
    requires KeyOf(x) !in KeysOf(issues)
    ensures KeyOf(x) in KeysOf(issues + [x])
    ensures ReferenceRepo(issues + [x], KeyOf(x)) ==
            Repository(x.repositoryOwner, x.repositoryName, x.repositoryTopics, x.primaryLanguage, 1, x.score)
  {
    KeysOfSnoc(issues, x);
    ScoresOfSnoc(issues, x, KeyOf(x));
    FirstWithSnoc(issues, x, KeyOf(x));
    var scores := ScoresOf(issues + [x], KeyOf(x));
    assert scores == [x.score];
    assert scores[..0] == [];
    assert SumBy(scores, Identity) == SumBy(scores[..0], Identity) + Identity(scores[0]);
    assert Mean(scores) == x.score;
  }

  lemma StepSameKey(issues: seq<GitHubIssue>, x: GitHubIssue)
    requires KeyOf(x) in KeysOf(issues)
    ensures KeyOf(x) in KeysOf(issues + [x])
    ensures ReferenceRepo(issues + [x], KeyOf(x)).issueCount == ReferenceRepo(issues, KeyOf(x)).issueCount + 1
    ensures ReferenceRepo(issues + [x], KeyOf(x)).averageScore ==
            RunningAverage(ReferenceRepo(issues, KeyOf(x)).averageScore, ReferenceRepo(issues, KeyOf(x)).issueCount, x.score)
    ensures ReferenceRepo(issues + [x], KeyOf(x)) ==
            ReferenceRepo(issues, KeyOf(x)).(issueCount := ReferenceRepo(issues + [x], KeyOf(x)).issueCount,
                                             averageScore := ReferenceRepo(issues + [x], KeyOf(x)).averageScore)
  {
    var k := KeyOf(x);
    KeysOfSnoc(issues, x);
    ScoresOfSnoc(issues, x, k);
    FirstWithSnoc(issues, x, k);
    var scores := ScoresOf(issues, k);
    var before := ReferenceRepo(issues, k);
    var after := ReferenceRepo(issues + [x], k);
    RunningMean(scores, x.score);
    assert ScoresOf(issues + [x], k) == scores + [x.score];
    assert after.issueCount == before.issueCount + 1;
    assert after.averageScore == Mean(scores + [x.score]);
    assert before.averageScore == Mean(scores);
    assert before.issueCount == |scores|;
    assert after.repositoryTopics == before.repositoryTopics && after.primaryLanguage == before.primaryLanguage;
    assert after.repositoryOwner == before.repositoryOwner && after.repositoryName == before.repositoryName;
  }

  lemma StepOtherKey(issues: seq<GitHubIssue>, x: GitHubIssue, k: RepoKey)
    requires k in KeysOf(issues) && k != KeyOf(x)
    ensures k in KeysOf(issues + [x])
    ensures ReferenceRepo(issues + [x], k) == ReferenceRepo(issues, k)
  {
    KeysOfSnoc(issues, x);
    ScoresOfSnoc(issues, x, k);
    FirstWithSnoc(issues, x, k);
    assert ScoresOf(issues + [x], k) == ScoresOf(issues, k);
    assert FirstWith(issues + [x], k) == FirstWith(issues, k);
  }

  /** One more issue extends the key order only when its repository is new. */
  lemma OrderSnoc(seen: seq<GitHubIssue>, x: GitHubIssue)
    ensures DistinctInOrder(KeysOf(seen + [x])) ==
            DistinctInOrder(KeysOf(seen)) + (if KeyOf(x) in KeysOf(seen) then [] else [KeyOf(x)])
    ensures forall k :: k in KeysOf(seen + [x]) <==> k in KeysOf(seen) || k == KeyOf(x)
  {
    var ks := KeysOf(seen + [x]);
    KeysOfSnoc(seen, x);
    assert ks[..|ks| - 1] == KeysOf(seen) && ks[|ks| - 1] == KeyOf(x);
  }

  /** The aggregator's arithmetic, `(average * (count - 1) + x) / count` with the bumped count, is the running average. */
  lemma RunningAverageAsWritten(average: real, n: int, count: int, x: real)
    requires n >= 1 && count == n + 1
    ensures (average * (count - 1) as real + x) / count as real == RunningAverage(average, n, x)
  {
  }

  /** The callback's update of an existing entry for one more issue with
      score `x`: the count goes up by one, and the mean becomes
      `(averageScore * (issueCount - 1) + x) / issueCount` with the new count. */
  function Bumped(entry: Repository, x: real): (r: Repository)
    requires entry.issueCount >= 1
    ensures r.issueCount == entry.issueCount + 1
    ensures r.averageScore == RunningAverage(entry.averageScore, entry.issueCount, x)
    ensures r == entry.(issueCount := r.issueCount, averageScore := r.averageScore)
  {
    var issueCount := entry.issueCount + 1;
    RunningAverageAsWritten(entry.averageScore, entry.issueCount, issueCount, x);
    entry.(issueCount := issueCount, averageScore := (entry.averageScore * (issueCount - 1) as real + x) / issueCount as real)
  }

  /** The entry a repository's first issue creates. */
  function Created(issue: GitHubIssue): Repository
  {
    Repository(issue.repositoryOwner, issue.repositoryName, issue.repositoryTopics, issue.primaryLanguage, 1, issue.score)
  }

  /** The map after the issues `seen`, built one issue at a time as the
      `forEach` callback does: a new repository gets a `Created` entry, a
      known one is `Bumped`. */
  function RefMap(seen: seq<GitHubIssue>): (m: map<RepoKey, Repository>)
    ensures forall k :: k in m ==> m[k].issueCount >= 1
  {
    if seen == [] then map[]
    else
      var m := RefMap(seen[..|seen| - 1]);
      var x := seen[|seen| - 1];
      if KeyOf(x) in m then m[KeyOf(x) := Bumped(m[KeyOf(x)], x.score)]
      else m[KeyOf(x) := Created(x)]
  }

  lemma RefMapSnoc(seen: seq<GitHubIssue>, x: GitHubIssue)
    ensures KeyOf(x) in RefMap(seen) ==>
              RefMap(seen + [x]) == RefMap(seen)[KeyOf(x) := Bumped(RefMap(seen)[KeyOf(x)], x.score)]
    ensures KeyOf(x) !in RefMap(seen) ==> RefMap(seen + [x]) == RefMap(seen)[KeyOf(x) := Created(x)]
  {
    assert (seen + [x])[..|seen|] == seen;
  }

  /** The map has an entry for exactly the repositories of the issues seen. */
  lemma {:induction false} RefMapDomain(seen: seq<GitHubIssue>)
    ensures forall k :: k in RefMap(seen) <==> k in KeysOf(seen)
  {
    if seen != [] {
      var init := seen[..|seen| - 1];
      var x := seen[|seen| - 1];
      assert seen == init + [x];
      RefMapDomain(init);
      RefMapSnoc(init, x);
      OrderSnoc(init, x);
    }
  }

  /** Each entry of the map is the reference entry of its repository: the
      running mean is the mean, the count the number of issues. */
  lemma {:induction false} RefMapEntry(seen: seq<GitHubIssue>, k: RepoKey)
    requires k in KeysOf(seen)
    ensures k in RefMap(seen) && RefMap(seen)[k] == ReferenceRepo(seen, k)
  {
    var init := seen[..|seen| - 1];
    var x := seen[|seen| - 1];
    assert seen == init + [x];
    if k == KeyOf(x) && k in KeysOf(init) {
      RefMapEntry(init, k);
      RefMapSnoc(init, x);
      StepSameKey(init, x);
    } else if k == KeyOf(x) {
      assert k !in RefMap(init) by {
        RefMapDomain(init);
      }
      RefMapSnoc(init, x);
      StepNewKey(init, x);
    } else {
      assert k in KeysOf(init) by {
        OrderSnoc(init, x);
      }
      RefMapEntry(init, k);
      RefMapSnoc(init, x);
      StepOtherKey(init, x, k);
    }
  }

  /** Once every issue is in, the map's values in key order are the reference entries. */
  lemma MapValuesInOrder(issues: seq<GitHubIssue>, values: seq<Repository>)
    requires var order := DistinctInOrder(KeysOf(issues));
             |values| == |order| &&
             forall j :: 0 <= j < |order| ==> order[j] in RefMap(issues) && values[j] == RefMap(issues)[order[j]]
    ensures values == ReferenceRepos(issues)
  {
    var order := DistinctInOrder(KeysOf(issues));
    forall j | 0 <= j < |order| ensures values[j] == ReferenceRepo(issues, order[j]) {
      RefMapEntry(issues, order[j]);
    }
  }

  /** The `forEach` callback: the issue's repository entry is bumped, or
      created at the end of the key order. `seen` are the issues handled so far. */
  method AddIssue(repoMap: map<RepoKey, Repository>, order: seq<RepoKey>, ghost seen: seq<GitHubIssue>, issue: GitHubIssue)
    returns (repoMap': map<RepoKey, Repository>, order': seq<RepoKey>)
    requires repoMap == RefMap(seen) && order == DistinctInOrder(KeysOf(seen))
    ensures repoMap' == RefMap(seen + [issue])
    ensures order' == DistinctInOrder(KeysOf(seen + [issue]))
  {
    var key := KeyOf(issue);
    assert key in repoMap <==> key in KeysOf(seen) by {
      RefMapDomain(seen);
    }
    RefMapSnoc(seen, issue);
    if key in repoMap {
      repoMap' := repoMap[key := Bumped(repoMap[key], issue.score)];
      order' := order;
      assert order' == DistinctInOrder(KeysOf(seen + [issue])) by {
        OrderSnoc(seen, issue);
      }
    } else {
      var created := Repository(
        repositoryOwner := issue.repositoryOwner,
        repositoryName := issue.repositoryName,
        repositoryTopics := issue.repositoryTopics,
        primaryLanguage := issue.primaryLanguage,
        issueCount := 1,
        averageScore := issue.score);
      assert created == Created(issue);
      repoMap' := repoMap[key := created];
      order' := order + [key];
      assert order' == DistinctInOrder(KeysOf(seen + [issue])) by {
        OrderSnoc(seen, issue);
      }
    }
  }

  /** The `forEach` that fills `repoMap`, then `Array.from(repoMap.values())`
      and the sort. The map's key order is kept in `order`. */
  method BuildRepositories(issues: seq<GitHubIssue>) returns (repos: seq<Repository>)
    ensures repos == AggregateRepositories(issues)
  {
    if |issues| == 0 {
      return [];
    }
    var repoMap: map<RepoKey, Repository> := map[];
    var order: seq<RepoKey> := [];
    for i := 0 to |issues|
      invariant repoMap == RefMap(issues[..i])
      invariant order == DistinctInOrder(KeysOf(issues[..i]))
    {
      assert issues[..i + 1] == issues[..i] + [issues[i]];
      repoMap, order := AddIssue(repoMap, order, issues[..i], issues[i]);
    }
    assert issues[..|issues|] == issues;
    RefMapDomain(issues);
    var values := seq(|order|, j requires 0 <= j < |order| => repoMap[order[j]]);
    MapValuesInOrder(issues, values);
    repos := SortDesc(values, AverageScore);
  }

  // ---------------------------------------------------------------- properties

  /** No two keys of the reference entries coincide, so no two entries do. */
  lemma ReferenceReposDistinct(issues: seq<GitHubIssue>)
    ensures NoDuplicates(ReferenceRepos(issues))
    ensures forall i :: 0 <= i < |ReferenceRepos(issues)| ==>
              ReferenceRepos(issues)[i] == ReferenceRepo(issues, RepoKeyOf(ReferenceRepos(issues)[i]))
  {
    var ks := DistinctInOrder(KeysOf(issues));
    var rs := ReferenceRepos(issues);
    forall i, j | 0 <= i < j < |rs| ensures rs[i] != rs[j] {
      assert RepoKeyOf(rs[i]) == ks[i] && RepoKeyOf(rs[j]) == ks[j];
    }
  }

  /** Every aggregated entry is the reference entry of its own key. */
  lemma AggregateEntriesAreReference(issues: seq<GitHubIssue>)
    ensures forall j :: 0 <= j < |AggregateRepositories(issues)| ==>
              var k := RepoKeyOf(AggregateRepositories(issues)[j]);
              k in KeysOf(issues) && AggregateRepositories(issues)[j] == ReferenceRepo(issues, k)
  {
    if issues != [] {
      var rs := ReferenceRepos(issues);
      var r := AggregateRepositories(issues);
      ReferenceReposDistinct(issues);
      forall j | 0 <= j < |r|
        ensures RepoKeyOf(r[j]) in KeysOf(issues) && r[j] == ReferenceRepo(issues, RepoKeyOf(r[j]))
      {
        assert r[j] in multiset(rs);
        var m :| 0 <= m < |rs| && rs[m] == r[j];
      }
    }
  }

  /** No two aggregated entries share a repository. */
  lemma AggregateKeysDistinct(issues: seq<GitHubIssue>)
    ensures forall i, j :: 0 <= i < j < |AggregateRepositories(issues)| ==>
              RepoKeyOf(AggregateRepositories(issues)[i]) != RepoKeyOf(AggregateRepositories(issues)[j])
  {
    if issues != [] {
      var r := AggregateRepositories(issues);
      AggregateEntriesAreReference(issues);
      ReferenceReposDistinct(issues);
      PermutationNoDuplicates(ReferenceRepos(issues), r);
      forall i, j | 0 <= i < j < |r| ensures RepoKeyOf(r[i]) != RepoKeyOf(r[j]) {
        assert r[i] != r[j];
      }
    }
  }

  /** Every repository that has an issue has an aggregated entry. */
  lemma AggregateCoversIssues(issues: seq<GitHubIssue>)
    ensures forall i :: 0 <= i < |issues| ==>
              exists j :: 0 <= j < |AggregateRepositories(issues)| && RepoKeyOf(AggregateRepositories(issues)[j]) == KeyOf(issues[i])
  {
    if issues != [] {
      var rs := ReferenceRepos(issues);
      var r := AggregateRepositories(issues);
      var ks := DistinctInOrder(KeysOf(issues));
      forall i | 0 <= i < |issues|
        ensures exists j :: 0 <= j < |r| && RepoKeyOf(r[j]) == KeyOf(issues[i])
      {
        assert KeysOf(issues)[i] in ks;
        var m :| 0 <= m < |ks| && ks[m] == KeyOf(issues[i]);
        assert RepoKeyOf(rs[m]) == KeyOf(issues[i]);
        assert rs[m] in multiset(r);
        var j :| 0 <= j < |r| && r[j] == rs[m];
      }
    }
  }

  /** Each entry's count is the number of issues of its repository, its mean
      the mean of their scores, and its topics and language those of the
      first of them. */
  lemma EntryFacts(issues: seq<GitHubIssue>, k: RepoKey)
    requires k in KeysOf(issues)
    ensures var r := ReferenceRepo(issues, k);
            && r.issueCount == |ScoresOf(issues, k)|
            && r.averageScore == Mean(ScoresOf(issues, k))
            && (forall i :: (0 <= i < |issues| && KeyOf(issues[i]) == k &&
                             (forall j :: 0 <= j < i ==> KeyOf(issues[j]) != k)) ==>
                  r.repositoryTopics == issues[i].repositoryTopics && r.primaryLanguage == issues[i].primaryLanguage)
  {
    forall i | 0 <= i < |issues| && KeyOf(issues[i]) == k && (forall j :: 0 <= j < i ==> KeyOf(issues[j]) != k)
      ensures FirstWith(issues, k) == issues[i]
    {
      FirstWithIsFirst(issues, k, i);
    }
  }

  /** The entries come sorted from the highest mean score down, and no issue gives no entry. */
  lemma AggregateSortedAndEmpty(issues: seq<GitHubIssue>)
    ensures SortedDesc(AggregateRepositories(issues), AverageScore)
    ensures issues == [] <==> AggregateRepositories(issues) == []
  {
    if issues != [] {
      assert KeysOf(issues)[0] in DistinctInOrder(KeysOf(issues));
    }
  }

  /** When every issue's score lies within [0, 100], so does every entry's mean. */
  lemma AverageScoresWithinRange(issues: seq<GitHubIssue>)
    requires forall i :: 0 <= i < |issues| ==> 0.0 <= issues[i].score <= 100.0
    ensures forall j :: 0 <= j < |AggregateRepositories(issues)| ==>
              0.0 <= AggregateRepositories(issues)[j].averageScore <= 100.0
  {
    var r := AggregateRepositories(issues);
    AggregateEntriesAreReference(issues);
    forall j | 0 <= j < |r| ensures 0.0 <= r[j].averageScore <= 100.0 {
      ReferenceAverageWithin(issues, RepoKeyOf(r[j]));
    }
  }

  /** The mean score of one repository lies within [0, 100]. */
  lemma ReferenceAverageWithin(issues: seq<GitHubIssue>, k: RepoKey)
    requires k in KeysOf(issues)
    requires forall i :: 0 <= i < |issues| ==> 0.0 <= issues[i].score <= 100.0
    ensures 0.0 <= ReferenceRepo(issues, k).averageScore <= 100.0
  {
    ScoresWithin(issues, k);
    MeanWithin(ScoresOf(issues, k), 0.0, 100.0);
  }

  lemma {:induction false} ScoresWithin(issues: seq<GitHubIssue>, k: RepoKey)
    requires forall i :: 0 <= i < |issues| ==> 0.0 <= issues[i].score <= 100.0
    ensures forall i :: 0 <= i < |ScoresOf(issues, k)| ==> 0.0 <= ScoresOf(issues, k)[i] <= 100.0
  {
    if issues != [] {
      var init := issues[..|issues| - 1];
      assert issues == init + [issues[|issues| - 1]];
      ScoresWithin(init, k);
      ScoresOfSnoc(init, issues[|issues| - 1], k);
    }
  }

  // ---------------------------------------------------------------- issue counts

  /** How many times `k` occurs in `ks`. */
  function CountIn(ks: seq<RepoKey>, k: RepoKey): nat
  {
    if ks == [] then 0
    else CountIn(ks[..|ks| - 1], k) + (if ks[|ks| - 1] == k then 1 else 0)
  }

  /** The counts of the keys `ds` in `ks`, added up. */
  function TotalCount(ks: seq<RepoKey>, ds: seq<RepoKey>): nat
  {
    if ds == [] then 0
    else TotalCount(ks, ds[..|ds| - 1]) + CountIn(ks, ds[|ds| - 1])
  }

  /** Appending `x` to `ks` adds one to the total exactly when `x` is one of the (distinct) keys `ds`. */
  lemma {:induction false} TotalCountSnoc(ks: seq<RepoKey>, x: RepoKey, ds: seq<RepoKey>)
    requires NoDuplicates(ds)
    ensures TotalCount(ks + [x], ds) == TotalCount(ks, ds) + (if x in ds then 1 else 0)
  {
    assert (ks + [x])[..|ks|] == ks;
    if ds != [] {
      var init := ds[..|ds| - 1];
      assert ds == init + [ds[|ds| - 1]];
      TotalCountSnoc(ks, x, init);
    }
  }

  /** Counting every distinct key adds up to the number of keys. */
  lemma {:induction false} TotalCountDistinct(ks: seq<RepoKey>)
    ensures TotalCount(ks, DistinctInOrder(ks)) == |ks|
  {
    if ks != [] {
      var init := ks[..|ks| - 1];
      var x := ks[|ks| - 1];
      assert ks == init + [x];
      TotalCountDistinct(init);
      var ds := DistinctInOrder(init);
      TotalCountSnoc(init, x, ds);
      assert x in ds <==> x in init;
      if x !in init {
        var ds' := ds + [x];
        assert ds'[..|ds'| - 1] == ds;
        assert CountIn(ks, x) == CountIn(init, x) + 1;
        CountAbsent(init, x);
        TotalCountSnoc(init, x, ds);
      }
    }
  }

  lemma {:induction false} CountAbsent(ks: seq<RepoKey>, x: RepoKey)
    requires x !in ks
    ensures CountIn(ks, x) == 0
  {
    if ks != [] {
      assert ks[..|ks| - 1] + [ks[|ks| - 1]] == ks;
      CountAbsent(ks[..|ks| - 1], x);
    }
  }

  /** The number of scores of repository `k` is how often `k` occurs among the keys. */
  lemma {:induction false} ScoresCount(issues: seq<GitHubIssue>, k: RepoKey)
    ensures |ScoresOf(issues, k)| == CountIn(KeysOf(issues), k)
  {
    if issues != [] {
      var init := issues[..|issues| - 1];
      var last := issues[|issues| - 1];
      assert issues == init + [last];
      KeysOfSnoc(init, last);
      assert KeysOf(issues)[..|issues| - 1] == KeysOf(init);
      ScoresCount(init, k);
    }
  }

  function IssueCountOf(repo: Repository): real
  {
    repo.issueCount as real
  }

  lemma {:induction false} ReposForCountSum(issues: seq<GitHubIssue>, ds: seq<RepoKey>)
    requires forall i :: 0 <= i < |ds| ==> ds[i] in KeysOf(issues)
    ensures SumBy(ReposFor(issues, ds), IssueCountOf) == TotalCount(KeysOf(issues), ds) as real
  {
    if ds != [] {
      var init := ds[..|ds| - 1];
      ReposForCountSum(issues, init);
      ScoresCount(issues, ds[|ds| - 1]);
      var r := ReposFor(issues, ds);
      assert r[..|r| - 1] == ReposFor(issues, init);
    }
  }

  /** The issue counts of the entries add up to the number of issues. */
  lemma IssueCountsSum(issues: seq<GitHubIssue>)
    ensures SumBy(AggregateRepositories(issues), IssueCountOf) == |issues| as real
  {
    if issues != [] {
      var ks := DistinctInOrder(KeysOf(issues));
      ReposForCountSum(issues, ks);
      TotalCountDistinct(KeysOf(issues));
      SumByPermutation(ReferenceRepos(issues), AggregateRepositories(issues), IssueCountOf);
    }
  }
}
