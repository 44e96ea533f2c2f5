/** The first scoring drafts (two identical copies of the same page): a
    task scores a topic share, an exponentially decaying language term
    and a date term that grows with age, and tasks older than 90 days are
    not scored at all. The ranked list keeps the scored tasks, highest
    total first. Topic matching is exact (case-sensitive), there is no
    scaling to 0..100, and an empty list of preferred topics turns every
    total into `NaN`. */
module LegacyScoring {
  import opened Records
  import opened Seqs
  import opened Numeric

  const TopicWeight: real := 0.45
  const LanguageWeight: real := 0.35
  const DateWeight: real := 0.2
  const CutoffDays: real := 90.0
  const LanguageDecay: real := 0.2
  const TopCount: nat := 5

  /** A task row as the drafts read it; absent lists are `None`. */
  datatype Task = Task(
    id: int,
    topics: Option<seq<string>>,
    taskLanguage: Option<seq<string>>,
    daysSincePublished: real)

  /** The user row: `preferredTopics` and `languages`, each possibly absent. */
  datatype UserPrefs = UserPrefs(preferredTopics: Option<seq<string>>, languages: Option<seq<string>>)

  /** `xs.filter(x => ys.includes(x)).length`: exact matches, repetitions in `xs` counted. */
  function CountIncluded(xs: seq<string>, ys: seq<string>): (n: nat)
    ensures n <= |xs|
    ensures n == 0 <==> forall i :: 0 <= i < |xs| ==> xs[i] !in ys
  {
    if xs == [] then 0
    else
      assert forall i :: 1 <= i < |xs| ==> xs[i] == xs[1..][i - 1];
      CountIncluded(xs[1..], ys) + (if xs[0] in ys then 1 else 0)
  }

  /** `calculateTopicScore`: `matching / |preferred| * 0.45`, which is
      `0 / 0`, so `NaN`, for an empty preferred list. */
  function TopicScore(taskTopics: seq<string>, preferred: seq<string>): (r: JsNum)
    ensures r.NaN? <==> preferred == []
    ensures r.Num? ==> 0.0 <= r.value
    ensures r.Num? && (forall i :: 0 <= i < |taskTopics| ==> taskTopics[i] !in preferred) ==> r.value == 0.0
  {
    if |preferred| == 0 then NaN
    else
      var matching := CountIncluded(taskTopics, preferred);
      RatioBounds(matching, |preferred|);
      Num(matching as real / |preferred| as real * TopicWeight)
  }

  /** For a task without repeated topics the topic score is at most 0.45;
      with repeated topics it can exceed it, as nothing caps the share. */
  lemma TopicScoreBound(taskTopics: seq<string>, preferred: seq<string>)
    requires preferred != [] && NoDuplicates(taskTopics)
    ensures TopicScore(taskTopics, preferred).value <= TopicWeight
  {
    DistinctCountBound(taskTopics, preferred);
    RatioBounds(CountIncluded(taskTopics, preferred), |preferred|);
  }

  /** Distinct elements of `xs` that occur in `ys` are at most `|ys|` many. */
  lemma {:induction false} DistinctCountBound(xs: seq<string>, ys: seq<string>)
    requires NoDuplicates(xs)
    ensures CountIncluded(xs, ys) <= |ys|
    decreases |xs|
  {
    if xs != [] && xs[0] in ys {
      var j :| 0 <= j < |ys| && ys[j] == xs[0];
      var ys' := ys[..j] + ys[j + 1..];
      assert forall y :: y in ys && y != xs[0] ==> y in ys' by {
        assert ys == ys[..j] + [ys[j]] + ys[j + 1..];
      }
      assert forall i :: 0 <= i < |xs[1..]| ==> xs[1..][i] != xs[0] && (xs[1..][i] in ys ==> xs[1..][i] in ys') by {
        forall i | 0 <= i < |xs[1..]| ensures xs[1..][i] != xs[0] {
          assert xs[1..][i] == xs[i + 1];
        }
      }
      SameCount(xs[1..], ys, ys');
      DistinctCountBound(xs[1..], ys');
    } else if xs != [] {
      DistinctCountBound(xs[1..], ys);
    }
  }

  /** Two lists that agree on every element of `xs` give the same count. */
  lemma {:induction false} SameCount(xs: seq<string>, ys: seq<string>, zs: seq<string>)
    requires forall i :: 0 <= i < |xs| ==> (xs[i] in ys <==> xs[i] in zs)
    ensures CountIncluded(xs, ys) == CountIncluded(xs, zs)
  {
    if xs != [] {
      SameCount(xs[1..], ys, zs);
    }
  }

  /** `userLanguages.indexOf(language)`: the first position, if any. */
  function IndexOf(xs: seq<string>, x: string): (r: Option<nat>)
    ensures r.Some? ==> r.value < |xs| && xs[r.value] == x && forall j :: 0 <= j < r.value ==> xs[j] != x
    ensures r.None? <==> x !in xs
  {
    if xs == [] then None
    else if xs[0] == x then Some(0)
    else
      match IndexOf(xs[1..], x)
      case None => None
      case Some(i) => Some(i + 1)
  }

  /** What one task language adds: `0.2 ** index` when the user uses it, else 0. */
  function LanguageWeightOf(language: string, userLanguages: seq<string>): (w: real)
    ensures 0.0 <= w <= 1.0
    ensures w > 0.0 <==> language in userLanguages
  {
    match IndexOf(userLanguages, language)
    case None => 0.0
    case Some(i) => Pow(LanguageDecay, i)
  }

  /** `Σ 0.2 ** index` over those task languages the user uses, in task order. */
  function LanguageSum(taskLanguages: seq<string>, userLanguages: seq<string>): real
  {
    if taskLanguages == [] then 0.0
    else LanguageSum(taskLanguages[..|taskLanguages| - 1], userLanguages)
         + LanguageWeightOf(taskLanguages[|taskLanguages| - 1], userLanguages)
  }

  /** The accumulating loop of `calculateLanguageScore` (and of the in-place `languageScore`). */
  method SumLanguageWeights(taskLanguages: seq<string>, userLanguages: seq<string>) returns (total: real)
    ensures total == LanguageSum(taskLanguages, userLanguages)
  {
    total := 0.0;
    for i := 0 to |taskLanguages|
      invariant total == LanguageSum(taskLanguages[..i], userLanguages)
    {
      var languageIndex := IndexOf(userLanguages, taskLanguages[i]);
      if languageIndex.Some? {
        total := total + Pow(LanguageDecay, languageIndex.value);
      }
      assert taskLanguages[..i + 1][..i] == taskLanguages[..i];
    }
    assert taskLanguages[..|taskLanguages|] == taskLanguages;
  }

  /** `calculateLanguageScore`: the weight sum times 0.35. */
  method CalculateLanguageScore(taskLanguages: seq<string>, userLanguages: seq<string>) returns (score: real)
    ensures score == LanguageSum(taskLanguages, userLanguages) * LanguageWeight
  {
    var totalScore := SumLanguageWeights(taskLanguages, userLanguages);
    score := totalScore * LanguageWeight;
  }

  /** The language sum is 0 when no task language is used by the user, 1
      for a single task language that is the user's first, and never more
      than one per task language. */
  lemma {:induction false} LanguageSumFacts(taskLanguages: seq<string>, userLanguages: seq<string>)
    ensures (forall i :: 0 <= i < |taskLanguages| ==> taskLanguages[i] !in userLanguages)
            ==> LanguageSum(taskLanguages, userLanguages) == 0.0
    ensures 0.0 <= LanguageSum(taskLanguages, userLanguages) <= |taskLanguages| as real
    ensures |userLanguages| > 0 && taskLanguages == [userLanguages[0]]
            ==> LanguageSum(taskLanguages, userLanguages) == 1.0
  {
    if taskLanguages != [] {
      var init := taskLanguages[..|taskLanguages| - 1];
      LanguageSumFacts(init, userLanguages);
      if |userLanguages| > 0 && taskLanguages == [userLanguages[0]] {
        assert init == [];
        assert IndexOf(userLanguages, userLanguages[0]) == Some(0);
      }
    }
  }

  /** `calculateDateScore`: `days * 0.2` up to the 90-day cutoff, `null` after it. */
  function DateScore(daysSincePublished: real): (r: Option<real>)
    ensures r.None? <==> daysSincePublished > CutoffDays
    ensures r.Some? && daysSincePublished >= 0.0 ==> 0.0 <= r.value <= 18.0
  {
    if daysSincePublished <= CutoffDays then Some(daysSincePublished * DateWeight) else None
  }

  /** The date score grows with age, unlike the live page's recency term. */
  lemma DateScoreGrowsWithAge(d1: real, d2: real)
    requires d1 <= d2 <= CutoffDays
    ensures DateScore(d1).value <= DateScore(d2).value
  {
  }

  /** `calculateTotalScore`: `null` when the date score is, else the sum of
      the three scores, with absent lists read as `[]`. */
  function TotalScore(task: Task, user: UserPrefs): (r: Option<JsNum>)
    ensures r.None? <==> DateScore(task.daysSincePublished).None?
  {
    var topicScore := TopicScore(task.topics.GetOr([]), user.preferredTopics.GetOr([]));
    var languageScore := LanguageSum(task.taskLanguage.GetOr([]), user.languages.GetOr([])) * LanguageWeight;
    match DateScore(task.daysSincePublished)
    case None => None
    case Some(dateScore) => Some(topicScore.Plus(Num(languageScore)).Plus(Num(dateScore)))
  }

  /** A scored total is `NaN` exactly when the user prefers no topic, and is
      otherwise the plain sum of the three scores. */
  lemma TotalScoreFacts(task: Task, user: UserPrefs)
    requires TotalScore(task, user).Some?
    ensures TotalScore(task, user).value.NaN? <==> user.preferredTopics.GetOr([]) == []
    ensures TotalScore(task, user).value.Num? ==>
              TotalScore(task, user).value.value ==
              TopicScore(task.topics.GetOr([]), user.preferredTopics.GetOr([])).value
              + LanguageSum(task.taskLanguage.GetOr([]), user.languages.GetOr([])) * LanguageWeight
              + DateScore(task.daysSincePublished).value
  {
  }

  // ---------------------------------------------------------------- ranking

  /** `{ ...issue, totalScore }` */
  datatype ScoredTask = ScoredTask(task: Task, totalScore: JsNum)

  /** The sort key of `(a, b) => b.totalScore - a.totalScore` for numeric totals. */
  function TotalOf(scored: ScoredTask): real
  {
    match scored.totalScore
    case Num(v) => v
    case NaN => 0.0
  }

  /** The `map` then `filter(issue => issue !== null)`: every task with a total, in order. */
  function ScoreAll(tasks: seq<Task>, user: UserPrefs): (r: seq<ScoredTask>)
    ensures |r| <= |tasks|
    ensures forall i :: 0 <= i < |r| ==> r[i].task in tasks && TotalScore(r[i].task, user) == Some(r[i].totalScore)
    ensures forall i :: 0 <= i < |tasks| && TotalScore(tasks[i], user).Some? ==>
              ScoredTask(tasks[i], TotalScore(tasks[i], user).value) in r
  {
    if tasks == [] then []
    else
      var rest := ScoreAll(tasks[1..], user);
      assert forall i :: 1 <= i < |tasks| ==> tasks[i] == tasks[1..][i - 1];
      match TotalScore(tasks[0], user)
      case None => rest
      case Some(total) => [ScoredTask(tasks[0], total)] + rest
  }

  /** The filter keeps order and multiplicity: scoring two lists one after
      the other gives the two scored lists one after the other. */
  lemma {:induction false} ScoreAllConcat(a: seq<Task>, b: seq<Task>, user: UserPrefs)
    ensures ScoreAll(a + b, user) == ScoreAll(a, user) + ScoreAll(b, user)
  {
    if a != [] {
      var ab := a + b;
      assert ab[0] == a[0] && ab[1..] == a[1..] + b;
      ScoreAllConcat(a[1..], b, user);
      match TotalScore(a[0], user)
      case None =>
        assert ScoreAll(ab, user) == ScoreAll(ab[1..], user);
        assert ScoreAll(a, user) == ScoreAll(a[1..], user);
      case Some(total) =>
        assert ScoreAll(ab, user) == [ScoredTask(a[0], total)] + ScoreAll(ab[1..], user);
        assert ScoreAll(a, user) == [ScoredTask(a[0], total)] + ScoreAll(a[1..], user);
    } else {
      assert a + b == b;
    }
  }

  /** `getSortedIssues` after the fetches: the scored tasks sorted from the
      highest total down, and the first five of them. With an empty
      preferred list every total is `NaN`, every comparison is `NaN`, and
      the stable sort leaves tasks in their order. */
  function GetSortedIssues(tasks: seq<Task>, user: UserPrefs): (r: (seq<ScoredTask>, seq<ScoredTask>))
    ensures multiset(r.0) == multiset(ScoreAll(tasks, user))
    ensures user.preferredTopics.GetOr([]) != [] ==> SortedDesc(r.0, TotalOf)
    ensures user.preferredTopics.GetOr([]) == [] ==> r.0 == ScoreAll(tasks, user)
    ensures |r.1| == (if |r.0| < TopCount then |r.0| else TopCount)
    ensures forall i :: 0 <= i < |r.1| ==> r.1[i] == r.0[i]
  {
    var scored := ScoreAll(tasks, user);
    var allSorted := if user.preferredTopics.GetOr([]) == [] then scored else SortDesc(scored, TotalOf);
    (allSorted, Take(allSorted, TopCount))
  }

  /** The ranked list holds only numeric totals when the user prefers some
      topic, and only `NaN` totals when the user prefers none. */
  lemma RankedTotals(tasks: seq<Task>, user: UserPrefs)
    ensures forall i :: 0 <= i < |GetSortedIssues(tasks, user).0| ==>
              (GetSortedIssues(tasks, user).0[i].totalScore.NaN? <==> user.preferredTopics.GetOr([]) == [])
  {
    var r := GetSortedIssues(tasks, user).0;
    var scored := ScoreAll(tasks, user);
    forall i | 0 <= i < |r|
      ensures r[i].totalScore.NaN? <==> user.preferredTopics.GetOr([]) == []
    {
      assert r[i] in multiset(scored);
      var j :| 0 <= j < |scored| && scored[j] == r[i];
      TotalScoreFacts(r[i].task, user);
    }
  }
}
