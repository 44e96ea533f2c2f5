/** The profile page's skill-level classifier: seven statistics of a
    GitHub account each earn points by a threshold table, and the point
    total picks beginner, intermediate or advanced. The old profile draft
    carries a verbatim copy. The current time is a parameter. */
module SkillLevel {
  import opened Records
  import opened Seqs

  datatype Level = Beginner | Intermediate | Advanced

  /** The fields of the GitHub user the classifier reads; `createdAt` in milliseconds. */
  datatype GitHubUser = GitHubUser(publicRepos: int, followers: int, createdAt: int)

  /** The fields of a GitHub repository the classifier reads; `topics` may be absent. */
  datatype GitHubRepo = GitHubRepo(stars: int, fork: bool, topics: Option<seq<string>>)

  /** `1000 * 60 * 60 * 24 * 365` */
  const MillisecondsPerYear: int := 31_536_000_000

  /** The statistics `calculateSkillLevel` derives before scoring. */
  datatype Stats = Stats(
    publicRepos: real,
    followers: real,
    totalStars: real,
    originalRepos: real,
    accountAgeYears: real,
    reposWithTopics: real,
    avgStarsPerRepo: real)

  function StarsOf(repo: GitHubRepo): real { repo.stars as real }

  predicate IsOriginal(repo: GitHubRepo) { !repo.fork }

  /** `repo.topics && repo.topics.length > 0` */
  predicate HasTopics(repo: GitHubRepo) { repo.topics.Some? && |repo.topics.value| > 0 }

  /** Account age in years: elapsed milliseconds over a 365-day year. */
  function AccountAgeYears(user: GitHubUser, now: int): (years: real)
    ensures years * MillisecondsPerYear as real == (now - user.createdAt) as real
  {
    (now - user.createdAt) as real / MillisecondsPerYear as real
  }

  /** Stars per original repository, 0 when there is none. */
  function AverageStars(totalStars: real, originalRepos: real): (avg: real)
    ensures originalRepos == 0.0 ==> avg == 0.0
    ensures originalRepos > 0.0 ==> avg * originalRepos == totalStars
  {
    if originalRepos > 0.0 then totalStars / originalRepos else 0.0
  }

  /** Total stars over every repository, forks included; the originals and
      the repositories with topics counted; account age in years; and
      stars per original repository, 0 when there is none. */
  function StatsOf(user: GitHubUser, repos: seq<GitHubRepo>, now: int): (s: Stats)
    ensures s.totalStars == SumBy(repos, StarsOf)
    ensures s.originalRepos == |Filter(repos, IsOriginal)| as real
    ensures s.reposWithTopics == |Filter(repos, HasTopics)| as real
    ensures 0.0 <= s.originalRepos <= |repos| as real && 0.0 <= s.reposWithTopics <= |repos| as real
    ensures s.avgStarsPerRepo == AverageStars(s.totalStars, s.originalRepos)
    ensures s.accountAgeYears == AccountAgeYears(user, now)
  {
    var totalStars := SumBy(repos, StarsOf);
    var originalRepos := |Filter(repos, IsOriginal)| as real;
    Stats(
      user.publicRepos as real,
      user.followers as real,
      totalStars,
      originalRepos,
      AccountAgeYears(user, now),
      |Filter(repos, HasTopics)| as real,
      AverageStars(totalStars, originalRepos))
  }

  // ---------------------------------------------------------------- thresholds

  /** One line of a threshold table: at least `threshold` earns `points`. */
  datatype Rung = Rung(threshold: real, points: nat)

  /** The points of the first rung whose threshold is reached, 0 below all of them. */
  function PointsFor(x: real, rungs: seq<Rung>): nat
  {
    if rungs == [] then 0
    else if x >= rungs[0].threshold then rungs[0].points
    else PointsFor(x, rungs[1..])
  }

  /** Thresholds and points both decrease down the table. */
  ghost predicate Descending(rungs: seq<Rung>)
  {
    forall i, j :: 0 <= i < j < |rungs| ==> rungs[i].threshold >= rungs[j].threshold && rungs[i].points >= rungs[j].points
  }

  const RepoRungs: seq<Rung> := [Rung(20.0, 3), Rung(10.0, 2), Rung(5.0, 1)]
  const FollowerRungs: seq<Rung> := [Rung(50.0, 3), Rung(20.0, 2), Rung(10.0, 1)]
  const StarRungs: seq<Rung> := [Rung(100.0, 3), Rung(25.0, 2), Rung(5.0, 1)]
  const OriginalRungs: seq<Rung> := [Rung(15.0, 2), Rung(8.0, 1)]
  const AgeRungs: seq<Rung> := [Rung(3.0, 2), Rung(1.0, 1)]
  const TopicRungs: seq<Rung> := [Rung(10.0, 2), Rung(5.0, 1)]
  const AverageRungs: seq<Rung> := [Rung(10.0, 2), Rung(3.0, 1)]

  /** The highest total the tables allow: 3 + 3 + 3 + 2 + 2 + 2 + 2. */
  const MaxScore: nat := 17

  /** The point total of the threshold tables, statistic by statistic. */
  function TotalPoints(s: Stats): nat
  {
    PointsFor(s.publicRepos, RepoRungs) + PointsFor(s.followers, FollowerRungs)
    + PointsFor(s.totalStars, StarRungs) + PointsFor(s.originalRepos, OriginalRungs)
    + PointsFor(s.accountAgeYears, AgeRungs) + PointsFor(s.reposWithTopics, TopicRungs)
    + PointsFor(s.avgStarsPerRepo, AverageRungs)
  }

  /** A table never awards more than its top rung. */
  lemma {:induction false} PointsAtMostTop(x: real, rungs: seq<Rung>)
    requires Descending(rungs)
    ensures rungs != [] ==> PointsFor(x, rungs) <= rungs[0].points
    ensures rungs == [] ==> PointsFor(x, rungs) == 0
  {
    if rungs != [] && x < rungs[0].threshold {
      assert Descending(rungs[1..]) by {
        forall i, j | 0 <= i < j < |rungs[1..]|
          ensures rungs[1..][i].threshold >= rungs[1..][j].threshold && rungs[1..][i].points >= rungs[1..][j].points
        {
          assert rungs[1..][i] == rungs[i + 1] && rungs[1..][j] == rungs[j + 1];
        }
      }
      PointsAtMostTop(x, rungs[1..]);
      if |rungs| > 1 {
        assert rungs[1..][0] == rungs[1];
      }
    }
  }

  /** A larger statistic never earns fewer points from a descending table. */
  lemma {:induction false} PointsMonotonic(x: real, y: real, rungs: seq<Rung>)
    requires Descending(rungs)
    requires x <= y
    ensures PointsFor(x, rungs) <= PointsFor(y, rungs)
  {
    if rungs != [] {
      assert Descending(rungs[1..]) by {
        forall i, j | 0 <= i < j < |rungs[1..]|
          ensures rungs[1..][i].threshold >= rungs[1..][j].threshold && rungs[1..][i].points >= rungs[1..][j].points
        {
          assert rungs[1..][i] == rungs[i + 1] && rungs[1..][j] == rungs[j + 1];
        }
      }
      if y >= rungs[0].threshold {
        PointsAtMostTop(x, rungs);
      } else {
        PointsMonotonic(x, y, rungs[1..]);
      }
    }
  }

  /** A three-rung table is an `if` / `else if` / `else if` chain. */
  lemma ThreeRungs(x: real, rungs: seq<Rung>)
    requires |rungs| == 3
    ensures PointsFor(x, rungs) ==
              if x >= rungs[0].threshold then rungs[0].points
              else if x >= rungs[1].threshold then rungs[1].points
              else if x >= rungs[2].threshold then rungs[2].points
              else 0
  {
    var tail := rungs[1..];
    assert tail[0] == rungs[1] && tail[1] == rungs[2];
    TwoRungs(x, tail);
  }

  /** A two-rung table is an `if` / `else if` chain. */
  lemma TwoRungs(x: real, rungs: seq<Rung>)
    requires |rungs| == 2
    ensures PointsFor(x, rungs) ==
              if x >= rungs[0].threshold then rungs[0].points
              else if x >= rungs[1].threshold then rungs[1].points
              else 0
  {
    var tail := rungs[1..];
    assert tail[0] == rungs[1];
    assert PointsFor(x, tail[1..]) == 0;
  }

  /** The seven tables of the classifier are descending. */
  lemma TablesDescending()
    ensures Descending(RepoRungs) && Descending(FollowerRungs) && Descending(StarRungs)
    ensures Descending(OriginalRungs) && Descending(AgeRungs) && Descending(TopicRungs) && Descending(AverageRungs)
  {
  }

  /** The score always lies within [0, 17]. */
  lemma ScoreWithinRange(s: Stats)
    ensures 0 <= TotalPoints(s) <= MaxScore
  {
    TablesDescending();
    PointsAtMostTop(s.publicRepos, RepoRungs);
    PointsAtMostTop(s.followers, FollowerRungs);
    PointsAtMostTop(s.totalStars, StarRungs);
    PointsAtMostTop(s.originalRepos, OriginalRungs);
    PointsAtMostTop(s.accountAgeYears, AgeRungs);
    PointsAtMostTop(s.reposWithTopics, TopicRungs);
    PointsAtMostTop(s.avgStarsPerRepo, AverageRungs);
  }

  /** The chain of `score +=` branches, in the order of the source. */
  method Score(s: Stats) returns (score: nat)
    ensures score == TotalPoints(s)
    ensures score <= MaxScore
  {
    score := 0;

    if s.publicRepos >= 20.0 { score := score + 3; }
    else if s.publicRepos >= 10.0 { score := score + 2; }
    else if s.publicRepos >= 5.0 { score := score + 1; }
    assert score == PointsFor(s.publicRepos, RepoRungs) by { ThreeRungs(s.publicRepos, RepoRungs); }

    if s.followers >= 50.0 { score := score + 3; }
    else if s.followers >= 20.0 { score := score + 2; }
    else if s.followers >= 10.0 { score := score + 1; }
    assert score == PointsFor(s.publicRepos, RepoRungs) + PointsFor(s.followers, FollowerRungs) by {
      ThreeRungs(s.followers, FollowerRungs);
    }

    if s.totalStars >= 100.0 { score := score + 3; }
    else if s.totalStars >= 25.0 { score := score + 2; }
    else if s.totalStars >= 5.0 { score := score + 1; }
    ghost var sofar := PointsFor(s.publicRepos, RepoRungs) + PointsFor(s.followers, FollowerRungs)
                       + PointsFor(s.totalStars, StarRungs);
    assert score == sofar by { ThreeRungs(s.totalStars, StarRungs); }

    if s.originalRepos >= 15.0 { score := score + 2; }
    else if s.originalRepos >= 8.0 { score := score + 1; }
    sofar := sofar + PointsFor(s.originalRepos, OriginalRungs);
    assert score == sofar by { TwoRungs(s.originalRepos, OriginalRungs); }

    if s.accountAgeYears >= 3.0 { score := score + 2; }
    else if s.accountAgeYears >= 1.0 { score := score + 1; }
    sofar := sofar + PointsFor(s.accountAgeYears, AgeRungs);
    assert score == sofar by { TwoRungs(s.accountAgeYears, AgeRungs); }

    if s.reposWithTopics >= 10.0 { score := score + 2; }
    else if s.reposWithTopics >= 5.0 { score := score + 1; }
    sofar := sofar + PointsFor(s.reposWithTopics, TopicRungs);
    assert score == sofar by { TwoRungs(s.reposWithTopics, TopicRungs); }

    if s.avgStarsPerRepo >= 10.0 { score := score + 2; }
    else if s.avgStarsPerRepo >= 3.0 { score := score + 1; }
    assert score == sofar + PointsFor(s.avgStarsPerRepo, AverageRungs) by { TwoRungs(s.avgStarsPerRepo, AverageRungs); }
    ScoreWithinRange(s);
  }

  /** `score >= 12` is advanced, `score >= 6` intermediate, anything else beginner. */
  function LevelOf(score: int): Level
  {
    if score >= 12 then Advanced
    else if score >= 6 then Intermediate
    else Beginner
  }

  /** The levels in increasing order of experience. */
  function Rank(level: Level): nat
  {
    match level
    case Beginner => 0
    case Intermediate => 1
    case Advanced => 2
  }

  /** A higher score never gives a lower level. */
  lemma LevelMonotonic(a: int, b: int)
    requires a <= b
    ensures Rank(LevelOf(a)) <= Rank(LevelOf(b))
  {
  }

  /** `calculateSkillLevel(user, repos)` at time `now`. */
  method CalculateSkillLevel(user: GitHubUser, repos: seq<GitHubRepo>, now: int) returns (level: Level)
    ensures level == LevelOf(TotalPoints(StatsOf(user, repos, now)))
  {
    var score := Score(StatsOf(user, repos, now));
    if score >= 12 { return Advanced; }
    if score >= 6 { return Intermediate; }
    return Beginner;
  }

  /** Every statistic of `a` is at most the same statistic of `b`. */
  predicate AtMost(a: Stats, b: Stats)
  {
    a.publicRepos <= b.publicRepos && a.followers <= b.followers && a.totalStars <= b.totalStars
    && a.originalRepos <= b.originalRepos && a.accountAgeYears <= b.accountAgeYears
    && a.reposWithTopics <= b.reposWithTopics && a.avgStarsPerRepo <= b.avgStarsPerRepo
  }

  /** Raising statistics never lowers the score or the level. */
  lemma RaisingStatsNeverLowersLevel(a: Stats, b: Stats)
    requires AtMost(a, b)
    ensures TotalPoints(a) <= TotalPoints(b)
    ensures Rank(LevelOf(TotalPoints(a))) <= Rank(LevelOf(TotalPoints(b)))
  {
    TablesDescending();
    PointsMonotonic(a.publicRepos, b.publicRepos, RepoRungs);
    PointsMonotonic(a.followers, b.followers, FollowerRungs);
    PointsMonotonic(a.totalStars, b.totalStars, StarRungs);
    PointsMonotonic(a.originalRepos, b.originalRepos, OriginalRungs);
    PointsMonotonic(a.accountAgeYears, b.accountAgeYears, AgeRungs);
    PointsMonotonic(a.reposWithTopics, b.reposWithTopics, TopicRungs);
    PointsMonotonic(a.avgStarsPerRepo, b.avgStarsPerRepo, AverageRungs);
    LevelMonotonic(TotalPoints(a), TotalPoints(b));
  }

  /** Gaining a follower, everything else unchanged, never lowers the level. */
  lemma MoreFollowersNeverLowerLevel(user: GitHubUser, repos: seq<GitHubRepo>, now: int)
    ensures var more := user.(followers := user.followers + 1);
            Rank(LevelOf(TotalPoints(StatsOf(user, repos, now))))
            <= Rank(LevelOf(TotalPoints(StatsOf(more, repos, now))))
  {
    var more := user.(followers := user.followers + 1);
    RaisingStatsNeverLowersLevel(StatsOf(user, repos, now), StatsOf(more, repos, now));
  }

  // ---------------------------------------------------------------- colour

  /** `getSkillLevelColor`: gray when no level is known yet, one class per level. */
  function SkillLevelColor(level: Option<Level>): string
  {
    match level
    case None => "bg-gray-200 text-gray-800"
    case Some(Beginner) => "bg-green-200 text-green-800"
    case Some(Intermediate) => "bg-blue-200 text-blue-800"
    case Some(Advanced) => "bg-purple-200 text-purple-800"
  }

  /** Different levels, and no level at all, are shown in different colours. */
  lemma ColoursDistinct(a: Option<Level>, b: Option<Level>)
    ensures SkillLevelColor(a) == SkillLevelColor(b) <==> a == b
  {
    if a != b {
      var ca, cb := SkillLevelColor(a), SkillLevelColor(b);
      assert ca[5] != cb[5];
    }
  }
}
