/** The in-place version of the legacy scorer: four passes over a shared
    task list, each assigning score fields of every task object. The list
    and the user's preferences come from a fixture that is not part of
    the file; here they are parameters. Scores stored as `toFixed(2)`
    strings are kept as their numeric value, rounded to cents. */
module LegacyActions {
  import opened Numeric
  import LegacyScoring

  /** A task object of the fixture, with the fields the passes write. */
  class TaskRecord {
    var topics: seq<string>
    var taskLanguage: seq<string>
    var daysSincePublished: real
    var topicScore: JsNum
    var languageScore: real
    var dateScore: real
    var forUser: bool
    var totalScore: JsNum

    constructor (topics: seq<string>, taskLanguage: seq<string>, daysSincePublished: real)
      ensures this.topics == topics && this.taskLanguage == taskLanguage
      ensures this.daysSincePublished == daysSincePublished
      ensures topicScore == NaN && languageScore == 0.0 && dateScore == 0.0
      ensures !forUser && totalScore == NaN
    {
      this.topics := topics;
      this.taskLanguage := taskLanguage;
      this.daysSincePublished := daysSincePublished;
      topicScore := NaN;
      languageScore := 0.0;
      dateScore := 0.0;
      forUser := false;
      totalScore := NaN;
    }
  }

  /** `topicScore()`: every task's `topicScore` becomes its topic share of
      the user's preferred topics times 0.45; nothing else changes. */
  method TopicScore(tasks: seq<TaskRecord>, preferredTopics: seq<string>)
    modifies set t | t in tasks
    ensures forall t :: t in tasks ==> t.topicScore == LegacyScoring.TopicScore(t.topics, preferredTopics)
    ensures forall t :: t in tasks ==>
              t.topics == old(t.topics) && t.taskLanguage == old(t.taskLanguage)
              && t.daysSincePublished == old(t.daysSincePublished) && t.languageScore == old(t.languageScore)
              && t.dateScore == old(t.dateScore) && t.forUser == old(t.forUser) && t.totalScore == old(t.totalScore)
  {
    for i := 0 to |tasks|
      invariant forall j :: 0 <= j < i ==> tasks[j].topicScore == LegacyScoring.TopicScore(tasks[j].topics, preferredTopics)
      invariant forall t :: t in tasks ==>
                  t.topics == old(t.topics) && t.taskLanguage == old(t.taskLanguage)
                  && t.daysSincePublished == old(t.daysSincePublished) && t.languageScore == old(t.languageScore)
                  && t.dateScore == old(t.dateScore) && t.forUser == old(t.forUser) && t.totalScore == old(t.totalScore)
    {
      var task := tasks[i];
      task.topicScore := LegacyScoring.TopicScore(task.topics, preferredTopics);
    }
  }

  /** `(z * 0.35).toFixed(2)` for the weight sum `z` of a task's languages. */
  function StoredLanguageScore(taskLanguage: seq<string>, userLanguages: seq<string>): real
  {
    RoundCents(LegacyScoring.LanguageSum(taskLanguage, userLanguages) * LegacyScoring.LanguageWeight)
  }

  /** `languageScore()`: every task's `languageScore` becomes
      `(Σ 0.2 ** index * 0.35).toFixed(2)`; nothing else changes. */
  method LanguageScore(tasks: seq<TaskRecord>, userLanguages: seq<string>)
    modifies set t | t in tasks
    ensures forall t :: t in tasks ==>
              t.languageScore == StoredLanguageScore(t.taskLanguage, userLanguages)
    ensures forall t :: t in tasks ==>
              t.topics == old(t.topics) && t.taskLanguage == old(t.taskLanguage)
              && t.daysSincePublished == old(t.daysSincePublished) && t.topicScore == old(t.topicScore)
              && t.dateScore == old(t.dateScore) && t.forUser == old(t.forUser) && t.totalScore == old(t.totalScore)
  {
    for i := 0 to |tasks|
      invariant forall j :: 0 <= j < i ==>
                  tasks[j].languageScore == StoredLanguageScore(tasks[j].taskLanguage, userLanguages)
      invariant forall t :: t in tasks ==>
                  t.topics == old(t.topics) && t.taskLanguage == old(t.taskLanguage)
                  && t.daysSincePublished == old(t.daysSincePublished) && t.topicScore == old(t.topicScore)
                  && t.dateScore == old(t.dateScore) && t.forUser == old(t.forUser) && t.totalScore == old(t.totalScore)
    {
      var task := tasks[i];
      var z := LegacyScoring.SumLanguageWeights(task.taskLanguage, userLanguages);
      task.languageScore := RoundCents(z * LegacyScoring.LanguageWeight);
    }
  }

  /** `(days * 0.2).toFixed(2)` for a task published `days` days ago. */
  function StoredDateScore(days: real): real
  {
    RoundCents(days * LegacyScoring.DateWeight)
  }

  /** `dateScore()`: a task at most 90 days old is marked for the user and
      gets `(days * 0.2).toFixed(2)`; an older one is unmarked and keeps its
      date score; nothing else changes. */
  method DateScore(tasks: seq<TaskRecord>)
    modifies set t | t in tasks
    ensures forall t :: t in tasks ==> (t.forUser <==> t.daysSincePublished <= LegacyScoring.CutoffDays)
    ensures forall t :: t in tasks ==>
              t.dateScore == if t.forUser then StoredDateScore(t.daysSincePublished) else old(t.dateScore)
    ensures forall t :: t in tasks ==>
              t.topics == old(t.topics) && t.taskLanguage == old(t.taskLanguage)
              && t.daysSincePublished == old(t.daysSincePublished) && t.topicScore == old(t.topicScore)
              && t.languageScore == old(t.languageScore) && t.totalScore == old(t.totalScore)
  {
    for i := 0 to |tasks|
      invariant forall j :: 0 <= j < i ==> (tasks[j].forUser <==> tasks[j].daysSincePublished <= LegacyScoring.CutoffDays)
      invariant forall j :: 0 <= j < i ==>
                  tasks[j].dateScore == if tasks[j].forUser then StoredDateScore(tasks[j].daysSincePublished) else old(tasks[j].dateScore)
      invariant forall t :: t in tasks ==> t.dateScore == old(t.dateScore) || t.daysSincePublished <= LegacyScoring.CutoffDays
      invariant forall t :: t in tasks ==>
                  t.topics == old(t.topics) && t.taskLanguage == old(t.taskLanguage)
                  && t.daysSincePublished == old(t.daysSincePublished) && t.topicScore == old(t.topicScore)
                  && t.languageScore == old(t.languageScore) && t.totalScore == old(t.totalScore)
    {
      var task := tasks[i];
      if task.daysSincePublished <= LegacyScoring.CutoffDays {
        task.forUser := true;
        task.dateScore := RoundCents(task.daysSincePublished * LegacyScoring.DateWeight);
      } else {
        task.forUser := false;
      }
    }
  }

  /** `Number(topicScore) + Number(languageScore) + Number(dateScore)`. */
  function SumOfScores(t: TaskRecord): JsNum
    reads t
  {
    t.topicScore.Plus(Num(t.languageScore)).Plus(Num(t.dateScore))
  }

  /** The totals `scoreSum` pushes: one per task marked for the user, in task order. */
  function MarkedTotals(tasks: seq<TaskRecord>): (r: seq<JsNum>)
    reads set t | t in tasks
    ensures |r| <= |tasks|
  {
    if tasks == [] then []
    else
      var last := tasks[|tasks| - 1];
      MarkedTotals(tasks[..|tasks| - 1]) + (if last.forUser then [SumOfScores(last)] else [])
  }

  /** Nothing is pushed iff no task is marked, and every pushed total is the
      score sum of a marked task. */
  lemma {:induction false} MarkedTotalsFacts(tasks: seq<TaskRecord>)
    ensures MarkedTotals(tasks) == [] <==> forall t :: t in tasks ==> !t.forUser
    ensures forall k :: 0 <= k < |MarkedTotals(tasks)| ==>
              exists t :: t in tasks && t.forUser && MarkedTotals(tasks)[k] == SumOfScores(t)
  {
    if tasks != [] {
      var front := tasks[..|tasks| - 1];
      var last := tasks[|tasks| - 1];
      MarkedTotalsFacts(front);
      assert tasks == front + [last];
      forall k | 0 <= k < |MarkedTotals(tasks)|
        ensures exists t :: t in tasks && t.forUser && MarkedTotals(tasks)[k] == SumOfScores(t)
      {
        if k < |MarkedTotals(front)| {
          var t :| t in front && t.forUser && MarkedTotals(front)[k] == SumOfScores(t);
          assert t in tasks;
        } else {
          assert last in tasks;
        }
      }
    }
  }

  /** `scoreSum(arr)`: every task marked for the user gets the sum of its
      three scores as `totalScore`, which is also pushed onto `arr` (the
      returned list); unmarked tasks keep their total; nothing else changes. */
  method ScoreSum(tasks: seq<TaskRecord>, arr: seq<JsNum>) returns (arr': seq<JsNum>)
    modifies set t | t in tasks
    ensures arr' == arr + old(MarkedTotals(tasks))
    ensures forall t :: t in tasks ==> t.totalScore == if t.forUser then SumOfScores(t) else old(t.totalScore)
    ensures forall t :: t in tasks ==>
              t.topics == old(t.topics) && t.taskLanguage == old(t.taskLanguage)
              && t.daysSincePublished == old(t.daysSincePublished) && t.topicScore == old(t.topicScore)
              && t.languageScore == old(t.languageScore) && t.dateScore == old(t.dateScore)
              && t.forUser == old(t.forUser)
  {
    arr' := arr;
    for i := 0 to |tasks|
      invariant arr' == arr + old(MarkedTotals(tasks[..i]))
      invariant forall j :: 0 <= j < i ==> tasks[j].totalScore == if tasks[j].forUser then SumOfScores(tasks[j]) else old(tasks[j].totalScore)
      invariant forall t :: t in tasks ==> t.totalScore == old(t.totalScore) || t.forUser
      invariant forall t :: t in tasks ==>
                  t.topics == old(t.topics) && t.taskLanguage == old(t.taskLanguage)
                  && t.daysSincePublished == old(t.daysSincePublished) && t.topicScore == old(t.topicScore)
                  && t.languageScore == old(t.languageScore) && t.dateScore == old(t.dateScore)
                  && t.forUser == old(t.forUser)
    {
      var task := tasks[i];
      assert tasks[..i + 1] == tasks[..i] + [task];
      assert tasks[..i + 1][..i] == tasks[..i];
      if task.forUser {
        task.totalScore := task.topicScore.Plus(Num(task.languageScore)).Plus(Num(task.dateScore));
        arr' := arr' + [task.totalScore];
      }
    }
    assert tasks[..|tasks|] == tasks;
  }
}
