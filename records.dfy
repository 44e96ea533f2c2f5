/** The records the recommendation pages pass around. Dates are milliseconds
    since the epoch (the value `new Date(s).getTime()` gives for the ISO
    strings GitHub returns); scores and percentages are reals. */
module Records {

  datatype Option<+T> = None | Some(value: T)
  {
    function GetOr(default: T): T
    {
      match this
      case Some(v) => v
      case None => default
    }
  }

  /** One open issue as the issue route hands it to the pages (`GitHubIssue`). */
  datatype GitHubIssue = GitHubIssue(
    issueUrl: string,
    primaryLanguage: string,
    allLanguages: seq<string>,
    repositoryOwner: string,
    repositoryName: string,
    repositoryTopics: seq<string>,
    issueNumber: int,
    issueTitle: string,
    issueBody: string,
    issueLabels: seq<string>,
    numberOfAssignees: int,
    hasGFILabel: bool,
    dateCreated: int,
    daysOpen: int,
    score: real)

  /** One entry of a language-affinity list: `{ lang, percentage }`. The
      percentage travels as a `toFixed(2)` string and is read back with
      `Number(...)`; the model keeps the number. */
  datatype LangShare = LangShare(lang: string, percentage: real)

  /** One aggregated repository (`Repository` on the home pages). */
  datatype Repository = Repository(
    repositoryOwner: string,
    repositoryName: string,
    repositoryTopics: seq<string>,
    primaryLanguage: string,
    issueCount: int,
    averageScore: real)
}
