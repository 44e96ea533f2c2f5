# gitTogether recommendation scoring, modelled in Dafny

gitTogether recommends good-first issues, repositories and mentors to a
GitHub user. This project models the arithmetic and list logic behind
those recommendations and proves its properties:

- **HomeScoring** is the live home page. It scores issues on recency (weight
  0.20, 180-day horizon), linear-rank language match (0.35) and topic overlap
  (0.45). It scores mentors on a language term (0.55) and a preference term
  (0.45). Scores are rounded to hundredths and sorted from highest down.
  It also filters issues by creation date.
- **RepoAggregation** is the repository aggregator shared by the live page
  and the draft page. It folds scored issues into a map keyed by
  owner and name, keeping a running mean. The imperative fold is proved
  equal to a batch definition (one entry per repository, count, mean of
  scores, first issue's topics and language, sorted by average).
- **UserLanguages** is the `user-languages` route. It keeps non-fork
  repositories and samples the ten with the most stars. It adds up
  language bytes per language and reports percentages to two decimals,
  sorted descending, with a guard for an all-zero total and the 400/500
  error answers.
- **IssueIntake** is the `github-issues` route. It holds the substring
  "good first issue" label test, the pull-request and assignee filter,
  days open, the fallbacks for failed repository lookups, and the merged
  list sorted by age.
- **DefaultPage** is the earlier draft of the home page. Its
  `sortLanguages` and `fetchUserLanguages` are proved to agree with the live
  versions for integer ages, except where the draft differs (see Findings
  and "Left out").
- **LegacyScoring** holds the legacy ranking drafts `alt.tsx` and
  `alt2.tsx`. They use a 90-day cutoff, a date score that grows with age,
  a `0.2^index` language decay and a case-sensitive topic share that is NaN
  for an empty preference list.
- **LegacyActions** is `app/home/actions.ts`. It is the same legacy
  algorithm as a class of task records whose score fields are updated in
  place.
- **SkillLevel** is the profile pages' threshold point system giving
  beginner, intermediate or advanced, plus the colour of each level.
- **IssueSync** is the daily synchronisation script. It detects changes
  by id, replaces the stored issues and e-mails the users who opted in.
- **Preferences** is the topic search filter and the toggle of selected
  topic ids on the preferences page.

**Supporting modules.** `Records`, `Text` (ASCII lower-casing and substring
search), `Numeric` (rounding to hundredths and real-arithmetic helpers) and
`Seqs` (filter, stable sort, sums and distinctness) hold the shared data
and definitions.

**Numbers and inputs.**
- JavaScript numbers are modelled as exact reals.
- `Math.round(x*100)/100` and `toFixed(2)` are both
  `Numeric.RoundCents`, which is `floor(x*100 + 1/2)/100`. Every rounded value
  is non-negative, so `toFixed`'s half-away-from-zero rule agrees with it.
- The legacy drafts divide 0 by 0. `JsNum` models that NaN explicitly.
- Fetched data (listings, language maps, issues, users) and the clock are
  parameters.

## Model

| member | source | states |
|---|---|---|
| HomeScoring.RecencyTermBounds | app/home/page.tsx:360-362 | the recency term is 20 at 0 days, 0 from 180 days on, and within [0,20] for non-negative ages |
| HomeScoring.RecencyTermAntitone | app/home/page.tsx:360-362 | an older issue never gets a larger recency term |
| HomeScoring.FindLang | app/home/page.tsx:365-372 | the result is the first index whose language equals the name up to case, and None iff there is none |
| HomeScoring.IssueLanguageTermBounds | app/home/page.tsx:364-377 | the language term lies in [0,35]; it is 35 when the viewer's first language matches and 0 when nothing matches |
| HomeScoring.IssueLanguageTermRank | app/home/page.tsx:369-375 | a language earlier in the viewer's list earns a strictly larger term |
| HomeScoring.CountMatching | app/home/page.tsx:384-388 | the topic match count is at most the number of topics, and 0 iff no topic equals a preference up to case |
| HomeScoring.CappedShare | app/home/page.tsx:391-394 | the capped share lies in [0,100] and is the plain percentage when matches do not exceed the denominator |
| HomeScoring.TopicTermBounds | app/home/page.tsx:379-397 | the topic term lies in [0,45] and is 0 without preferences or without a matching topic |
| HomeScoring.RawIssueScoreBounds | app/home/page.tsx:357-399 | the three-term sum and its rounding lie in [0,100] for non-negative ages |
| HomeScoring.ScoreIssue | app/home/page.tsx:399 | only `score` changes; the new score is a whole number of cents, within half a cent of the three-term sum, and in [0,100] |
| HomeScoring.ScoreIssues | app/home/page.tsx:341-403 | an empty list comes back as is; without viewer languages every issue gets score 0 in its place; otherwise the result is a permutation of the scored issues sorted by score, highest first |
| HomeScoring.ScoredIssueFacts | app/home/page.tsx:357-402 | every element of the ranking is the scored form of some input issue |
| HomeScoring.ScoredIssuesWithinRange | app/home/page.tsx:357-402 | every ranked issue's score lies in [0,100] |
| HomeScoring.MentorLanguageScore | app/home/page.tsx:285-309 | the forEach accumulation of weighted matches equals the mentor language term |
| HomeScoring.NoMatchNoSum | app/home/page.tsx:289-303 | with no matched language the accumulated language score stays 0 |
| HomeScoring.MentorLangContributionBounds | app/home/page.tsx:296-300 | one matched language contributes between 0 and 100 |
| HomeScoring.MentorLangSumBounds | app/home/page.tsx:289-303 | the accumulated language score lies between 0 and 100 times the number of viewer languages |
| HomeScoring.NoMatchCounted | app/home/page.tsx:289-303 | `matchCount` stays 0 when no viewer language occurs among the mentor's languages |
| HomeScoring.MentorLanguageTermBounds | app/home/page.tsx:285-309 | the mentor language term is 0 without a matching language and within [0,55] for percentages in [0,100] |
| HomeScoring.PreferenceTermBounds | app/home/page.tsx:311-333 | the preference term lies in [0,45], uses the larger of the two preference counts as denominator, and is 0 without preferences |
| HomeScoring.ScoreMentor | app/home/page.tsx:335 | only the mentor's score changes; it is a whole number of cents within half a cent of the language term plus the preference term |
| HomeScoring.ScoreMentors | app/home/page.tsx:272-339 | with no mentors or no viewer languages the list comes back unchanged; otherwise it is a permutation of the scored mentors sorted by score, highest first |
| HomeScoring.ScoredMentorFacts | app/home/page.tsx:282-338 | every ranked mentor is the scored form of some input mentor |
| HomeScoring.ScoreMentorWithinRange | app/home/page.tsx:282-336 | a mentor's rounded score lies in [0,100] when its language percentages do |
| HomeScoring.ScoredMentorsWithinRange | app/home/page.tsx:272-339 | every ranked mentor's score lies in [0,100] |
| HomeScoring.FilterRecentIssues | app/home/page.tsx:104-112 | exactly the issues created at or after the cutoff are kept; the same filter stands for oldPageDrafts/defaultPage.tsx:102-110 |
| HomeScoring.FilterRecentIssuesOrder | app/home/page.tsx:104-112 | the filter distributes over concatenation, so it keeps order, and it keeps a list that is wholly recent |
| RepoAggregation.ScoresOf | app/home/page.tsx:412-432 | a repository's scores are non-empty iff one of the issues has its key |
| RepoAggregation.FirstWith | app/home/page.tsx:423-430 | the issue that creates an entry has that entry's key |
| RepoAggregation.FirstWithIsFirst | app/home/page.tsx:423-430 | that issue is the first one with the key |
| RepoAggregation.RunningMean | app/home/page.tsx:419-421 | the running-average update applied to the mean of n scores gives the mean of the n+1 scores |
| RepoAggregation.RunningAverageAsWritten | app/home/page.tsx:417-421 | the update as written, after the count is incremented, equals the running-average formula |
| RepoAggregation.MeanWithin | app/home/page.tsx:419-421 | the mean of scores bounded by lo and hi is bounded by lo and hi |
| RepoAggregation.ReferenceRepo | app/home/page.tsx:412-432 | the reference entry for a key has that key and a count of at least 1 |
| RepoAggregation.Bumped | app/home/page.tsx:416-421 | updating an entry increments its count, sets the running average, and leaves its other fields alone |
| RepoAggregation.RefMap | app/home/page.tsx:412-432 | every entry of the step-by-step map has a count of at least 1 |
| RepoAggregation.RefMapSnoc | app/home/page.tsx:415-431 | one issue more updates its own key's entry (or creates it) and no other |
| RepoAggregation.RefMapDomain | app/home/page.tsx:412-432 | the map's keys are exactly the issues' owner/name keys |
| RepoAggregation.RefMapEntry | app/home/page.tsx:412-432 | each map entry equals the batch reference entry for its key |
| RepoAggregation.AddIssue | app/home/page.tsx:413-431 | one step of the forEach turns the map and its insertion order for a prefix into those for the prefix plus one issue |
| RepoAggregation.BuildRepositories | app/home/page.tsx:405-437 | the imperative fold followed by the sort equals the batch aggregation |
| RepoAggregation.AggregateEntriesAreReference | app/home/page.tsx:405-437 | every output entry is the reference entry of one of the issues' keys |
| RepoAggregation.AggregateKeysDistinct | app/home/page.tsx:410-432 | no owner/name appears twice in the output |
| RepoAggregation.AggregateCoversIssues | app/home/page.tsx:412-432 | every issue's repository has an entry |
| RepoAggregation.EntryFacts | app/home/page.tsx:412-432 | an entry's count is the number of its issues, its average is their mean score, and its topics and language are those of its first issue |
| RepoAggregation.AggregateSortedAndEmpty | app/home/page.tsx:405-408 | the output is sorted by average, highest first, and is empty iff there are no issues |
| RepoAggregation.AverageScoresWithinRange | app/home/page.tsx:419-429 | with issue scores in [0,100] every average lies in [0,100] |
| RepoAggregation.IssueCountsSum | app/home/page.tsx:412-432 | the issue counts add up to the number of issues |
| UserLanguages.TopRepos | app/api/user-languages/route.ts:39-43 | the sample holds min(10, number of non-forks) non-fork repositories of the listing, sorted by stars |
| UserLanguages.TopReposAreHighest | app/api/user-languages/route.ts:39-43 | sample and unsampled non-forks partition the non-forks, and no unsampled repository has more stars than a sampled one |
| UserLanguages.AddBytes | app/api/user-languages/route.ts:54-55 | adding an entry adds its bytes to its language (starting from 0) and leaves other languages alone |
| UserLanguages.ByteMapDomain | app/api/user-languages/route.ts:45-57 | the accumulated keys are exactly the languages of the sampled entries |
| UserLanguages.ByteMapValue | app/api/user-languages/route.ts:45-57 | each language's accumulated count is the sum of its byte counts |
| UserLanguages.AccumulateBytes | app/api/user-languages/route.ts:45-57 | the nested loop yields the byte map and the key order of the sampled entries |
| UserLanguages.AddLanguages | app/api/user-languages/route.ts:53-56 | the inner loop extends the map and key order by one repository's languages |
| UserLanguages.TotalIsAllBytes | app/api/user-languages/route.ts:59-62 | the reduce over the map's values equals the total of all sampled bytes |
| UserLanguages.RawPercentagesWithinRange | app/api/user-languages/route.ts:68-72 | before rounding every percentage lies in [0,100] |
| UserLanguages.RawPercentagesAddUp | app/api/user-languages/route.ts:59-72 | before rounding the percentages add up to 100 |
| UserLanguages.SortedSharesPerKey | app/api/user-languages/route.ts:68-73 | after the sort there is exactly one entry per accumulated language, each with its byte count over the total times 100, rounded to hundredths |
| UserLanguages.ProfileOf | app/api/user-languages/route.ts:64-73 | the profile is sorted by percentage, highest first |
| UserLanguages.ProfileShares | app/api/user-languages/route.ts:59-73 | the profile is empty iff the total is 0; otherwise it has one entry per language of the sample, with its share of the total bytes |
| UserLanguages.LanguageProfile | app/api/user-languages/route.ts:15-37 | the answer is an error iff the username is missing (400) or the listing is not an array (500) |
| UserLanguages.Post | app/api/user-languages/route.ts:11-77 | the handler answers as the language-profile function does |
| IssueIntake.IncludesAny | app/api/github-issues/route.ts:68-70 | true iff the label contains some lower-cased needle |
| IssueIntake.HasMatchingLabel | app/api/github-issues/route.ts:67-71 | true iff some lower-cased label contains some lower-cased needle |
| IssueIntake.GoodFirstIssueLabelSpec | app/api/github-issues/route.ts:16-24 | the label test holds iff some lower-cased label name contains one of the seven labels as a substring; false for no labels |
| IssueIntake.GfiLabelsAreLowerCase | app/api/github-issues/route.ts:16-24 | lower-casing the label list changes none of its entries |
| IssueIntake.DaysOpen | app/api/github-issues/route.ts:74-79 | days open is the least non-negative whole number of days covering the elapsed time |
| IssueIntake.PrimaryLanguageOf | app/api/github-issues/route.ts:91-104 | the repository language, or 'Unknown' when details fail or the language is missing or empty |
| IssueIntake.TopicsOf | app/api/github-issues/route.ts:96-102 | the repository's topics when the details carry them, and [] when the details fail or have no topics |
| IssueIntake.LanguagesOf | app/api/github-issues/route.ts:81-89 | languages are [] when the language lookup fails |
| IssueIntake.UpTo | app/api/github-issues/route.ts:108 | the owner part is the longest prefix without '/' |
| IssueIntake.SplitJoinRoundTrip | app/api/github-issues/route.ts:108 | splitting "owner/name" gives back owner and name when neither contains '/' |
| IssueIntake.FetchIssuesFromRepository | app/api/github-issues/route.ts:107-147 | a failing repository gives []; otherwise one issue per eligible raw issue |
| IssueIntake.ProcessedIssueFacts | app/api/github-issues/route.ts:124-140 | each processed issue has no assignees, the label flag, score 0, and the repository's owner, name, language and topics |
| IssueIntake.ProducedIssueFacts | app/api/github-issues/route.ts:107-142 | every produced issue has no assignees, a good-first-issue label, score 0, non-negative age, and the owner and name split from the repository |
| IssueIntake.EligibleIssuesAreKept | app/api/github-issues/route.ts:118-140 | every raw issue that is not a pull request, unassigned and labelled appears as the issue it is mapped to, with its URL and number and the repository's owner, name, language, languages and topics |
| IssueIntake.OnlyEligibleIssuesAreKept | app/api/github-issues/route.ts:118-140 | every produced issue comes from such a raw issue of that repository's listing |
| IssueIntake.Get | app/api/github-issues/route.ts:149-162 | the answer succeeds, its count is its length, it is a permutation of all repositories' issues, sorted by days open, youngest first |
| IssueIntake.GetIssuesComeFromRepositories | app/api/github-issues/route.ts:151-156 | every listed issue comes from the fetch of one of the repositories |
| IssueIntake.RepositoryIsOwnerSlashName | app/api/github-issues/route.ts:3-14 | each entry of the repository list is `owner/name` with a non-empty owner and name that split back into it |
| IssueIntake.RepositoriesAreOwnerSlashName | app/api/github-issues/route.ts:3-14 | the whole repository list meets the split in `fetchIssuesFromRepository`, so `GET` can run over it |
| IssueIntake.RouteIssuesNameTheirRepository | app/api/github-issues/route.ts:149-156 | over the route's own list, every issue listed comes from the entry whose `owner/name` it carries |
| DefaultPage.DraftLanguageTermAgrees | oldPageDrafts/defaultPage.tsx:210-222 | the draft's language term equals the live one for a non-empty primary language, and stays in [0,35] |
| DefaultPage.DraftScoreIssue | oldPageDrafts/defaultPage.tsx:201-240 | only `score` changes; it is a whole number of cents within half a cent of the draft's three-term sum |
| DefaultPage.DraftScoreWithinRange | oldPageDrafts/defaultPage.tsx:201-240 | the draft score lies in [0,100] for non-negative ages |
| DefaultPage.DraftScoredIssues | oldPageDrafts/defaultPage.tsx:239-243 | the draft ranking is a permutation of the scored issues sorted by score, highest first |
| DefaultPage.DraftIssueAgrees | oldPageDrafts/defaultPage.tsx:193-240 | with a primary language and an integer age, the draft scores an issue exactly as the live page does |
| DefaultPage.DraftAgreesWithLivePage | oldPageDrafts/defaultPage.tsx:192-244 | with viewer languages, primary languages and integer ages present, the draft ranking equals the live ranking |
| DefaultPage.SortLanguages | oldPageDrafts/defaultPage.tsx:192-281 | `sortLanguages` produces the draft ranking and the repository aggregation of that ranking |
| DefaultPage.SortWhenReady | oldPageDrafts/defaultPage.tsx:96-100 | sorting runs only with issues, languages and preferences present, and otherwise changes nothing |
| DefaultPage.RescoreIssue | oldPageDrafts/defaultPage.tsx:201-240 | scoring an already scored issue changes nothing |
| DefaultPage.RankingIsFixedPoint | oldPageDrafts/defaultPage.tsx:96-100 | re-running the effect on its own output leaves the ranking unchanged |
| DefaultPage.DraftProfileAsWritten | oldPageDrafts/defaultPage.tsx:174-183 | the draft reports one entry per accumulated language; with a zero byte total every entry is NaN, in key order, and otherwise every entry is a number |
| DefaultPage.DraftProfileAgrees | oldPageDrafts/defaultPage.tsx:155-183 | with a non-zero total the draft's percentages are the route's |
| DefaultPage.ZeroBytesGiveNaN | oldPageDrafts/defaultPage.tsx:174-183 | a language with 0 bytes gets a NaN percentage from the draft and no entry from the route |
| DefaultPage.FetchUserLanguages | oldPageDrafts/defaultPage.tsx:150-183 | a non-array listing leaves languages unset; otherwise the profile is sorted and is empty iff the total is 0 |
| LegacyScoring.CountIncluded | oldPageDrafts/alt.tsx:16-18 | the number of task topics found in the preferences, 0 iff none is found |
| LegacyScoring.TopicScore | oldPageDrafts/alt.tsx:14-21 | NaN iff there are no preferred topics; otherwise non-negative, and 0 without a (case-sensitive) match |
| LegacyScoring.TopicScoreBound | oldPageDrafts/alt2.tsx:130-140 | for distinct task topics the topic score is at most 0.45 |
| LegacyScoring.IndexOf | oldPageDrafts/alt.tsx:27 | `indexOf` returns the first position of the language, and None iff it is absent |
| LegacyScoring.LanguageWeightOf | oldPageDrafts/alt.tsx:27-30 | one language's weight `0.2^index` lies in [0,1] and is positive iff the user uses the language |
| LegacyScoring.SumLanguageWeights | oldPageDrafts/alt2.tsx:147-153 | the for-loop total equals the sum of the weights |
| LegacyScoring.CalculateLanguageScore | oldPageDrafts/alt.tsx:23-33 | the language score is 0.35 times the sum of the weights |
| LegacyScoring.LanguageSumFacts | oldPageDrafts/alt2.tsx:142-155 | the sum is 0 without a match, lies in [0, number of task languages], and is 1 for the user's top language alone |
| LegacyScoring.DateScore | oldPageDrafts/alt.tsx:35-41 | null iff a task is older than 90 days; otherwise within [0,18] for non-negative ages |
| LegacyScoring.DateScoreGrowsWithAge | oldPageDrafts/alt2.tsx:157-163 | within the cutoff an older task never gets a smaller date score |
| LegacyScoring.TotalScore | oldPageDrafts/alt.tsx:43-56 | null iff the date score is null |
| LegacyScoring.TotalScoreFacts | oldPageDrafts/alt2.tsx:165-178 | a present total is NaN iff there are no preferred topics, and otherwise the sum of the three scores with [] for missing lists |
| LegacyScoring.ScoreAll | oldPageDrafts/alt.tsx:73-79 | tasks with a null total are dropped; every task with a total is kept, with that total |
| LegacyScoring.ScoreAllConcat | oldPageDrafts/alt.tsx:73-79 | scoring two lists one after the other gives the two scored lists one after the other, so tasks keep their order and multiplicity |
| LegacyScoring.GetSortedIssues | oldPageDrafts/alt2.tsx:191-203 | the ranking is a permutation of the scored tasks, sorted by total when totals are numbers (as given when they are all NaN); top 5 is its first min(5,n) entries |
| LegacyScoring.RankedTotals | oldPageDrafts/alt.tsx:73-85 | every ranked total is NaN iff there are no preferred topics |
| LegacyActions.TaskRecord.constructor | app/home/actions.ts:104 | a new task record has its inputs and no scores yet |
| LegacyActions.TopicScore | app/home/actions.ts:7-22 | every task's topic score becomes the legacy topic score, and no other field changes |
| LegacyActions.LanguageScore | app/home/actions.ts:36-60 | every task's language score becomes 0.35 times the weight sum, rounded to hundredths, and no other field changes |
| LegacyActions.DateScore | app/home/actions.ts:80-98 | `forUser` becomes true iff a task is at most 90 days old; such tasks get days*0.2 rounded, and others keep their date score |
| LegacyActions.MarkedTotals | app/home/actions.ts:104-112 | scoreSum never pushes more totals than there are tasks |
| LegacyActions.MarkedTotalsFacts | app/home/actions.ts:104-112 | nothing is pushed iff no task is marked for the user, and every pushed total is the score sum of a marked task |
| LegacyActions.ScoreSum | app/home/actions.ts:102-121 | marked tasks get the sum of their three scores and it is appended to `arr` in task order; other tasks and the earlier contents of `arr` are kept |
| SkillLevel.AccountAgeYears | app/profile/page.tsx:77 | account age is the elapsed time in 365-day years |
| SkillLevel.AverageStars | app/profile/page.tsx:83 | the average is 0 without original repositories and otherwise the total over the count |
| SkillLevel.StatsOf | app/profile/page.tsx:71-83 | stars include forks; original and topic repositories are filter counts; average and age as above |
| SkillLevel.PointsAtMostTop | app/profile/page.tsx:88-117 | a statistic earns at most its top rung's points |
| SkillLevel.PointsMonotonic | app/profile/page.tsx:88-117 | a larger statistic never earns fewer points |
| SkillLevel.ThreeRungs | app/profile/page.tsx:89-91 | a three-rung table gives the if/else-if chain as written |
| SkillLevel.TwoRungs | app/profile/page.tsx:104-105 | a two-rung table gives the if/else-if chain as written |
| SkillLevel.TablesDescending | app/profile/page.tsx:88-117 | every threshold table descends in threshold and in points |
| SkillLevel.ScoreWithinRange | app/profile/page.tsx:86-117 | the score lies within [0,17] |
| SkillLevel.Score | oldPageDrafts/profile/page.tsx:83-107 | the step-by-step `score +=` accumulation equals the total points and is at most 17 |
| SkillLevel.LevelMonotonic | app/profile/page.tsx:120-122 | a higher score never gives a lower level |
| SkillLevel.CalculateSkillLevel | oldPageDrafts/profile/page.tsx:75-112 | the level is the level of the total points of the user's statistics |
| SkillLevel.RaisingStatsNeverLowersLevel | app/profile/page.tsx:89-122 | raising any statistics never lowers the score or the level |
| SkillLevel.MoreFollowersNeverLowerLevel | app/profile/page.tsx:94-96 | one more follower never lowers the level |
| SkillLevel.ColoursDistinct | app/profile/page.tsx:194-204 | null and the three levels map to four distinct colour classes |
| IssueSync.FormatKeepsIds | oldPageDrafts/githubactions.ts:65-72 | formatting turns each listing into one record carrying its id, title, URL, number and date and the repository, and the set of record ids is exactly the set of listing ids |
| IssueSync.Absent | oldPageDrafts/githubactions.ts:87-88 | keeps exactly the issues whose id is not in the set |
| IssueSync.DetectChanges | oldPageDrafts/githubactions.ts:83-95 | added are the new issues with a new id, removed the old issues with a vanished id, and there are changes iff either is non-empty |
| IssueSync.HasChangesIffIdsDiffer | oldPageDrafts/githubactions.ts:84-94 | there are changes iff the set of stored ids and the set of fetched ids differ |
| IssueSync.NoChangesAgainstItself | oldPageDrafts/githubactions.ts:90-94 | comparing a list with itself reports no changes |
| IssueSync.AddedIsRemovedBackwards | oldPageDrafts/githubactions.ts:87-88 | added(old, new) is removed(new, old) |
| IssueSync.AddedInArrivalOrder | oldPageDrafts/githubactions.ts:87 | added issues keep the new list's order |
| IssueSync.NotifiedUsers | oldPageDrafts/githubactions.ts:175 | exactly the users with `emailNotifications === true` |
| IssueSync.UpdateStoredIssues | oldPageDrafts/githubactions.ts:97-106 | afterwards the table holds the new issues and the stored rows with id 0 |
| IssueSync.DailyRun | oldPageDrafts/githubactions.ts:153-194 | without changes nothing is stored or sent; with changes the table is replaced and each notified user, in user order, gets one e-mail with the added and removed issues |
| IssueSync.EmailsOnlyOnChangeAndOptIn | oldPageDrafts/githubactions.ts:168-186 | e-mails go out only on a change, only to opted-in users, exactly one per such user in user order, with the added and removed lists |
| IssueSync.SecondRunIsQuiet | oldPageDrafts/githubactions.ts:163-172 | when no stored row has id 0, a second run on the same fetch sends nothing and stores nothing new |
| IssueSync.IdZeroRowNeverSettles | oldPageDrafts/githubactions.ts:97-100 | a stored row with id 0 whose id is not fetched is reported removed, yet survives `.neq("id", 0)` and stays stored, so the next run on the same fetch reports it removed again and e-mails every opted-in user again |
| Preferences.FilteredPreferences | app/preferences/page.tsx:36-38 | keeps exactly the topics whose lower-cased name contains the lower-cased query |
| Preferences.FilteredPreferencesConcat | app/preferences/page.tsx:36-38 | the search distributes over concatenation, so topics keep their catalogue order and multiplicity |
| Preferences.EmptyQueryKeepsAll | app/preferences/page.tsx:36-38 | an empty query keeps every topic in order |
| Preferences.QueryCaseIgnored | app/preferences/page.tsx:36-38 | the query's case does not matter |
| Preferences.FilterIdempotent | app/preferences/page.tsx:36-38 | filtering twice is filtering once |
| Preferences.RemoveAll | app/preferences/page.tsx:42 | removes every occurrence of the id and nothing else |
| Preferences.Toggle | app/preferences/page.tsx:40-44 | the id's membership flips, every other id's is unchanged, and an absent id is appended |
| Preferences.RemoveAbsent | app/preferences/page.tsx:42 | removing an absent id changes nothing |
| Preferences.RemoveKeepsNoDuplicates | app/preferences/page.tsx:42 | removing keeps a duplicate-free list duplicate-free |
| Preferences.ToggleKeepsNoDuplicates | app/preferences/page.tsx:40-44 | toggling keeps a duplicate-free list duplicate-free |
| Preferences.ToggleTwice | app/preferences/page.tsx:40-44 | toggling twice restores the set of selected ids, and the list itself when the id was absent |
| Preferences.RemoveAppended | app/preferences/page.tsx:42 | removing a just-appended id restores the list |

## Left out

- Network and database access is not modelled: Supabase queries, inserts and deletes, GitHub fetches, `Promise.all` and nodemailer. The fetched values are inputs, and every call's result is a parameter.
- The clock is a parameter: `now` for days open and account age, and a cutoff instant for `filterRecentIssues`. The draft's calendar-month subtraction (`setMonth`) is not modelled.
- React state, effects, `useMemo` wiring and rendering are not modelled. `DefaultPage.SortWhenReady` stands for the effect's guard.
- Text.Lower: lower-cases ASCII letters only. JavaScript's `toLowerCase` also maps non-ASCII letters (such as 'İ' or the Kelvin sign), which is not modelled.
- DefaultPage.DraftIssueAgrees, DefaultPage.DraftAgreesWithLivePage: issue ages are integers, so the draft's `Math.min(issue.daysOpen, 180)` without the live page's `|| 0` is not modelled. For a missing or NaN age the draft scores NaN, while the live page gives the full 20 recency points; the two agree only when the age is a number.
- Numbers are exact reals: IEEE-754 rounding, and `toFixed`/`Math.round` at exact `.xx5` ties, are not modelled.
- UserLanguages.AccumulateBytes: the map's key order is insertion order. JavaScript puts integer-like keys first in `Object.entries`; language names are never integer-like, so this is not modelled.
- UserLanguages.LanguageProfile: a username that is present but not a string, and the catch-all 500 answer for thrown errors, are not modelled.
- IssueIntake.ProducedIssueFacts: requires the repository string to contain '/'. The route's fixed repository list always does (IssueIntake.RepositoriesAreOwnerSlashName), and without one the name would be `undefined`, which a string cannot model.
- RepoAggregation.KeyOf: the string key `owner/name` is modelled as a pair. The two coincide only if names contain no '/', which GitHub guarantees.
- IssueSync.DailyRun: failed inserts, failed e-mails and the process exit on errors are not modelled. `.neq("id", 0)` is modelled as keeping stored rows with id 0.
- LegacyActions.LanguageScore: `toFixed(2)` stores a string that `scoreSum` reads back with `Number`. The model stores the rounded number.
- LegacyActions: the undeclared global `testJson` is modelled by passing its task list and the first user's preferences as parameters.
- LegacyScoring.GetSortedIssues: the Supabase reads and their error throws are not modelled; the issues and the user are parameters.
- SkillLevel: the GitHub user and repository fetches are not modelled; their results are parameters.
- The home page's own fetching of mentors and languages, including the self-exclusion query, is not modelled.

## Findings

| source | as written | input that shows it | evidently intended | confidence | as-written member | corrected member |
|---|---|---|---|---|---|---|
| oldPageDrafts/defaultPage.tsx:174-183 | percentages are `bytes / totalBytes * 100` with no check that the total is non-zero | sampled repositories whose language maps report only 0 bytes, e.g. one language "Shell" with 0 bytes: 0/0 gives a NaN percentage | an empty language list when the total is 0, as the `user-languages` route does at lines 64-66 | not executed | DefaultPage.DraftProfileAsWritten, DefaultPage.ZeroBytesGiveNaN | DefaultPage.FetchUserLanguages, UserLanguages.ProfileShares |
