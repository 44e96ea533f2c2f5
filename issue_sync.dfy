/** The daily issue check of the old drafts: fetched "good first issue"
    listings are compared with the stored ones by id, the store is
    replaced when anything changed, and the users who asked for e-mail
    are told what was added and removed. The database, GitHub and the
    mail transport are left out: their data are parameters and their
    effects are returned as values. */
module IssueSync {
  import opened Records
  import opened Seqs

  /** An issue as GitHub lists it, reduced to the fields the check copies. */
  datatype GitHubListing = GitHubListing(id: int, title: string, htmlUrl: string, number: int, createdAt: string)

  /** An issue record as the check stores it. */
  datatype IssueRecord = IssueRecord(id: int, title: string, url: string, repo: string, number: int, createdAt: string)

  /** A user row; `emailNotifications` may be missing. */
  datatype User = User(email: string, emailNotifications: Option<bool>)

  /** The record the check stores for a listing of repository `repo`. */
  function FormatIssue(listing: GitHubListing, repo: string): (r: IssueRecord)
    ensures r.id == listing.id && r.url == listing.htmlUrl && r.repo == repo
    ensures r.title == listing.title && r.number == listing.number && r.createdAt == listing.createdAt
  {
    IssueRecord(listing.id, listing.title, listing.htmlUrl, repo, listing.number, listing.createdAt)
  }

  /** `issues.map(...)` for one repository's listings. */
  function FormatIssues(listings: seq<GitHubListing>, repo: string): (r: seq<IssueRecord>)
    ensures |r| == |listings|
    ensures forall i :: 0 <= i < |r| ==> r[i] == FormatIssue(listings[i], repo)
  {
    seq(|listings|, i requires 0 <= i < |listings| => FormatIssue(listings[i], repo))
  }

  /** Formatting keeps the listing ids, one record per listing and in order. */
  lemma FormatKeepsIds(listings: seq<GitHubListing>, repo: string)
    ensures IdsOf(FormatIssues(listings, repo)) == set l | l in listings :: l.id
  {
    var r := FormatIssues(listings, repo);
    forall x | x in IdsOf(r) ensures x in set l | l in listings :: l.id {
      var i :| 0 <= i < |r| && r[i].id == x;
      assert listings[i] in listings;
    }
    forall l | l in listings ensures l.id in IdsOf(r) {
      var i :| 0 <= i < |listings| && listings[i] == l;
      assert r[i].id == l.id;
    }
  }

  // ---------------------------------------------------------------- changes

  /** The keys of `new Map(issues.map(i => [i.id, i]))`. */
  function IdsOf(issues: seq<IssueRecord>): (ids: set<int>)
    ensures forall x :: x in ids <==> exists i :: 0 <= i < |issues| && issues[i].id == x
  {
    set i | 0 <= i < |issues| :: issues[i].id
  }

  /** `issues.filter(i => !ids.has(i.id))`, in list order. */
  function Absent(issues: seq<IssueRecord>, ids: set<int>): (r: seq<IssueRecord>)
    ensures |r| <= |issues|
    ensures forall x :: x in r <==> x in issues && x.id !in ids
  {
    if issues == [] then []
    else if issues[0].id !in ids then [issues[0]] + Absent(issues[1..], ids)
    else Absent(issues[1..], ids)
  }

  /** Filtering a concatenation filters each part: what is kept stays in list order. */
  lemma {:induction false} AbsentConcat(a: seq<IssueRecord>, b: seq<IssueRecord>, ids: set<int>)
    ensures Absent(a + b, ids) == Absent(a, ids) + Absent(b, ids)
  {
    if a == [] {
      assert a + b == b;
    } else {
      assert (a + b)[0] == a[0] && (a + b)[1..] == a[1..] + b;
      AbsentConcat(a[1..], b, ids);
    }
  }

  /** Nothing is kept when every id is among `ids`. */
  lemma {:induction false} AbsentNone(issues: seq<IssueRecord>, ids: set<int>)
    requires forall i :: 0 <= i < |issues| ==> issues[i].id in ids
    ensures Absent(issues, ids) == []
  {
    if issues != [] {
      AbsentNone(issues[1..], ids);
    }
  }

  datatype Changes = Changes(added: seq<IssueRecord>, removed: seq<IssueRecord>, hasChanges: bool)

  /** `detectChanges(oldIssues, newIssues)` */
  function DetectChanges(oldIssues: seq<IssueRecord>, newIssues: seq<IssueRecord>): (c: Changes)
    ensures forall x :: x in c.added <==> x in newIssues && x.id !in IdsOf(oldIssues)
    ensures forall x :: x in c.removed <==> x in oldIssues && x.id !in IdsOf(newIssues)
    ensures c.hasChanges <==> c.added != [] || c.removed != []
  {
    var added := Absent(newIssues, IdsOf(oldIssues));
    var removed := Absent(oldIssues, IdsOf(newIssues));
    Changes(added, removed, |added| > 0 || |removed| > 0)
  }

  /** Changes are reported exactly when the two lists do not hold the same ids. */
  lemma HasChangesIffIdsDiffer(oldIssues: seq<IssueRecord>, newIssues: seq<IssueRecord>)
    ensures DetectChanges(oldIssues, newIssues).hasChanges <==> IdsOf(oldIssues) != IdsOf(newIssues)
  {
    var c := DetectChanges(oldIssues, newIssues);
    if IdsOf(oldIssues) != IdsOf(newIssues) {
      if x :| x in IdsOf(newIssues) && x !in IdsOf(oldIssues) {
        var i :| 0 <= i < |newIssues| && newIssues[i].id == x;
        assert newIssues[i] in c.added;
      } else {
        var x :| x in IdsOf(oldIssues) && x !in IdsOf(newIssues);
        var i :| 0 <= i < |oldIssues| && oldIssues[i].id == x;
        assert oldIssues[i] in c.removed;
      }
    } else {
      AbsentNone(newIssues, IdsOf(oldIssues));
      AbsentNone(oldIssues, IdsOf(newIssues));
    }
  }

  /** Comparing a list with itself reports nothing. */
  lemma NoChangesAgainstItself(issues: seq<IssueRecord>)
    ensures DetectChanges(issues, issues) == Changes([], [], false)
  {
    HasChangesIffIdsDiffer(issues, issues);
  }

  /** What is added going from `a` to `b` is what is removed going back. */
  lemma AddedIsRemovedBackwards(a: seq<IssueRecord>, b: seq<IssueRecord>)
    ensures DetectChanges(a, b).added == DetectChanges(b, a).removed
    ensures DetectChanges(a, b).hasChanges == DetectChanges(b, a).hasChanges
  {
  }

  /** New issues arriving in two batches are reported as added batch by
      batch, in the order they arrived. */
  lemma AddedInArrivalOrder(oldIssues: seq<IssueRecord>, first: seq<IssueRecord>, second: seq<IssueRecord>)
    ensures DetectChanges(oldIssues, first + second).added
            == DetectChanges(oldIssues, first).added + DetectChanges(oldIssues, second).added
  {
    AbsentConcat(first, second, IdsOf(oldIssues));
  }

  // ---------------------------------------------------------------- daily run

  /** `u.emailNotifications === true`: a missing flag does not count. */
  predicate WantsEmail(u: User)
  {
    u.emailNotifications == Some(true)
  }

  /** `users.filter(u => u.emailNotifications === true)` */
  function NotifiedUsers(users: seq<User>): (r: seq<User>)
    ensures forall u :: u in r <==> u in users && WantsEmail(u)
  {
    Filter(users, WantsEmail)
  }

  /** The rows `.neq("id", 0)` spares. */
  predicate HasIdZero(issue: IssueRecord) { issue.id == 0 }

  /** `updateStoredIssues(newIssues)`: every stored row whose id is not 0 is
      deleted, then the new issues are inserted. */
  function UpdateStoredIssues(stored: seq<IssueRecord>, newIssues: seq<IssueRecord>): (r: seq<IssueRecord>)
    ensures forall x :: x in r <==> (x in stored && x.id == 0) || x in newIssues
  {
    Filter(stored, HasIdZero) + newIssues
  }

  /** One e-mail: the recipient and the added and removed issues it lists. */
  datatype Email = Email(to: string, added: seq<IssueRecord>, removed: seq<IssueRecord>)

  /** What one daily run leaves behind: the stored issues and the e-mails sent. */
  datatype Outcome = Outcome(stored: seq<IssueRecord>, emails: seq<Email>)

  /** `main()` with the fetched data as parameters: the store is replaced only
      when something changed, and then each notified user, in user order,
      gets one e-mail with the changes. */
  function DailyRun(stored: seq<IssueRecord>, users: seq<User>, fetched: seq<IssueRecord>): (r: Outcome)
    ensures !DetectChanges(stored, fetched).hasChanges ==> r == Outcome(stored, [])
    ensures DetectChanges(stored, fetched).hasChanges ==> r.stored == UpdateStoredIssues(stored, fetched)
    ensures |r.emails| <= |users|
    ensures DetectChanges(stored, fetched).hasChanges ==>
              |r.emails| == |NotifiedUsers(users)|
              && forall i :: 0 <= i < |r.emails| ==>
                   r.emails[i] == Email(NotifiedUsers(users)[i].email, DetectChanges(stored, fetched).added,
                                        DetectChanges(stored, fetched).removed)
  {
    var changes := DetectChanges(stored, fetched);
    var notified := NotifiedUsers(users);
    var newStored := if changes.hasChanges then UpdateStoredIssues(stored, fetched) else stored;
    var emails :=
      if changes.hasChanges && |notified| > 0
      then seq(|notified|, i requires 0 <= i < |notified| => Email(notified[i].email, changes.added, changes.removed))
      else [];
    Outcome(newStored, emails)
  }

  /** Only users who turned e-mail on are written to, each with the detected
      changes, and only when there are changes; then every opted-in user
      gets exactly one e-mail (one per entry of the user list that opted in),
      in user order. */
  lemma EmailsOnlyOnChangeAndOptIn(stored: seq<IssueRecord>, users: seq<User>, fetched: seq<IssueRecord>)
    ensures var r := DailyRun(stored, users, fetched);
            var c := DetectChanges(stored, fetched);
            (r.emails != [] ==> c.hasChanges)
            && (forall e :: e in r.emails ==>
                  e.added == c.added && e.removed == c.removed
                  && exists u :: u in users && WantsEmail(u) && u.email == e.to)
            && (c.hasChanges ==> |r.emails| == |NotifiedUsers(users)|)
            && (c.hasChanges ==> forall i :: 0 <= i < |r.emails| ==>
                  r.emails[i].to == NotifiedUsers(users)[i].email)
  {
    var r := DailyRun(stored, users, fetched);
    var notified := NotifiedUsers(users);
    forall e | e in r.emails
      ensures exists u :: u in users && WantsEmail(u) && u.email == e.to
    {
      var i :| 0 <= i < |r.emails| && r.emails[i] == e;
      assert notified[i] in notified;
    }
  }

  /** A stored row with id 0 survives the delete. If the listing no longer
      holds its id, the first run reports it as removed and keeps it, so the
      next run on the same listing reports it as removed again and writes to
      every opted-in user once more: the run never settles. */
  lemma IdZeroRowNeverSettles(stored: seq<IssueRecord>, users: seq<User>, fetched: seq<IssueRecord>, z: IssueRecord)
    requires z in stored && z.id == 0 && z.id !in IdsOf(fetched)
    ensures DetectChanges(stored, fetched).hasChanges
    ensures var first := DailyRun(stored, users, fetched);
            var again := DetectChanges(first.stored, fetched);
            && z in first.stored && z in again.removed && again.hasChanges
            && |DailyRun(first.stored, users, fetched).emails| == |NotifiedUsers(users)|
  {
    assert z in DetectChanges(stored, fetched).removed;
    var first := DailyRun(stored, users, fetched);
    assert z in first.stored;
    assert z in DetectChanges(first.stored, fetched).removed;
  }

  /** When no stored row has id 0, a run that saw changes leaves exactly the
      fetched issues stored, so running again on the same listing reports no
      change and sends nothing. */
  lemma SecondRunIsQuiet(stored: seq<IssueRecord>, users: seq<User>, fetched: seq<IssueRecord>)
    requires forall i :: 0 <= i < |stored| ==> stored[i].id != 0
    ensures var first := DailyRun(stored, users, fetched);
            DailyRun(first.stored, users, fetched) == Outcome(first.stored, [])
  {
    var first := DailyRun(stored, users, fetched);
    if DetectChanges(stored, fetched).hasChanges {
      FilterEmpty(stored, HasIdZero);
      assert first.stored == fetched;
      NoChangesAgainstItself(fetched);
    }
  }
}
