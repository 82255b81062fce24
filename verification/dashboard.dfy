/** The abilitylink dashboard handlers: the four-field profile completion,
    the job-recommendation query and its post-filter, the summary of the
    user's applications and recent activity, `getOffers`,
    `getSelectedJobs` and `withdrawApplication`. */
module Dashboard {
  import opened Seqs
  import opened Text
  import opened Js
  import opened Schema
  import opened JobOps
  import opened AbilityLinkJobs

  // ---------------------------------------------------------------------
  // Profile completion

  /** `profile?.skills?.length > 0`: an array or a string with at least one
      element; everything else has no length, and `undefined > 0` is false. */
  predicate SkillsNonEmpty(v: Value)
  {
    (v.Arr? && |v.items| > 0) || (v.Str? && |v.s| > 0)
  }

  /** The four completion tests, in the handler's order. */
  function CompletionFields(profile: Obj): seq<bool>
  {
    [Truthy(Get(profile, "disabilityType")),
     Truthy(Get(profile, "disabilitySeverity")),
     SkillsNonEmpty(Get(profile, "skills")),
     Truthy(Get(profile, "resumeFile"))]
  }

  /** `Math.round(completed / 4 * 100)`; four divides 100, so no rounding
      happens. */
  function ProfileCompletion(profile: Obj): (r: nat)
    ensures r == 25 * (Ind(Truthy(Get(profile, "disabilityType"))) + Ind(Truthy(Get(profile, "disabilitySeverity")))
                       + Ind(SkillsNonEmpty(Get(profile, "skills"))) + Ind(Truthy(Get(profile, "resumeFile"))))
    ensures r in {0, 25, 50, 75, 100}
    ensures r == 100 <==>
              && Truthy(Get(profile, "disabilityType"))
              && Truthy(Get(profile, "disabilitySeverity"))
              && SkillsNonEmpty(Get(profile, "skills"))
              && Truthy(Get(profile, "resumeFile"))
    ensures r == 0 <==>
              && !Truthy(Get(profile, "disabilityType"))
              && !Truthy(Get(profile, "disabilitySeverity"))
              && !SkillsNonEmpty(Get(profile, "skills"))
              && !Truthy(Get(profile, "resumeFile"))
  {
    CountFour(Truthy(Get(profile, "disabilityType")), Truthy(Get(profile, "disabilitySeverity")),
              SkillsNonEmpty(Get(profile, "skills")), Truthy(Get(profile, "resumeFile")));
    var k := CountTrue(CompletionFields(profile));
    25 * k
  }

  // ---------------------------------------------------------------------
  // Recommendations

  /** The string a profile value is compared as. */
  function AsString(v: Value): string
  {
    ToJsString(v)
  }

  /** The user's skills as strings: an array's elements, or a lone string. */
  function UserSkills(v: Value): seq<string>
  {
    match v
    case Arr(items) => Map(items, AsString)
    case Str(s) => [s]
    case _ => []
  }

  /** The disability clause: the job lists the user's type, and its severity
      is the user's or "Any" (a user without a severity matches jobs that
      have none). */
  predicate TypeClauseMatches(j: Job, profile: Obj)
  {
    var t := Get(profile, "disabilityType");
    var sev := Get(profile, "disabilitySeverity");
    && AsString(t) in j.disabilityTypes
    && (|| j.disabilitySeverity == Some("Any")
        || (if sev.Undefined? || sev.Null? then j.disabilitySeverity.None?
            else j.disabilitySeverity == Some(AsString(sev))))
  }

  /** The skills clause: some skill of the job is one of the user's. */
  predicate SkillClauseMatches(j: Job, profile: Obj)
  {
    exists i :: 0 <= i < |j.skills| && j.skills[i] in UserSkills(Get(profile, "skills"))
  }

  /** The recommendation query: status "Active", and one of the clauses the
      profile enables; with no clause enabled the status alone decides. */
  predicate Recommendable(j: Job, profile: Obj)
  {
    var byType := Truthy(Get(profile, "disabilityType"));
    var bySkills := SkillsNonEmpty(Get(profile, "skills"));
    && j.status == "Active"
    && (if !byType && !bySkills then true
        else (byType && TypeClauseMatches(j, profile)) || (bySkills && SkillClauseMatches(j, profile)))
  }

  /** The identifiers of the jobs the user has applied to. */
  function AppliedJobIds(u: User): (r: seq<Id>)
    ensures |r| == |u.jobApplications|
    ensures forall i :: 0 <= i < |r| ==> r[i] == u.jobApplications[i].jobId
  {
    Map(u.jobApplications, (a: Application) => a.jobId)
  }

  /** The first five matching jobs of the newest-first collection, without
      those the user has applied to. */
  function Recommend(byNewest: seq<Job>, u: User): (r: seq<Job>)
    ensures |r| <= 5
    ensures forall i :: 0 <= i < |r| ==> r[i] in byNewest && Recommendable(r[i], u.profile)
    ensures forall i :: 0 <= i < |r| ==> r[i].id !in AppliedJobIds(u)
    ensures IsSubsequence(r, byNewest)
    ensures forall i :: 0 <= i < |r| ==> r[i] in Take(Matches(byNewest, u.profile), 5)
    ensures forall i ::
              (0 <= i < 5 && i < |Matches(byNewest, u.profile)| && Matches(byNewest, u.profile)[i].id !in AppliedJobIds(u))
              ==> Matches(byNewest, u.profile)[i] in r
  {
    var applied := AppliedJobIds(u);
    var matches := Filter(byNewest, (j: Job) => Recommendable(j, u.profile));
    var top := Take(matches, 5);
    forall j | j in top ensures j in byNewest && Recommendable(j, u.profile) {
      var i :| 0 <= i < |top| && top[i] == j;
    }
    var r := Filter(top, (j: Job) => j.id !in applied);
    FilterIsSubsequence(top, (j: Job) => j.id !in applied);
    PrefixIsSubsequence(top, matches);
    FilterIsSubsequence(byNewest, (j: Job) => Recommendable(j, u.profile));
    SubsequenceTransitive(r, top, matches);
    SubsequenceTransitive(r, matches, byNewest);
    forall i | 0 <= i < 5 && i < |matches| && matches[i].id !in applied ensures matches[i] in r {
      assert matches[i] == top[i];
    }
    r
  }

  /** A user who has applied to nothing is shown the first five matches,
      newest first. */
  lemma RecommendWithoutApplications(byNewest: seq<Job>, u: User)
    requires |u.jobApplications| == 0
    ensures Recommend(byNewest, u) == Take(Matches(byNewest, u.profile), 5)
  {
    var top := Take(Matches(byNewest, u.profile), 5);
    FilterKeepsAll(top, (j: Job) => j.id !in AppliedJobIds(u));
  }

  /** The jobs the recommendation query matches, newest first. */
  function Matches(byNewest: seq<Job>, profile: Obj): (r: seq<Job>)
    ensures forall i :: 0 <= i < |r| ==> r[i] in byNewest && Recommendable(r[i], profile)
    ensures forall i :: 0 <= i < |byNewest| && Recommendable(byNewest[i], profile) ==> byNewest[i] in r
  {
    Filter(byNewest, (j: Job) => Recommendable(j, profile))
  }

  /** A job the user has applied to still takes one of the five places:
      when it is among the first five matches, fewer than five jobs are
      recommended however many other jobs match. */
  lemma LimitBeforeFilter(byNewest: seq<Job>, u: User, k: nat)
    requires var matches := Filter(byNewest, (j: Job) => Recommendable(j, u.profile));
             k < |matches| && k < 5 && matches[k].id in AppliedJobIds(u)
    ensures |Recommend(byNewest, u)| < 5
  {
    var applied := AppliedJobIds(u);
    var matches := Filter(byNewest, (j: Job) => Recommendable(j, u.profile));
    var top := Take(matches, 5);
    assert top[k] == matches[k];
    var keep := (j: Job) => j.id !in applied;
    FilterCount(top, keep, top[k]);
    assert multiset(top)[top[k]] > 0;
    assert |Filter(top, keep)| != |top| by {
      if |Filter(top, keep)| == |top| {
        FilterAllKept(top, keep);
      }
    }
  }

  /** A filter that keeps as many elements as it is given keeps them all. */
  lemma {:induction false} FilterAllKept<T>(s: seq<T>, keep: T -> bool)
    requires |Filter(s, keep)| == |s|
    ensures forall i :: 0 <= i < |s| ==> keep(s[i])
    decreases |s|
  {
    if |s| > 0 {
      var rest := Filter(s[1..], keep);
      assert Filter(s, keep) == (if keep(s[0]) then [s[0]] else []) + rest;
      FilterAllKept(s[1..], keep);
      forall i | 0 <= i < |s| ensures keep(s[i]) {
        if i > 0 {
          assert s[i] == s[1..][i - 1];
        }
      }
    }
  }

  /** No job a controller creates is ever recommended: the query asks for
      "Active", and the controllers write lower-case statuses. */
  lemma CreatedJobsNeverRecommended(j: Job, profile: Obj)
    requires j.status in ControllerJobStatuses
    ensures !Recommendable(j, profile)
  {
    ControllerStatusesNotInSchema(j.status);
  }

  // ---------------------------------------------------------------------
  // Applications summary and activity window

  /** An application as the summary shows it: its job, or `None` when the
      referenced job no longer exists. */
  datatype AppSummary = AppSummary(id: Id, status: string, appliedDate: Time, job: Option<Job>)

  function SummaryOf(a: Application, jobs: map<Id, Job>): AppSummary
  {
    AppSummary(a.id, a.status, a.appliedDate, if a.jobId in jobs then Some(jobs[a.jobId]) else None)
  }

  predicate Resolved(s: AppSummary) { s.job.Some? }

  /** The summary maps every application to its summary and drops those
      whose job is null; the rest keep their order. */
  function Summarize(apps: seq<Application>, jobs: map<Id, Job>): (r: seq<AppSummary>)
    ensures |r| <= |apps|
    ensures forall i :: 0 <= i < |r| ==> r[i].job.Some?
  {
    Filter(Map(apps, (a: Application) => SummaryOf(a, jobs)), Resolved)
  }

  /** `x` is the summary of an application whose job resolves. */
  predicate SummaryOfResolved(x: AppSummary, apps: seq<Application>, jobs: map<Id, Job>)
  {
    exists k :: 0 <= k < |apps| && apps[k].jobId in jobs && x == SummaryOf(apps[k], jobs)
  }

  /** Exactly the applications whose job resolves are summarised. */
  lemma SummarizeKeepsResolved(apps: seq<Application>, jobs: map<Id, Job>)
    ensures forall i :: 0 <= i < |Summarize(apps, jobs)| ==> SummaryOfResolved(Summarize(apps, jobs)[i], apps, jobs)
    ensures forall a :: a in apps && a.jobId in jobs ==> SummaryOf(a, jobs) in Summarize(apps, jobs)
  {
    var all := Map(apps, (a: Application) => SummaryOf(a, jobs));
    var r := Summarize(apps, jobs);
    assert r == Filter(all, Resolved);
    forall i | 0 <= i < |r| ensures SummaryOfResolved(r[i], apps, jobs) {
      var k :| 0 <= k < |all| && all[k] == r[i];
      assert all[k] == SummaryOf(apps[k], jobs);
    }
    forall a | a in apps && a.jobId in jobs ensures SummaryOf(a, jobs) in r {
      var k :| 0 <= k < |apps| && apps[k] == a;
      assert all[k] == SummaryOf(a, jobs);
    }
  }

  const NoDetails := "Activity recorded"

  /** An activity entry as shown: missing or empty details read "Activity
      recorded". */
  function Shown(a: Activity): (r: Activity)
    ensures Truthy(r.details)
    ensures Truthy(a.details) ==> r == a
  {
    if Truthy(a.details) then a else a.(details := Str(NoDetails))
  }

  /** The first five stored entries, last of them first. */
  function ActivityWindow(log: seq<Activity>): (r: seq<Activity>)
    ensures |r| == if |log| < 5 then |log| else 5
    ensures forall i :: 0 <= i < |r| ==> r[i] == Shown(log[|r| - 1 - i])
  {
    Map(Reverse(Take(log, 5)), Shown)
  }

  /** Entries beyond the fifth never reach the window, so the newest of a
      long log are not shown. */
  lemma WindowIgnoresLaterEntries(log: seq<Activity>, more: seq<Activity>)
    requires |log| >= 5
    ensures ActivityWindow(log + more) == ActivityWindow(log)
  {
    assert Take(log + more, 5) == Take(log, 5);
  }

  /** The dashboard payload. */
  datatype DashboardData = DashboardData(
    profileCompletion: nat,
    applications: seq<AppSummary>,
    activity: seq<Activity>,
    recommended: seq<Job>)

  /** `getDashboardData` for the signed-in user: 400 for a malformed id, 404
      for a missing user. */
  function GetDashboardData(st: Store, byNewest: seq<Job>, me: Id): (r: Result<DashboardData>)
    ensures !ValidId(me) ==> r == Fail(400)
    ensures ValidId(me) && me !in st.users ==> r == Fail(404)
    ensures r.Ok? ==> me in st.users
    ensures r.Ok? ==> r.value.profileCompletion == ProfileCompletion(st.users[me].profile)
    ensures r.Ok? ==> r.value.recommended == Recommend(byNewest, st.users[me])
    ensures r.Ok? ==> r.value.applications == Summarize(st.users[me].jobApplications, st.jobs)
    ensures r.Ok? ==> r.value.activity == ActivityWindow(st.users[me].activityLog)
  {
    if !ValidId(me) then Fail(400)
    else if me !in st.users then Fail(404)
    else
      var u := st.users[me];
      Ok(DashboardData(ProfileCompletion(u.profile), Summarize(u.jobApplications, st.jobs),
                       ActivityWindow(u.activityLog), Recommend(byNewest, u)))
  }

  // ---------------------------------------------------------------------
  // Offers and selected jobs

  /** `getOffers`: the user's applications whose status is "Offer", in
      order; a missing user makes the handler read a property of null. */
  function GetOffers(st: Store, me: Id): (r: Result<seq<Application>>)
    ensures me !in st.users <==> r == Fail(500)
    ensures r.Ok? ==> forall i :: 0 <= i < |r.value| ==> r.value[i].status == "Offer"
    ensures r.Ok? ==> forall a :: a in st.users[me].jobApplications && a.status == "Offer" ==> a in r.value
    ensures r.Ok? ==> forall i :: 0 <= i < |r.value| ==> r.value[i] in st.users[me].jobApplications
    ensures r.Ok? ==> IsSubsequence(r.value, st.users[me].jobApplications)
  {
    if me !in st.users then Fail(500)
    else
      FilterIsSubsequence(st.users[me].jobApplications, (a: Application) => a.status == "Offer");
      Ok(Filter(st.users[me].jobApplications, (a: Application) => a.status == "Offer"))
  }

  /** An offer appears as often as it is stored. */
  lemma OffersKeepMultiplicity(st: Store, me: Id, a: Application)
    requires me in st.users && a.status == "Offer"
    ensures multiset(GetOffers(st, me).value)[a] == multiset(st.users[me].jobApplications)[a]
  {
    FilterCount(st.users[me].jobApplications, (x: Application) => x.status == "Offer", a);
  }

  /** The first acceptance record of the user on the job. */
  function FirstAcceptance(accs: seq<Acceptance>, me: Id): (r: Option<Acceptance>)
    ensures r.Some? ==> r.value in accs && r.value.user == me
    ensures r.None? <==> forall i :: 0 <= i < |accs| ==> accs[i].user != me
    ensures r.Some? ==> exists k :: 0 <= k < |accs| && accs[k] == r.value && forall j :: 0 <= j < k ==> accs[j].user != me
  {
    if |accs| == 0 then None
    else if accs[0].user == me then Some(accs[0])
    else
      var r := FirstAcceptance(accs[1..], me);
      assert forall i :: 1 <= i < |accs| ==> accs[i] == accs[1..][i - 1];
      if r.Some? then
        var k :| 0 <= k < |accs[1..]| && accs[1..][k] == r.value && forall j :: 0 <= j < k ==> accs[1..][j].user != me;
        assert accs[k + 1] == r.value && forall j :: 0 <= j < k + 1 ==> accs[j].user != me;
        r
      else r
  }

  /** A selected job as the page receives it. */
  datatype Selected = Selected(job: Job, status: string, appliedDate: Time)

  /** `acceptanceRecord?.acceptedAt || job.createdAt || new Date()`; dates
      are objects and so always truthy. */
  function SelectedDate(j: Job, me: Id): (r: Time)
    ensures (forall i :: 0 <= i < |j.acceptedApplicants| ==> j.acceptedApplicants[i].user != me) ==> r == j.createdAt
    ensures (exists i :: 0 <= i < |j.acceptedApplicants| && j.acceptedApplicants[i].user == me) ==>
              exists k :: 0 <= k < |j.acceptedApplicants| && j.acceptedApplicants[k].user == me
                          && (forall i :: 0 <= i < k ==> j.acceptedApplicants[i].user != me)
                          && r == j.acceptedApplicants[k].acceptedAt
  {
    match FirstAcceptance(j.acceptedApplicants, me)
    case Some(a) => a.acceptedAt
    case None => j.createdAt
  }

  /** `getSelectedJobs`: the jobs that accepted the user, each marked as an
      offer, with the count of items. */
  function GetSelectedJobs(jobs: seq<Job>, me: Id): (r: (nat, seq<Selected>))
    ensures r.0 == |r.1|
    ensures forall i :: 0 <= i < |r.1| ==> r.1[i].status == "Offer" && r.1[i].job in jobs && IsAccepted(r.1[i].job, me)
    ensures forall j :: j in jobs && IsAccepted(j, me) ==> exists i :: 0 <= i < |r.1| && r.1[i].job == j
  {
    var accepted := Filter(jobs, (j: Job) => IsAccepted(j, me));
    var items := Map(accepted, (j: Job) => Selected(j, "Offer", SelectedDate(j, me)));
    forall j | j in jobs && IsAccepted(j, me) ensures exists i :: 0 <= i < |items| && items[i].job == j {
      var i :| 0 <= i < |accepted| && accepted[i] == j;
      assert items[i].job == j;
    }
    (|items|, items)
  }

  /** The date shown for a selected job is always the time of the user's
      acceptance: the fallbacks to the job's creation and to now are never
      taken. */
  lemma SelectedDateIsAcceptance(jobs: seq<Job>, me: Id, i: nat)
    requires i < |GetSelectedJobs(jobs, me).1|
    ensures var s := GetSelectedJobs(jobs, me).1[i];
            exists a :: a in s.job.acceptedApplicants && a.user == me && s.appliedDate == a.acceptedAt
  {
    var s := GetSelectedJobs(jobs, me).1[i];
    var k :| 0 <= k < |s.job.acceptedApplicants| && s.job.acceptedApplicants[k].user == me;
    assert FirstAcceptance(s.job.acceptedApplicants, me).Some?;
  }

  // ---------------------------------------------------------------------
  // Withdrawal

  /** `withdrawApplication`: the application id is cast for the `$pull`, so
      a malformed one raises; a missing user is 404. Otherwise every
      application with that id is removed and one status-change entry is
      logged. The job's applicant list is not touched. */
  function WithdrawApplication(st: Store, me: Id, appId: string, now: Time): (r: Reply)
    ensures r.code in {200, 404, 500}
    ensures r.code != 200 ==> r.store == st
    ensures !ValidId(appId) <==> r.code == 500
    ensures ValidId(appId) && me !in st.users <==> r.code == 404
    ensures r.code == 200 ==> r.store.jobs == st.jobs && r.store.users.Keys == st.users.Keys
    ensures r.code == 200 ==>
              var before := st.users[me];
              var after := r.store.users[me];
              && (forall i :: 0 <= i < |after.jobApplications| ==>
                    after.jobApplications[i] in before.jobApplications && after.jobApplications[i].id != Canon(appId))
              && (forall a :: a in before.jobApplications && a.id != Canon(appId) ==> a in after.jobApplications)
              && after.activityLog == before.activityLog + [Activity("StatusChange", Str("Withdrew application " + appId), now)]
              && after.(jobApplications := before.jobApplications, activityLog := before.activityLog) == before
    ensures r.code == 200 ==> forall u :: u in st.users && u != me ==> r.store.users[u] == st.users[u]
  {
    if !ValidId(appId) then Schema.Reply(500, st)
    else if me !in st.users then Schema.Reply(404, st)
    else
      var id := Canon(appId);
      var u := st.users[me];
      var u' := u.(jobApplications := Filter(u.jobApplications, (a: Application) => a.id != id),
                   activityLog := u.activityLog + [Activity("StatusChange", Str("Withdrew application " + appId), now)]);
      Schema.Reply(200, st.(users := st.users[me := u']))
  }

  /** Withdrawing and applying again: the withdrawal leaves the user on the
      job's applicant list, the duplicate check only reads the user's
      applications, and so the second apply succeeds and the job lists the
      user twice. */
  lemma WithdrawThenReapply(st: Store, me: Id, jobId: string, appId: Id, t1: Time, t2: Time, t3: Time)
    requires ValidId(appId) && Canon(appId) == appId
    requires ApplyForJob(st, me, jobId, appId, t1).code == 200
    ensures var st1 := ApplyForJob(st, me, jobId, appId, t1).store;
            var st2 := WithdrawApplication(st1, me, appId, t2).store;
            var r := ApplyForJob(st2, me, jobId, appId, t3);
            && r.code == 200
            && var apps := r.store.jobs[Canon(jobId)].applicants;
               exists i, j :: 0 <= i < j < |apps| && apps[i].user == me && apps[j].user == me
  {
    var id := Canon(jobId);
    var st1 := ApplyForJob(st, me, jobId, appId, t1).store;
    var st2 := WithdrawApplication(st1, me, appId, t2).store;
    var apps1 := st1.jobs[id].applicants;
    assert apps1[|apps1| - 1].user == me;
    assert HasApplicant(st2.jobs[id], me);
    var apps0 := st.users[me].jobApplications;
    var apps2 := st2.users[me].jobApplications;
    assert st1.users[me].jobApplications == apps0 + [NewApplication(appId, id, t1)];
    forall k | 0 <= k < |apps2| ensures apps2[k].jobId != id {
      var a := apps2[k];
      assert a in apps0 + [NewApplication(appId, id, t1)] && a.id != appId;
      var m :| 0 <= m < |apps0| && apps0[m] == a;
    }
    ApplicantListedTwice(st2, me, jobId, appId, t3);
  }
}
