/** The abilitylink "My Jobs" page: the poster's copy of their jobs, the
    local updates it makes after accepting an applicant and closing a job,
    the pending-applicant list, and the id check before an applicant's
    details are fetched. Each local update is shown to keep the copy in step
    with the store the server's handler leaves behind. */
module MyJobsPage {
  import opened Seqs
  import opened Js
  import opened Schema
  import opened JobOps

  /** The page's copy of its jobs agrees with the store, job for job. */
  predicate Synced(jobs: seq<Job>, st: Store)
  {
    forall i :: 0 <= i < |jobs| ==> jobs[i].id in st.jobs && st.jobs[jobs[i].id] == jobs[i]
  }

  /** `!id` fails for a missing id and for the empty string. */
  predicate Chosen(id: Option<string>)
  {
    id.Some? && id.value != ""
  }

  // ---------------------------------------------------------------------
  // Accepting an applicant

  /** The local move of user `u` in one job: every entry of theirs leaves
      `applicants` and one acceptance is appended. The accepted user is read
      from the first matching entry; with no such entry reading its `user`
      throws, which is `None`. */
  function AcceptLocally(job: Job, u: Id, now: Time): (r: Option<Job>)
    ensures r.None? <==> !HasApplicant(job, u)
    ensures r.Some? ==> !HasApplicant(r.value, u) && IsAccepted(r.value, u)
    ensures r.Some? ==> r.value.acceptedApplicants == job.acceptedApplicants + [Acceptance(u, now)]
    ensures r.Some? ==> forall i :: 0 <= i < |job.applicants| && job.applicants[i].user != u ==>
              job.applicants[i] in r.value.applicants
    ensures r.Some? ==> r.value.(applicants := job.applicants, acceptedApplicants := job.acceptedApplicants) == job
  {
    if HasApplicant(job, u) then
      var acc := job.acceptedApplicants + [Acceptance(u, now)];
      assert acc[|acc| - 1].user == u;
      var r := job.(applicants := Filter(job.applicants, NotUser(u)), acceptedApplicants := acc);
      assert !HasApplicant(r, u);
      Some(r)
    else None
  }

  /** The `map` over the jobs: the target job is moved as above, the others
      are kept; `None` when the target's move throws. */
  function AcceptInList(jobs: seq<Job>, jobId: Id, u: Id, now: Time): (r: Option<seq<Job>>)
    ensures r.Some? <==> forall i :: 0 <= i < |jobs| && jobs[i].id == jobId ==> HasApplicant(jobs[i], u)
    ensures r.Some? ==> |r.value| == |jobs|
    ensures r.Some? ==> forall i :: 0 <= i < |jobs| ==>
              if jobs[i].id == jobId then AcceptLocally(jobs[i], u, now) == Some(r.value[i]) else r.value[i] == jobs[i]
  {
    if forall i :: 0 <= i < |jobs| && jobs[i].id == jobId ==> HasApplicant(jobs[i], u) then
      Some(seq(|jobs|, i requires 0 <= i < |jobs| =>
        if jobs[i].id == jobId then AcceptLocally(jobs[i], u, now).value else jobs[i]))
    else None
  }

  /** `handleAcceptApplicant`: without both ids nothing is requested; the
      copy changes only after a successful answer. */
  function HandleAccept(jobs: seq<Job>, jobId: Option<string>, applicantId: Option<string>, code: nat, now: Time)
    : (r: Option<seq<Job>>)
    ensures !Chosen(jobId) || !Chosen(applicantId) || code != 200 ==> r == Some(jobs)
    ensures r.Some? ==> |r.value| == |jobs|
    ensures r.Some? ==> forall i :: 0 <= i < |jobs| && (jobId.None? || jobs[i].id != jobId.value) ==> r.value[i] == jobs[i]
    ensures r.None? ==> Chosen(jobId) && Chosen(applicantId) && code == 200
    ensures r.None? ==> exists i :: 0 <= i < |jobs| && jobs[i].id == jobId.value && !HasApplicant(jobs[i], applicantId.value)
  {
    if !Chosen(jobId) || !Chosen(applicantId) || code != 200 then Some(jobs)
    else AcceptInList(jobs, jobId.value, applicantId.value, now)
  }

  /** Against `acceptApplicant`: starting from a copy in step with the
      store, the page's copy after the answer is in step with the store
      after the handler, whatever the answer. The client stamps the
      acceptance with its own clock, taken here to read the server's. */
  lemma AcceptMirrorsServer(st: Store, caller: Id, jobs: seq<Job>, jobId: Id, u: Id, now: Time)
    requires Synced(jobs, st)
    requires ValidId(jobId) && Canon(jobId) == jobId && ValidId(u) && Canon(u) == u
    ensures var reply := AcceptApplicant(st, caller, jobId, Some(u), now);
            var r := HandleAccept(jobs, Some(jobId), Some(u), reply.code, now);
            r.Some? && Synced(r.value, reply.store)
  {
    var reply := AcceptApplicant(st, caller, jobId, Some(u), now);
    if reply.code == 200 {
      var st' := reply.store;
      assert AcceptedIn(st, st', caller, jobId, u, now);
      forall i | 0 <= i < |jobs| && jobs[i].id == jobId ensures HasApplicant(jobs[i], u) {
        assert jobs[i] == st.jobs[jobId];
      }
      var r := AcceptInList(jobs, jobId, u, now).value;
      forall i | 0 <= i < |jobs| ensures r[i].id in st'.jobs && st'.jobs[r[i].id] == r[i] {
        if jobs[i].id == jobId {
          assert jobs[i] == st.jobs[jobId];
        }
      }
    }
  }

  // ---------------------------------------------------------------------
  // The pending list

  /** The applicants listed under "Applicants": those whose user is not
      among the accepted ones. */
  function Pending(job: Job): (r: seq<Applicant>)
    ensures forall i :: 0 <= i < |r| ==> r[i] in job.applicants && !IsAccepted(job, r[i].user)
    ensures forall i :: 0 <= i < |job.applicants| && !IsAccepted(job, job.applicants[i].user) ==> job.applicants[i] in r
  {
    Filter(job.applicants, (a: Applicant) => !IsAccepted(job, a.user))
  }

  /** After an accept the pending list is the old one without the accepted
      user, in the same order. */
  lemma PendingAfterAccept(job: Job, u: Id, now: Time)
    requires HasApplicant(job, u)
    ensures Pending(AcceptLocally(job, u, now).value) == Filter(Pending(job), NotUser(u))
  {
    var job' := AcceptLocally(job, u, now).value;
    var notAcc := (a: Applicant) => !IsAccepted(job, a.user);
    var notAcc' := (a: Applicant) => !IsAccepted(job', a.user);
    var both := (a: Applicant) => a.user != u && !IsAccepted(job, a.user);
    forall a: Applicant ensures notAcc'(a) == (NotUser(u)(a) && notAcc(a)) {
      if IsAccepted(job, a.user) {
        var i :| 0 <= i < |job.acceptedApplicants| && job.acceptedApplicants[i].user == a.user;
        assert job'.acceptedApplicants[i] == job.acceptedApplicants[i];
      }
      if IsAccepted(job', a.user) {
        var i :| 0 <= i < |job'.acceptedApplicants| && job'.acceptedApplicants[i].user == a.user;
        if i < |job.acceptedApplicants| {
          assert job.acceptedApplicants[i] == job'.acceptedApplicants[i];
        }
      }
    }
    forall a: Applicant ensures both(a) == (notAcc(a) && NotUser(u)(a)) {
    }
    FilterTwice(job.applicants, NotUser(u), notAcc', both);
    FilterTwice(job.applicants, notAcc, NotUser(u), both);
  }

  // ---------------------------------------------------------------------
  // Closing a job

  /** "Close Job" is offered only for an active job. */
  predicate CloseOffered(job: Job)
  {
    job.status == "active"
  }

  /** `handleCloseJob`: without a selected job nothing is requested; after
      a successful answer only the selected job reads "closed". */
  function HandleClose(jobs: seq<Job>, jobId: Option<string>, code: nat): (r: seq<Job>)
    ensures |r| == |jobs|
    ensures !Chosen(jobId) || code != 200 ==> r == jobs
    ensures forall i :: 0 <= i < |jobs| && (jobId.None? || jobs[i].id != jobId.value) ==> r[i] == jobs[i]
    ensures Chosen(jobId) && code == 200 ==> forall i :: 0 <= i < |jobs| && jobs[i].id == jobId.value ==>
              r[i].status == "closed" && r[i].(status := jobs[i].status) == jobs[i]
  {
    if !Chosen(jobId) || code != 200 then jobs
    else seq(|jobs|, i requires 0 <= i < |jobs| => if jobs[i].id == jobId.value then jobs[i].(status := "closed") else jobs[i])
  }

  /** Against `closeJob`: the copy stays in step with the store whatever the
      answer. */
  lemma CloseMirrorsServer(st: Store, caller: Id, jobs: seq<Job>, jobId: Id)
    requires Synced(jobs, st)
    requires ValidId(jobId) && Canon(jobId) == jobId
    ensures var reply := CloseJob(st, caller, jobId);
            Synced(HandleClose(jobs, Some(jobId), reply.code), reply.store)
  {
  }

  /** For the poster's own job the button is offered exactly when the
      handler would close it. */
  lemma CloseOfferedIffAllowed(st: Store, caller: Id, jobs: seq<Job>, i: nat)
    requires Synced(jobs, st) && i < |jobs|
    requires jobs[i].postedBy == caller && ValidId(jobs[i].id) && Canon(jobs[i].id) == jobs[i].id
    ensures CloseOffered(jobs[i]) <==> CloseJob(st, caller, jobs[i].id).code == 200
  {
  }

  // ---------------------------------------------------------------------
  // Viewing an applicant

  /** `handleViewApplicant`'s guard: a string of at least ten characters. */
  predicate MayFetchApplicant(id: Value)
  {
    id.Str? && |id.s| >= 10
  }

  /** Every id the server accepts passes the page's guard, but the guard
      also lets through strings the server refuses with 400. */
  lemma FetchGuardWeakerThanServer(st: Store, s: string)
    ensures ValidId(s) ==> MayFetchApplicant(Str(s))
    ensures MayFetchApplicant(Str(s)) && |s| != 24 ==> GetApplicantDetails(st, Some(s)) == Fail(400)
    ensures !MayFetchApplicant(Str(s)) ==> !ValidId(s)
  {
  }
}

/** The abilitylink job detail page: who is offered "Apply Now", and the
    local update it makes after a successful application. */
module JobDetailPage {
  import opened Seqs
  import opened Js
  import opened Schema
  import opened JobOps
  import AbilityLinkJobs

  /** The signed-in user as the page knows them. */
  datatype Viewer = Viewer(id: Id, role: string)

  /** `isJobPosterOrRecruiter`: a signed-in user, a truthy `postedBy`, and
      either the poster's `_id` is the user's or the user is a recruiter.
      An unpopulated `postedBy` (a bare id string) has no `_id`, so the
      poster is then not recognised. */
  function IsPosterOrRecruiter(user: Option<Viewer>, job: Value): (b: bool)
    ensures b ==> user.Some? && Truthy(Member(job, "postedBy"))
    ensures user.Some? && user.value.role == "recruiter" && Truthy(Member(job, "postedBy")) ==> b
    ensures user.Some? && Member(job, "postedBy").Str? ==> (b <==> user.value.role == "recruiter" && Member(job, "postedBy").s != "")
  {
    && user.Some?
    && Truthy(Member(job, "postedBy"))
    && (Member(Member(job, "postedBy"), "_id") == Str(user.value.id) || user.value.role == "recruiter")
  }

  /** What sits in the application slot. */
  datatype Slot = LoginLink | OwnJobNote | RecruiterNote | AppliedBadge | ApplyNow

  function ApplySlot(user: Option<Viewer>, job: Value, applied: bool): (s: Slot)
    ensures s == ApplyNow <==> user.Some? && !IsPosterOrRecruiter(user, job) && !applied
    ensures s == LoginLink <==> user.None?
  {
    if user.None? then LoginLink
    else if IsPosterOrRecruiter(user, job) then
      if Member(Member(job, "postedBy"), "_id") == Str(user.value.id) then OwnJobNote else RecruiterNote
    else if applied then AppliedBadge
    else ApplyNow
  }

  /** The job as `getJobById` sends it: `postedBy` populated with the
      poster's `_id`. */
  predicate ShowsPoster(view: Value, job: Job)
  {
    Member(Member(view, "postedBy"), "_id") == Str(job.postedBy)
  }

  /** Against `applyForJob` and `checkIfApplied`: "Apply Now" is offered
      only where the handler accepts the application. The converse fails
      only for a user the job still lists without an application of
      theirs: the check reports them as applied although the handler
      would accept them. */
  lemma ApplyNowOnlyWhereAccepted(st: Store, me: Id, jobId: string, view: Value, appId: Id, now: Time)
    requires ValidId(jobId) && ValidId(me) && Canon(jobId) in st.jobs && me in st.users
    requires ShowsPoster(view, st.jobs[Canon(jobId)])
    ensures var applied := AbilityLinkJobs.CheckIfApplied(st, me, jobId).value;
            var slot := ApplySlot(Some(Viewer(me, st.users[me].role)), view, applied);
            var code := AbilityLinkJobs.ApplyForJob(st, me, jobId, appId, now).code;
            && (slot == ApplyNow ==> code == 200)
            && (code == 200 && !HasApplicant(st.jobs[Canon(jobId)], me) ==> slot == ApplyNow)
            && (slot in {OwnJobNote, RecruiterNote} ==> code == 400)
  {
  }

  /** `prev.applicants || []` spread into an array: a falsy value gives no
      entries, a string its characters, and any other non-array throws
      (`None`). */
  function SpreadList(v: Value): (r: Option<seq<Value>>)
    ensures !Truthy(v) ==> r == Some([])
    ensures v.Arr? ==> r == Some(v.items)
    ensures r.None? <==> Truthy(v) && !v.Arr? && !v.Str?
  {
    if !Truthy(v) then Some([])
    else match v
      case Arr(items) => Some(items)
      case Str(s) => Some(Map(s, (c: char) => Str([c])))
      case _ => None
  }

  /** The applicant entry the page appends. */
  function LocalEntry(me: Id, appliedAt: Value): Value
  {
    Object([("user", Str(me)), ("appliedAt", appliedAt)])
  }

  /** `handleApply`'s local update: after a successful answer, for a
      signed-in user, one entry for the user is appended to the job's
      applicants; every other field is kept. */
  function LocalApply(job: Obj, user: Option<Viewer>, code: nat, appliedAt: Value): (r: Option<Obj>)
    ensures code != 200 || user.None? ==> r == Some(job)
    ensures r.None? <==> code == 200 && user.Some? && SpreadList(Get(job, "applicants")).None?
    ensures r.Some? && code == 200 && user.Some? ==>
              && Get(r.value, "applicants") == Arr(SpreadList(Get(job, "applicants")).value + [LocalEntry(user.value.id, appliedAt)])
              && forall k :: k != "applicants" ==> Get(r.value, k) == Get(job, k)
  {
    if code != 200 || user.None? then Some(job)
    else match SpreadList(Get(job, "applicants"))
      case None => None
      case Some(prev) => Some(Set(job, "applicants", Arr(prev + [LocalEntry(user.value.id, appliedAt)])))
  }

  /** The page's applicant entries name the job's applicants, in order. */
  predicate ApplicantsShown(items: seq<Value>, apps: seq<Applicant>)
  {
    |items| == |apps| && forall i :: 0 <= i < |items| ==> Member(items[i], "user") == Str(apps[i].user)
  }

  /** Against `applyForJob`: when the page's list named the job's
      applicants before, it names them after a successful application
      too. */
  lemma LocalApplyMirrorsServer(st: Store, me: Id, role: string, jobId: string, appId: Id, now: Time, job: Obj, appliedAt: Value)
    requires AbilityLinkJobs.ApplyForJob(st, me, jobId, appId, now).code == 200
    requires Get(job, "applicants").Arr? && ApplicantsShown(Get(job, "applicants").items, st.jobs[Canon(jobId)].applicants)
    ensures var r := LocalApply(job, Some(Viewer(me, role)), 200, appliedAt);
            var st' := AbilityLinkJobs.ApplyForJob(st, me, jobId, appId, now).store;
            && r.Some? && Get(r.value, "applicants").Arr?
            && ApplicantsShown(Get(r.value, "applicants").items, st'.jobs[Canon(jobId)].applicants)
  {
    var id := Canon(jobId);
    var items := Get(job, "applicants").items + [LocalEntry(me, appliedAt)];
    var apps := AbilityLinkJobs.ApplyForJob(st, me, jobId, appId, now).store.jobs[id].applicants;
    KeyIndexIs(LocalEntry(me, appliedAt).fields, "user", 0);
    assert apps == st.jobs[id].applicants + [Applicant(me, now, "Applied")];
    assert forall i :: 0 <= i < |items| ==> Member(items[i], "user") == Str(apps[i].user);
  }
}
