/** The abilitylink job handlers that differ from their IncluReach
    counterparts: `createJob` (hard rejection of flagged postings, no salary
    handling, schema validation on create), `applyForJob` (its guard order and
    its duplicate check through the user's applications) and
    `checkIfApplied`. */
module AbilityLinkJobs {
  import opened Seqs
  import opened Text
  import opened Js
  import opened Schema
  import opened JobOps
  import opened Verifier

  // ---------------------------------------------------------------------
  // createJob

  /** The created document validates exactly when the body's fields do and
      the written status is in the status enumeration. */
  lemma CreatedDocValid(body: Obj, postedBy: Value, status: string, verification: Value, statuses: seq<string>)
    ensures JobDocValid(CreatedDoc(body, postedBy, Str(status), verification), statuses)
            <==> JobFieldsValid(body) && status in statuses
  {
    var d := CreatedDoc(body, postedBy, Str(status), verification);
    KeepsRequiredFields(body, postedBy, Str(status), verification);
    KeepsTypedFields(body, postedBy, Str(status), verification);
    assert JobFieldsValid(d) == JobFieldsValid(body);
  }

  /** The created document carries the body's required and enumerated
      fields. */
  lemma KeepsRequiredFields(body: Obj, postedBy: Value, status: Value, verification: Value)
    ensures var d := CreatedDoc(body, postedBy, status, verification);
            && Get(d, "title") == Get(body, "title")
            && Get(d, "company") == Get(body, "company")
            && Get(d, "location") == Get(body, "location")
            && Get(d, "description") == Get(body, "description")
            && Get(d, "disabilityTypes") == Get(body, "disabilityTypes")
            && Get(d, "disabilitySeverity") == Get(body, "disabilitySeverity")
  {
    assert "postedBy"[0] == 'p' && "status"[0] == 's' && "verification"[0] == 'v';
    CreatedDocKeepsKey(body, postedBy, status, verification, "title");
    CreatedDocKeepsKey(body, postedBy, status, verification, "company");
    CreatedDocKeepsKey(body, postedBy, status, verification, "location");
    CreatedDocKeepsKey(body, postedBy, status, verification, "description");
    CreatedDocKeepsKey(body, postedBy, status, verification, "disabilityTypes");
    CreatedDocKeepsKey(body, postedBy, status, verification, "disabilitySeverity");
  }

  /** The created document carries the body's `remote` flag and string
      lists. */
  lemma KeepsTypedFields(body: Obj, postedBy: Value, status: Value, verification: Value)
    ensures var d := CreatedDoc(body, postedBy, status, verification);
            && Get(d, "remote") == Get(body, "remote")
            && Get(d, "requirements") == Get(body, "requirements")
            && Get(d, "skills") == Get(body, "skills")
  {
    assert "postedBy"[0] == 'p' && "status"[1] == 't' && "verification"[0] == 'v' && "skills"[1] == 'k';
    CreatedDocKeepsKey(body, postedBy, status, verification, "remote");
    CreatedDocKeepsKey(body, postedBy, status, verification, "requirements");
    CreatedDocKeepsKey(body, postedBy, status, verification, "skills");
  }

  /** `createJob` against a job schema whose status enumeration is
      `statuses`: a posting with the scam verdict is refused with 400; every
      other one is handed to `Job.create`, whose validation error is a 500. */
  function CreateJobUnder(statuses: seq<string>, body: Obj, caller: Id, reply: AssessorReply, now: Time): (r: CreateResult)
    ensures r.Rejected? <==> !GuardRaises(PostingOf(body)) && Flags(PostingOf(body)).value != []
    ensures r.Stored? <==>
              && !GuardRaises(PostingOf(body)) && Flags(PostingOf(body)).value == []
              && JobFieldsValid(body)
              && StatusFor(VerifyJobPosting(PostingOf(body), reply).verdict) in statuses
    ensures !r.ServerError? ==> r.verdict == VerifyJobPosting(PostingOf(body), reply).verdict
    ensures r.Rejected? ==> r.verdict.riskScore == 100 && !r.verdict.isValid
    ensures r.Stored? ==> Get(r.doc, "status") == Str(StatusFor(r.verdict))
    ensures r.Stored? ==> Get(r.doc, "postedBy") == Str(caller)
    ensures r.Stored? ==> Get(r.doc, "verification") == VerificationObject(r.verdict, now)
    ensures r.Stored? ==> forall k :: k !in ["postedBy", "status", "verification"] ==>
              Get(r.doc, k) == Get(body, k)
  {
    match VerifyJobPosting(PostingOf(body), reply)
    case Threw => ServerError
    case Returned(v, _) =>
      if !v.isValid && v.riskScore == 100 then Rejected(v)
      else
        var verification := VerificationObject(v, now);
        var doc := CreatedDoc(body, Str(caller), Str(StatusFor(v)), verification);
        CreatedDocKeeps(body, Str(caller), Str(StatusFor(v)), verification);
        CreatedDocValid(body, Str(caller), StatusFor(v), verification, statuses);
        if JobDocValid(doc, statuses) then Stored(doc, v) else ServerError
  }

  /** `createJob` as written: the schema's status enumeration is
      "Active"/"Closed", which holds neither status the handler writes, so
      every posting that is not refused as a scam ends in a 500. */
  function CreateJobAsWritten(body: Obj, caller: Id, reply: AssessorReply, now: Time): (r: CreateResult)
    ensures !r.Stored?
    ensures r.Rejected? <==> !GuardRaises(PostingOf(body)) && Flags(PostingOf(body)).value != []
    ensures r.ServerError? <==> GuardRaises(PostingOf(body)) || Flags(PostingOf(body)).value == []
  {
    var o := VerifyJobPosting(PostingOf(body), reply);
    if o.Returned? then
      ControllerStatusesNotInSchema(StatusFor(o.verdict));
      CreateJobUnder(JobStatuses, body, caller, reply, now)
    else CreateJobUnder(JobStatuses, body, caller, reply, now)
  }

  /** `createJob` with a status enumeration that holds the statuses the
      controllers write. */
  function CreateJob(body: Obj, caller: Id, reply: AssessorReply, now: Time): (r: CreateResult)
    ensures r.Rejected? <==> !GuardRaises(PostingOf(body)) && Flags(PostingOf(body)).value != []
    ensures r.Stored? <==>
              !GuardRaises(PostingOf(body)) && Flags(PostingOf(body)).value == [] && JobFieldsValid(body)
    ensures r.Stored? ==> (Get(r.doc, "status") == Str("active") <==> r.verdict.isValid)
    ensures r.Stored? ==> JobDocValid(r.doc, ControllerJobStatuses)
    ensures r.Stored? ==> r.verdict == VerifyJobPosting(PostingOf(body), reply).verdict
    ensures r.Stored? ==> Get(r.doc, "postedBy") == Str(caller)
    ensures r.Stored? ==> Get(r.doc, "verification") == VerificationObject(r.verdict, now)
    ensures r.Stored? ==> forall k :: k !in ["postedBy", "status", "verification"] ==>
              Get(r.doc, k) == Get(body, k)
  {
    var r := CreateJobUnder(ControllerJobStatuses, body, caller, reply, now);
    if r.Stored? then
      var s := StatusFor(r.verdict);
      assert s in ControllerJobStatuses;
      CreatedDocValid(body, Str(caller), s, VerificationObject(r.verdict, now), ControllerJobStatuses);
      r
    else r
  }

  /** A `remote` value that does not cast to a boolean, or a requirement or
      skill that does not cast to a string, keeps the posting out of the
      store. */
  lemma UncastableRemoteRefused(body: Obj, caller: Id, reply: AssessorReply, now: Time)
    requires !BooleanOk(Get(body, "remote")) || !StringArrayOk(Get(body, "requirements"))
             || !StringArrayOk(Get(body, "skills"))
    ensures CreateJob(body, caller, reply, now).Rejected? || CreateJob(body, caller, reply, now).ServerError?
  {
  }

  /** The discrepancy: for every request the corrected handler stores, the
      handler as written answers 500 instead. */
  lemma StatusEnumFailsEveryCreate(body: Obj, caller: Id, reply: AssessorReply, now: Time)
    requires CreateJob(body, caller, reply, now).Stored?
    ensures CreateJobAsWritten(body, caller, reply, now).ServerError?
  {
  }

  /** A flagged posting is refused whatever the model would answer, and a
      posting the verifier merely doubts is still stored, as pending. */
  lemma OnlyScamsRefused(body: Obj, caller: Id, reply: AssessorReply, now: Time)
    requires !GuardRaises(PostingOf(body))
    ensures CreateJob(body, caller, reply, now).Rejected? <==> exists rule :: Fires(PostingOf(body), rule)
  {
    var p := PostingOf(body);
    if exists rule :: Fires(p, rule) {
      var rule :| Fires(p, rule);
      assert Reason(rule) in Flags(p).value;
    }
  }

  // ---------------------------------------------------------------------
  // applyForJob

  /** `applyForJob`, its guards in order: a malformed id is 400, a missing
      job 404, the job's own poster 400, a missing user 500 (reading the role
      of `null` raises), a recruiter 400, and a user who already holds an
      application for the job 400. Otherwise the application and an activity
      entry are pushed to the user and an applicant entry to the job; the new
      entry has a fresh identifier, so `$addToSet` always appends. */
  function ApplyForJob(st: Store, me: Id, jobId: string, appId: Id, now: Time): (r: Reply)
    ensures r.code in {200, 400, 404, 500}
    ensures r.code != 200 ==> r.store == st
    ensures !ValidId(jobId) || !ValidId(me) ==> r.code == 400
    ensures ValidId(jobId) && ValidId(me) && Canon(jobId) !in st.jobs ==> r.code == 404
    ensures ValidId(jobId) && ValidId(me) && Canon(jobId) in st.jobs && st.jobs[Canon(jobId)].postedBy == me
            ==> r.code == 400
    ensures r.code == 500 <==>
              ValidId(jobId) && ValidId(me) && Canon(jobId) in st.jobs
              && st.jobs[Canon(jobId)].postedBy != me && me !in st.users
    ensures r.code == 200 <==>
              && ValidId(jobId) && ValidId(me) && Canon(jobId) in st.jobs
              && st.jobs[Canon(jobId)].postedBy != me && me in st.users
              && st.users[me].role != "recruiter"
              && !HasApplicationFor(st.users[me], Canon(jobId))
    ensures r.code == 200 ==>
              var id := Canon(jobId);
              var job := st.jobs[id];
              var user := st.users[me];
              r.store == Store(
                st.jobs[id := job.(applicants := job.applicants + [Applicant(me, now, "Applied")])],
                st.users[me := user.(
                  jobApplications := user.jobApplications + [NewApplication(appId, id, now)],
                  activityLog := user.activityLog + [Activity("Application", Str("Applied for job: " + job.title), now)])])
  {
    if !ValidId(jobId) || !ValidId(me) then Schema.Reply(400, st)
    else
      var id := Canon(jobId);
      if id !in st.jobs then Schema.Reply(404, st)
      else
        var job := st.jobs[id];
        if job.postedBy == me then Schema.Reply(400, st)
        else if me !in st.users then Schema.Reply(500, st)
        else
          var user := st.users[me];
          if user.role == "recruiter" || HasApplicationFor(user, id) then Schema.Reply(400, st)
          else
            Schema.Reply(200, Store(
              st.jobs[id := job.(applicants := job.applicants + [Applicant(me, now, "Applied")])],
              st.users[me := user.(
                jobApplications := user.jobApplications + [NewApplication(appId, id, now)],
                activityLog := user.activityLog + [Activity("Application", Str("Applied for job: " + job.title), now)])]))
  }

  /** `checkIfApplied`: no id check, so a malformed id fails to cast and
      raises; otherwise the user holds an application for the job or the job
      lists the user. */
  function CheckIfApplied(st: Store, me: Id, jobId: string): (r: Result<bool>)
    ensures !ValidId(jobId) <==> r == Fail(500)
    ensures r.Ok? ==>
              (r.value <==> (me in st.users && HasApplicationFor(st.users[me], Canon(jobId)))
                            || (Canon(jobId) in st.jobs && HasApplicant(st.jobs[Canon(jobId)], me)))
  {
    if !ValidId(jobId) then Fail(500)
    else
      var id := Canon(jobId);
      Ok((me in st.users && HasApplicationFor(st.users[me], id)) || (id in st.jobs && HasApplicant(st.jobs[id], me)))
  }

  /** After a successful apply the check reports it, and applying again is
      refused without a change. */
  lemma ApplyThenCheck(st: Store, me: Id, jobId: string, appId: Id, now: Time, later: Time)
    requires ApplyForJob(st, me, jobId, appId, now).code == 200
    ensures var st' := ApplyForJob(st, me, jobId, appId, now).store;
            && CheckIfApplied(st', me, jobId) == Ok(true)
            && ApplyForJob(st', me, jobId, appId, later) == Schema.Reply(400, st')
  {
    var st' := ApplyForJob(st, me, jobId, appId, now).store;
    var apps := st'.users[me].jobApplications;
    assert apps[|apps| - 1].jobId == Canon(jobId);
  }

  /** The duplicate check reads the user's applications, not the job's
      applicants: a user still listed on the job but holding no application
      for it (as after a withdrawal) is let through, and the job then lists
      the user twice. */
  lemma ApplicantListedTwice(st: Store, me: Id, jobId: string, appId: Id, now: Time)
    requires ApplyForJob(st, me, jobId, appId, now).code == 200
    requires HasApplicant(st.jobs[Canon(jobId)], me)
    ensures var apps := ApplyForJob(st, me, jobId, appId, now).store.jobs[Canon(jobId)].applicants;
            exists i, j :: 0 <= i < j < |apps| && apps[i].user == me && apps[j].user == me
  {
    var before := st.jobs[Canon(jobId)].applicants;
    var apps := ApplyForJob(st, me, jobId, appId, now).store.jobs[Canon(jobId)].applicants;
    var i :| 0 <= i < |before| && before[i].user == me;
    assert apps[i] == before[i];
    assert apps[|before|].user == me;
  }
}
