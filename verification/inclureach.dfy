/** The IncluReach job handlers that differ from their abilitylink
    counterparts: `createJob` (salary normalisation, status from the risk
    score, never a rejection), `applyForJob` and `checkIfApplied`. */
module IncluReachJobs {
  import opened Seqs
  import opened Text
  import opened Js
  import opened Schema
  import opened JobOps
  import opened Verifier

  /** The salary object the handler stores. */
  datatype SalaryInfo = SalaryInfo(amount: int, currency: Value, period: Value, isPublic: bool)

  function SalaryObject(s: SalaryInfo): Value
  {
    Object([("amount", Num(s.amount)), ("currency", s.currency), ("period", s.period), ("isPublic", Bool(s.isPublic))])
  }

  /** `Number(salary?.amount) || 0`, `currency || "USD"`, `period || "month"`
      and `isPublic !== false`. */
  function NormalizeSalary(body: Obj): (s: SalaryInfo)
    ensures var raw := Member(Get(body, "salary"), "amount");
            && (ToNumber(raw).None? ==> s.amount == 0)
            && (ToNumber(raw).Some? ==> s.amount == ToNumber(raw).value)
    ensures var c := Member(Get(body, "salary"), "currency");
            s.currency == if Truthy(c) then c else Str("USD")
    ensures var p := Member(Get(body, "salary"), "period");
            s.period == if Truthy(p) then p else Str("month")
    ensures s.isPublic <==> Member(Get(body, "salary"), "isPublic") != Bool(false)
    ensures Truthy(s.currency) && Truthy(s.period)
  {
    var salary := Get(body, "salary");
    var n := ToNumber(Member(salary, "amount"));
    SalaryInfo(
      if n.Some? && n.value != 0 then n.value else 0,
      if Truthy(Member(salary, "currency")) then Member(salary, "currency") else Str("USD"),
      if Truthy(Member(salary, "period")) then Member(salary, "period") else Str("month"),
      Member(salary, "isPublic") != Bool(false))
  }

  /** The stored salary object reads back as the salary it was built from. */
  lemma SalaryObjectFields(s: SalaryInfo)
    ensures Member(SalaryObject(s), "amount") == Num(s.amount)
    ensures Member(SalaryObject(s), "currency") == s.currency
    ensures Member(SalaryObject(s), "period") == s.period
    ensures Member(SalaryObject(s), "isPublic") == Bool(s.isPublic)
  {
    var f := SalaryObject(s).fields;
    KeyIndexIs(f, "amount", 0);
    KeyIndexIs(f, "currency", 1);
    KeyIndexIs(f, "period", 2);
    KeyIndexIs(f, "isPublic", 3);
  }

  /** Normalising an already normalised salary changes nothing. */
  lemma NormalizeSalaryIdempotent(body: Obj)
    ensures NormalizeSalary(Set(body, "salary", SalaryObject(NormalizeSalary(body)))) == NormalizeSalary(body)
  {
    var s := NormalizeSalary(body);
    assert Get(Set(body, "salary", SalaryObject(s)), "salary") == SalaryObject(s);
    SalaryObjectFields(s);
  }

  /** The document `createJob` hands to `Job.create`:
      `{...body, salary, postedBy, status, verification}`. */
  function StoredDoc(body: Obj, salary: Value, postedBy: Value, status: Value, verification: Value): (d: Obj)
    ensures Get(d, "salary") == salary
    ensures Get(d, "postedBy") == postedBy
    ensures Get(d, "status") == status
    ensures Get(d, "verification") == verification
    ensures forall k :: k !in ["salary", "postedBy", "status", "verification"] ==> Get(d, k) == Get(body, k)
  {
    var withSalary := Set(body, "salary", salary);
    CreatedDocKeepsKey(withSalary, postedBy, status, verification, "salary");
    CreatedDocKeeps(withSalary, postedBy, status, verification);
    CreatedDoc(withSalary, postedBy, status, verification)
  }

  /** `createJob`: every verdict is stored; the status is "active" below risk
      50 and "pending" otherwise. */
  function CreateJob(body: Obj, caller: Id, reply: AssessorReply, now: Time): (r: CreateResult)
    ensures !r.Rejected?
    ensures r.ServerError? <==> GuardRaises(PostingOf(body))
    ensures r.Stored? ==> r.verdict == VerifyJobPosting(PostingOf(body), reply).verdict
    ensures r.Stored? ==> Get(r.doc, "status") == Str(StatusFor(r.verdict))
    ensures r.Stored? ==> Get(r.doc, "salary") == SalaryObject(NormalizeSalary(body))
    ensures r.Stored? ==> Get(r.doc, "postedBy") == Str(caller)
    ensures r.Stored? ==> Get(r.doc, "verification") == VerificationObject(r.verdict, now)
    ensures r.Stored? ==> forall k :: k !in ["salary", "postedBy", "status", "verification"] ==>
              Get(r.doc, k) == Get(body, k)
  {
    match VerifyJobPosting(PostingOf(body), reply)
    case Threw => ServerError
    case Returned(v, _) =>
      var salary := SalaryObject(NormalizeSalary(body));
      var verification := VerificationObject(v, now);
      Stored(StoredDoc(body, salary, Str(caller), Str(StatusFor(v)), verification), v)
  }

  /** A stored job is published exactly when its verdict is valid: flagged
      postings and postings the model doubts wait as "pending", the fallback
      verdict is published. */
  lemma CreatedActiveIffValid(body: Obj, caller: Id, reply: AssessorReply, now: Time)
    requires CreateJob(body, caller, reply, now).Stored?
    ensures var r := CreateJob(body, caller, reply, now);
            Get(r.doc, "status") == Str("active") <==> r.verdict.isValid
  {
  }

  /** Obvious scams are stored too, as pending jobs. */
  lemma ScamsStoredPending(body: Obj, caller: Id, reply: AssessorReply, now: Time)
    requires exists rule :: Fires(PostingOf(body), rule)
    requires !GuardRaises(PostingOf(body))
    ensures CreateJob(body, caller, reply, now).Stored?
    ensures Get(CreateJob(body, caller, reply, now).doc, "status") == Str("pending")
  {
    FlaggedShortCircuits(PostingOf(body), reply, reply);
  }

  // ---------------------------------------------------------------------
  // applyForJob

  /** `applyForJob`: 400 for a malformed id, 404 for a missing job or user,
      400 when the user already is an applicant; otherwise one applicant
      entry, one application and one activity entry are appended. */
  function ApplyForJob(st: Store, userId: Id, jobId: string, appId: Id, now: Time): (r: Reply)
    ensures r.code in {200, 400, 404}
    ensures r.code != 200 ==> r.store == st
    ensures !ValidId(jobId) ==> r.code == 400
    ensures ValidId(jobId) && (Canon(jobId) !in st.jobs || userId !in st.users) ==> r.code == 404
    ensures r.code == 200 <==>
              ValidId(jobId) && Canon(jobId) in st.jobs && userId in st.users
              && !HasApplicant(st.jobs[Canon(jobId)], userId)
    ensures r.code == 200 ==>
              var id := Canon(jobId);
              var job := st.jobs[id];
              var user := st.users[userId];
              r.store == Store(
                st.jobs[id := job.(applicants := job.applicants + [Applicant(userId, now, "Applied")])],
                st.users[userId := user.(
                  jobApplications := user.jobApplications + [NewApplication(appId, id, now)],
                  activityLog := user.activityLog + [Activity("Application", Str("Applied to job: " + job.title), now)])])
  {
    if !ValidId(jobId) then Schema.Reply(400, st)
    else
      var id := Canon(jobId);
      if id !in st.jobs || userId !in st.users then Schema.Reply(404, st)
      else
        var job := st.jobs[id];
        var user := st.users[userId];
        if HasApplicant(job, userId) then Schema.Reply(400, st)
        else
          Schema.Reply(200, Store(
            st.jobs[id := job.(applicants := job.applicants + [Applicant(userId, now, "Applied")])],
            st.users[userId := user.(
              jobApplications := user.jobApplications + [NewApplication(appId, id, now)],
              activityLog := user.activityLog + [Activity("Application", Str("Applied to job: " + job.title), now)])]))
  }

  /** `checkIfApplied`: whether the job lists the user among its applicants. */
  function CheckIfApplied(st: Store, userId: Id, jobId: string): (r: Result<bool>)
    ensures !ValidId(jobId) <==> r == Fail(400)
    ensures r.Ok? ==> (r.value <==> Canon(jobId) in st.jobs && HasApplicant(st.jobs[Canon(jobId)], userId))
  {
    if !ValidId(jobId) then Fail(400)
    else
      var id := Canon(jobId);
      Ok(id in st.jobs && HasApplicant(st.jobs[id], userId))
  }

  /** After a successful apply the check reports the application, and a
      second apply is refused. */
  lemma ApplyThenCheck(st: Store, userId: Id, jobId: string, appId: Id, now: Time, later: Time)
    requires ApplyForJob(st, userId, jobId, appId, now).code == 200
    ensures var st' := ApplyForJob(st, userId, jobId, appId, now).store;
            && CheckIfApplied(st', userId, jobId) == Ok(true)
            && ApplyForJob(st', userId, jobId, appId, later) == Schema.Reply(400, st')
  {
    var st' := ApplyForJob(st, userId, jobId, appId, now).store;
    var apps := st'.jobs[Canon(jobId)].applicants;
    assert apps[|apps| - 1].user == userId;
  }
}
