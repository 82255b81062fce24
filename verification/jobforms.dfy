/** The two job-posting pages: their initial forms, how the IncluReach page
    reads the answer to its submission, when its two verdict banners show,
    and the abilitylink page's navigation after a submission. */
module JobForms {
  import opened Seqs
  import opened Text
  import opened Js
  import opened Schema
  import opened Verifier
  import IncluReachJobs
  import AbilityLinkJobs

  // ---------------------------------------------------------------------
  // Initial forms

  /** The abilitylink page's initial form. */
  const BaseForm: Obj := [
    ("title", Str("")), ("company", Str("")), ("location", Str("")), ("remote", Bool(false)),
    ("description", Str("")), ("requirements", Arr([Str("")])), ("skills", Arr([Str("")])),
    ("disabilityTypes", Arr([])), ("disabilitySeverity", Str("Any"))]

  const InitialSalary: Value :=
    Object([("amount", Str("")), ("currency", Str("USD")), ("period", Str("month")), ("isPublic", Bool(true))])

  /** The IncluReach page's initial form: the same fields in the same order,
      followed by the salary. */
  const SalaryForm: Obj := BaseForm + [("salary", InitialSalary)]

  /** The two initial forms agree on every field but the salary, which only
      the IncluReach form has. */
  lemma InitialFormsAgree()
    ensures !HasKey(BaseForm, "salary")
    ensures Get(SalaryForm, "salary") == InitialSalary
    ensures forall k :: k != "salary" ==> Get(SalaryForm, k) == Get(BaseForm, k)
  {
    assert !HasKey(BaseForm, "salary") by {
      forall i | 0 <= i < |BaseForm| ensures BaseForm[i].0 != "salary" {
        assert BaseForm[i].0[0] != 's' || BaseForm[i].0[1] != 'a';
      }
    }
    forall k ensures Get(SalaryForm, k) == if HasKey(BaseForm, k) then Get(BaseForm, k) else Get([("salary", InitialSalary)], k) {
      GetAppend(BaseForm, [("salary", InitialSalary)], k);
    }
    KeyIndexIs([("salary", InitialSalary)], "salary", 0);
  }

  /** Submitted untouched, the IncluReach form's salary is normalised to
      nothing a month in dollars, shown publicly. */
  lemma InitialSalaryNormalizes()
    ensures IncluReachJobs.NormalizeSalary(SalaryForm) == IncluReachJobs.SalaryInfo(0, Str("USD"), Str("month"), true)
  {
    InitialFormsAgree();
    InitialSalaryFields();
    assert Trim("") == "";
    assert ToNumber(Str("")) == Some(0);
  }

  /** The initial salary's four properties. */
  lemma InitialSalaryFields()
    ensures Member(InitialSalary, "amount") == Str("")
    ensures Member(InitialSalary, "currency") == Str("USD")
    ensures Member(InitialSalary, "period") == Str("month")
    ensures Member(InitialSalary, "isPublic") == Bool(true)
  {
    var f := InitialSalary.fields;
    KeyIndexIs(f, "amount", 0);
    KeyIndexIs(f, "currency", 1);
    KeyIndexIs(f, "period", 2);
    KeyIndexIs(f, "isPublic", 3);
  }

  /** Submitted untouched, the abilitylink form is never stored: its title
      is empty, which the job schema refuses. */
  lemma InitialFormNotStored(caller: Id, reply: AssessorReply, now: Time)
    ensures !AbilityLinkJobs.CreateJob(BaseForm, caller, reply, now).Stored?
  {
    BaseFormInvalid();
  }

  lemma BaseFormInvalid()
    ensures !JobFieldsValid(BaseForm)
  {
    KeyIndexIs(BaseForm, "title", 0);
    assert Get(BaseForm, "title") == Str("");
  }

  // ---------------------------------------------------------------------
  // The answer to a submission

  /** What the page's request resolves to: the body of a 2xx answer, or a
      rejection carrying the body's `message` when the server sent one. */
  datatype Response = Answered(body: Value) | Failed(message: Value)

  /** The verdict as the handlers serialise it. */
  function VerdictValue(v: Verdict): Value
  {
    Object([("isValid", Bool(v.isValid)), ("riskScore", Num(v.riskScore)),
            ("redFlags", Arr(Map(v.redFlags, s => Str(s)))),
            ("suggestions", Arr(Map(v.suggestions, s => Str(s))))])
  }

  const ScamMessage := "Job rejected - scam detected"
  const ServerErrorMessage := "Server error"

  /** The answer both `createJob` handlers give: 201 with success, the job
      and the verdict; 400 with the scam message; 500 with "Server error". */
  function ResponseOf(r: CreateResult): (resp: Response)
    ensures resp.Answered? <==> r.Stored?
    ensures r.Stored? ==> Member(resp.body, "success") == Bool(true) && Member(resp.body, "job") == Object(r.doc)
    ensures r.Rejected? ==> resp == Failed(Str(ScamMessage))
    ensures r.ServerError? ==> resp == Failed(Str(ServerErrorMessage))
  {
    match r
    case Stored(doc, v) =>
      var fields := [("success", Bool(true)), ("job", Object(doc)), ("verification", VerdictValue(v))];
      KeyIndexIs(fields, "success", 0);
      KeyIndexIs(fields, "job", 1);
      Answered(Object(fields))
    case Rejected(_) => Failed(Str(ScamMessage))
    case ServerError => Failed(Str(ServerErrorMessage))
  }

  /** What the IncluReach page tells the poster. */
  datatype Outcome =
    | Posted                  // "Job posted successfully!", on to the job list
    | JobRejected             // "Job rejected. Enter Correct Data.", back to the form
    | Suspicious(details: Value)  // the details are kept for the banners
    | ErrorToast(message: string)

  const FallbackError := "Error creating job"

  /** `handleSubmit`'s reading of the answer. Reading a property of a
      missing body or job throws, which lands in the same error toast as a
      failed request. */
  function SubmitOutcome(resp: Response): (o: Outcome)
    ensures o == Posted ==> resp.Answered? && Member(Member(resp.body, "job"), "status") == Str("active")
    ensures o.Suspicious? ==> resp.Answered? && !Truthy(Member(resp.body, "success"))
    ensures resp.Failed? ==> o.ErrorToast?
  {
    match resp
    case Failed(m) => ErrorToast(if Truthy(m) then ToJsString(m) else FallbackError)
    case Answered(body) =>
      if body.Undefined? || body.Null? then ErrorToast(FallbackError)
      else if !Truthy(Member(body, "success")) then Suspicious(Member(body, "details"))
      else
        var job := Member(body, "job");
        if job.Undefined? || job.Null? then ErrorToast(FallbackError)
        else if Member(job, "status") == Str("active") then Posted
        else JobRejected
  }

  /** How the page reads each of the handlers' three answers. */
  lemma OutcomeOfResult(r: CreateResult)
    ensures r.Stored? ==> SubmitOutcome(ResponseOf(r)) == if Get(r.doc, "status") == Str("active") then Posted else JobRejected
    ensures r.Rejected? ==> SubmitOutcome(ResponseOf(r)) == ErrorToast(ScamMessage)
    ensures r.ServerError? ==> SubmitOutcome(ResponseOf(r)) == ErrorToast(ServerErrorMessage)
  {
  }

  /** Against the IncluReach handler the page announces a posting exactly
      when the verdict was valid, sends the poster back with "Job rejected"
      exactly when the job was stored pending, and never takes the
      success:false branch. */
  lemma IncluReachSubmitOutcome(body: Obj, caller: Id, reply: AssessorReply, now: Time)
    ensures var r := IncluReachJobs.CreateJob(body, caller, reply, now);
            var o := SubmitOutcome(ResponseOf(r));
            && (o == Posted <==> r.Stored? && r.verdict.isValid)
            && (o == JobRejected <==> r.Stored? && !r.verdict.isValid)
            && (o == ErrorToast(ServerErrorMessage) <==> r.ServerError?)
            && !o.Suspicious?
  {
    var r := IncluReachJobs.CreateJob(body, caller, reply, now);
    OutcomeOfResult(r);
    if r.Stored? {
      IncluReachJobs.CreatedActiveIffValid(body, caller, reply, now);
    }
  }

  /** Against the abilitylink handler a scam is reported through the error
      toast with the server's message, not through the success:false
      branch. */
  lemma AbilityLinkScamToast(body: Obj, caller: Id, reply: AssessorReply, now: Time)
    ensures var r := AbilityLinkJobs.CreateJob(body, caller, reply, now);
            && (r.Rejected? <==> SubmitOutcome(ResponseOf(r)) == ErrorToast(ScamMessage))
            && !SubmitOutcome(ResponseOf(r)).Suspicious?
  {
    var r := AbilityLinkJobs.CreateJob(body, caller, reply, now);
    OutcomeOfResult(r);
    assert ScamMessage != ServerErrorMessage by { assert ScamMessage[0] == 'J'; }
  }

  // ---------------------------------------------------------------------
  // Banners

  /** The verdict the page keeps: the details of a success:false answer,
      otherwise null. */
  function Shown(o: Outcome): (v: Value)
    ensures !o.Suspicious? ==> !Truthy(v)
  {
    if o.Suspicious? then o.details else Null
  }

  /** `verificationResult && !verificationResult.isValid`. */
  predicate RedBanner(v: Value)
  {
    Truthy(v) && !Truthy(Member(v, "isValid"))
  }

  /** `verificationResult?.isValid && verificationResult.riskScore > 70`;
      a risk that is not a number compares false. */
  predicate YellowBanner(v: Value)
  {
    && Truthy(Member(v, "isValid"))
    && var n := ToNumber(Member(v, "riskScore"));
       n.Some? && n.value > 70
  }

  lemma VerdictValueFields(v: Verdict)
    ensures Member(VerdictValue(v), "isValid") == Bool(v.isValid)
    ensures Member(VerdictValue(v), "riskScore") == Num(v.riskScore)
  {
    var f := VerdictValue(v).fields;
    KeyIndexIs(f, "isValid", 0);
    KeyIndexIs(f, "riskScore", 1);
  }

  /** For a verdict of the shape the verifier gives, the red banner shows
      exactly when it is invalid and the yellow warning never does: a valid
      verdict carries at most risk 30. */
  lemma BannersForConsistent(v: Verdict)
    requires Consistent(v)
    ensures !YellowBanner(VerdictValue(v))
    ensures RedBanner(VerdictValue(v)) <==> !v.isValid
  {
    VerdictValueFields(v);
  }

  /** Shown any verdict the verifier can produce, the red banner appears
      exactly for an invalid one and the yellow warning never does. */
  lemma BannersForVerdicts(p: Posting, reply: AssessorReply)
    requires VerifyJobPosting(p, reply).Returned?
    ensures var v := VerifyJobPosting(p, reply).verdict;
            && !YellowBanner(VerdictValue(v))
            && (RedBanner(VerdictValue(v)) <==> !v.isValid)
  {
    BannersForConsistent(VerifyJobPosting(p, reply).verdict);
  }

  /** Against either handler the page never keeps a verdict, so neither
      banner is ever shown. */
  lemma NoBannerAfterSubmit(body: Obj, caller: Id, reply: AssessorReply, now: Time)
    ensures var shown := Shown(SubmitOutcome(ResponseOf(IncluReachJobs.CreateJob(body, caller, reply, now))));
            !RedBanner(shown) && !YellowBanner(shown)
    ensures var shown := Shown(SubmitOutcome(ResponseOf(AbilityLinkJobs.CreateJob(body, caller, reply, now))));
            !RedBanner(shown) && !YellowBanner(shown)
  {
    IncluReachSubmitOutcome(body, caller, reply, now);
    AbilityLinkScamToast(body, caller, reply, now);
  }

  // ---------------------------------------------------------------------
  // The abilitylink page

  /** The abilitylink page goes to the job list after any 2xx answer and
      stays on the form otherwise. */
  function Navigates(resp: Response): (b: bool)
    ensures b <==> !resp.Failed?
  {
    resp.Answered?
  }

  /** It leaves the form exactly when the job was stored, whether as
      "active" or as "pending". */
  lemma AbilityLinkNavigatesIffStored(body: Obj, caller: Id, reply: AssessorReply, now: Time)
    ensures var r := AbilityLinkJobs.CreateJob(body, caller, reply, now);
            Navigates(ResponseOf(r)) <==> r.Stored?
  {
  }
}
