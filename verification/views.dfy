/** The salary text the job pages show: `formatSalary`, of which the job
    detail, applications, job list and selected-jobs pages each hold an
    identical copy, the payment-frequency label, and the conditional slot
    in which a salary appears on a card. */
module SalaryView {
  import opened Seqs
  import opened Text
  import opened Js
  import IncluReachJobs

  /** `currencySymbols`. */
  const CurrencySymbols: Obj := [("USD", Str("$")), ("EUR", Str("€")), ("GBP", Str("£")), ("INR", Str("₹"))]
  /** `periodText`. */
  const PeriodSuffixes: Obj :=
    [("hour", Str("/hr")), ("day", Str("/day")), ("week", Str("/wk")), ("month", Str("/mo")), ("year", Str("/yr"))]

  /** `currencySymbols[currency] || currency`, as printed in the template. */
  function Symbol(currency: Value): (r: string)
    ensures !HasKey(CurrencySymbols, ToJsString(currency)) ==> r == ToJsString(currency)
  {
    var s := Get(CurrencySymbols, ToJsString(currency));
    if Truthy(s) then ToJsString(s) else ToJsString(currency)
  }

  /** `periodText[period] || ""`. */
  function Suffix(period: Value): (r: string)
    ensures !HasKey(PeriodSuffixes, ToJsString(period)) ==> r == ""
  {
    var s := Get(PeriodSuffixes, ToJsString(period));
    if Truthy(s) then ToJsString(s) else ""
  }

  lemma SymbolKeysDistinct()
    ensures DistinctKeys(CurrencySymbols)
  {
    forall i, j | 0 <= i < j < |CurrencySymbols| ensures CurrencySymbols[i].0 != CurrencySymbols[j].0 {
      assert CurrencySymbols[i].0[0] != CurrencySymbols[j].0[0];
    }
  }

  /** Each currency of the table prints its sign. */
  lemma KnownSymbol(i: nat)
    requires i < |CurrencySymbols|
    ensures Symbol(Str(CurrencySymbols[i].0)) == CurrencySymbols[i].1.s
  {
    SymbolKeysDistinct();
  }

  /** The four known currencies print their sign. */
  lemma KnownSymbols()
    ensures Symbol(Str("USD")) == "$" && Symbol(Str("EUR")) == "€"
    ensures Symbol(Str("GBP")) == "£" && Symbol(Str("INR")) == "₹"
  {
    KnownSymbol(0);
    KnownSymbol(1);
    KnownSymbol(2);
    KnownSymbol(3);
  }

  /** Any other currency prints as its code, and a missing one as
      "undefined". */
  lemma UnknownSymbol(currency: Value)
    requires ToJsString(currency) !in ["USD", "EUR", "GBP", "INR"]
    ensures Symbol(currency) == ToJsString(currency)
    ensures currency == Undefined ==> Symbol(currency) == "undefined"
  {
    HasKeyIffListed(CurrencySymbols, ToJsString(currency));
    assert Keys(CurrencySymbols) == ["USD", "EUR", "GBP", "INR"];
  }

  lemma SuffixKeysDistinct()
    ensures DistinctKeys(PeriodSuffixes)
  {
    forall i, j | 0 <= i < j < |PeriodSuffixes| ensures PeriodSuffixes[i].0 != PeriodSuffixes[j].0 {
      assert PeriodSuffixes[i].0[0] != PeriodSuffixes[j].0[0];
    }
  }

  /** Each period of the table prints its abbreviation. */
  lemma KnownSuffix(i: nat)
    requires i < |PeriodSuffixes|
    ensures Suffix(Str(PeriodSuffixes[i].0)) == PeriodSuffixes[i].1.s
  {
    SuffixKeysDistinct();
  }

  /** The five known periods print their abbreviation. */
  lemma KnownSuffixes()
    ensures Suffix(Str("hour")) == "/hr" && Suffix(Str("day")) == "/day" && Suffix(Str("week")) == "/wk"
    ensures Suffix(Str("month")) == "/mo" && Suffix(Str("year")) == "/yr"
  {
    KnownSuffix(0);
    KnownSuffix(1);
    KnownSuffix(2);
    KnownSuffix(3);
    KnownSuffix(4);
  }

  /** Any other period adds nothing. */
  lemma UnknownSuffix(period: Value)
    requires ToJsString(period) !in ["hour", "day", "week", "month", "year"]
    ensures Suffix(period) == ""
  {
    HasKeyIffListed(PeriodSuffixes, ToJsString(period));
    assert Keys(PeriodSuffixes) == ["hour", "day", "week", "month", "year"];
  }

  /** `formatSalary`: nothing unless the amount and the public flag are
      both truthy; otherwise the currency sign or code, the amount and the
      period abbreviation, run together. */
  function FormatSalary(salary: Value): (r: Option<string>)
    ensures r.None? <==> !Truthy(Member(salary, "amount")) || !Truthy(Member(salary, "isPublic"))
    ensures r.Some? ==>
              r.value == Symbol(Member(salary, "currency")) + ToJsString(Member(salary, "amount")) + Suffix(Member(salary, "period"))
  {
    var amount := Member(salary, "amount");
    if !Truthy(amount) || !Truthy(Member(salary, "isPublic")) then None
    else Some(Symbol(Member(salary, "currency")) + ToJsString(amount) + Suffix(Member(salary, "period")))
  }

  /** A salary `createJob` normalised shows exactly when its amount is not
      zero and it is public; a posting sent without any salary shows none. */
  lemma NormalizedSalaryShown(body: Obj)
    ensures var s := IncluReachJobs.NormalizeSalary(body);
            FormatSalary(IncluReachJobs.SalaryObject(s)).Some? <==> s.amount != 0 && s.isPublic
    ensures Get(body, "salary") == Undefined ==>
              FormatSalary(IncluReachJobs.SalaryObject(IncluReachJobs.NormalizeSalary(body))).None?
  {
    IncluReachJobs.SalaryObjectFields(IncluReachJobs.NormalizeSalary(body));
  }

  /** The "Payment Frequency" label: hour, day, week and month have their
      own word; anything else reads "Yearly". */
  function FrequencyLabel(period: Value): (r: string)
    ensures r in ["Hourly", "Daily", "Weekly", "Monthly", "Yearly"]
  {
    if period == Str("hour") then "Hourly"
    else if period == Str("day") then "Daily"
    else if period == Str("week") then "Weekly"
    else if period == Str("month") then "Monthly"
    else "Yearly"
  }

  /** The label and the abbreviation describe the same period for the five
      known ones, but a period outside the table is labelled "Yearly" while
      the amount carries no abbreviation. */
  lemma LabelAndSuffixAgree(period: Value)
    ensures period == Str("hour") ==> FrequencyLabel(period) == "Hourly" && Suffix(period) == "/hr"
    ensures period == Str("day") ==> FrequencyLabel(period) == "Daily" && Suffix(period) == "/day"
    ensures period == Str("week") ==> FrequencyLabel(period) == "Weekly" && Suffix(period) == "/wk"
    ensures period == Str("month") ==> FrequencyLabel(period) == "Monthly" && Suffix(period) == "/mo"
    ensures period == Str("year") ==> FrequencyLabel(period) == "Yearly" && Suffix(period) == "/yr"
    ensures period.Str? && period.s !in ["hour", "day", "week", "month", "year"] ==>
              FrequencyLabel(period) == "Yearly" && Suffix(period) == ""
  {
    KnownSuffixes();
    if period.Str? && period.s !in ["hour", "day", "week", "month", "year"] {
      UnknownSuffix(period);
    }
  }

  // ---------------------------------------------------------------------
  // The salary slot on a card

  /** What a card renders in the salary slot. */
  datatype Rendered = Nothing | Text(s: string) | SalaryBlock(text: Option<string>)

  /** React renders a falsy child as nothing, except the number 0, which it
      prints. */
  function RenderFalsy(v: Value): Rendered
  {
    if v == Num(0) then Text("0") else Nothing
  }

  /** `first && second && <block>`, as the cards write the condition. */
  function SlotAsWritten(first: Value, second: Value, salary: Value): (r: Rendered)
    ensures r.SalaryBlock? <==> Truthy(first) && Truthy(second)
  {
    if !Truthy(first) then RenderFalsy(first)
    else if !Truthy(second) then RenderFalsy(second)
    else SalaryBlock(FormatSalary(salary))
  }

  /** The job list's slot tests the public flag first. */
  function ListSlotAsWritten(salary: Value): Rendered
  {
    SlotAsWritten(Member(salary, "isPublic"), Member(salary, "amount"), salary)
  }

  /** The applications and selected-jobs cards test the amount first. */
  function CardSlotAsWritten(salary: Value): Rendered
  {
    SlotAsWritten(Member(salary, "amount"), Member(salary, "isPublic"), salary)
  }

  /** A posting created without a salary is stored with a public amount of
      0, and the job list, which receives whole job documents, prints a bare
      "0" where the salary would be. The applications and selected-jobs
      cards test the same operands and would print "0" too, but the
      handlers that feed them send no salary. */
  lemma ZeroAmountRendersZero(body: Obj)
    requires Get(body, "salary") == Undefined
    ensures ListSlotAsWritten(IncluReachJobs.SalaryObject(IncluReachJobs.NormalizeSalary(body))) == Text("0")
    ensures CardSlotAsWritten(IncluReachJobs.SalaryObject(IncluReachJobs.NormalizeSalary(body))) == Text("0")
  {
    IncluReachJobs.SalaryObjectFields(IncluReachJobs.NormalizeSalary(body));
  }

  /** The slot as intended: the salary block when the amount and the
      public flag both hold, nothing otherwise. */
  function SalarySlot(salary: Value): (r: Rendered)
    ensures r != Nothing <==> Truthy(Member(salary, "amount")) && Truthy(Member(salary, "isPublic"))
    ensures r != Nothing ==> r == SalaryBlock(FormatSalary(salary)) && FormatSalary(salary).Some?
    ensures !r.Text?
  {
    if Truthy(Member(salary, "amount")) && Truthy(Member(salary, "isPublic")) then SalaryBlock(FormatSalary(salary))
    else Nothing
  }

  /** The written slots agree with the intended one except when the falsy
      operand is the number 0. */
  lemma SlotsAgreeExceptZero(salary: Value)
    requires Member(salary, "amount") != Num(0) && Member(salary, "isPublic") != Num(0)
    ensures ListSlotAsWritten(salary) == SalarySlot(salary)
    ensures CardSlotAsWritten(salary) == SalarySlot(salary)
  {
  }
}

/** The display logic of the IncluReach pages: the dashboard's count and
    completion normalisation, the applications list, the job list and the
    selected-jobs cards. */
module Pages {
  import opened Seqs
  import opened Text
  import opened Js
  import opened Schema
  import opened SalaryView
  import Dashboard

  // ---------------------------------------------------------------------
  // Dashboard

  /** `Number.isInteger(data.count) ? data.count : Array.isArray(data[list])
      ? data[list].length : 0`. */
  function CountOf(data: Value, list: string): (r: int)
    ensures Member(data, "count").Num? ==> r == Member(data, "count").n
    ensures !Member(data, "count").Num? && Member(data, list).Arr? ==> r == |Member(data, list).items|
    ensures !Member(data, "count").Num? && !Member(data, list).Arr? ==> r == 0
  {
    var c := Member(data, "count");
    if c.Num? then c.n
    else
      var l := Member(data, list);
      if l.Arr? then |l.items| else 0
  }

  /** The applications endpoint answers with a bare array, which has neither
      a count nor an `applications` member: the card always shows 0. */
  lemma BareArrayCountsZero(apps: seq<Value>)
    ensures CountOf(Arr(apps), "applications") == 0
  {
  }

  /** The selected-jobs answer `{ success, count, data }`. */
  function SelectedResponse(count: nat, items: seq<Value>): Value
  {
    Object([("success", Bool(true)), ("count", Num(count)), ("data", Arr(items))])
  }

  /** The selected-jobs card shows the number of jobs `getSelectedJobs`
      found. */
  lemma SelectedCountShown(jobs: seq<Job>, me: Id, items: seq<Value>)
    ensures CountOf(SelectedResponse(Dashboard.GetSelectedJobs(jobs, me).0, items), "jobs")
            == |Dashboard.GetSelectedJobs(jobs, me).1|
  {
    var fields := [("success", Bool(true)), ("count", Num(Dashboard.GetSelectedJobs(jobs, me).0)), ("data", Arr(items))];
    KeyIndexIs(fields, "count", 1);
  }

  /** `Number(x) || 0`: anything that is not a number, or is 0, shows 0. */
  function Completion(v: Value): (r: int)
    ensures ToNumber(v).None? ==> r == 0
    ensures ToNumber(v).Some? ==> r == ToNumber(v).value
  {
    match ToNumber(v)
    case None => 0
    case Some(n) => if n != 0 then n else 0
  }

  /** "View Profile" replaces "Complete Profile" at exactly 100. */
  predicate ViewProfileShown(completion: int)
  {
    completion == 100
  }

  /** Against the dashboard handler the card shows the handler's
      percentage, and offers "View Profile" exactly when the type, the
      severity, the skills and the resume are all filled in. */
  lemma CompletionCardAgrees(profile: Obj)
    ensures Completion(Num(Dashboard.ProfileCompletion(profile))) == Dashboard.ProfileCompletion(profile)
    ensures ViewProfileShown(Completion(Num(Dashboard.ProfileCompletion(profile)))) <==>
              && Truthy(Get(profile, "disabilityType"))
              && Truthy(Get(profile, "disabilitySeverity"))
              && Dashboard.SkillsNonEmpty(Get(profile, "skills"))
              && Truthy(Get(profile, "resumeFile"))
  {
  }

  /** `Array.isArray(log) ? log : []`, of which the first five are listed. */
  function RecentActivity(log: Value): (r: seq<Value>)
    ensures |r| <= 5
    ensures log.Arr? ==> r == Take(log.items, 5)
    ensures !log.Arr? ==> r == []
  {
    if log.Arr? then Take(log.items, 5) else []
  }

  /** The handler already sends at most five entries, so the page lists
      every one of them. */
  lemma WindowListedWhole(entries: seq<Value>)
    requires |entries| <= 5
    ensures RecentActivity(Arr(entries)) == entries
  {
  }

  // ---------------------------------------------------------------------
  // Applications

  /** `data.filter(app => app.job !== null)`: only a job that is exactly
      null is dropped. */
  function VisibleApplications(apps: seq<Value>): (r: seq<Value>)
    ensures forall i :: 0 <= i < |r| ==> r[i] in apps && Member(r[i], "job") != Null
    ensures forall a :: a in apps && Member(a, "job") != Null ==> a in r
  {
    Filter(apps, (a: Value) => Member(a, "job") != Null)
  }

  /** Filtering twice drops nothing more, and an application whose job
      was deleted disappears while one with the job missing altogether
      stays. */
  lemma VisibleApplicationsStable(apps: seq<Value>)
    ensures VisibleApplications(VisibleApplications(apps)) == VisibleApplications(apps)
    ensures forall a :: a in apps && Member(a, "job") == Null ==> a !in VisibleApplications(apps)
  {
    var r := VisibleApplications(apps);
    FilterKeepsAll(r, (a: Value) => Member(a, "job") != Null);
  }

  /** The status badge colours. */
  datatype Badge = Blue | Yellow | Green | Red

  /** "Applied" is blue, "Interview" yellow, "Offer" green, anything else
      red; a falsy status gets no badge. */
  function StatusBadge(status: Value): (r: Option<Badge>)
    ensures r.None? <==> !Truthy(status)
    ensures r.Some? && r.value != Red ==> status in [Str("Applied"), Str("Interview"), Str("Offer")]
  {
    if !Truthy(status) then None
    else if status == Str("Applied") then Some(Blue)
    else if status == Str("Interview") then Some(Yellow)
    else if status == Str("Offer") then Some(Green)
    else Some(Red)
  }

  /** Among the statuses an application can have, the badge tells each
      apart, with "Rejected" the only red one. */
  lemma BadgesTellStatusesApart(s: string, t: string)
    requires s in ApplicationStatuses && t in ApplicationStatuses
    ensures StatusBadge(Str(s)) == StatusBadge(Str(t)) <==> s == t
    ensures StatusBadge(Str(s)) == Some(Red) <==> s == "Rejected"
  {
    assert ApplicationStatuses == ["Applied", "Interview", "Rejected", "Offer"];
    assert "Applied"[0] == 'A' && "Interview"[0] == 'I' && "Rejected"[0] == 'R' && "Offer"[0] == 'O';
  }

  // ---------------------------------------------------------------------
  // Job list

  datatype ListView = LoadingView | ErrorView(message: string) | EmptyView | Cards(jobs: seq<Value>)

  /** The job list's early returns: loading, then error, then empty. */
  function JobListView(loading: bool, error: Option<string>, jobs: seq<Value>): (v: ListView)
    ensures v.Cards? <==> !loading && error.None? && |jobs| > 0
    ensures v.Cards? ==> v.jobs == jobs
    ensures loading ==> v == LoadingView
    ensures !loading && error.Some? ==> v == ErrorView(error.value)
  {
    if loading then LoadingView
    else if error.Some? then ErrorView(error.value)
    else if |jobs| == 0 then EmptyView
    else Cards(jobs)
  }

  /** `skills?.slice(0, 3)`: at most the first three; a missing list shows
      none. */
  function ShownSkills(skills: Value): (r: seq<Value>)
    ensures |r| <= 3
    ensures skills.Arr? ==> r <= skills.items && (|skills.items| <= 3 ==> r == skills.items)
    ensures !skills.Arr? ==> r == []
  {
    if skills.Arr? then Take(skills.items, 3) else []
  }

  // ---------------------------------------------------------------------
  // Selected jobs

  /** `jobApp.jobId || jobApp`. */
  function JobOf(jobApp: Value): (r: Value)
    ensures Truthy(Member(jobApp, "jobId")) ==> r == Member(jobApp, "jobId")
    ensures !Truthy(Member(jobApp, "jobId")) ==> r == jobApp
  {
    var j := Member(jobApp, "jobId");
    if Truthy(j) then j else jobApp
  }

  /** `job.postedBy || {}`. */
  function PosterOf(job: Value): (r: Value)
    ensures Truthy(r)
    ensures Truthy(Member(job, "postedBy")) ==> r == Member(job, "postedBy")
  {
    var p := Member(job, "postedBy");
    if Truthy(p) then p else Object([])
  }

  /** `jobApp.updatedAt || jobApp.acceptedAt`, handed to `new Date`. */
  function DateShown(jobApp: Value): (r: Value)
    ensures Truthy(Member(jobApp, "updatedAt")) ==> r == Member(jobApp, "updatedAt")
    ensures !Truthy(Member(jobApp, "updatedAt")) ==> r == Member(jobApp, "acceptedAt")
  {
    var u := Member(jobApp, "updatedAt");
    if Truthy(u) then u else Member(jobApp, "acceptedAt")
  }

  const SelectedItemKeys: seq<string> := ["_id", "jobId", "status", "appliedDate", "updates"]
  const SelectedJobKeys: seq<string> :=
    ["_id", "title", "company", "location", "remote", "description", "disabilityTypes", "createdAt", "postedBy"]

  /** An item as `getSelectedJobs` builds it: its own five properties, and
      a job holding only the nine selected fields. */
  predicate SelectedShape(item: Value)
  {
    && item.Object? && Keys(item.fields) == SelectedItemKeys
    && Member(item, "jobId").Object? && Keys(Member(item, "jobId").fields) == SelectedJobKeys
  }

  /** For every item the handler sends, the card reads the nested job, but
      the selection date it prints is taken from two properties the item
      does not have, and the job carries neither a salary nor skills, so
      neither is shown. */
  lemma SelectedCardsAgainstHandler(item: Value)
    requires SelectedShape(item)
    ensures JobOf(item) == Member(item, "jobId")
    ensures DateShown(item) == Undefined
    ensures SalarySlot(Member(JobOf(item), "salary")) == Nothing
    ensures ShownSkills(Member(JobOf(item), "skills")) == []
  {
    var job := Member(item, "jobId");
    HasKeyIffListed(item.fields, "updatedAt");
    HasKeyIffListed(item.fields, "acceptedAt");
    HasKeyIffListed(job.fields, "salary");
    HasKeyIffListed(job.fields, "skills");
    assert "salary" !in SelectedJobKeys by {
      assert "salary"[0] == 's' && "remote"[0] == 'r';
    }
    assert "skills" !in SelectedJobKeys by {
      assert "skills"[0] == 's' && "remote"[0] == 'r';
    }
  }
}
