/** The job-posting verifier of the IncluReach backend (`verifyJobPosting`).

    Three fixed text rules are run over the posting's title concatenated with
    its description. When one fires, the posting is declared a scam without
    consulting the generative model. Otherwise a prompt is built and the
    model's reply decides between "valid" and "needs review". Any failure
    while building the prompt or asking the model yields a permissive
    fallback.

    The rules are case-insensitive regular expressions without the `u` flag,
    whose case folding only identifies ASCII letters with their upper-case
    forms. They are matched here against the ASCII-lower-cased text, which
    for these all-lower-case patterns decides exactly the same thing. */
module Verifier {
  import opened Seqs
  import opened Text
  import opened Js

  /** The request-body fields the verifier reads. */
  datatype Posting = Posting(title: Value, company: Value, description: Value, requirements: Value)

  /** What the generative model gave back: its reply text, or a failure
      (network error, refusal, malformed response). */
  datatype AssessorReply = AssessorFailed | Reply(text: string)

  datatype Verdict = Verdict(isValid: bool, riskScore: int, redFlags: seq<string>, suggestions: seq<string>)

  /** The values interpolated into the prompt sent to the model. */
  datatype Prompt = Prompt(title: string, company: string, description: string, requirements: string)

  /** `Threw`: the promise rejects (the guard of the third rule raised a
      TypeError outside the `try`). `asked` is the prompt, when one was sent. */
  datatype Outcome = Threw | Returned(verdict: Verdict, asked: Option<Prompt>)

  // ---------------------------------------------------------------------
  // Character classes and pattern pieces

  predicate IsDigit(c: char) { '0' <= c <= '9' }

  predicate DigitOrComma(c: char) { IsDigit(c) || c == ',' }

  /** The characters `.` does not match. */
  predicate LineTerminator(c: char)
  {
    c == '\n' || c == '\r' || c == '\U{2028}' || c == '\U{2029}'
  }

  /** `(week|month|hour)` at `j`. */
  predicate UnitAt(h: string, j: int)
  {
    OccursAt(h, "week", j) || OccursAt(h, "month", j) || OccursAt(h, "hour", j)
  }

  /** `\/?(week|month|hour)` at `j`. */
  predicate SuffixAt(h: string, j: int)
  {
    UnitAt(h, j) || (0 <= j < |h| && h[j] == '/' && UnitAt(h, j + 1))
  }

  /** What follows the `.*` of a rule, or stands alone. */
  datatype Probe =
    | Lit(word: string)   // a literal word
    | DollarDigit         // `\$\d+`
    | DollarPeriod        // `\$[0-9,]+\/?(week|month|hour)`

  /** Reference meaning: the probe matches a piece of `h` starting at `k`. */
  ghost predicate ProbeSpec(h: string, p: Probe, k: nat)
  {
    match p
    case Lit(w) => OccursAt(h, w, k)
    case DollarDigit => k + 1 < |h| && h[k] == '$' && IsDigit(h[k + 1])
    case DollarPeriod =>
      k < |h| && h[k] == '$'
      && exists j :: k + 1 < j <= |h| && (forall m :: k + 1 <= m < j ==> DigitOrComma(h[m])) && SuffixAt(h, j)
  }

  /** End of the run of digits and commas starting at `j`. */
  function RunEnd(h: string, j: nat): (e: nat)
    requires j <= |h|
    ensures j <= e <= |h|
    ensures forall m :: j <= m < e ==> DigitOrComma(h[m])
    ensures e < |h| ==> !DigitOrComma(h[e])
    decreases |h| - j
  {
    if j == |h| || !DigitOrComma(h[j]) then j else RunEnd(h, j + 1)
  }

  /** A unit suffix never starts with a digit or a comma. */
  lemma SuffixStart(h: string, j: int)
    requires SuffixAt(h, j)
    ensures 0 <= j < |h| && !DigitOrComma(h[j])
  {
    if OccursAt(h, "week", j) {
      assert h[j..j + 4][0] == h[j];
    } else if OccursAt(h, "month", j) {
      assert h[j..j + 5][0] == h[j];
    } else if OccursAt(h, "hour", j) {
      assert h[j..j + 4][0] == h[j];
    }
  }

  /** The digit run before the suffix can only be the longest one, so the
      regex's backtracking never needs to try a shorter run. */
  lemma DollarPeriodAtRunEnd(h: string, k: nat)
    requires k < |h| && h[k] == '$'
    ensures ProbeSpec(h, DollarPeriod, k) <==> (RunEnd(h, k + 1) > k + 1 && SuffixAt(h, RunEnd(h, k + 1)))
  {
    var e := RunEnd(h, k + 1);
    if ProbeSpec(h, DollarPeriod, k) {
      var j :| k + 1 < j <= |h| && (forall m :: k + 1 <= m < j ==> DigitOrComma(h[m])) && SuffixAt(h, j);
      SuffixStart(h, j);
      assert j == e;
    }
  }

  /** Executable test of one probe at one position. */
  function ProbeAt(h: string, p: Probe, k: nat): (r: bool)
    ensures r <==> ProbeSpec(h, p, k)
    ensures r ==> k <= |h|
  {
    match p
    case Lit(w) => k + |w| <= |h| && h[k..k + |w|] == w
    case DollarDigit => k + 1 < |h| && h[k] == '$' && IsDigit(h[k + 1])
    case DollarPeriod =>
      if k < |h| && h[k] == '$' then
        DollarPeriodAtRunEnd(h, k);
        var e := RunEnd(h, k + 1);
        e > k + 1 && SuffixAt(h, e)
      else false
  }

  /** Whether the probe matches at some start in `[lo, hi)`. */
  function ProbeIn(h: string, p: Probe, lo: nat, hi: nat): (r: bool)
    ensures r <==> exists k: nat :: lo <= k < hi && ProbeSpec(h, p, k)
    decreases hi - lo
  {
    if lo >= hi then false
    else ProbeAt(h, p, lo) || ProbeIn(h, p, lo + 1, hi)
  }

  /** Reference meaning of a standalone pattern: it matches somewhere. */
  ghost predicate Somewhere(h: string, p: Probe)
  {
    exists k: nat :: ProbeSpec(h, p, k)
  }

  function FindProbe(h: string, p: Probe): (r: bool)
    ensures r <==> Somewhere(h, p)
  {
    var r := ProbeIn(h, p, 0, |h| + 1);
    assert Somewhere(h, p) ==> r by {
      if Somewhere(h, p) {
        var k: nat :| ProbeSpec(h, p, k);
        assert ProbeAt(h, p, k);
      }
    }
    r
  }

  /** `a.*p` with the word `a` at `i` and the probe at `k`: no line
      terminator lies between them. */
  ghost predicate LaterAt(h: string, a: string, p: Probe, i: nat, k: nat)
  {
    OccursAt(h, a, i) && i + |a| <= k <= |h| && ProbeSpec(h, p, k)
    && forall m :: i + |a| <= m < k ==> !LineTerminator(h[m])
  }

  /** Reference meaning of `a.*p`: it matches somewhere. */
  ghost predicate Later(h: string, a: string, p: Probe)
  {
    exists i: nat, k: nat :: LaterAt(h, a, p, i, k)
  }

  /** First line terminator at or after `j`, or the end of `h`. */
  function LineEnd(h: string, j: nat): (e: nat)
    requires j <= |h|
    ensures j <= e <= |h|
    ensures forall m :: j <= m < e ==> !LineTerminator(h[m])
    ensures e < |h| ==> LineTerminator(h[e])
    decreases |h| - j
  {
    if j == |h| || LineTerminator(h[j]) then j else LineEnd(h, j + 1)
  }

  /** With the word at `i`, `.*` can reach exactly the starts up to the end
      of the line. */
  lemma LaterAtLine(h: string, a: string, p: Probe, i: nat)
    ensures OccursAt(h, a, i) ==>
              ((exists k: nat :: LaterAt(h, a, p, i, k))
               <==> ProbeIn(h, p, i + |a|, LineEnd(h, i + |a|) + 1))
  {
    if !OccursAt(h, a, i) {
      return;
    }
    var e := LineEnd(h, i + |a|);
    if exists k: nat :: LaterAt(h, a, p, i, k) {
      var k: nat :| LaterAt(h, a, p, i, k);
      assert i + |a| <= k < e + 1 && ProbeSpec(h, p, k);
    }
    if ProbeIn(h, p, i + |a|, e + 1) {
      var k: nat :| i + |a| <= k < e + 1 && ProbeSpec(h, p, k);
      assert ProbeAt(h, p, k);
      assert LaterAt(h, a, p, i, k);
    }
  }

  /** Whether `a.*p` matches with the word at some `i' >= i`. */
  function LaterFrom(h: string, a: string, p: Probe, i: nat): (r: bool)
    ensures r <==> exists i': nat, k: nat :: i <= i' && LaterAt(h, a, p, i', k)
    decreases |h| + 1 - i
  {
    if i > |h| then false
    else
      var here := OccursAt(h, a, i) && ProbeIn(h, p, i + |a|, LineEnd(h, i + |a|) + 1);
      LaterAtLine(h, a, p, i);
      assert here <==> exists k: nat :: LaterAt(h, a, p, i, k);
      var rest := LaterFrom(h, a, p, i + 1);
      assert (exists i': nat, k: nat :: i <= i' && LaterAt(h, a, p, i', k))
             <==> (exists k: nat :: LaterAt(h, a, p, i, k))
                  || (exists i': nat, k: nat :: i + 1 <= i' && LaterAt(h, a, p, i', k));
      here || rest
  }

  function FindLater(h: string, a: string, p: Probe): (r: bool)
    ensures r <==> Later(h, a, p)
  {
    LaterFrom(h, a, p, 0)
  }

  // ---------------------------------------------------------------------
  // The three rules

  datatype Rule = SalaryRule | PaymentRule | RequirementsRule

  /** Rule order, as the rules are listed and reported. */
  function Rank(r: Rule): nat
  {
    match r
    case SalaryRule => 0
    case PaymentRule => 1
    case RequirementsRule => 2
  }

  const SalaryReason := "Unrealistic salary claims"
  const PaymentReason := "Requests for payment"
  const RequirementsReason := "Lack of requirements for professional position"

  function Reason(r: Rule): string
  {
    match r
    case SalaryRule => SalaryReason
    case PaymentRule => PaymentReason
    case RequirementsRule => RequirementsReason
  }

  /** Position of a reason in rule order; 3 for any other string. */
  function ReasonRank(s: string): (n: nat)
    ensures n <= 3
    ensures forall r :: s == Reason(r) ==> n == Rank(r)
    ensures n < 3 ==> s == Reason(RuleAt(n))
  {
    if s == SalaryReason then 0
    else if s == PaymentReason then 1
    else if s == RequirementsReason then 2
    else 3
  }

  function RuleAt(n: nat): Rule
    requires n < 3
  {
    if n == 0 then SalaryRule else if n == 1 then PaymentRule else RequirementsRule
  }

  /** Reference meaning of each rule's regular expression over the
      lower-cased text:
        salary:       `(\$[0-9,]+\/?(week|month|hour))|(earn.*\$\d+)`
        payment:      `(pay.*upfront)|(starter.*kit)|(investment required)`
        requirements: `(no experience needed)|(no qualifications)` */
  ghost predicate PatternMatches(h: string, r: Rule)
  {
    match r
    case SalaryRule => Somewhere(h, DollarPeriod) || Later(h, "earn", DollarDigit)
    case PaymentRule =>
      Later(h, "pay", Lit("upfront")) || Later(h, "starter", Lit("kit"))
      || Somewhere(h, Lit("investment required"))
    case RequirementsRule =>
      Somewhere(h, Lit("no experience needed")) || Somewhere(h, Lit("no qualifications"))
  }

  function TestPattern(h: string, r: Rule): (b: bool)
    ensures b <==> PatternMatches(h, r)
  {
    match r
    case SalaryRule => FindProbe(h, DollarPeriod) || FindLater(h, "earn", DollarDigit)
    case PaymentRule =>
      FindLater(h, "pay", Lit("upfront")) || FindLater(h, "starter", Lit("kit"))
      || FindProbe(h, Lit("investment required"))
    case RequirementsRule =>
      FindProbe(h, Lit("no experience needed")) || FindProbe(h, Lit("no qualifications"))
  }

  /** The text the rules are run on: `title + description`, with no
      separator, lower-cased. */
  function Haystack(p: Posting): string
  {
    Lower(PlusString(p.title, p.description))
  }

  /** The internship exemption of the third rule, `!title.includes("Intern")`:
      a case-sensitive substring test on a string title, an element test on
      an array title, and a TypeError (`None`) for anything else. */
  function InternGuard(title: Value): (r: Option<bool>)
    ensures r.None? <==> !(title.Str? || title.Arr?)
    ensures title.Str? ==> r == Some(!Contains(title.s, "Intern"))
    ensures title.Arr? ==> r == Some(Str("Intern") !in title.items)
  {
    match title
    case Str(s) => Some(!Includes(s, "Intern"))
    case Arr(items) => Some(Str("Intern") !in items)
    case _ => None
  }

  /** Reference meaning of "the rule fires", for postings whose guard does
      not raise. */
  ghost predicate Fires(p: Posting, r: Rule)
  {
    PatternMatches(Haystack(p), r)
    && (r == RequirementsRule ==> InternGuard(p.title) == Some(true))
  }

  /** The guard is only evaluated once the third pattern has matched; it
      raises for titles that are neither strings nor arrays. */
  ghost predicate GuardRaises(p: Posting)
  {
    PatternMatches(Haystack(p), RequirementsRule) && InternGuard(p.title).None?
  }

  /** The reasons for a choice of fired rules, in rule order. */
  function ReasonsOf(salary: bool, payment: bool, requirements: bool): (r: seq<string>)
    ensures Reason(SalaryRule) in r <==> salary
    ensures Reason(PaymentRule) in r <==> payment
    ensures Reason(RequirementsRule) in r <==> requirements
    ensures r == [] <==> !salary && !payment && !requirements
    ensures forall i :: 0 <= i < |r| ==> ReasonRank(r[i]) < 3
    ensures forall i, j :: 0 <= i < j < |r| ==> ReasonRank(r[i]) < ReasonRank(r[j])
  {
    (if salary then [SalaryReason] else [])
    + (if payment then [PaymentReason] else [])
    + (if requirements then [RequirementsReason] else [])
  }

  /** The reasons of the fired rules, in rule order and each at most once,
      or `None` when the guard raises. */
  function Flags(p: Posting): (r: Option<seq<string>>)
    ensures r.None? <==> GuardRaises(p)
    ensures r.Some? ==> (SalaryReason in r.value <==> Fires(p, SalaryRule))
    ensures r.Some? ==> (PaymentReason in r.value <==> Fires(p, PaymentRule))
    ensures r.Some? ==> (RequirementsReason in r.value <==> Fires(p, RequirementsRule))
    ensures r.Some? ==> (r.value == [] <==> forall rule :: !Fires(p, rule))
    ensures r.Some? ==> forall i :: 0 <= i < |r.value| ==> ReasonRank(r.value[i]) < 3
    ensures r.Some? ==> forall i, j :: 0 <= i < j < |r.value| ==> ReasonRank(r.value[i]) < ReasonRank(r.value[j])
  {
    var h := Haystack(p);
    var salary := TestPattern(h, SalaryRule);
    var payment := TestPattern(h, PaymentRule);
    assert salary <==> Fires(p, SalaryRule);
    assert payment <==> Fires(p, PaymentRule);
    if TestPattern(h, RequirementsRule) then
      match InternGuard(p.title)
      case None => None
      case Some(notExempt) =>
        assert notExempt <==> Fires(p, RequirementsRule);
        Some(ReasonsOf(salary, payment, notExempt))
    else
      assert !Fires(p, RequirementsRule);
      Some(ReasonsOf(salary, payment, false))
  }

  // ---------------------------------------------------------------------
  // Prompt, reply and fallback

  /** `requirements?.join(", ") || "None"`: an array is joined (null and
      undefined elements render empty), an empty join and a missing value
      give "None", and anything else has no `join` and raises. */
  function RequirementsLine(v: Value): (r: Option<string>)
    ensures (v.Undefined? || v.Null?) ==> r == Some("None")
    ensures v.Arr? ==> r.Some? && r.value != ""
    ensures v.Arr? && |v.items| == 0 ==> r == Some("None")
    ensures !(v.Undefined? || v.Null? || v.Arr?) ==> r.None?
  {
    match v
    case Undefined => Some("None")
    case Null => Some("None")
    case Arr(items) =>
      var joined := JoinValues(items, ", ");
      Some(if joined == "" then "None" else joined)
    case _ => None
  }

  /** The prompt's values; `None` when building it raises, which happens when
      the description is not a string (no `substring`) or the requirements
      are neither missing nor an array. */
  function BuildPrompt(p: Posting): (r: Option<Prompt>)
    ensures r.Some? <==> p.description.Str? && RequirementsLine(p.requirements).Some?
    ensures r.Some? ==> r.value.description <= p.description.s && |r.value.description| <= 200
    ensures r.Some? && |p.description.s| <= 200 ==> r.value.description == p.description.s
    ensures r.Some? && |p.description.s| > 200 ==> |r.value.description| == 200
    ensures r.Some? ==> r.value.title == ToJsString(p.title) && r.value.company == ToJsString(p.company)
  {
    match p.description
    case Str(d) =>
      (match RequirementsLine(p.requirements)
       case Some(req) => Some(Prompt(ToJsString(p.title), ToJsString(p.company), Take(d, 200), req))
       case None => None)
    case _ => None
  }

  const ScamSuggestion := "This appears to be a scam"
  const ReviewFlag := "Potential scam indicators found"
  const ReviewSuggestion := "Please review job details carefully"

  /** The verdict returned when the model cannot be used. */
  const Fallback := Verdict(true, 30, ["Verification system unavailable"], ["Job requires manual review"])

  /** The verdict for a posting some rule flagged. */
  function ScamVerdict(flags: seq<string>): Verdict
  {
    Verdict(false, 100, flags, [ScamSuggestion])
  }

  /** The verdict read from the model's reply: valid exactly when the
      lower-cased, trimmed reply mentions "true". */
  function ReadReply(text: string): (v: Verdict)
    ensures v.isValid <==> Contains(Trim(Lower(text)), "true")
    ensures v.isValid <==> Contains(Lower(text), "true")
    ensures v.isValid ==> v.riskScore == 0 && v.redFlags == [] && v.suggestions == []
    ensures !v.isValid ==> v.riskScore == 70 && v.redFlags == [ReviewFlag] && v.suggestions == [ReviewSuggestion]
  {
    var valid := Includes(Trim(Lower(text)), "true");
    ContainsTrim(Lower(text), "true");
    Verdict(valid, if valid then 0 else 70, if valid then [] else [ReviewFlag], if valid then [] else [ReviewSuggestion])
  }

  /** The shape every verdict has: the risk is one of four levels, a posting
      is invalid exactly at the two high levels, and red flags are reported
      exactly when there is any risk. */
  predicate Consistent(v: Verdict)
  {
    && v.riskScore in {0, 30, 70, 100}
    && (!v.isValid <==> v.riskScore >= 70)
    && (v.redFlags == [] <==> v.riskScore == 0)
  }

  /** `verifyJobPosting(posting)` with the model's answer as an input. */
  function VerifyJobPosting(p: Posting, reply: AssessorReply): (o: Outcome)
    ensures o.Threw? <==> GuardRaises(p)
    ensures o.Returned? ==> Consistent(o.verdict)
    ensures o.Returned? ==> (o.verdict.riskScore == 100 <==> Flags(p).value != [])
    ensures o.Returned? && o.verdict.riskScore == 100 ==> o.asked.None? && o.verdict.redFlags == Flags(p).value
    ensures o.Returned? && o.asked.Some? ==> Flags(p) == Some([]) && BuildPrompt(p) == o.asked
    ensures o.Returned? && o.verdict.riskScore == 0 ==> reply.Reply?
  {
    match Flags(p)
    case None => Threw
    case Some(flags) =>
      if |flags| > 0 then Returned(ScamVerdict(flags), None)
      else
        match BuildPrompt(p)
        case None => Returned(Fallback, None)
        case Some(prompt) =>
          match reply
          case AssessorFailed => Returned(Fallback, Some(prompt))
          case Reply(text) => Returned(ReadReply(text), Some(prompt))
  }

  // ---------------------------------------------------------------------
  // What the job controllers keep of a verdict

  /** The posting read from a request body. */
  function PostingOf(body: Obj): Posting
  {
    Posting(Get(body, "title"), Get(body, "company"), Get(body, "description"), Get(body, "requirements"))
  }

  /** The status a created job gets: "active" below risk 50, "pending" from
      there on. */
  function StatusFor(v: Verdict): (s: string)
    ensures Consistent(v) ==> (s == "active" <==> v.isValid)
    ensures s in {"active", "pending"}
  {
    if v.riskScore < 50 then "active" else "pending"
  }

  /** The `verification` record stored with a created job. */
  function VerificationObject(v: Verdict, now: nat): Value
  {
    Object([("riskScore", Num(v.riskScore)),
            ("redFlags", Arr(seq(|v.redFlags|, i requires 0 <= i < |v.redFlags| => Str(v.redFlags[i])))),
            ("lastVerified", Num(now))])
  }

  /** The document a controller hands to `Job.create`:
      `{...body, postedBy, status, verification}`. */
  function CreatedDoc(body: Obj, postedBy: Value, status: Value, verification: Value): (d: Obj)
    ensures Get(d, "postedBy") == postedBy
    ensures Get(d, "status") == status
    ensures Get(d, "verification") == verification
  {
    var d1 := Set(body, "postedBy", postedBy);
    var d2 := Set(d1, "status", status);
    Set(d2, "verification", verification)
  }

  /** Every other property of the body reaches the document unchanged. */
  lemma CreatedDocKeeps(body: Obj, postedBy: Value, status: Value, verification: Value)
    ensures forall k :: k !in ["postedBy", "status", "verification"] ==>
              Get(CreatedDoc(body, postedBy, status, verification), k) == Get(body, k)
  {
    forall k | k !in ["postedBy", "status", "verification"]
      ensures Get(CreatedDoc(body, postedBy, status, verification), k) == Get(body, k)
    {
      var d1 := Set(body, "postedBy", postedBy);
      var d2 := Set(d1, "status", status);
      assert Get(d1, k) == Get(body, k);
      assert Get(d2, k) == Get(d1, k);
    }
  }

  /** A property other than the three the handler writes reads the same in
      the created document as in the body. */
  lemma CreatedDocKeepsKey(body: Obj, postedBy: Value, status: Value, verification: Value, k: string)
    requires k != "postedBy" && k != "status" && k != "verification"
    ensures Get(CreatedDoc(body, postedBy, status, verification), k) == Get(body, k)
  {
    CreatedDocKeeps(body, postedBy, status, verification);
  }

  /** The outcome of a job-creation request. */
  datatype CreateResult =
    | Stored(doc: Obj, verdict: Verdict)   // 201 with the stored job and the verdict
    | Rejected(verdict: Verdict)           // 400, nothing stored
    | ServerError                          // 500, nothing stored

  // ---------------------------------------------------------------------
  // Properties

  /** A flagged posting gets the scam verdict with the fired reasons, and the
      model is neither asked nor able to change the outcome. */
  lemma FlaggedShortCircuits(p: Posting, r1: AssessorReply, r2: AssessorReply)
    requires exists rule :: Fires(p, rule)
    requires !GuardRaises(p)
    ensures VerifyJobPosting(p, r1) == VerifyJobPosting(p, r2)
    ensures VerifyJobPosting(p, r1) == Returned(ScamVerdict(Flags(p).value), None)
  {
    var rule :| Fires(p, rule);
    assert Reason(rule) in Flags(p).value;
  }

  /** No rule fires: the reply alone decides, through "true". */
  lemma UnflaggedReplyDecides(p: Posting, text: string)
    requires !GuardRaises(p) && forall rule :: !Fires(p, rule)
    requires BuildPrompt(p).Some?
    ensures VerifyJobPosting(p, Reply(text)).Returned?
    ensures VerifyJobPosting(p, Reply(text)).verdict.isValid <==> Contains(Lower(text), "true")
    ensures VerifyJobPosting(p, Reply(text)).asked == BuildPrompt(p)
  {
  }

  /** No rule fires and the model fails, or the prompt cannot be built: the
      posting is let through with the fallback verdict. */
  lemma FailuresFallBack(p: Posting, reply: AssessorReply)
    requires !GuardRaises(p) && forall rule :: !Fires(p, rule)
    requires reply.AssessorFailed? || BuildPrompt(p).None?
    ensures VerifyJobPosting(p, reply).Returned?
    ensures VerifyJobPosting(p, reply).verdict == Fallback
  {
  }

  /** The rules read only the title and the description: the salary, the
      requirements and the company never change which rules fire. */
  lemma RulesIgnoreOtherFields(p: Posting, company: Value, requirements: Value)
    ensures Flags(p.(company := company, requirements := requirements)) == Flags(p)
  {
  }

  /** Lower-casing distributes over concatenation. */
  lemma LowerAppend(a: string, b: string)
    ensures Lower(a + b) == Lower(a) + Lower(b)
  {
    assert forall i :: 0 <= i < |a + b| ==> Lower(a + b)[i] == (Lower(a) + Lower(b))[i];
  }

  /** A phrase of the third rule may start in the title and end in the
      description: the two are joined with no separator. */
  lemma PhraseMaySpanBoundary(t: string, d: string, j: nat)
    requires 0 < j < |"no experience needed"|
    requires |t| >= j && Lower(t)[|t| - j..] == "no experience needed"[..j]
    requires |d| >= 20 - j
    requires Lower(d)[..20 - j] == "no experience needed"[j..]
    requires !Contains(t, "Intern")
    ensures Fires(Posting(Str(t), Undefined, Str(d), Undefined), RequirementsRule)
  {
    var w := "no experience needed";
    SpanJoined(Lower(t), Lower(d), w, j);
    LowerAppend(t, d);
    assert ProbeSpec(Lower(t + d), Lit(w), |t| - j);
  }

  /** A word whose first `j` letters end `a` and whose rest starts `b`
      occurs in `a + b` where `a`'s tail begins. */
  lemma SpanJoined(a: string, b: string, w: string, j: nat)
    requires j <= |a| && j <= |w| && |w| - j <= |b|
    requires a[|a| - j..] == w[..j] && b[..|w| - j] == w[j..]
    ensures (a + b)[|a| - j..|a| - j + |w|] == w
  {
    var h := a + b;
    var k := |a| - j;
    forall m | 0 <= m < |w| ensures h[k + m] == w[m] {
      if m < j {
        assert a[|a| - j..][m] == w[..j][m];
      } else {
        assert b[..|w| - j][m - j] == w[j..][m - j];
      }
    }
  }

  /** The internship exemption is case-sensitive: a title that spells it
      "intern" or "INTERN" is not exempt. */
  lemma ExemptionIsCaseSensitive(t: string)
    requires forall i :: 0 <= i < |t| ==> t[i] != 'I'
    ensures InternGuard(Str(t)) == Some(true)
  {
    if Contains(t, "Intern") {
      var i :| OccursAt(t, "Intern", i);
      OccursAtStart(t, "Intern", i);
    }
  }
}
