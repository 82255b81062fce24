/** The stored records of the abilitylink backend: jobs with their applicant
    lists, users with their profile, applications and activity log, and the
    enumerations and defaults the Mongoose schemas declare for them.

    The database is a pair of maps from identifiers to documents. Identifiers
    are canonical (lower-case hexadecimal) strings; timestamps are opaque
    natural numbers supplied by the caller. */
module Schema {
  import opened Seqs
  import opened Text
  import opened Js

  type Id = string
  type Time = nat

  // ---------------------------------------------------------------------
  // Enumerations (jobModel.js and userModel.js)

  const JobDisabilityTypes: seq<string> := ["Physical", "Visual", "Hearing", "Cognitive", "Other"]
  const JobSeverities: seq<string> := ["Mild", "Moderate", "Severe", "Any"]
  const ApplicantStatuses: seq<string> := ["Applied", "Interview", "Offer", "Rejected"]
  /** The job status enumeration, default "Active". */
  const JobStatuses: seq<string> := ["Active", "Closed"]
  const DefaultJobStatus := "Active"

  const ProfileDisabilityTypes: seq<string> :=
    ["Physical", "Visual", "Hearing", "Cognitive", "Intellectual", "Psychosocial", "Multiple", "Other"]
  const ProfileSeverities: seq<string> := ["Mild", "Moderate", "Severe", "Profound"]
  const ProfessionTypes: seq<string> :=
    ["Engineering/Technical", "Creative/Arts", "Administrative", "Service", "Healthcare",
     "Education", "Skilled Trade", "Other"]
  const ExperienceLevels: seq<string> := ["Entry", "Intermediate", "Experienced", "Expert"]
  const EducationLevels: seq<string> :=
    ["No Formal Education", "Primary", "Secondary", "Diploma", "Bachelor", "Master", "Doctorate", "Other"]
  const ContactMethods: seq<string> := ["Email", "Phone", "Video Call", "Text", "In Person"]
  const ApplicationStatuses: seq<string> := ["Applied", "Interview", "Rejected", "Offer"]
  const UpdateTypes: seq<string> := ["StatusChange", "Message", "Interview"]
  const ActivityTypes: seq<string> := ["Application", "ProfileView", "JobMatch", "StatusChange"]

  /** The statuses the job controllers write. */
  const ControllerJobStatuses: seq<string> := ["active", "pending", "closed"]

  // ---------------------------------------------------------------------
  // Documents

  /** An entry of a job's `applicants`; `status` defaults to "Applied". */
  datatype Applicant = Applicant(user: Id, appliedAt: Time, status: string)

  /** An entry of a job's `acceptedApplicants`; `acceptedAt` defaults to the
      time of the write. */
  datatype Acceptance = Acceptance(user: Id, acceptedAt: Time)

  datatype Job = Job(
    id: Id,
    title: string,
    postedBy: Id,
    status: string,
    createdAt: Time,
    skills: seq<string>,
    disabilityTypes: seq<string>,
    disabilitySeverity: Option<string>,
    applicants: seq<Applicant>,
    acceptedApplicants: seq<Acceptance>)

  /** An entry of an application's `updates`. */
  datatype Update = Update(kind: string, message: string, date: Time)

  /** An entry of a user's `jobApplications`; `status` defaults to "Applied". */
  datatype Application = Application(id: Id, jobId: Id, status: string, appliedDate: Time, updates: seq<Update>)

  /** An entry of a user's `activityLog`; `details` may be missing. */
  datatype Activity = Activity(kind: string, details: Value, date: Time)

  /** A user; `profile` is the stored profile object. */
  datatype User = User(
    id: Id,
    role: string,
    profile: Obj,
    jobApplications: seq<Application>,
    activityLog: seq<Activity>)

  datatype Store = Store(jobs: map<Id, Job>, users: map<Id, User>)

  /** A handler's answer: the HTTP status and the database afterwards. */
  datatype Reply = Reply(code: nat, store: Store)

  // ---------------------------------------------------------------------
  // Identifiers

  predicate IsHexDigit(c: char)
  {
    '0' <= c <= '9' || 'a' <= c <= 'f' || 'A' <= c <= 'F'
  }

  /** `ObjectId.isValid` on a string: 24 hexadecimal digits. */
  predicate ValidId(s: string)
  {
    |s| == 24 && forall i :: 0 <= i < |s| ==> IsHexDigit(s[i])
  }

  /** The identifier a valid string denotes: hex digits are case-insensitive. */
  function Canon(s: string): (r: Id)
    requires ValidId(s)
    ensures ValidId(r)
    ensures forall i :: 0 <= i < |r| ==> !('A' <= r[i] <= 'Z')
    ensures Lower(r) == r
  {
    var r := Lower(s);
    assert forall i :: 0 <= i < |r| ==> LowerChar(r[i]) == r[i];
    r
  }

  /** Canonical identifiers are their own canonical form. */
  lemma CanonIdempotent(s: string)
    requires ValidId(s)
    ensures Canon(Canon(s)) == Canon(s)
  {
  }

  // ---------------------------------------------------------------------
  // Schema validation on create (abilitylink jobModel.js)

  /** A required `String` path: missing, null, the empty string, an array
      and a plain object all fail (the last two do not cast to a string). */
  predicate RequiredString(v: Value)
  {
    match v
    case Str(s) => s != ""
    case Num(_) => true
    case Bool(_) => true
    case _ => false
  }

  /** An optional `String` path with an enumeration: missing and null pass,
      a scalar passes when its string form is listed. */
  predicate EnumOk(v: Value, values: seq<string>)
  {
    match v
    case Undefined => true
    case Null => true
    case Str(s) => s in values
    case Num(_) => ToJsString(v) in values
    case Bool(_) => ToJsString(v) in values
    case _ => false
  }

  /** An array-of-enumerated-strings path: a lone scalar is cast to a
      one-element array. */
  predicate EnumArrayOk(v: Value, values: seq<string>)
  {
    match v
    case Arr(items) => forall i :: 0 <= i < |items| ==> EnumOk(items[i], values)
    case Object(_) => false
    case _ => EnumOk(v, values)
  }

  /** A value a `String` path accepts: a scalar, or nothing. */
  predicate CastsToString(v: Value)
  {
    !v.Arr? && !v.Object?
  }

  /** A `[String]` path: each element of an array, or a lone scalar, must
      cast to a string. */
  predicate StringArrayOk(v: Value)
  {
    match v
    case Arr(items) => forall i :: 0 <= i < |items| ==> CastsToString(items[i])
    case Object(_) => false
    case _ => true
  }

  /** The strings Mongoose casts to a boolean. */
  const BooleanStrings: seq<string> := ["true", "false", "1", "0", "yes", "no"]

  /** A `Boolean` path: nothing, a boolean, 0 or 1, or one of the boolean
      strings; anything else is a cast error. */
  predicate BooleanOk(v: Value)
  {
    match v
    case Undefined => true
    case Null => true
    case Bool(_) => true
    case Num(n) => n == 0 || n == 1
    case Str(s) => s in BooleanStrings
    case _ => false
  }

  /** The part of `Job.create`'s casting and validation that does not depend
      on the status: the four required strings, the two disability
      enumerations, the `remote` boolean and the two string lists. */
  predicate JobFieldsValid(doc: Obj)
  {
    && RequiredString(Get(doc, "title"))
    && RequiredString(Get(doc, "company"))
    && RequiredString(Get(doc, "location"))
    && RequiredString(Get(doc, "description"))
    && EnumArrayOk(Get(doc, "disabilityTypes"), JobDisabilityTypes)
    && EnumOk(Get(doc, "disabilitySeverity"), JobSeverities)
    && BooleanOk(Get(doc, "remote"))
    && StringArrayOk(Get(doc, "requirements"))
    && StringArrayOk(Get(doc, "skills"))
  }

  /** `Job.create(doc)` passes validation when the status path's
      enumeration is `statuses`. */
  predicate JobDocValid(doc: Obj, statuses: seq<string>)
  {
    JobFieldsValid(doc) && EnumOk(Get(doc, "status"), statuses)
  }

  /** The controllers' statuses are not members of the schema's status
      enumeration, which differs from them in case and lacks "pending". */
  lemma ControllerStatusesNotInSchema(s: string)
    requires s in ControllerJobStatuses
    ensures s !in JobStatuses
    ensures !EnumOk(Str(s), JobStatuses)
  {
    assert s[0] in {'a', 'p', 'c'};
    forall t | t in JobStatuses ensures t[0] in {'A', 'C'} {
    }
  }

  /** Activity-log types the controllers write but the schema does not
      list. */
  lemma ProfileUpdateNotAnActivityType()
    ensures "ProfileUpdate" !in ActivityTypes
  {
  }
}
