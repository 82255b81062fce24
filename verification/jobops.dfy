/** The job handlers whose code is the same in both backends (`getAllJobs`,
    `approveJob`, `acceptApplicant`, `getApplicantDetails`) and the
    IncluReach `closeJob`, as transitions of the job store. */
module JobOps {
  import opened Seqs
  import opened Text
  import opened Js
  import opened Schema

  predicate HasApplicant(j: Job, u: Id)
  {
    exists i :: 0 <= i < |j.applicants| && j.applicants[i].user == u
  }

  predicate IsAccepted(j: Job, u: Id)
  {
    exists i :: 0 <= i < |j.acceptedApplicants| && j.acceptedApplicants[i].user == u
  }

  predicate IsActive(j: Job) { j.status == "active" }

  /** The user holds an application for the job. */
  predicate HasApplicationFor(u: User, jobId: Id)
  {
    exists i :: 0 <= i < |u.jobApplications| && u.jobApplications[i].jobId == jobId
  }

  const SubmittedMessage := "Application submitted"

  /** The application an apply appends to the user: status "Applied", dated
      now, with one status-change update. */
  function NewApplication(appId: Id, jobId: Id, now: Time): Application
  {
    Application(appId, jobId, "Applied", now, [Update("StatusChange", SubmittedMessage, now)])
  }

  /** `getAllJobs`: the public listing keeps the active jobs of the (already
      newest-first) collection, in order. */
  function ListActive(jobs: seq<Job>): (r: seq<Job>)
    ensures |r| <= |jobs|
    ensures forall i :: 0 <= i < |r| ==> r[i] in jobs && r[i].status == "active"
    ensures forall i :: 0 <= i < |jobs| && jobs[i].status == "active" ==> jobs[i] in r
  {
    Filter(jobs, IsActive)
  }

  /** Listing a collection split in two lists each part: the listing keeps
      the relative order of the jobs it shows, and shows each active job as
      often as it is stored. */
  lemma ListActiveOrder(older: seq<Job>, newer: seq<Job>, j: Job)
    ensures ListActive(newer + older) == ListActive(newer) + ListActive(older)
    ensures multiset(ListActive(newer + older))[j] == if IsActive(j) then multiset(newer + older)[j] else 0
  {
    FilterAppend(newer, older, IsActive);
    FilterCount(newer + older, IsActive, j);
  }

  // ---------------------------------------------------------------------
  // approveJob

  /** `approveJob`: any existing job becomes "active", whatever its status.
      The id is cast without a validity check, so a malformed one raises
      (500). */
  function ApproveJob(st: Store, jobId: string): (r: Reply)
    ensures !ValidId(jobId) ==> r == Reply(500, st)
    ensures ValidId(jobId) && Canon(jobId) !in st.jobs ==> r == Reply(404, st)
    ensures ValidId(jobId) && Canon(jobId) in st.jobs ==>
              r.code == 200 && r.store.users == st.users
              && r.store.jobs.Keys == st.jobs.Keys
              && r.store.jobs[Canon(jobId)] == st.jobs[Canon(jobId)].(status := "active")
              && forall k :: k in st.jobs && k != Canon(jobId) ==> r.store.jobs[k] == st.jobs[k]
  {
    if !ValidId(jobId) then Reply(500, st)
    else
      var id := Canon(jobId);
      if id !in st.jobs then Reply(404, st)
      else Reply(200, st.(jobs := st.jobs[id := st.jobs[id].(status := "active")]))
  }

  // ---------------------------------------------------------------------
  // closeJob (IncluReach)

  /** `closeJob`: only the poster's own active job closes; every other case
      is the same 404 with nothing changed. */
  function CloseJob(st: Store, caller: Id, jobId: string): (r: Reply)
    ensures !ValidId(jobId) ==> r == Reply(400, st)
    ensures r.code == 200 <==>
              ValidId(jobId) && Canon(jobId) in st.jobs
              && st.jobs[Canon(jobId)].postedBy == caller && st.jobs[Canon(jobId)].status == "active"
    ensures r.code != 200 ==> r.store == st && r.code in {400, 404}
    ensures r.code == 200 ==>
              r.store == st.(jobs := st.jobs[Canon(jobId) := st.jobs[Canon(jobId)].(status := "closed")])
  {
    if !ValidId(jobId) then Reply(400, st)
    else
      var id := Canon(jobId);
      if id in st.jobs && st.jobs[id].postedBy == caller && st.jobs[id].status == "active" then
        Reply(200, st.(jobs := st.jobs[id := st.jobs[id].(status := "closed")]))
      else Reply(404, st)
  }

  /** Closing twice: the second attempt finds no active job. */
  lemma CloseTwice(st: Store, caller: Id, jobId: string)
    requires CloseJob(st, caller, jobId).code == 200
    ensures CloseJob(CloseJob(st, caller, jobId).store, caller, jobId).code == 404
  {
  }

  /** Approval reopens a closed job, which its poster can then close again. */
  lemma ApproveThenClose(st: Store, caller: Id, jobId: string)
    requires ValidId(jobId) && Canon(jobId) in st.jobs && st.jobs[Canon(jobId)].postedBy == caller
    ensures ApproveJob(st, jobId).code == 200
    ensures CloseJob(ApproveJob(st, jobId).store, caller, jobId).code == 200
  {
  }

  // ---------------------------------------------------------------------
  // acceptApplicant

  /** The outcome of `findIndex` over the populated applicant entries. */
  datatype Scan = Found(index: nat) | NotFound | Raised

  /** `job.applicants.findIndex(app => app.user._id.equals(target))` after
      `populate`: an entry whose user no longer exists populates to null, and
      reading its `_id` raises before any later entry is looked at. */
  function FindApplicant(apps: seq<Applicant>, users: map<Id, User>, target: Id, from: nat): (r: Scan)
    requires from <= |apps|
    ensures r.Found? ==> from <= r.index < |apps| && apps[r.index].user == target && target in users
    ensures r.Found? || r.NotFound? ==>
              forall j :: from <= j < |apps| && (r.NotFound? || j < r.index) ==>
                apps[j].user in users && apps[j].user != target
    ensures r.Raised? ==>
              exists j :: from <= j < |apps| && apps[j].user !in users
                          && forall i :: from <= i < j ==> apps[i].user != target
    decreases |apps| - from
  {
    if from == |apps| then NotFound
    else if apps[from].user !in users then Raised
    else if apps[from].user == target then Found(from)
    else FindApplicant(apps, users, target, from + 1)
  }

  /** The position of the first application for the job, searching from
      `from` on. */
  function FirstFor(apps: seq<Application>, jobId: Id, from: nat): (r: Option<nat>)
    requires from <= |apps|
    ensures r.Some? ==> from <= r.value < |apps| && apps[r.value].jobId == jobId
    ensures r.Some? ==> forall k :: from <= k < r.value ==> apps[k].jobId != jobId
    ensures r.None? ==> forall k :: from <= k < |apps| ==> apps[k].jobId != jobId
    decreases |apps| - from
  {
    if from == |apps| then None
    else if apps[from].jobId == jobId then Some(from)
    else FirstFor(apps, jobId, from + 1)
  }

  /** An application turned into an offer, with the update that says so. */
  function Offered(a: Application, now: Time): Application
  {
    a.(status := "Offer", updates := a.updates + [Update("StatusChange", OfferMessage, now)])
  }

  /** The positional update `jobApplications.$`: the first application for
      the job becomes an offer and gains one update; the others are left
      alone. */
  function OfferApplication(apps: seq<Application>, jobId: Id, now: Time): (r: seq<Application>)
    ensures |r| == |apps|
    ensures forall i :: 0 <= i < |apps| && apps[i].jobId != jobId ==> r[i] == apps[i]
    ensures forall i :: 0 <= i < |apps| && apps[i].jobId == jobId ==>
              (forall k :: 0 <= k < i ==> apps[k].jobId != jobId) ==>
                r[i] == Offered(apps[i], now)
    ensures forall i, k :: 0 <= k < i < |apps| && apps[k].jobId == jobId ==> r[i] == apps[i]
  {
    var first := FirstFor(apps, jobId, 0);
    seq(|apps|, i requires 0 <= i < |apps| => if first == Some(i) then Offered(apps[i], now) else apps[i])
  }

  const OfferMessage := "You've received a job offer!"

  function NotUser(u: Id): Applicant -> bool
  {
    (a: Applicant) => a.user != u
  }

  /** `acceptApplicant` (same code in both backends): the caller must own the
      job, the user must be among its applicants and not yet accepted. The
      user then leaves `applicants` (every entry of theirs), is appended once
      to `acceptedApplicants`, and their application becomes an offer. */
  function AcceptApplicant(st: Store, caller: Id, jobId: string, applicantId: Option<string>, now: Time): (r: Reply)
    ensures r.code in {200, 400, 404, 500}
    ensures r.code != 200 ==> r.store == st
    ensures !IdsValid(jobId, applicantId) ==> r.code == 400
    ensures r.code == 404 <==> IdsValid(jobId, applicantId) && !OwnedBy(st, caller, Canon(jobId))
    ensures r.code == 500 <==>
              && IdsValid(jobId, applicantId) && OwnedBy(st, caller, Canon(jobId))
              && FindApplicant(st.jobs[Canon(jobId)].applicants, st.users, Canon(applicantId.value), 0).Raised?
    ensures r.code == 200 <==>
              && IdsValid(jobId, applicantId) && OwnedBy(st, caller, Canon(jobId))
              && FindApplicant(st.jobs[Canon(jobId)].applicants, st.users, Canon(applicantId.value), 0).Found?
              && !IsAccepted(st.jobs[Canon(jobId)], Canon(applicantId.value))
    ensures r.code == 200 ==> AcceptedIn(st, r.store, caller, Canon(jobId), Canon(applicantId.value), now)
  {
    if !ValidId(jobId) || applicantId.None? || !ValidId(applicantId.value) then Reply(400, st)
    else
      var id := Canon(jobId);
      var u := Canon(applicantId.value);
      if id !in st.jobs || st.jobs[id].postedBy != caller then Reply(404, st)
      else
        var job := st.jobs[id];
        match FindApplicant(job.applicants, st.users, u, 0)
        case Raised => Reply(500, st)
        case NotFound => Reply(400, st)
        case Found(_) =>
          if IsAccepted(job, u) then Reply(400, st)
          else
            var remaining := Filter(job.applicants, NotUser(u));
            var job' := job.(applicants := remaining,
                             acceptedApplicants := job.acceptedApplicants + [Acceptance(u, now)]);
            var user := st.users[u];
            var user' := user.(jobApplications := OfferApplication(user.jobApplications, id, now));
            var st' := Store(st.jobs[id := job'], st.users[u := user']);
            assert !HasApplicant(job', u);
            assert AcceptedIn(st, st', caller, id, u, now);
            Reply(200, st')
  }

  /** Both identifiers are present and castable. */
  predicate IdsValid(jobId: string, applicantId: Option<string>)
  {
    ValidId(jobId) && applicantId.Some? && ValidId(applicantId.value)
  }

  /** The job exists and the caller posted it: what `findOneAndUpdate`
      matches on. */
  predicate OwnedBy(st: Store, caller: Id, id: Id)
  {
    id in st.jobs && st.jobs[id].postedBy == caller
  }

  /** Every applicant entry of the job still names an existing user. */
  predicate ApplicantsResolve(st: Store, id: Id)
    requires id in st.jobs
  {
    forall i :: 0 <= i < |st.jobs[id].applicants| ==> st.jobs[id].applicants[i].user in st.users
  }

  /** While no applicant's user has been deleted, the handler succeeds
      exactly for a listed, not yet accepted applicant of the caller's own
      job; a listed applicant that was already accepted gets 400. */
  lemma AcceptSucceedsIff(st: Store, caller: Id, jobId: string, applicantId: string, now: Time)
    requires ValidId(jobId) && ValidId(applicantId) && OwnedBy(st, caller, Canon(jobId))
    requires ApplicantsResolve(st, Canon(jobId))
    ensures var r := AcceptApplicant(st, caller, jobId, Some(applicantId), now);
            var job := st.jobs[Canon(jobId)];
            (r.code == 200 <==> HasApplicant(job, Canon(applicantId)) && !IsAccepted(job, Canon(applicantId)))
            && (r.code == 400 <==> !HasApplicant(job, Canon(applicantId)) || IsAccepted(job, Canon(applicantId)))
  {
    var job := st.jobs[Canon(jobId)];
    var u := Canon(applicantId);
    var scan := FindApplicant(job.applicants, st.users, u, 0);
    if scan.NotFound? {
      assert !HasApplicant(job, u);
    }
  }

  /** The effect of a successful acceptance of user `u` for job `id`. */
  ghost predicate AcceptedIn(st: Store, st': Store, caller: Id, id: Id, u: Id, now: Time)
  {
    && id in st.jobs && st.jobs[id].postedBy == caller
    && HasApplicant(st.jobs[id], u) && !IsAccepted(st.jobs[id], u)
    && u in st.users && id in st'.jobs && u in st'.users
    && st'.jobs == st.jobs[id := st'.jobs[id]]
    && st'.jobs[id] == st.jobs[id].(applicants := st'.jobs[id].applicants,
                                    acceptedApplicants := st'.jobs[id].acceptedApplicants)
    && !HasApplicant(st'.jobs[id], u)
    && st'.jobs[id].applicants == Filter(st.jobs[id].applicants, NotUser(u))
    && (forall i :: 0 <= i < |st.jobs[id].applicants| && st.jobs[id].applicants[i].user != u
          ==> st.jobs[id].applicants[i] in st'.jobs[id].applicants)
    && st'.jobs[id].acceptedApplicants == st.jobs[id].acceptedApplicants + [Acceptance(u, now)]
    && st'.users == st.users[u := st'.users[u]]
    && st'.users[u] == st.users[u].(jobApplications := OfferApplication(st.users[u].jobApplications, id, now))
  }

  /** Accepting moves the user: afterwards they are accepted exactly once and
      no longer an applicant, so a second acceptance is refused (400, or 500
      when another applicant's user has been deleted meanwhile). */
  lemma AcceptMovesApplicant(st: Store, caller: Id, jobId: string, applicantId: string, now: Time, later: Time)
    requires AcceptApplicant(st, caller, jobId, Some(applicantId), now).code == 200
    ensures var st' := AcceptApplicant(st, caller, jobId, Some(applicantId), now).store;
            var id := Canon(jobId);
            var u := Canon(applicantId);
            && IsAccepted(st'.jobs[id], u)
            && multiset(st'.jobs[id].acceptedApplicants)[Acceptance(u, now)]
               == multiset(st.jobs[id].acceptedApplicants)[Acceptance(u, now)] + 1
            && AcceptApplicant(st', caller, jobId, Some(applicantId), later).code in {400, 500}
  {
    var st' := AcceptApplicant(st, caller, jobId, Some(applicantId), now).store;
    var id := Canon(jobId);
    var u := Canon(applicantId);
    var acc := st'.jobs[id].acceptedApplicants;
    assert acc[|acc| - 1].user == u;
    assert multiset(acc) == multiset(st.jobs[id].acceptedApplicants) + multiset{Acceptance(u, now)};
    var scan := FindApplicant(st'.jobs[id].applicants, st'.users, u, 0);
    assert !scan.Found?;
  }

  // ---------------------------------------------------------------------
  // getApplicantDetails

  datatype Result<T> = Ok(value: T) | Fail(code: nat)

  const PublicPrefix := "public/"

  /** Strips a leading "public/" from a truthy string field; a truthy value
      that is not a string has no `replace` and raises. */
  function CleanPath(o: Obj, k: string): (r: Option<Obj>)
    ensures !Truthy(Get(o, k)) ==> r == Some(o)
    ensures Truthy(Get(o, k)) && !Get(o, k).Str? ==> r.None?
    ensures Get(o, k).Str? && Truthy(Get(o, k)) ==>
              r.Some? && Get(r.value, k) == Str(StripPrefix(Get(o, k).s, PublicPrefix))
              && (forall k' :: k' != k ==> Get(r.value, k') == Get(o, k'))
              && Keys(r.value) == Keys(o)
  {
    var v := Get(o, k);
    if !Truthy(v) then Some(o)
    else if v.Str? then Some(Set(o, k, Str(StripPrefix(v.s, PublicPrefix))))
    else None
  }

  /** `files.map(file => file.replace(/^public\//, ""))`; `None` when an
      element is not a string. */
  function StripAll(items: seq<Value>): (r: Option<seq<Value>>)
    ensures r.Some? <==> forall i :: 0 <= i < |items| ==> items[i].Str?
    ensures r.Some? ==> (|r.value| == |items|
              && forall i :: 0 <= i < |items| ==> r.value[i] == Str(StripPrefix(items[i].s, PublicPrefix)))
  {
    if |items| == 0 then Some([])
    else if !items[0].Str? then None
    else match StripAll(items[1..])
      case None => None
      case Some(rest) => Some([Str(StripPrefix(items[0].s, PublicPrefix))] + rest)
  }

  /** The certification list: a truthy non-array has no `map` and raises. */
  function CleanList(o: Obj, k: string): (r: Option<Obj>)
    ensures !Truthy(Get(o, k)) ==> r == Some(o)
    ensures r.Some? && Truthy(Get(o, k)) ==>
              Get(o, k).Arr? && StripAll(Get(o, k).items).Some? && Get(r.value, k) == Arr(StripAll(Get(o, k).items).value)
              && (forall k' :: k' != k ==> Get(r.value, k') == Get(o, k'))
    ensures Truthy(Get(o, k)) ==> (r.Some? <==> Get(o, k).Arr? && StripAll(Get(o, k).items).Some?)
  {
    var v := Get(o, k);
    if !Truthy(v) then Some(o)
    else if !v.Arr? then None
    else match StripAll(v.items)
      case None => None
      case Some(items) => Some(Set(o, k, Arr(items)))
  }

  /** A truthy value with no `replace`: stripping it raises. */
  predicate PathRaises(v: Value)
  {
    Truthy(v) && !v.Str?
  }

  /** A truthy value with no `map`, or a list holding a non-string: mapping
      the strip over it raises. */
  predicate ListRaises(v: Value)
  {
    Truthy(v) && (!v.Arr? || exists i :: 0 <= i < |v.items| && !v.items[i].Str?)
  }

  /** `w` is the path `v` with a leading "public/" removed; a falsy `v` is
      left as it is. */
  predicate PathStripped(v: Value, w: Value)
  {
    if Truthy(v) then v.Str? && w == Str(StripPrefix(v.s, PublicPrefix)) else w == v
  }

  /** `w` is the list `v` with a leading "public/" removed from each path;
      a falsy `v` is left as it is. */
  predicate ListStripped(v: Value, w: Value)
  {
    if Truthy(v) then
      && v.Arr? && w.Arr? && |w.items| == |v.items|
      && forall i :: 0 <= i < |v.items| ==> v.items[i].Str? && w.items[i] == Str(StripPrefix(v.items[i].s, PublicPrefix))
    else w == v
  }

  /** `getApplicantDetails`: the applicant's profile with a leading
      "public/" removed from the image, the resume and each certification. */
  function GetApplicantDetails(st: Store, id: Option<string>): (r: Result<Obj>)
    ensures id.None? || !ValidId(id.value) ==> r == Fail(400)
    ensures id.Some? && ValidId(id.value) && Canon(id.value) !in st.users ==> r == Fail(404)
    ensures id.Some? && ValidId(id.value) && Canon(id.value) in st.users ==>
              var p := st.users[Canon(id.value)].profile;
              (r == Fail(500) <==>
                 PathRaises(Get(p, "profileImage")) || PathRaises(Get(p, "resumeFile"))
                 || ListRaises(Get(p, "certificationFiles")))
    ensures r.Ok? ==> (id.Some? && ValidId(id.value) && Canon(id.value) in st.users
              && Keys(r.value) == Keys(st.users[Canon(id.value)].profile))
    ensures r.Ok? ==>
              var p := st.users[Canon(id.value)].profile;
              && PathStripped(Get(p, "profileImage"), Get(r.value, "profileImage"))
              && PathStripped(Get(p, "resumeFile"), Get(r.value, "resumeFile"))
              && ListStripped(Get(p, "certificationFiles"), Get(r.value, "certificationFiles"))
    ensures r.Ok? ==> forall k :: k !in ["profileImage", "resumeFile", "certificationFiles"] ==>
              Get(r.value, k) == Get(st.users[Canon(id.value)].profile, k)
    ensures r.Fail? ==> r.code in {400, 404, 500}
  {
    if id.None? || !ValidId(id.value) then Fail(400)
    else
      var u := Canon(id.value);
      if u !in st.users then Fail(404)
      else
        var p0 := st.users[u].profile;
        CleanProfileFails(p0);
        CleanProfileStrips(p0);
        CleanProfileKeeps(p0);
        match CleanProfile(p0)
        case None => Fail(500)
        case Some(p3) => Ok(p3)
  }

  /** The three clean-ups in the handler's order; `None` when one raises. */
  function CleanProfile(p0: Obj): Option<Obj>
  {
    match CleanPath(p0, "profileImage")
    case None => None
    case Some(p1) =>
      match CleanPath(p1, "resumeFile")
      case None => None
      case Some(p2) => CleanList(p2, "certificationFiles")
  }

  lemma CleanProfileFails(p0: Obj)
    ensures CleanProfile(p0).None? <==>
              PathRaises(Get(p0, "profileImage")) || PathRaises(Get(p0, "resumeFile"))
              || ListRaises(Get(p0, "certificationFiles"))
  {
    PathNamesDiffer();
    var c1 := CleanPath(p0, "profileImage");
    if c1.Some? {
      assert Get(c1.value, "resumeFile") == Get(p0, "resumeFile");
      assert Get(c1.value, "certificationFiles") == Get(p0, "certificationFiles");
      var c2 := CleanPath(c1.value, "resumeFile");
      if c2.Some? {
        assert Get(c2.value, "certificationFiles") == Get(c1.value, "certificationFiles");
        ListRaisesIff(c2.value, "certificationFiles");
      }
    }
  }

  lemma ListRaisesIff(o: Obj, k: string)
    ensures CleanList(o, k).None? <==> ListRaises(Get(o, k))
  {
    var v := Get(o, k);
    if Truthy(v) && v.Arr? && StripAll(v.items).None? {
      var i :| 0 <= i < |v.items| && !v.items[i].Str?;
    }
  }

  lemma CleanProfileStrips(p0: Obj)
    ensures CleanProfile(p0).Some? ==>
              var p := CleanProfile(p0).value;
              && PathStripped(Get(p0, "profileImage"), Get(p, "profileImage"))
              && PathStripped(Get(p0, "resumeFile"), Get(p, "resumeFile"))
              && ListStripped(Get(p0, "certificationFiles"), Get(p, "certificationFiles"))
  {
    StripsImage(p0);
    StripsResume(p0);
    StripsCertifications(p0);
  }

  lemma StripsImage(p0: Obj)
    ensures CleanProfile(p0).Some? ==>
              PathStripped(Get(p0, "profileImage"), Get(CleanProfile(p0).value, "profileImage"))
  {
    PathNamesDiffer();
    var c1 := CleanPath(p0, "profileImage");
    if c1.Some? {
      var c2 := CleanPath(c1.value, "resumeFile");
      if c2.Some? {
        var c3 := CleanList(c2.value, "certificationFiles");
        if c3.Some? {
          assert Get(c3.value, "profileImage") == Get(c2.value, "profileImage");
          assert Get(c2.value, "profileImage") == Get(c1.value, "profileImage");
        }
      }
    }
  }

  lemma StripsResume(p0: Obj)
    ensures CleanProfile(p0).Some? ==>
              PathStripped(Get(p0, "resumeFile"), Get(CleanProfile(p0).value, "resumeFile"))
  {
    PathNamesDiffer();
    var c1 := CleanPath(p0, "profileImage");
    if c1.Some? {
      assert Get(c1.value, "resumeFile") == Get(p0, "resumeFile");
      var c2 := CleanPath(c1.value, "resumeFile");
      if c2.Some? {
        var c3 := CleanList(c2.value, "certificationFiles");
        if c3.Some? {
          assert Get(c3.value, "resumeFile") == Get(c2.value, "resumeFile");
        }
      }
    }
  }

  lemma StripsCertifications(p0: Obj)
    ensures CleanProfile(p0).Some? ==>
              ListStripped(Get(p0, "certificationFiles"), Get(CleanProfile(p0).value, "certificationFiles"))
  {
    PathNamesDiffer();
    var c1 := CleanPath(p0, "profileImage");
    if c1.Some? {
      assert Get(c1.value, "certificationFiles") == Get(p0, "certificationFiles");
      var c2 := CleanPath(c1.value, "resumeFile");
      if c2.Some? {
        assert Get(c2.value, "certificationFiles") == Get(c1.value, "certificationFiles");
        ListStrippedBy(c2.value, "certificationFiles");
      }
    }
  }

  lemma ListStrippedBy(o: Obj, k: string)
    ensures CleanList(o, k).Some? ==> ListStripped(Get(o, k), Get(CleanList(o, k).value, k))
  {
  }

  lemma CleanProfileKeeps(p0: Obj)
    ensures CleanProfile(p0).Some? ==>
              && Keys(CleanProfile(p0).value) == Keys(p0)
              && forall k :: k !in ["profileImage", "resumeFile", "certificationFiles"] ==>
                   Get(CleanProfile(p0).value, k) == Get(p0, k)
  {
    var c1 := CleanPath(p0, "profileImage");
    if c1.Some? {
      var c2 := CleanPath(c1.value, "resumeFile");
      if c2.Some? {
        CleanListKeys(c2.value, "certificationFiles");
      }
    }
  }

  /** The three path fields have different names. */
  lemma PathNamesDiffer()
    ensures "profileImage" != "resumeFile" && "profileImage" != "certificationFiles"
    ensures "resumeFile" != "certificationFiles"
  {
    assert "profileImage"[0] == 'p' && "resumeFile"[0] == 'r' && "certificationFiles"[0] == 'c';
  }

  lemma CleanListKeys(o: Obj, k: string)
    ensures CleanList(o, k).Some? ==> Keys(CleanList(o, k).value) == Keys(o)
  {
    var v := Get(o, k);
    if Truthy(v) && v.Arr? && StripAll(v.items).Some? {
      assert HasKey(o, k);
    }
  }
}
