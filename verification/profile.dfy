/** The abilitylink profile controller: the five-field completion percentage
    and `updateProfile`, which coerces the four accessibility flags, strips
    "public/" from uploaded paths and replaces the stored profile with the
    text fields merged with the file fields. */
module Profile {
  import opened Seqs
  import opened Text
  import opened Js
  import opened Schema
  import Dashboard

  // ---------------------------------------------------------------------
  // calculateCompletion

  /** `v && (!Array.isArray(v) || v.length > 0)`: truthy, and non-empty when
      it is an array (an empty array is truthy in JavaScript). */
  predicate Filled(v: Value)
  {
    Truthy(v) && (!v.Arr? || |v.items| > 0)
  }

  /** The five tested fields, in the handler's order. */
  function CompletionChecks(profile: Obj): seq<bool>
  {
    [Filled(Get(profile, "disabilityType")),
     Filled(Get(profile, "disabilitySeverity")),
     Filled(Get(profile, "professionType")),
     Filled(Get(profile, "skills")),
     Filled(Get(profile, "educationLevel"))]
  }

  /** `Math.round(completed / 5 * 100)`; five divides 100, so no rounding
      happens. */
  function CalculateCompletion(profile: Obj): (r: nat)
    ensures r == 20 * (Ind(Filled(Get(profile, "disabilityType"))) + Ind(Filled(Get(profile, "disabilitySeverity")))
                       + Ind(Filled(Get(profile, "professionType"))) + Ind(Filled(Get(profile, "skills")))
                       + Ind(Filled(Get(profile, "educationLevel"))))
    ensures r in {0, 20, 40, 60, 80, 100}
    ensures r == 100 <==>
              && Filled(Get(profile, "disabilityType"))
              && Filled(Get(profile, "disabilitySeverity"))
              && Filled(Get(profile, "professionType"))
              && Filled(Get(profile, "skills"))
              && Filled(Get(profile, "educationLevel"))
    ensures r == 0 <==>
              && !Filled(Get(profile, "disabilityType"))
              && !Filled(Get(profile, "disabilitySeverity"))
              && !Filled(Get(profile, "professionType"))
              && !Filled(Get(profile, "skills"))
              && !Filled(Get(profile, "educationLevel"))
  {
    CountFive(Filled(Get(profile, "disabilityType")), Filled(Get(profile, "disabilitySeverity")),
              Filled(Get(profile, "professionType")), Filled(Get(profile, "skills")),
              Filled(Get(profile, "educationLevel")));
    var k := CountTrue(CompletionChecks(profile));
    20 * k
  }

  /** Filling in more of the five fields never lowers the percentage. */
  lemma CompletionMonotone(p: Obj, q: Obj)
    requires Filled(Get(p, "disabilityType")) ==> Filled(Get(q, "disabilityType"))
    requires Filled(Get(p, "disabilitySeverity")) ==> Filled(Get(q, "disabilitySeverity"))
    requires Filled(Get(p, "professionType")) ==> Filled(Get(q, "professionType"))
    requires Filled(Get(p, "skills")) ==> Filled(Get(q, "skills"))
    requires Filled(Get(p, "educationLevel")) ==> Filled(Get(q, "educationLevel"))
    ensures CalculateCompletion(p) <= CalculateCompletion(q)
  {
  }

  /** Every skills value the dashboard counts, this test counts too. */
  lemma SkillsTestsAgree(v: Value)
    requires Dashboard.SkillsNonEmpty(v)
    ensures Filled(v)
  {
  }

  /** A profile with a type, a severity, one skill and a resume, and nothing
      else. */
  function SampleProfile(t: string, sev: string, skill: string, resume: string): (p: Obj)
    ensures Get(p, "disabilityType") == Str(t)
    ensures Get(p, "disabilitySeverity") == Str(sev)
    ensures Get(p, "skills") == Arr([Str(skill)])
    ensures Get(p, "resumeFile") == Str(resume)
    ensures !HasKey(p, "professionType") && !HasKey(p, "educationLevel")
  {
    var p := [("disabilityType", Str(t)), ("disabilitySeverity", Str(sev)),
              ("skills", Arr([Str(skill)])), ("resumeFile", Str(resume))];
    KeyIndexIs(p, "disabilityType", 0);
    KeyIndexIs(p, "disabilitySeverity", 1);
    KeyIndexIs(p, "skills", 2);
    KeyIndexIs(p, "resumeFile", 3);
    assert p[0].0[0] == 'd';
    assert "professionType"[0] == 'p' && "educationLevel"[0] == 'e';
    p
  }

  /** The two percentages test different fields, so they disagree: a profile
      with a type, a severity, skills and a resume is complete for the
      dashboard and 60% complete here. */
  lemma CompletionsDisagree(t: string, sev: string, skill: string, resume: string)
    requires t != "" && sev != "" && skill != "" && resume != ""
    ensures Dashboard.ProfileCompletion(SampleProfile(t, sev, skill, resume)) == 100
    ensures CalculateCompletion(SampleProfile(t, sev, skill, resume)) == 60
  {
    var p := SampleProfile(t, sev, skill, resume);
    assert Get(p, "professionType") == Undefined && Get(p, "educationLevel") == Undefined;
  }

  // ---------------------------------------------------------------------
  // updateProfile: text fields

  /** The checkbox fields, which arrive as strings in a multipart body. */
  const FlagKeys: seq<string> := ["needsAccommodation", "requiresSignLanguage", "requiresCaptioning", "requiresAltText"]

  /** One body entry as stored: a flag becomes `value === "true" || value === true`,
      everything else is copied. */
  function Coerce(k: string, v: Value): (r: Value)
    ensures k in FlagKeys ==> r.Bool? && (r.b <==> v == Str("true") || v == Bool(true))
    ensures k !in FlagKeys ==> r == v
  {
    if k in FlagKeys then Bool(v == Str("true") || v == Bool(true)) else v
  }

  /** `textUpdates`: the body's entries in order, each coerced. */
  function TextUpdates(body: Obj): (r: Obj)
    ensures Keys(r) == Keys(body)
    ensures forall k :: HasKey(body, k) ==> Get(r, k) == Coerce(k, Get(body, k))
    ensures forall k :: !HasKey(body, k) ==> Get(r, k) == Undefined
    ensures DistinctKeys(body) ==> DistinctKeys(r)
  {
    var r := seq(|body|, i requires 0 <= i < |body| => (body[i].0, Coerce(body[i].0, body[i].1)));
    assert Keys(r) == Keys(body);
    SameKeysIndex(body, r);
    r
  }

  /** Stored flags read back as themselves: coercing twice is coercing once. */
  lemma TextUpdatesIdempotent(body: Obj)
    ensures TextUpdates(TextUpdates(body)) == TextUpdates(body)
  {
    var once := TextUpdates(body);
    var twice := TextUpdates(once);
    forall i | 0 <= i < |once| ensures twice[i] == once[i] {
      assert once[i] == (body[i].0, Coerce(body[i].0, body[i].1));
    }
  }

  // ---------------------------------------------------------------------
  // updateProfile: file fields

  /** The uploaded files' paths: `files.profileImage[0].path` and so on; an
      absent field was not sent. */
  datatype Uploads = Uploads(profileImage: Option<string>, resumeFile: Option<string>, certificationFiles: Option<seq<string>>)

  const FileKeys: seq<string> := ["profileImage", "resumeFile", "certificationFiles"]

  /** `path.replace("public/", "")`: the first occurrence, wherever it is. */
  function StoredPath(p: string): (r: string)
    ensures !Contains(p, "public/") ==> r == p
    ensures Contains(p, "public/") ==> |r| == |p| - 7
  {
    ReplaceFirst(p, "public/", "")
  }

  /** The certification paths as stored. */
  function StoredPaths(ps: seq<string>): (r: Value)
    ensures r.Arr? && |r.items| == |ps|
    ensures forall i :: 0 <= i < |ps| ==> r.items[i] == Str(StoredPath(ps[i]))
  {
    Arr(seq(|ps|, i requires 0 <= i < |ps| => Str(StoredPath(ps[i]))))
  }

  /** `{k: v}` when `v` is present, `{}` otherwise. */
  function OptionalEntry(k: string, v: Option<Value>): (r: Obj)
    ensures DistinctKeys(r)
    ensures forall k' :: HasKey(r, k') <==> v.Some? && k' == k
    ensures Get(r, k) == if v.Some? then v.value else Undefined
  {
    if v.Some? then
      assert [(k, v.value)][0].0 == k;
      [(k, v.value)]
    else []
  }

  /** `fileUpdates`: one property per uploaded field. */
  function FileUpdates(files: Uploads): (r: Obj)
    ensures DistinctKeys(r)
    ensures Get(r, "profileImage") ==
              if files.profileImage.Some? then Str(StoredPath(files.profileImage.value)) else Undefined
    ensures HasKey(r, "profileImage") <==> files.profileImage.Some?
    ensures Get(r, "resumeFile") ==
              if files.resumeFile.Some? then Str(StoredPath(files.resumeFile.value)) else Undefined
    ensures HasKey(r, "resumeFile") <==> files.resumeFile.Some?
    ensures Get(r, "certificationFiles") ==
              if files.certificationFiles.Some? then StoredPaths(files.certificationFiles.value) else Undefined
    ensures HasKey(r, "certificationFiles") <==> files.certificationFiles.Some?
    ensures forall k :: k !in FileKeys ==> !HasKey(r, k)
  {
    var a := OptionalEntry("profileImage",
      if files.profileImage.Some? then Some(Str(StoredPath(files.profileImage.value))) else None);
    var b := OptionalEntry("resumeFile",
      if files.resumeFile.Some? then Some(Str(StoredPath(files.resumeFile.value))) else None);
    var c := OptionalEntry("certificationFiles",
      if files.certificationFiles.Some? then Some(StoredPaths(files.certificationFiles.value)) else None);
    FileNamesDiffer();
    ThreeEntries(a, b, c);
    a + b + c
  }

  /** The three upload fields have different names. */
  lemma FileNamesDiffer()
    ensures "profileImage" != "resumeFile" && "profileImage" != "certificationFiles"
    ensures "resumeFile" != "certificationFiles"
  {
    assert "profileImage"[0] == 'p' && "resumeFile"[0] == 'r' && "certificationFiles"[0] == 'c';
  }

  /** Three objects with disjoint names, concatenated. */
  lemma ThreeEntries(a: Obj, b: Obj, c: Obj)
    requires DistinctKeys(a) && DistinctKeys(b) && DistinctKeys(c)
    requires forall k :: HasKey(a, k) ==> !HasKey(b, k) && !HasKey(c, k)
    requires forall k :: HasKey(b, k) ==> !HasKey(c, k)
    ensures DistinctKeys(a + b + c)
    ensures forall k :: HasKey(a + b + c, k) <==> HasKey(a, k) || HasKey(b, k) || HasKey(c, k)
    ensures forall k :: Get(a + b + c, k) ==
              if HasKey(a, k) then Get(a, k) else if HasKey(b, k) then Get(b, k) else Get(c, k)
  {
    forall k ensures HasKey(a + b + c, k) <==> HasKey(a, k) || HasKey(b, k) || HasKey(c, k)
      ensures Get(a + b + c, k) ==
              if HasKey(a, k) then Get(a, k) else if HasKey(b, k) then Get(b, k) else Get(c, k)
    {
      GetAppend(a, b, k);
      GetAppend(a + b, c, k);
    }
    DistinctAppend(a, b);
    DistinctAppend(a + b, c);
  }

  /** Where the path starts with "public/", this strip agrees with the
      anchored one of `getApplicantDetails`; elsewhere it does not: an
      occurrence further in is removed here and kept there. */
  lemma StripsDiffer()
    ensures forall p :: OccursAt(p, "public/", 0) ==> StoredPath(p) == StripPrefix(p, "public/")
    ensures StoredPath("apublic/") == "a"
    ensures StripPrefix("apublic/", "public/") == "apublic/"
  {
    forall p | OccursAt(p, "public/", 0) ensures StoredPath(p) == StripPrefix(p, "public/") {
      StripPrefixAgreesAtStart(p, "public/");
    }
    var s := "apublic/";
    assert s[0..7][0] == 'a';
    assert s[1..8] == "public/";
    assert IndexOfFrom(s, "public/", 0) == Some(1);
    assert s[..1] + "" + s[8..] == "a";
  }

  // ---------------------------------------------------------------------
  // updateProfile

  /** The profile `$set` stores: `{...textUpdates, ...fileUpdates}`; an
      uploaded file wins over a text field of the same name. */
  function NewProfile(body: Obj, files: Uploads): (r: Obj)
    ensures forall k :: Get(r, k) == if HasKey(FileUpdates(files), k) then Get(FileUpdates(files), k) else Get(TextUpdates(body), k)
    ensures forall k :: HasKey(r, k) <==> HasKey(body, k) || HasKey(FileUpdates(files), k)
  {
    var text := TextUpdates(body);
    assert forall k :: HasKey(text, k) <==> HasKey(body, k) by {
      forall k ensures HasKey(text, k) <==> HasKey(body, k) {
        SameKeysIndex(body, text);
      }
    }
    Spread(text, FileUpdates(files))
  }

  /** The stored text fields: flags coerced, every other field as sent, and
      a field not sent (and not uploaded) absent. */
  lemma NewProfileTextFields(body: Obj, files: Uploads)
    ensures forall k :: k !in FileKeys && k !in FlagKeys ==> Get(NewProfile(body, files), k) == Get(body, k)
    ensures forall k :: k in FlagKeys ==>
              Get(NewProfile(body, files), k)
              == if HasKey(body, k) then Bool(Get(body, k) == Str("true") || Get(body, k) == Bool(true)) else Undefined
    ensures forall k :: k !in FileKeys && !HasKey(body, k) ==> Get(NewProfile(body, files), k) == Undefined
  {
    assert forall k :: k in FlagKeys ==> k !in FileKeys;
  }

  /** One file field of the stored profile: the upload when there is one,
      else what the body sent under that name. */
  lemma NewProfileFileField(body: Obj, files: Uploads, k: string)
    requires k in FileKeys
    ensures Get(NewProfile(body, files), k) ==
              if HasKey(FileUpdates(files), k) then Get(FileUpdates(files), k) else Get(body, k)
  {
    assert k !in FlagKeys;
  }

  /** The stored file fields: an upload replaces the field, and a field with
      no upload keeps whatever the body sent under that name. */
  lemma NewProfileFileFields(body: Obj, files: Uploads)
    ensures files.profileImage.Some? ==> Get(NewProfile(body, files), "profileImage") == Str(StoredPath(files.profileImage.value))
    ensures files.profileImage.None? ==> Get(NewProfile(body, files), "profileImage") == Get(body, "profileImage")
    ensures files.resumeFile.Some? ==> Get(NewProfile(body, files), "resumeFile") == Str(StoredPath(files.resumeFile.value))
    ensures files.resumeFile.None? ==> Get(NewProfile(body, files), "resumeFile") == Get(body, "resumeFile")
    ensures files.certificationFiles.Some? ==>
              Get(NewProfile(body, files), "certificationFiles") == StoredPaths(files.certificationFiles.value)
    ensures files.certificationFiles.None? ==>
              Get(NewProfile(body, files), "certificationFiles") == Get(body, "certificationFiles")
  {
    NewProfileFileField(body, files, "profileImage");
    NewProfileFileField(body, files, "resumeFile");
    NewProfileFileField(body, files, "certificationFiles");
  }

  const ProfileUpdateKind := "ProfileUpdate"
  const ProfileUpdateDetails := "Updated profile information"

  /** `updateProfile`: the stored profile is replaced and one activity entry
      appended; when the user no longer exists the update finds nothing and
      reading `updatedUser.profile` raises, a 500 with nothing changed. */
  function UpdateProfile(st: Store, me: Id, body: Obj, files: Uploads, now: Time): (r: Reply)
    ensures r.code in {200, 500}
    ensures r.code == 500 <==> me !in st.users
    ensures r.code == 500 ==> r.store == st
    ensures r.code == 200 ==>
              && r.store.jobs == st.jobs
              && r.store.users.Keys == st.users.Keys
              && (forall u :: u in st.users && u != me ==> r.store.users[u] == st.users[u])
              && r.store.users[me].profile == NewProfile(body, files)
              && r.store.users[me].jobApplications == st.users[me].jobApplications
              && r.store.users[me].activityLog
                 == st.users[me].activityLog + [Activity(ProfileUpdateKind, Str(ProfileUpdateDetails), now)]
              && r.store.users[me].role == st.users[me].role
  {
    if me !in st.users then Schema.Reply(500, st)
    else
      var user := st.users[me];
      Schema.Reply(200, st.(users := st.users[me := user.(
        profile := NewProfile(body, files),
        activityLog := user.activityLog + [Activity(ProfileUpdateKind, Str(ProfileUpdateDetails), now)])]))
  }

  /** The stored profile depends on the request alone: whatever the user had
      before, the same request leaves the same profile, so fields not sent
      are dropped. */
  lemma UpdateReplacesWholesale(st1: Store, st2: Store, me: Id, body: Obj, files: Uploads, t1: Time, t2: Time)
    requires me in st1.users && me in st2.users
    ensures UpdateProfile(st1, me, body, files, t1).store.users[me].profile
            == UpdateProfile(st2, me, body, files, t2).store.users[me].profile
    ensures forall k :: !HasKey(body, k) && k !in FileKeys ==>
              Get(UpdateProfile(st1, me, body, files, t1).store.users[me].profile, k) == Undefined
  {
    NewProfileTextFields(body, files);
  }

  /** The activity type written is outside the schema's enumeration; updates
      do not run validators, so it is stored anyway. */
  lemma UpdateLogsUnknownActivity(st: Store, me: Id, body: Obj, files: Uploads, now: Time)
    requires me in st.users
    ensures var log := UpdateProfile(st, me, body, files, now).store.users[me].activityLog;
            |log| > 0 && log[|log| - 1].kind !in ActivityTypes
  {
    ProfileUpdateNotAnActivityType();
  }
}
