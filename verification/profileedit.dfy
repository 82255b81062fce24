/** The profile edit page: loading the stored profile into the form, the
    change and certification handlers, and the flattening of the form into
    the multipart entries `updateProfile` receives. */
module ProfileEditForm {
  import opened Seqs
  import opened Text
  import opened Js
  import opened Schema
  import opened Profile
  import Dashboard

  // ---------------------------------------------------------------------
  // Loading

  /** The list fields that load as `x || []`. */
  const LoadedLists: seq<string> := ["accommodationRequirements", "preferredContactMethods", "certificationFiles"]

  /** `v || []`. */
  function OrEmpty(v: Value): (r: Value)
    ensures Truthy(r)
    ensures Truthy(v) ==> r == v
  {
    if Truthy(v) then v else Arr([])
  }

  /** The form once the dashboard answers: the stored profile replaces the
      form, with the three list fields defaulting to `[]`; without a stored
      profile the form stays as it was. */
  function LoadForm(form: Obj, profile: Option<Obj>): (r: Obj)
    ensures profile.None? ==> r == form
    ensures profile.Some? ==> Get(r, "accommodationRequirements") == OrEmpty(Get(profile.value, "accommodationRequirements"))
    ensures profile.Some? ==> Get(r, "preferredContactMethods") == OrEmpty(Get(profile.value, "preferredContactMethods"))
    ensures profile.Some? ==> Get(r, "certificationFiles") == OrEmpty(Get(profile.value, "certificationFiles"))
    ensures profile.Some? ==> forall k :: k !in LoadedLists ==> Get(r, k) == Get(profile.value, k)
  {
    match profile
    case None => form
    case Some(p) =>
      var a := Set(p, "accommodationRequirements", OrEmpty(Get(p, "accommodationRequirements")));
      var b := Set(a, "preferredContactMethods", OrEmpty(Get(p, "preferredContactMethods")));
      var c := Set(b, "certificationFiles", OrEmpty(Get(p, "certificationFiles")));
      assert Get(c, "accommodationRequirements") == Get(a, "accommodationRequirements") by {
        assert "accommodationRequirements"[0] == 'a';
        assert "preferredContactMethods"[0] == 'p' && "certificationFiles"[0] == 'c';
      }
      assert Get(c, "preferredContactMethods") == Get(b, "preferredContactMethods") by {
        assert "preferredContactMethods"[0] == 'p' && "certificationFiles"[0] == 'c';
      }
      c
  }

  /** Loading a form that was already loaded changes no field. */
  lemma LoadFormIdempotent(form: Obj, p: Obj, k: string)
    ensures var once := LoadForm(form, Some(p));
            Get(LoadForm(once, Some(once)), k) == Get(once, k)
  {
  }

  // ---------------------------------------------------------------------
  // Handlers

  /** `handleChange`: a checkbox stores its `checked` state, any other
      input its text. */
  function HandleChange(form: Obj, name: string, isCheckbox: bool, value: string, checked: bool): (r: Obj)
    ensures Get(r, name) == if isCheckbox then Bool(checked) else Str(value)
    ensures forall k :: k != name ==> Get(r, k) == Get(form, k)
  {
    Set(form, name, if isCheckbox then Bool(checked) else Str(value))
  }

  /** `copy.splice(index, 1)` for an index the page renders, which is never
      negative: an index past the end removes nothing. */
  function RemoveAt(files: seq<Value>, index: nat): (r: seq<Value>)
    ensures index < |files| ==> |r| == |files| - 1
    ensures index >= |files| ==> r == files
  {
    if index < |files| then files[..index] + files[index + 1..] else files
  }

  /** Exactly the element at the index goes: putting it back restores the
      list, and no other element's count changes. */
  lemma RemoveAtRestores(files: seq<Value>, index: nat)
    requires index < |files|
    ensures var r := RemoveAt(files, index);
            r[..index] + [files[index]] + r[index..] == files
    ensures multiset(RemoveAt(files, index)) + multiset{files[index]} == multiset(files)
  {
    var r := RemoveAt(files, index);
    assert r[..index] == files[..index];
    assert r[index..] == files[index + 1..];
    assert files == files[..index] + [files[index]] + files[index + 1..];
  }

  /** `handleRemoveCertification`: the listed certificate at `index` is
      removed and every other field is left alone. */
  function RemoveCertification(form: Obj, index: nat): (r: Obj)
    requires Get(form, "certificationFiles").Arr?
    ensures Get(r, "certificationFiles") == Arr(RemoveAt(Get(form, "certificationFiles").items, index))
    ensures forall k :: k != "certificationFiles" ==> Get(r, k) == Get(form, k)
  {
    Set(form, "certificationFiles", Arr(RemoveAt(Get(form, "certificationFiles").items, index)))
  }

  // ---------------------------------------------------------------------
  // Submission

  /** The strings appended for one form field: nothing for the three file
      fields, one entry per element for an array, nothing for null and
      undefined, and the string form of any other value. */
  function FieldValues(k: string, v: Value): (r: seq<string>)
    ensures k in FileKeys ==> r == []
  {
    if k in FileKeys then []
    else match v
      case Arr(items) => Map(items, ToJsString)
      case Null => []
      case Undefined => []
      case _ => [ToJsString(v)]
  }

  /** `(k, s)` for each string. */
  function Tagged(k: string, vs: seq<string>): (r: seq<(string, string)>)
    ensures |r| == |vs|
    ensures forall i :: 0 <= i < |r| ==> r[i] == (k, vs[i])
  {
    seq(|vs|, i requires 0 <= i < |vs| => (k, vs[i]))
  }

  /** The entries appended to the multipart body, field by field in the
      form's key order. */
  function Flatten(form: Obj): (r: seq<(string, string)>)
    ensures forall i :: 0 <= i < |r| ==> r[i].0 !in FileKeys && HasKey(form, r[i].0)
  {
    if |form| == 0 then []
    else
      var rest := Flatten(form[1..]);
      var head := Tagged(form[0].0, FieldValues(form[0].0, form[0].1));
      HasKeyCons(form[0], form[1..], form[0].0);
      assert form == [form[0]] + form[1..];
      forall i | 0 <= i < |rest| ensures HasKey(form, rest[i].0) {
        HasKeyCons(form[0], form[1..], rest[i].0);
      }
      head + rest
  }

  /** The strings sent under one name, in order. */
  function Sent(entries: seq<(string, string)>, k: string): (r: seq<string>)
    ensures |r| <= |entries|
  {
    if |entries| == 0 then []
    else (if entries[0].0 == k then [entries[0].1] else []) + Sent(entries[1..], k)
  }

  lemma {:induction false} SentAppend(a: seq<(string, string)>, b: seq<(string, string)>, k: string)
    ensures Sent(a + b, k) == Sent(a, k) + Sent(b, k)
  {
    if |a| == 0 {
      assert a + b == b;
    } else {
      assert (a + b)[0] == a[0];
      assert (a + b)[1..] == a[1..] + b;
      SentAppend(a[1..], b, k);
    }
  }

  lemma {:induction false} SentTagged(j: string, vs: seq<string>, k: string)
    ensures Sent(Tagged(j, vs), k) == if j == k then vs else []
  {
    if |vs| > 0 {
      assert Tagged(j, vs)[1..] == Tagged(j, vs[1..]);
      SentTagged(j, vs[1..], k);
    }
  }

  /** A name no entry carries is sent nothing. */
  lemma {:induction false} SentNone(entries: seq<(string, string)>, k: string)
    requires forall i :: 0 <= i < |entries| ==> entries[i].0 != k
    ensures Sent(entries, k) == []
  {
    if |entries| > 0 {
      SentNone(entries[1..], k);
    }
  }

  /** Reading a property of a non-empty object: the first entry, or the
      rest. */
  lemma GetHead(form: Obj, k: string)
    requires |form| > 0
    ensures Get(form, k) == if form[0].0 == k then form[0].1 else Get(form[1..], k)
  {
    if form[0].0 == k {
      KeyIndexIs(form, k, 0);
    } else {
      assert form == [form[0]] + form[1..];
      assert !HasKey([form[0]], k);
      GetAppend([form[0]], form[1..], k);
    }
  }

  /** The rest of an object with distinct names has distinct names and no
      longer holds the first name. */
  lemma DistinctRest(form: Obj)
    requires |form| > 0 && DistinctKeys(form)
    ensures DistinctKeys(form[1..]) && !HasKey(form[1..], form[0].0)
  {
    var rest := form[1..];
    forall i, j | 0 <= i < j < |rest| ensures rest[i].0 != rest[j].0 {
      assert rest[i] == form[i + 1] && rest[j] == form[j + 1];
    }
    forall i | 0 <= i < |rest| ensures rest[i].0 != form[0].0 {
      assert rest[i] == form[i + 1];
    }
  }

  /** What the server receives under a name is exactly that field's
      flattening: each element of a list in order, a scalar once, and
      nothing for null, undefined, an empty list or a file field. */
  lemma {:induction false} FlattenSends(form: Obj, k: string)
    requires DistinctKeys(form)
    ensures Sent(Flatten(form), k) == FieldValues(k, Get(form, k))
  {
    if |form| > 0 {
      var x := form[0];
      var rest := form[1..];
      DistinctRest(form);
      GetHead(form, k);
      SentAppend(Tagged(x.0, FieldValues(x.0, x.1)), Flatten(rest), k);
      SentTagged(x.0, FieldValues(x.0, x.1), k);
      if x.0 == k {
        SentNone(Flatten(rest), k);
      } else {
        FlattenSends(rest, k);
      }
    }
  }

  /** The file fields and the cleared lists never reach the server. */
  lemma NothingSentFor(form: Obj, k: string)
    requires DistinctKeys(form)
    requires k in FileKeys || Get(form, k) == Arr([]) || Get(form, k) == Null || !HasKey(form, k)
    ensures Sent(Flatten(form), k) == []
  {
    FlattenSends(form, k);
  }

  /** A ticked or cleared checkbox reaches the server as "true" or "false",
      which `updateProfile` turns back into the same boolean. */
  lemma CheckboxRoundTrip(form: Obj, k: string, b: bool)
    requires DistinctKeys(form)
    requires k in FlagKeys && Get(form, k) == Bool(b)
    ensures Sent(Flatten(form), k) == [ToJsString(Bool(b))]
    ensures Coerce(k, Str(ToJsString(Bool(b)))) == Bool(b)
  {
    assert k !in FileKeys by {
      assert k[0] in {'n', 'r'};
      assert FileKeys[0][0] == 'p' && FileKeys[2][0] == 'c';
      assert FileKeys[1] == "resumeFile" && k != "resumeFile" by {
        assert |FileKeys[1]| == 10;
      }
    }
    FlattenSends(form, k);
  }

  /** The body the server parses from the entries carries only names that
      were sent. */
  ghost predicate CarriesOnlySent(body: Obj, entries: seq<(string, string)>)
  {
    forall k :: HasKey(body, k) ==> Sent(entries, k) != []
  }

  /** Saving the form without attaching a new resume erases the stored one:
      the form never sends the stored path back, and the profile is replaced
      wholesale, so the dashboard's completion can no longer be 100. */
  lemma SaveWithoutResumeDropsIt(form: Obj, body: Obj, st: Store, me: Id, files: Uploads, now: Time)
    requires DistinctKeys(form) && CarriesOnlySent(body, Flatten(form))
    requires me in st.users && files.resumeFile.None?
    ensures var saved := UpdateProfile(st, me, body, files, now).store.users[me].profile;
            && Get(saved, "resumeFile") == Undefined
            && Dashboard.ProfileCompletion(saved) < 100
  {
    NothingSentFor(form, "resumeFile");
    assert !HasKey(body, "resumeFile");
    NewProfileFileFields(body, files);
  }
}
