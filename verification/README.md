# IncluReach / abilitylink: a Dafny model of the job board core

IncluReach is a job board for people with disabilities. It ships as two
sibling stacks that share one design:

- **IncluReach**: an Express backend and a React frontend.
- **abilitylink**: a second backend and frontend.

Recruiters post jobs. Every posting first passes a **job verifier**, which
runs three text rules for obvious scams and otherwise asks a generative model
for a verdict. Candidates then:

- apply to jobs;
- follow their applications on a dashboard;
- keep a profile, which the dashboard scores for completeness.

Posters accept applicants from a "My Jobs" page. An acceptance becomes an
offer in the candidate's list of selected jobs.

This project models the decision logic of that core as pure Dafny functions
over immutable data. It proves what each handler and page does, and how the
pages and handlers fit together.

| module | file | models |
|---|---|---|
| `Js` | `js.dfy` | JavaScript values, truthiness, `String()`/`Number()`, and insertion-ordered plain objects |
| `Seqs`, `Text` | `seqs.dfy`, `text.dfy` | sequence and string helpers: filter, trim, lower-case, `includes`, `replace` |
| `Schema` | `schema.dfy` | the Mongoose job and user schemas: enumerations, required paths, `ObjectId.isValid` |
| `Verifier` | `verifier.dfy` | `verifyJobPosting`: the three regex rules, the prompt, the reply, the fallback |
| `JobOps` | `jobops.dfy` | the job handlers that are identical in both backends, plus IncluReach `closeJob` |
| `IncluReachJobs`, `AbilityLinkJobs` | `inclureach.dfy`, `abilitylink.dfy` | the two backends' `createJob`, `applyForJob` and `checkIfApplied` |
| `Dashboard` | `dashboard.dfy` | the abilitylink dashboard controller |
| `Profile` | `profile.dfy` | the abilitylink profile controller |
| `Seed` | `seed.dfy` | the IncluReach seed script's classification, recruiter assignment and tally |
| `FormLists`, `ProfileEditForm`, `JobForms` | `formlists.dfy`, `profileedit.dfy`, `jobforms.dfy` | the profile-edit and job-posting pages |
| `SalaryView`, `Pages` | `views.dfy` | `formatSalary` and the IncluReach dashboard, applications, job-list and selected-jobs pages |
| `MyJobsPage`, `JobDetailPage` | `mirrors.dfy` | the abilitylink "My Jobs" and job-detail pages, each checked against the handler it calls |

Some inputs are outside the model, so they become parameters:

- The generative model's answer is `AssessorReply`: either a reply text or a failure.
- The clock is a `Time` argument.
- The database is a `Store`, a pair of maps from canonical identifiers to documents.
- Listings take the collection already sorted newest first.

### Where the specification and the code disagree

The model follows the code in each of these cases:

- **A posting with no description.** The specification treats a missing description as empty. The verifier instead concatenates `title + description`, so the text the rules see ends in the word "undefined" (`IncluReach-backend/utils/geminiVerifier.js:56`). When no rule fires, the prompt is built inside the `try`, and the call `description.substring(0, 200)` there throws (`IncluReach-backend/utils/geminiVerifier.js:76`). The posting then gets the fallback verdict.
- **Closing a job on abilitylink.** The abilitylink routes import a `closeJob` that the abilitylink controller does not define. The "My Jobs" close flow is therefore checked against the IncluReach `closeJob`.

## Model

| member | source | states |
|---|---|---|
| Schema.Canon | abilitylink-backend/models/jobModel.js:5-40 | A valid identifier has one canonical, lower-case form. Applying it twice changes nothing (`CanonIdempotent`). |
| Schema.ControllerStatusesNotInSchema | abilitylink-backend/models/jobModel.js:40 | The statuses the controllers write ("active", "pending", "closed") are outside the schema's "Active"/"Closed" enumeration, so the status validator rejects them. |
| Schema.ProfileUpdateNotAnActivityType | abilitylink-backend/models/userModel.js:112-114 | The activity type "ProfileUpdate" that `updateProfile` writes is not in the activity enumeration. |
| Verifier.TestPattern | IncluReach-backend/utils/geminiVerifier.js:37-51 | The executable matcher decides exactly the reference meaning of each of the three regular expressions. `.*` stops at a line terminator, and `$[0-9,]+` is followed by an optional slash and a unit. |
| Verifier.DollarPeriodAtRunEnd | IncluReach-backend/utils/geminiVerifier.js:39 | `\$[0-9,]+\/?(week\|month\|hour)` matches at a `$` exactly when the longest digit/comma run after it is non-empty and followed by the suffix, so backtracking never helps. |
| Verifier.LaterAtLine | IncluReach-backend/utils/geminiVerifier.js:39-48 | `a.*p` with the word at `i` matches exactly when the probe starts somewhere between the word's end and the end of its line. |
| Verifier.InternGuard | IncluReach-backend/utils/geminiVerifier.js:48 | The internship exemption is a case-sensitive substring test on a string title and an element test on an array title. Any other title raises. |
| Verifier.ReasonsOf | IncluReach-backend/utils/geminiVerifier.js:53-58 | A reason is listed exactly when its rule fired, in rule order, at most once. The list is empty exactly when no rule fired. |
| Verifier.Flags | IncluReach-backend/utils/geminiVerifier.js:53-58 | The red flags are the reasons of exactly the rules that fire on `title + description`, in rule order, or `None` when the third rule's guard raises. |
| Verifier.RequirementsLine | IncluReach-backend/utils/geminiVerifier.js:76 | An array is joined and never renders empty. Missing, null or an empty join gives "None". Anything else has no `join` and raises. |
| Verifier.BuildPrompt | IncluReach-backend/utils/geminiVerifier.js:72-76 | The prompt can be built exactly when the description is a string and the requirements line can be built. The description sent is a prefix: exactly the first 200 characters of a longer description, and the whole description when it is that short. |
| Verifier.ReadReply | IncluReach-backend/utils/geminiVerifier.js:80-88 | The reply is valid exactly when its lower-cased text mentions "true" (trimming changes nothing). A valid reply has risk 0 and no flags; otherwise risk is 70 with the review flag. |
| Verifier.VerifyJobPosting | IncluReach-backend/utils/geminiVerifier.js:35-98 | The call rejects exactly when the guard raises. Every verdict is consistent. Risk is 100 exactly when a rule fired, and then the model is not asked. When the model is asked, it is sent the built prompt. Risk 0 needs a reply. |
| Verifier.FlaggedShortCircuits | IncluReach-backend/utils/geminiVerifier.js:60-67 | A flagged posting gets the scam verdict with the fired reasons, whatever the model would answer. |
| Verifier.UnflaggedReplyDecides | IncluReach-backend/utils/geminiVerifier.js:70-88 | With no rule firing and a buildable prompt, the posting is valid exactly when the reply mentions "true". |
| Verifier.FailuresFallBack | IncluReach-backend/utils/geminiVerifier.js:89-98 | With no rule firing, a model failure or an unbuildable prompt gives the permissive fallback verdict. |
| Verifier.RulesIgnoreOtherFields | IncluReach-backend/utils/geminiVerifier.js:56 | The company and the requirements never change which rules fire. |
| Verifier.PhraseMaySpanBoundary | IncluReach-backend/utils/geminiVerifier.js:56 | Title and description are joined without a separator, so "no experience needed" split across the two still fires the third rule. |
| Verifier.ExemptionIsCaseSensitive | IncluReach-backend/utils/geminiVerifier.js:48 | A title without a capital "I" is never exempt, so "intern" does not qualify. |
| Verifier.StatusFor | IncluReach-backend/controllers/jobsController.js:65 | A created job is "active" exactly when its verdict is valid, and "pending" otherwise. |
| Verifier.CreatedDoc | abilitylink-backend/controllers/jobsController.js:59-68 | The created document carries the poster, the status and the verification record. |
| Verifier.CreatedDocKeeps | abilitylink-backend/controllers/jobsController.js:59-68 | Every other body property reaches the created document unchanged. |
| Verifier.CreatedDocKeepsKey | abilitylink-backend/controllers/jobsController.js:59-68 | The same, for one given property. |
| Js.ToNumber | IncluReach-backend/controllers/jobsController.js:48 | `Number(v)`: a number is itself, null and a blank string are 0, booleans are 1 and 0, and undefined and plain objects are NaN. A string is its trimmed, optionally signed run of decimal digits. Partnered by `Js.NumberStringRoundTrip`: the string form of any integer converts back to it. |
| IncluReachJobs.NormalizeSalary | IncluReach-backend/controllers/jobsController.js:47-52 | The amount is `Number(amount)`, or 0 when that is not a number. Currency and period default to "USD" and "month" when falsy. The salary is public unless `isPublic` is exactly `false`. |
| IncluReachJobs.SalaryObjectFields | IncluReach-backend/controllers/jobsController.js:47-52 | The stored salary object reads back as the normalised salary. |
| IncluReachJobs.NormalizeSalaryIdempotent | IncluReach-backend/controllers/jobsController.js:47-52 | Normalising an already normalised salary changes nothing. |
| IncluReachJobs.StoredDoc | IncluReach-backend/controllers/jobsController.js:61-71 | The stored document carries the salary, the poster, the status and the verification. Every other body property is kept. |
| IncluReachJobs.CreateJob | IncluReach-backend/controllers/jobsController.js:42-85 | A job is never rejected. It fails with 500 exactly when the verifier throws. Otherwise it is stored with the verdict's status, the normalised salary, the caller as poster, the verification record and the body's other fields. |
| IncluReachJobs.CreatedActiveIffValid | IncluReach-backend/controllers/jobsController.js:55-71 | A stored job is published ("active") exactly when its verdict is valid. |
| IncluReachJobs.ScamsStoredPending | IncluReach-backend/controllers/jobsController.js:55-71 | A posting a rule flags is still stored, as "pending". |
| IncluReachJobs.ApplyForJob | IncluReach-backend/controllers/jobsController.js:125-197 | Returns 400 for a malformed id and 404 for a missing job or user. Succeeds exactly when the job does not yet list the user; the applicant entry, the application and the activity entry are then appended. Nothing changes otherwise. |
| IncluReachJobs.CheckIfApplied | IncluReach-backend/controllers/jobsController.js:199-226 | Returns 400 exactly for a malformed id. Otherwise answers whether the job lists the user. |
| IncluReachJobs.ApplyThenCheck | IncluReach-backend/controllers/jobsController.js:125-226 | After a successful apply, the check answers true and a second apply is refused with 400, leaving nothing changed. |
| AbilityLinkJobs.CreatedDocValid | abilitylink-backend/models/jobModel.js:5-40 | The created document casts and validates exactly when the body's fields do and the written status is in the enumeration. |
| AbilityLinkJobs.CreateJobUnder | abilitylink-backend/controllers/jobsController.js:42-82 | Under any status enumeration, a posting is refused with 400 exactly when a rule flags it. It is stored exactly when it is unflagged, its fields validate and its status is enumerated. The stored document's fields are stated. |
| AbilityLinkJobs.CreateJobAsWritten | abilitylink-backend/controllers/jobsController.js:42-82 | With the schema as written, nothing is ever stored: every unflagged posting ends in 500. |
| AbilityLinkJobs.CreateJob | abilitylink-backend/controllers/jobsController.js:42-82 | With the controller's statuses enumerated, the handler refuses exactly the flagged postings. It stores exactly the unflagged postings whose fields cast and validate, as "active" exactly when the verdict is valid. Casting covers `remote` as a boolean and `requirements` and `skills` as string lists. |
| AbilityLinkJobs.UncastableRemoteRefused | abilitylink-backend/models/jobModel.js:8-11 | A `remote` value that is not a boolean, 0, 1 or a boolean string, or a requirement or skill that is a list or object, keeps the posting out of the store. |
| AbilityLinkJobs.StatusEnumFailsEveryCreate | abilitylink-backend/models/jobModel.js:40 | Every request the corrected handler stores is answered 500 by the handler as written. |
| AbilityLinkJobs.OnlyScamsRefused | abilitylink-backend/controllers/jobsController.js:49-56 | A posting is refused exactly when a rule fires. A posting the model merely doubts is stored. |
| AbilityLinkJobs.ApplyForJob | abilitylink-backend/controllers/jobsController.js:121-219 | The guards apply in order: 400 for a malformed id, 404 for a missing job, 400 for the job's own poster, 500 for a missing user, 400 for a recruiter, 400 for an existing application. Success appends the entries; every failure leaves the store as it was. |
| AbilityLinkJobs.CheckIfApplied | abilitylink-backend/controllers/jobsController.js:229-256 | Returns 500 exactly for a malformed id. Otherwise answers whether the user holds an application for the job or the job lists the user. |
| AbilityLinkJobs.ApplyThenCheck | abilitylink-backend/controllers/jobsController.js:121-256 | After a successful apply, the check answers true and a second apply is refused with 400, leaving nothing changed. |
| AbilityLinkJobs.ApplicantListedTwice | abilitylink-backend/controllers/jobsController.js:164-198 | A user still listed on the job but holding no application for it is let through, and the job then lists them twice. |
| JobOps.ListActive | abilitylink-backend/controllers/jobsController.js:7-16 | The listing holds exactly the active jobs. |
| JobOps.ListActiveOrder | abilitylink-backend/controllers/jobsController.js:7-16 | The listing keeps the stored order and shows each active job as often as it is stored. |
| JobOps.ApproveJob | abilitylink-backend/controllers/jobsController.js:85-118 | Returns 500 for a malformed id and 404 for a missing job. Otherwise exactly that job becomes "active". |
| JobOps.CloseJob | IncluReach-backend/controllers/jobsController.js:423-462 | Returns 400 for a malformed id. Succeeds exactly for the caller's own active job, which becomes "closed" with nothing else changed. Every other case is 404 with nothing changed. |
| JobOps.CloseTwice | IncluReach-backend/controllers/jobsController.js:432-447 | A second close of the same job is 404. |
| JobOps.ApproveThenClose | IncluReach-backend/controllers/jobsController.js:423-462 | Approval reopens the poster's job, which the poster can then close. |
| JobOps.FindApplicant | abilitylink-backend/controllers/jobsController.js:318-328 | `findIndex` finds the first entry of the target. An entry whose user no longer exists raises before any later entry is looked at. |
| JobOps.OfferApplication | abilitylink-backend/controllers/jobsController.js:360-376 | Only the user's first application for the job becomes an offer and gains one update. Every other application is unchanged. |
| JobOps.AcceptApplicant | abilitylink-backend/controllers/jobsController.js:281-391 | Returns 400 for a malformed or missing id. Returns 404 exactly when the ids are valid and the job is missing or posted by someone else. Returns 500 exactly when the applicant scan reaches a deleted user first. Returns 200 exactly when the scan finds the user and they are not yet accepted. Then the user leaves the applicants, is accepted once, and their application becomes an offer. Every failure leaves the store as it was. |
| JobOps.AcceptSucceedsIff | abilitylink-backend/controllers/jobsController.js:306-344 | While every applicant entry names an existing user, the caller's own job accepts exactly a listed, not yet accepted applicant. Every other applicant gets 400. |
| JobOps.AcceptMovesApplicant | abilitylink-backend/controllers/jobsController.js:330-358 | After an acceptance, the user is accepted with exactly one more record. A second acceptance is refused. |
| JobOps.CleanPath | abilitylink-backend/controllers/jobsController.js:420-438 | A truthy string field loses a leading "public/" and every other field is kept. A truthy non-string raises. |
| JobOps.StripAll | abilitylink-backend/controllers/jobsController.js:420-438 | Every certification path loses a leading "public/". The call raises exactly when an element is not a string. |
| JobOps.CleanList | abilitylink-backend/controllers/jobsController.js:420-438 | A truthy certification list is stripped element-wise, and it raises unless it is an array of strings. |
| JobOps.GetApplicantDetails | abilitylink-backend/controllers/jobsController.js:393-452 | Returns 400 for a missing or malformed id and 404 for a missing user. For an existing user it returns 500 exactly when the image or resume is truthy but not a string, or the certification list is truthy but not an array of strings. Otherwise it returns the profile with the same keys. A truthy image or resume loses a leading "public/", as does every certification path. Falsy path fields and every other field are unchanged. |
| Dashboard.ProfileCompletion | abilitylink-backend/controllers/dashboardController.js:31-40 | The result is 25 times the number of passing tests among type, severity, non-empty skills and resume. It is 100 exactly when all four pass, and 0 exactly when none does. |
| Dashboard.AppliedJobIds | abilitylink-backend/controllers/dashboardController.js:77-82 | The job id of every application, in order. |
| Dashboard.Recommend | abilitylink-backend/controllers/dashboardController.js:43-82 | At most five jobs, each matching the query and none already applied to. Every result is among the first five matches, and the results keep their newest-first order. Every job among the first five matches that the user has not applied to is included. |
| Dashboard.RecommendWithoutApplications | abilitylink-backend/controllers/dashboardController.js:71-82 | A user who has applied to nothing is shown exactly the first five matches, newest first. |
| Dashboard.LimitBeforeFilter | abilitylink-backend/controllers/dashboardController.js:69-82 | The limit is applied before the applied-to filter, so an applied job among the first five matches leaves fewer than five recommendations. |
| Dashboard.CreatedJobsNeverRecommended | abilitylink-backend/controllers/dashboardController.js:44 | The query asks for "Active", so no job with a status the controllers write is ever recommended. |
| Dashboard.Summarize | abilitylink-backend/controllers/dashboardController.js:87-102 | The summaries are no more than the applications, and each has its job. |
| Dashboard.SummarizeKeepsResolved | abilitylink-backend/controllers/dashboardController.js:87-102 | Exactly the applications whose job still exists are summarised. |
| Dashboard.Shown | abilitylink-backend/controllers/dashboardController.js:104-110 | An activity entry with missing details reads "Activity recorded". Other entries are unchanged. |
| Dashboard.ActivityWindow | abilitylink-backend/controllers/dashboardController.js:104-110 | The first five stored entries, newest of them first. |
| Dashboard.WindowIgnoresLaterEntries | abilitylink-backend/controllers/dashboardController.js:104-110 | Entries after the fifth never reach the window. |
| Dashboard.GetDashboardData | abilitylink-backend/controllers/dashboardController.js:6-138 | Returns 400 for a malformed id and 404 for a missing user. Otherwise the payload is the completion, the summaries, the window and the recommendations. |
| Dashboard.GetOffers | abilitylink-backend/controllers/dashboardController.js:239-255 | Returns 500 exactly for a missing user. Otherwise returns exactly the applications with status "Offer", in their stored order. |
| Dashboard.OffersKeepMultiplicity | abilitylink-backend/controllers/dashboardController.js:248-250 | An offer appears as often as it is stored. |
| Dashboard.FirstAcceptance | abilitylink-backend/controllers/dashboardController.js:274-276 | The user's first acceptance record on the job: no earlier record names the user. `None` exactly when the job has none for the user. |
| Dashboard.SelectedDate | abilitylink-backend/controllers/dashboardController.js:292-293 | The acceptance time of the user's first acceptance record on the job, or the job's creation time when the user has none. |
| Dashboard.GetSelectedJobs | abilitylink-backend/controllers/dashboardController.js:257-311 | Exactly the jobs that accepted the user, each marked "Offer", with the count equal to the number of items. |
| Dashboard.SelectedDateIsAcceptance | abilitylink-backend/controllers/dashboardController.js:292-293 | The date of each selected job is always the acceptance time; the fallbacks are never taken. |
| Dashboard.WithdrawApplication | abilitylink-backend/controllers/dashboardController.js:205-236 | Returns 500 exactly for a malformed id and 404 exactly for a missing user. Success removes exactly the applications with that id, logs one entry, and leaves the jobs and other users alone. |
| Dashboard.WithdrawThenReapply | abilitylink-backend/controllers/dashboardController.js:205-236 | Apply, withdraw, apply: the second apply succeeds and the job lists the user twice. |
| Profile.CalculateCompletion | abilitylink-backend/controllers/profileController.js:19-35 | The result is 20 times the number of filled fields among the five tested ones. A filled field is a non-empty array, or any other truthy value. It is 100 exactly when all five are filled, and 0 exactly when none is. |
| Profile.CompletionMonotone | abilitylink-backend/controllers/profileController.js:19-35 | Filling in more fields never lowers the percentage. |
| Profile.SkillsTestsAgree | abilitylink-backend/controllers/profileController.js:28-32 | Any skills value the dashboard counts, this test counts too. |
| Profile.SampleProfile | abilitylink-backend/controllers/profileController.js:19-35 | A profile with only a type, a severity, one skill and a resume. |
| Profile.CompletionsDisagree | abilitylink-backend/controllers/profileController.js:19-35 | That profile is 100% complete for the dashboard and 60% complete here. |
| Profile.Coerce | abilitylink-backend/controllers/profileController.js:96-108 | The four flags become true exactly for "true" or `true`. Every other field is copied. |
| Profile.TextUpdates | abilitylink-backend/controllers/profileController.js:96-108 | The keys are the body's own, each coerced. |
| Profile.TextUpdatesIdempotent | abilitylink-backend/controllers/profileController.js:96-108 | Coercing twice is coercing once. |
| Profile.StoredPath | abilitylink-backend/controllers/profileController.js:111-125 | The first "public/" is removed wherever it occurs. |
| Profile.StoredPaths | abilitylink-backend/controllers/profileController.js:121-125 | Each certification path is stored stripped, in order. |
| Profile.FileUpdates | abilitylink-backend/controllers/profileController.js:111-125 | One stripped property per uploaded field, and no other property. |
| Profile.StripsDiffer | abilitylink-backend/controllers/profileController.js:113-123 | This strip agrees with `getApplicantDetails`' anchored one only at the start of the path. |
| Profile.NewProfile | abilitylink-backend/controllers/profileController.js:132 | `{...textUpdates, ...fileUpdates}`: an upload wins over a text field of the same name. |
| Profile.NewProfileTextFields | abilitylink-backend/controllers/profileController.js:96-132 | Text fields are stored as sent, flags are coerced, and unsent fields are absent. |
| Profile.NewProfileFileFields | abilitylink-backend/controllers/profileController.js:111-132 | An upload replaces its field. A field with no upload keeps whatever the body sent under that name. |
| Profile.UpdateProfile | abilitylink-backend/controllers/profileController.js:91-157 | For a body whose values cast to the profile schema's types, returns 500 exactly for a missing user, with nothing changed. Otherwise the profile is replaced and one activity entry is appended. Casting is not modelled; see "Left out". |
| Profile.UpdateReplacesWholesale | abilitylink-backend/controllers/profileController.js:128-133 | The stored profile depends only on the request, so fields not sent are dropped. |
| Profile.UpdateLogsUnknownActivity | abilitylink-backend/controllers/profileController.js:134-140 | The logged entry's type is outside the schema's enumeration. |
| Seed.AnyIncluded | IncluReach-backend/seed.js:916-929 | True exactly when one of the keywords occurs in the title. |
| Seed.FirstGroupFrom | IncluReach-backend/seed.js:916-929 | The first keyword group, in test order, with a keyword in the title. |
| Seed.GroupNamesAreProfessions | IncluReach-backend/seed.js:895-932 | The groups are the first seven profession types, in order. |
| Seed.CategoryFromTitle | IncluReach-backend/seed.js:895-932 | The category is a profession type: the first matching group, or "Other" exactly when no group matches. |
| Seed.ElectronicsTechnicianIsEngineering | IncluReach-backend/seed.js:718 | "Electronics Technician" holds a trade keyword but is classed as engineering, because that group is tried first. |
| Seed.JewelryDesignerIsCreative | IncluReach-backend/seed.js:534 | "Jewelry Designer" is classed as creative, not as a trade. |
| Seed.LowerCaseTitleIsOther | IncluReach-backend/seed.js:896-929 | Keywords are capitalised and the test is case-sensitive, so a lower-case title is "Other". |
| Seed.KeywordsCapitalised | IncluReach-backend/seed.js:896-914 | Every keyword starts with a capital letter. |
| Seed.AssignRecruiters | IncluReach-backend/seed.js:852-855 | Job `i` goes to recruiter `i mod n`. With no recruiters the script raises. |
| Seed.RoundRobinLoad | IncluReach-backend/seed.js:852-855 | Recruiter `j` of `n` gets `m/n` jobs, plus one if `j < m mod n`. |
| Seed.RoundRobinBalanced | IncluReach-backend/seed.js:852-855 | No recruiter gets more than one job more than another. |
| Seed.Bump | IncluReach-backend/seed.js:866-871 | Adds one to a category's count (absent counts as 0). Other categories are unchanged. |
| Seed.TallyCounts | IncluReach-backend/seed.js:866-871 | Each category counts its occurrences, and a category that never occurs is absent. |
| Seed.BumpTotal | IncluReach-backend/seed.js:866-871 | Each bump adds exactly one to the total. |
| Seed.TallyTotal | IncluReach-backend/seed.js:866-871 | The counts sum to the number of jobs. |
| Seed.TallyKeysAreProfessions | IncluReach-backend/seed.js:866-871 | Every tallied category is a profession type. |
| Seed.SeedTallyAccountsForEveryJob | IncluReach-backend/seed.js:10-875 | The 25 seed jobs are each counted once, under a profession type. |
| FormLists.RemoveItem | abilitylink-frontend/src/pages/ProfileEdit.jsx:98-103 | The value is gone and every other value keeps its count. |
| FormLists.RemoveItemAppend | abilitylink-frontend/src/pages/ProfileEdit.jsx:98-103 | Removal works element-wise, so survivors keep their order. |
| FormLists.RemoveAbsent | abilitylink-frontend/src/pages/ProfileEdit.jsx:98-103 | Removing an unlisted value changes nothing. |
| FormLists.AddUnique | abilitylink-frontend/src/pages/ProfileEdit.jsx:88-96 | The trimmed input is appended exactly when it is non-blank and not yet listed, and only then is the box cleared. No duplicate is ever introduced. |
| FormLists.AddUniqueTwice | abilitylink-frontend/src/pages/ProfileEdit.jsx:88-96 | Adding the same text twice adds it once. |
| FormLists.AddThenRemove | abilitylink-frontend/src/pages/ProfileEdit.jsx:88-103 | Adding a new value and then removing it restores the list. |
| FormLists.AddTrimmed | IncluReach-frontend/src/pages/CreateJob.jsx:40-47 | Blank input is ignored. Otherwise the trimmed value is appended even when it is already listed, and the box is cleared. |
| FormLists.AddHandlersAgreeOnNewValues | abilitylink-frontend/src/pages/CreateJob.jsx:32-39 | The two add handlers agree on new values. Only the profile page refuses a repeat. |
| FormLists.Toggle | IncluReach-frontend/src/pages/CreateJob.jsx:424-431 | The ticked type's membership flips, every other type's membership is unchanged, and no duplicate is introduced. |
| FormLists.RemoveKeepsDistinct | abilitylink-frontend/src/pages/CreateJob.jsx:238-244 | Unticking keeps the list duplicate-free. |
| FormLists.ToggleTwice | abilitylink-frontend/src/pages/CreateJob.jsx:238-244 | Ticking a type twice restores the list. |
| ProfileEditForm.OrEmpty | abilitylink-frontend/src/pages/ProfileEdit.jsx:47-56 | `v \|\| []` is always truthy and keeps a truthy value. |
| ProfileEditForm.LoadForm | abilitylink-frontend/src/pages/ProfileEdit.jsx:47-56 | A stored profile replaces the form, with the three lists defaulting to `[]`. Without a profile the form is unchanged. |
| ProfileEditForm.LoadFormIdempotent | abilitylink-frontend/src/pages/ProfileEdit.jsx:47-56 | Loading a loaded form changes no field. |
| ProfileEditForm.HandleChange | abilitylink-frontend/src/pages/ProfileEdit.jsx:68-74 | A checkbox stores its state and any other input its text. Other fields are unchanged. |
| ProfileEditForm.RemoveAt | abilitylink-frontend/src/pages/ProfileEdit.jsx:105-114 | Removes one element at a listed index. An index past the end removes nothing. |
| ProfileEditForm.RemoveAtRestores | abilitylink-frontend/src/pages/ProfileEdit.jsx:105-114 | Putting the element back restores the list, and only its count drops. |
| ProfileEditForm.RemoveCertification | abilitylink-frontend/src/pages/ProfileEdit.jsx:105-114 | Only the certification list changes. |
| ProfileEditForm.FieldValues | abilitylink-frontend/src/pages/ProfileEdit.jsx:124-136 | File fields send nothing. |
| ProfileEditForm.Flatten | abilitylink-frontend/src/pages/ProfileEdit.jsx:124-136 | Every entry names a form field that is not a file field. |
| ProfileEditForm.FlattenSends | abilitylink-frontend/src/pages/ProfileEdit.jsx:124-136 | The server receives under each name exactly that field's flattening: list elements in order, a scalar once, nothing for null or undefined. |
| ProfileEditForm.NothingSentFor | abilitylink-frontend/src/pages/ProfileEdit.jsx:124-147 | File fields, cleared lists and null fields never reach the server. |
| ProfileEditForm.CheckboxRoundTrip | abilitylink-frontend/src/pages/ProfileEdit.jsx:124-136 | A checkbox is sent as "true"/"false", which `updateProfile` turns back into the same boolean. |
| ProfileEditForm.SaveWithoutResumeDropsIt | abilitylink-frontend/src/pages/ProfileEdit.jsx:124-147 | Saving without a new resume erases the stored one, and the dashboard completion drops below 100. |
| JobForms.InitialFormsAgree | IncluReach-frontend/src/pages/CreateJob.jsx:10-26 | The two pages' initial forms agree on every field but the salary. |
| JobForms.InitialSalaryNormalizes | IncluReach-frontend/src/pages/CreateJob.jsx:10-26 | The untouched salary is stored as 0 a month in dollars, public. |
| JobForms.InitialFormNotStored | abilitylink-frontend/src/pages/CreateJob.jsx:9-19 | The untouched form is never stored, because its title is empty. |
| JobForms.ResponseOf | IncluReach-backend/controllers/jobsController.js:73-84 | A stored job answers 2xx with success and the job. A refusal answers with the scam message, and an error with "Server error". |
| JobForms.SubmitOutcome | IncluReach-frontend/src/pages/CreateJob.jsx:56-81 | "Posted" requires an active job. A verdict is kept only from a success:false answer. A failed request always toasts. |
| JobForms.OutcomeOfResult | IncluReach-frontend/src/pages/CreateJob.jsx:64-75 | How the page reads each of the three handler outcomes. |
| JobForms.IncluReachSubmitOutcome | IncluReach-frontend/src/pages/CreateJob.jsx:56-81 | Against the IncluReach handler: "posted" exactly for a valid verdict, "rejected" exactly for a pending job, and never the success:false branch. |
| JobForms.AbilityLinkScamToast | IncluReach-frontend/src/pages/CreateJob.jsx:56-81 | Against abilitylink, a scam surfaces exactly as a toast with the server's message. |
| JobForms.BannersForVerdicts | IncluReach-frontend/src/pages/CreateJob.jsx:89-123 | For verifier verdicts, the red banner shows exactly for an invalid verdict and the yellow one never does. |
| JobForms.NoBannerAfterSubmit | IncluReach-frontend/src/pages/CreateJob.jsx:89-123 | Against either handler, neither banner ever shows. |
| JobForms.Navigates | abilitylink-frontend/src/pages/CreateJob.jsx:48-60 | The page leaves the form exactly after a 2xx answer. |
| JobForms.AbilityLinkNavigatesIffStored | abilitylink-frontend/src/pages/CreateJob.jsx:48-60 | It leaves exactly when the job was stored, whether active or pending. |
| SalaryView.Symbol | IncluReach-frontend/src/pages/JobsList.jsx:30-51 | An unknown currency prints as its own code. |
| SalaryView.KnownSymbols | IncluReach-frontend/src/pages/JobsList.jsx:30-51 | USD, EUR, GBP and INR print their signs. |
| SalaryView.UnknownSymbol | IncluReach-frontend/src/pages/JobsList.jsx:30-51 | Any other currency prints its code, and a missing one prints "undefined". |
| SalaryView.Suffix | IncluReach-frontend/src/pages/JobsList.jsx:30-51 | An unknown period adds nothing. |
| SalaryView.KnownSuffixes | IncluReach-frontend/src/pages/JobsList.jsx:30-51 | The five known periods print their abbreviations. |
| SalaryView.UnknownSuffix | IncluReach-frontend/src/pages/JobsList.jsx:30-51 | Any other period adds nothing. |
| SalaryView.FormatSalary | IncluReach-frontend/src/pages/Applications.jsx:29-50 | Gives nothing exactly when the amount or the public flag is falsy. Otherwise gives sign, amount and abbreviation run together. |
| SalaryView.NormalizedSalaryShown | abilitylink-frontend/src/pages/JobDetail.jsx:96-110 | A normalised salary shows exactly when its amount is nonzero and it is public. A posting without a salary shows none. |
| SalaryView.FrequencyLabel | abilitylink-frontend/src/pages/JobDetail.jsx:132-140 | The label is one of the five words. |
| SalaryView.LabelAndSuffixAgree | abilitylink-frontend/src/pages/JobDetail.jsx:132-140 | Label and abbreviation agree on the five known periods. Any other period is labelled "Yearly" with no abbreviation. |
| SalaryView.SlotAsWritten | IncluReach-frontend/src/pages/JobsList.jsx:94 | The salary block renders exactly when both operands are truthy. |
| SalaryView.ZeroAmountRendersZero | IncluReach-frontend/src/pages/JobsList.jsx:94 | A job created without a salary renders a bare "0" in the job list. The card slot is written the same way and would render "0" for such a salary. |
| SalaryView.SalarySlot | IncluReach-frontend/src/pages/Applications.jsx:125-126 | The intended slot: the salary block exactly when amount and public flag are truthy, and never bare text. |
| SalaryView.SlotsAgreeExceptZero | IncluReach-frontend/src/pages/SelectedJobsPage.jsx:145 | The written slots equal the intended one unless an operand is the number 0. |
| Pages.CountOf | IncluReach-frontend/src/pages/Dashboard.jsx:44-55 | An integer count wins, then an array's length, otherwise 0. |
| Pages.BareArrayCountsZero | IncluReach-frontend/src/pages/Dashboard.jsx:44-55 | The applications endpoint's bare array always counts 0. |
| Pages.SelectedCountShown | IncluReach-frontend/src/pages/Dashboard.jsx:44-55 | The selected-jobs card shows the number of jobs `getSelectedJobs` found. |
| Pages.Completion | IncluReach-frontend/src/pages/Dashboard.jsx:58 | `Number(x) \|\| 0`. |
| Pages.CompletionCardAgrees | IncluReach-frontend/src/pages/Dashboard.jsx:164-166 | The card shows the handler's percentage, with "View Profile" exactly when all four fields are filled. |
| Pages.RecentActivity | IncluReach-frontend/src/pages/Dashboard.jsx:61-63 | The first five entries of an array, otherwise none. |
| Pages.WindowListedWhole | IncluReach-frontend/src/pages/Dashboard.jsx:213 | The handler's window of at most five is listed whole. |
| Pages.VisibleApplications | IncluReach-frontend/src/pages/Applications.jsx:16 | Exactly the applications whose job is not null. |
| Pages.VisibleApplicationsStable | IncluReach-frontend/src/pages/Applications.jsx:16 | Filtering twice drops nothing more, and a deleted job's application is hidden. |
| Pages.StatusBadge | IncluReach-frontend/src/pages/Applications.jsx:167-178 | A falsy status gets no badge. A badge other than red means one of the three known statuses. |
| Pages.BadgesTellStatusesApart | IncluReach-frontend/src/pages/Applications.jsx:167-178 | The badge tells the four statuses apart, and only "Rejected" is red. |
| Pages.JobListView | IncluReach-frontend/src/pages/JobsList.jsx:53-57 | Loading comes first, then the error, then the empty state. Cards show exactly otherwise. |
| Pages.ShownSkills | IncluReach-frontend/src/pages/JobsList.jsx:104 | At most the first three skills. |
| Pages.JobOf | IncluReach-frontend/src/pages/SelectedJobsPage.jsx:119 | `jobApp.jobId \|\| jobApp`. |
| Pages.PosterOf | IncluReach-frontend/src/pages/SelectedJobsPage.jsx:120 | `job.postedBy \|\| {}` is always truthy. |
| Pages.DateShown | IncluReach-frontend/src/pages/SelectedJobsPage.jsx:208-210 | `updatedAt`, else `acceptedAt`. |
| Pages.SelectedCardsAgainstHandler | IncluReach-frontend/src/pages/SelectedJobsPage.jsx:119-210 | For every item the handler sends, the card finds the job but its date is undefined, and neither salary nor skills are shown. |
| MyJobsPage.AcceptLocally | abilitylink-frontend/src/pages/MyJobs.jsx:73-99 | Every entry of the user leaves the applicants and one acceptance is appended. This throws exactly when the user is not an applicant. |
| MyJobsPage.AcceptInList | abilitylink-frontend/src/pages/MyJobs.jsx:73-99 | Only the target job is moved, and the call throws exactly when the target does not list the user. |
| MyJobsPage.HandleAccept | abilitylink-frontend/src/pages/MyJobs.jsx:60-99 | Without both ids, or without a 200, nothing changes. Other jobs never change. |
| MyJobsPage.AcceptMirrorsServer | abilitylink-backend/controllers/jobsController.js:281-391 | From a copy in step with the store, the page's copy stays in step with the store after `acceptApplicant`, whatever the answer. |
| MyJobsPage.Pending | abilitylink-frontend/src/pages/MyJobs.jsx:742-759 | Exactly the applicants not yet accepted. |
| MyJobsPage.PendingAfterAccept | abilitylink-frontend/src/pages/MyJobs.jsx:742-759 | After an accept, the pending list is the old one without the user, in order. |
| MyJobsPage.HandleClose | abilitylink-frontend/src/pages/MyJobs.jsx:159-182 | Without a selection or a 200, nothing changes. Otherwise only the selected job reads "closed". |
| MyJobsPage.CloseMirrorsServer | IncluReach-backend/controllers/jobsController.js:423-462 | The copy stays in step with the store after `closeJob`, whatever the answer. |
| MyJobsPage.CloseOfferedIffAllowed | abilitylink-frontend/src/pages/MyJobs.jsx:686 | For the poster's own job, "Close Job" is offered exactly when the handler would close it. |
| MyJobsPage.FetchGuardWeakerThanServer | abilitylink-frontend/src/pages/MyJobs.jsx:117-123 | Every valid id passes the page's guard, but the guard also passes strings the server refuses with 400. |
| JobDetailPage.IsPosterOrRecruiter | abilitylink-frontend/src/pages/JobDetail.jsx:91-94 | Recruiters are always recognised. An unpopulated `postedBy` never identifies the poster. |
| JobDetailPage.ApplySlot | abilitylink-frontend/src/pages/JobDetail.jsx:241-271 | "Apply Now" is shown exactly for a signed-in user who is neither the poster nor a recruiter and has not applied. The login link is shown exactly when no one is signed in. |
| JobDetailPage.ApplyNowOnlyWhereAccepted | abilitylink-backend/controllers/jobsController.js:121-256 | "Apply Now" is offered only where `applyForJob` answers 200. The poster's and recruiters' notes appear only where it answers 400. |
| JobDetailPage.SpreadList | abilitylink-frontend/src/pages/JobDetail.jsx:65-76 | A falsy value spreads to nothing and an array to its elements. Any other non-string throws. |
| JobDetailPage.LocalApply | abilitylink-frontend/src/pages/JobDetail.jsx:62-88 | After a 200 for a signed-in user, one entry is appended to the applicants and every other field is kept. Nothing changes otherwise. |
| JobDetailPage.LocalApplyMirrorsServer | abilitylink-backend/controllers/jobsController.js:177-219 | If the page's list named the job's applicants before a successful apply, it still does after it. |

## Findings

| source | as written | input that shows it | evidently intended | confidence | as-written member | corrected member |
|---|---|---|---|---|---|---|
| abilitylink-backend/models/jobModel.js:40 | The status enumeration is "Active"/"Closed", but `createJob` writes "active" or "pending" (abilitylink-backend/controllers/jobsController.js:62). Validation fails and every unflagged posting gets 500. | Any posting with a title, company, location and description that no rule flags, and no field that fails to cast. | Jobs are stored as "active" or "pending". | high, not executed | AbilityLinkJobs.CreateJobAsWritten | AbilityLinkJobs.CreateJob |
| IncluReach-frontend/src/pages/JobsList.jsx:94 | The slot `salary.isPublic && salary.amount && <block>` renders the number 0. The job list receives whole job documents from `getJobs`, salary included. | A job posted without a salary, which `createJob` stores as `{amount: 0, isPublic: true}`. | No salary is shown. | high, not executed | SalaryView.ZeroAmountRendersZero | SalaryView.SalarySlot |

## Left out

- Mongoose casting, strict-mode stripping of undeclared paths and `populate` are modelled only in some places. These are the 500 for an id that will not cast, the null a deleted user populates to, and the typed paths of the abilitylink job on create.
- Profile.UpdateProfile: does not model how `findByIdAndUpdate` casts the `$set` profile. A value the user schema cannot cast gives 500 in the source for an existing user. Examples are `profileCompletion: "abc"` and an object under `skills`. The model stores such a value. Strict mode also drops body keys the user schema does not declare, which the model keeps. Modelling this needs Mongoose's per-type cast rules, including Number parsing of strings, which this integer-only model cannot state faithfully.
- AbilityLinkJobs.CreateJob: casts only `remote`, `requirements`, `skills` and the validated paths. Body keys that name the job's other schema paths (`applicants`, `acceptedApplicants`, `_id`, the timestamps) are not cast. In the source such a key can make `Job.create` fail with 500.
- `ObjectId.isValid` also accepts any 12-character string. `Schema.ValidId` accepts only 24 hexadecimal digits.
- The IncluReach `createJob` runs schema validation too. The IncluReach job model is not part of this model, so `IncluReachJobs.CreateJob` stores every posting whose verifier call returns.
- File uploads are out of scope: `processFileUploads`, multer's parsing, and the detail that a repeated multipart field arrives as a string or an array. `Profile.Uploads` gives the paths directly.
- Authentication, rendering, toasts, navigation and loading states are out of scope. The clock is a parameter.
- MyJobsPage.AcceptMirrorsServer: assumes the client clock reads the same as the server's, because the page stamps the acceptance itself.
- Numbers are integers: there are no floats or `NaN` values. `Number()` of a string is modelled only for an optionally signed run of decimal digits, with surrounding white space, and for a blank string. Every other string is `None`. This includes numeric strings such as "1.5", "1e3", "0x10", "1.0", "5." and "Infinity".
- IncluReachJobs.NormalizeSalary: parses only optionally signed decimal-digit amounts. An amount such as "1e3", "0x10" or "1.0", which a number input can send, is stored as 0 in the model. The source stores 1000, 16 and 1. Exponent, hexadecimal and fractional forms are left out with the rest of floating point.
- `formatSalary` looks up currency and period codes in plain object literals. Codes naming inherited properties such as "toString" are not modelled.
- Pages.ShownSkills: treats any non-array skills value as no skills. In the source, every skills value that is neither an array nor null or undefined makes the job list throw. A string's three-character slice has no `.map`. A number or an object has no `.slice`.
- ProfileEditForm.RemoveCertification: requires the certification list to be an array, which the page always loads it as.
- `handleMultiSelect` in the profile edit page is not modelled. Neither is the merge of the saved profile back into the form after a save (abilitylink-frontend/src/pages/ProfileEdit.jsx:157).
- Several handlers are modelled only through the data they return to the pages above: `getJobById`, `getMyJobs`, `getApplications` and the IncluReach dashboard controller. The latter is not part of this model.
- Applicants whose account was deleted populate to null on the "My Jobs" page, and rendering them throws. This is not modelled.
- The abilitylink `closeJob` is imported by its routes but missing from its controller, so the page is checked against the IncluReach handler.
- The seed script's database writes and console output are left out. Only its classification, assignment and tally logic is modelled.
- Verifier.BuildPrompt: counts the 200 characters of `substring` as Unicode scalar values. JavaScript counts UTF-16 code units, so a character outside the Basic Multilingual Plane counts once in the model and twice in the source.
- The text of the verifier prompt's template is not modelled. `Verifier.Prompt` holds only the four interpolated values.
