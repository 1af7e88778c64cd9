# Job board: webhook reconciler, application service and apply page

A Dafny model of the three pieces of sequential logic in a job-board web
application (an Express/MongoDB backend with a React frontend):

- **Identity webhook reconciler** (`clerkWebhooks`). It checks that the
  webhook secret is configured and passes the request through the
  signature library's verifier. It then switches on the event type:
  `user.created` inserts a user record, `user.updated` overwrites its
  email, name and image, `user.deleted` removes it, and any other type is
  rejected. Each path answers with a fixed HTTP status and message. Any
  thrown error reaches an outer catch that answers 500.
- **User controller**. `applyForJob` checks for a duplicate (user, job)
  pair first, then looks up the job, then inserts. `getUserData` looks up
  the caller's profile. `getUserJobApplication` lists the caller's
  applications. `updateUserResume` uploads a file and stores its URL.
  Every handler replies `{success, message}` (or a payload) and never sets
  a status code.
- **Apply page**. The "already applied" test drives the label of both
  apply buttons. The effect recomputes that flag; the model's effect uses
  the corrected test (see Findings), beside the effect as written. The
  "more jobs from this company" list excludes the viewed job, other
  companies' jobs and jobs already applied to, and keeps the first four. The guards of the apply
  button come last.

The document database is abstracted as a `map` per keyed collection and a
`seq` for the application collection, which is kept in insertion order.
Each handler is a pure function from the store and the request to a reply
and the new store. The two controllers import the user model from two
different paths; the model assumes both paths name one user store.

Parameters stand for the foreign parts:
- the signature check is an opaque `Verifier`;
- the media host's upload is a function `FilePath -> UploadResult`;
- the clock reading stored on an application is the argument `now`;
- the page's authenticated POST is a function `JobId -> Delivery`.

Modules: `Basics` (Option, Result, thrown errors), `Seqs` (filter, take,
subsequence, with lemmas), `Store` (entities and store invariants),
`Webhooks`, `UserController`, `ApplyJobPage`, and `Scenarios`, which holds
properties that span several handlers.

Points of the webhook handler worth stating plainly:
- the display name is `first_name + " " + last_name` with no trimming, and
  an absent part renders as `null` or `undefined`
  (server/controllers/webhooks.js:44);
- a failed signature check answers 400 "Webhook verification failed"
  (server/controllers/webhooks.js:30);
- every thrown error, whatever its message, answers 500 "Webhook
  processing error" (server/controllers/webhooks.js:89-91);
- there is no existence check before an insert, so a replayed
  `user.created` fails at `User.create` on the existing primary key and
  answers 500 (server/controllers/webhooks.js:51).

## Model

| member | source | states |
|---|---|---|
| Webhooks.OrEmpty | server/controllers/webhooks.js:45 | `v \|\| ""` is non-empty exactly when `v` is a non-empty string, and is then that string |
| Webhooks.FirstEmail | server/controllers/webhooks.js:43 | a non-empty email is the first listed address; a first address that is a string is taken as it is; no addresses, or a first entry that is `null` or absent, give "" |
| Webhooks.DisplayName | server/controllers/webhooks.js:44 | the name starts with the rendered first name, then one space, and the rest is the rendered last name, with nothing trimmed |
| Webhooks.OnCreated | server/controllers/webhooks.js:40-53 | `user.created` succeeds exactly when the address list exists and the id is new; it then answers 201 "User created", adds exactly that key, keeps every other record, and stores id, first email, name, image or "", and an empty resume |
| Webhooks.OnUpdated | server/controllers/webhooks.js:55-71 | `user.updated` on an absent id answers 404 "User not found" with the store unchanged; on a present id it answers 200 "User updated", replaces only email, name and image, and keeps the id, the resume and every other record |
| Webhooks.OnDeleted | server/controllers/webhooks.js:73-82 | `user.deleted` on an absent id answers 404 with the store unchanged; otherwise it answers 200 "User deleted" and removes exactly that key; it never changes a record it keeps |
| Webhooks.Dispatch | server/controllers/webhooks.js:33-88 | a handled event type without `data` throws; with `data`, `user.created`, `user.updated` and `user.deleted` get exactly the result of their own handler; the possible answers are 201, 200 or 404, and 200 or 404; any other type answers 400 "Unhandled event type"; a failure answer never changes the store |
| Webhooks.ClerkWebhooks | server/controllers/webhooks.js:5-93 | the status is one of 200, 201, 400, 404, 500, and success holds exactly for 200 and 201; a missing or empty secret answers 500 "Webhook processing error"; a rejected signature answers 400 "Webhook verification failed"; success implies both checks passed; a request that passes both checks gets the switch's result, or 500 with the store unchanged when the switch throws; every failure leaves the store unchanged; the store stays keyed by user id |
| Scenarios.SignedUserCreatedExample | server/controllers/webhooks.js:40-53 | a signed `user.created` for "u1" with address "a@b.com", names "A" and "B" and no image stores `{u1, a@b.com, "A B", "", ""}` and answers 201 |
| Scenarios.ReplayedCreateIsRejected | server/controllers/webhooks.js:51-91 | a verified `user.created` for an existing id answers 500 "Webhook processing error" and leaves the store as it was |
| Scenarios.CreatedUserIsVisible | server/controllers/userController.js:13-18 | after a successful `user.created`, `getUserData` for that id returns the record with its id, display name and empty resume |
| Scenarios.ResumeSurvivesProfileUpdate | server/controllers/webhooks.js:55-70 | after create, resume upload and `user.updated`, the record has the update's email, name and image and the uploaded resume URL |
| Scenarios.CreateThenDeleteRestores | server/controllers/webhooks.js:73-82 | `user.deleted` undoes a successful `user.created` for the same id and restores the original store |
| Scenarios.SecondDeleteIsNotFound | server/controllers/webhooks.js:75-79 | delivering the same `user.deleted` twice answers 404 the second time and changes nothing |
| UserController.GetUserData | server/controllers/userController.js:7-23 | a present id's reply carries exactly its stored record, whose id is the requested one; an absent id gives a failure reply "User not found" |
| UserController.PairApplications | server/controllers/userController.js:35-37 | the `{jobId, userId}` query returns only that pair's applications, and returns some exactly when the collection holds one |
| UserController.ApplyForJob | server/controllers/userController.js:26-59 | an existing pair answers "Already Applied" whether or not the job exists; otherwise a missing job answers "Job Not found"; both leave the collection unchanged; success appends exactly `{userId, job's companyId, jobId, now}` with "Applied Successfully!" and leaves the pair with one application |
| UserController.RunApplies | server/controllers/userController.js:26-59 | serving requests one after another changes only the application collection, and only by appending at most one application per request |
| UserController.ApplyKeepsNoDuplicates | server/controllers/userController.js:35-53 | one `applyForJob` call preserves "no two applications share a (user, job) pair" |
| UserController.SequentialAppliesKeepNoDuplicates | server/controllers/userController.js:35-53 | any sequence of `applyForJob` calls preserves the no-duplicate invariant |
| UserController.NoDuplicatesIffAtMostOne | server/controllers/userController.js:35-39 | the pairwise invariant holds exactly when every (user, job) pair has at most one application |
| UserController.AtMostOneApplicationPerPair | server/controllers/userController.js:35-53 | starting from no applications, any sequence of calls leaves every pair with at most one application |
| Scenarios.SecondApplyIsRefused | server/controllers/userController.js:35-39 | after a successful application, a second one for the same pair answers "Already Applied", adds nothing, and the pair keeps one application |
| UserController.GetUserJobApplication | server/controllers/userController.js:62-85 | always a success reply; it holds the caller's applications and no others, as a subsequence of the collection in store order, with each application's multiplicity kept |
| UserController.UpdateUserResume | server/controllers/userController.js:88-110 | the upload happens exactly when a file is given; the reply succeeds exactly when the user exists and any upload succeeded; with no file nothing changes; a failure leaves the store unchanged; success with a file changes only that user's resume, to the uploaded URL |
| UserController.Populate | server/controllers/userController.js:66-69 | the list keeps one entry per application, in order; each entry is missing exactly when its own application's job is gone, and otherwise names that application's job; a job id appears as a resolved reference exactly when that job exists and some listed application refers to it |
| ApplyJobPage.ButtonLabel | client/src/pages/ApplyJob.jsx:132 | the label is "Already Applied" exactly when the flag is set, and "Apply Now" otherwise |
| ApplyJobPage.AlreadyApplied | client/src/pages/ApplyJob.jsx:79-84 | true exactly when some application refers to the viewed job's id (the corrected check, which skips missing references) |
| ApplyJobPage.CheckAlreadyAppliedAsWritten | client/src/pages/ApplyJob.jsx:79-84 | the check as written throws exactly when a missing job reference comes before the first match; otherwise it agrees with `AlreadyApplied` |
| ApplyJobPage.AsWrittenThrowsOnMissingReference | client/src/pages/ApplyJob.jsx:80 | applications `[missing, j1]` make the as-written check throw on job j1, where the intended answer is true |
| ApplyJobPage.RecomputeFlag | client/src/pages/ApplyJob.jsx:94-99 | the effect with the corrected check: with a non-empty application list and a loaded job, the flag becomes "some application refers to the job"; otherwise the page is left as it was, stale flag included |
| ApplyJobPage.RecomputeFlagAsWritten | client/src/pages/ApplyJob.jsx:94-99 | the effect as written throws exactly when its guard holds and the unguarded check throws; otherwise it leaves the page as the corrected effect does |
| ApplyJobPage.AppliedJobIds | client/src/pages/ApplyJob.jsx:148 | the applied-id set holds exactly the ids of the present job references |
| ApplyJobPage.Recommendations | client/src/pages/ApplyJob.jsx:146-151 | the two chained filters equal one filter on "another job of the viewed job's company that the user has not applied to", and the list is the first four jobs that pass it; it is at most four long and a subsequence of the jobs list in listing order; with fewer than four, every such job is listed |
| ApplyJobPage.MissingReferenceExcludesNothing | client/src/pages/ApplyJob.jsx:147-150 | an application with a missing job reference, inserted at any position, leaves the recommendation list unchanged |
| ApplyJobPage.ApplyHandler | client/src/pages/ApplyJob.jsx:45-77 | with no user it yields "Login to apply for jobs" and sends nothing; with an empty resume it navigates to /applications, yields "Upload resume to apply" and sends nothing; otherwise it posts the viewed job's id, and the toast shows the reply's message; the toast is a success toast, and applications are refetched, exactly on a successful reply; an unsuccessful reply or a transport error gives an error toast |
| ApplyJobPage.FlagOnlyChangesLabel | client/src/pages/ApplyJob.jsx:132-140 | a click does the same with the flag set or clear; only the label differs |
| Scenarios.FlagMeansServerHasApplication | client/src/pages/ApplyJob.jsx:94-99 | the flag becomes set only when the server holds an application of this user for the viewed job |
| Scenarios.FlaggedClickIsRefusedByServer | client/src/pages/ApplyJob.jsx:45-65 | with the flag set and a resume on file, a click still posts the request; the server answers "Already Applied", adds nothing, and the page shows that error without refetching |

## Findings

| source | as written | input that shows it | evidently intended | confidence | as-written member | corrected member |
|---|---|---|---|---|---|---|
| client/src/pages/ApplyJob.jsx:80 | `some(item => item.jobId._id === jobData._id)` dereferences every job reference it reaches, with no null check; line 148 guards the same field | applications `[{jobId: null}, {jobId: {_id: "j1"}}]` while viewing job "j1": the effect throws instead of setting the flag | skip applications whose job reference is missing, as line 148 does, and report true | not executed; medium (needs an application whose job document is gone) | ApplyJobPage.AsWrittenThrowsOnMissingReference | ApplyJobPage.AlreadyApplied |

## Left out

- The signature scheme: HMAC, timestamps, key versions and header parsing belong to the signature library. `Verifier` is opaque. The library verifies a re-serialised `JSON.stringify(req.body)`, not the raw bytes; that is folded into the opaque check.
- A malformed secret that makes the signature library's constructor throw is not modelled; only an unset or empty secret is.
- `data.id` is modelled as always present. A missing `data` object and a missing `email_addresses` array are modelled as thrown errors, which answer 500.
- Mongoose behaviour beyond map and sequence semantics is left out: schema validation, a unique email index, ObjectId casting errors and `populate` projections (except the missing-job case, see `UserController.Populate`). The user, job and application schemas are not part of this model.
- Database failures other than the duplicate primary key are left out. In the user controller they would reach the catch blocks as `{success: false, message: error.message}`.
- The application `status` field and its schema default are not modelled; the insert does not set it.
- The authentication middleware is not part of this model; `req.auth.userId` is taken as given.
- Concurrency is out of scope: the check-then-insert race in `applyForJob` and overlapping webhook deliveries. Requests are served one at a time.
- `client/src/context/AppContext.jsx` (fetching and storing payloads) and `server/routes/companyRoutes.js` (route wiring only) are not modelled.
- Rendering, toast display, `fetchJob`, `getToken`, `k-convert` salary formatting, `moment` dates and console logging are not modelled. Navigation appears only as a returned outcome.
- The thrown error messages are written in V8's wording: in `updateUserResume` the server (Node.js) dereferences a missing user, and in `checkAlreadyApplied` the browser dereferences a missing job reference. Only the fact that an error is thrown matters to the model.
- ApplyJobPage.RecomputeFlag: uses the corrected check, so it sets the flag where the page's effect as written throws on a missing job reference before the first match. `ApplyJobPage.RecomputeFlagAsWritten` models that throw. The corrected effect is the one the cross-handler lemmas build on.
