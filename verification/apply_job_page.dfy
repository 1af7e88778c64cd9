/** The decision logic of the job page: the "already applied" flag, the
    "more jobs from this company" list, and the guards of the apply button. */
module ApplyJobPage {
  import opened Basics
  import opened Seqs
  import opened Store

  /** The page's own state: the job being viewed, once fetched, and the
      flag that picks the button label. */
  datatype Page = Page(jobData: Option<Job>, isAlreadyApplied: bool)

  const AlreadyAppliedLabel := "Already Applied"
  const ApplyNowLabel := "Apply Now"

  /** The label of both apply buttons. */
  function ButtonLabel(isAlreadyApplied: bool): (r: string)
    ensures r == AlreadyAppliedLabel <==> isAlreadyApplied
    ensures r == ApplyNowLabel <==> !isAlreadyApplied
  {
    if isAlreadyApplied then AlreadyAppliedLabel else ApplyNowLabel
  }

  /** The runtime's error when a null job reference (an application's, or the
      page's own unloaded job) is dereferenced. */
  const NullJobRef := Thrown("Cannot read properties of null (reading '_id')")

  /** Some application refers to the viewed job; applications whose job
      reference is missing are skipped. */
  function AlreadyApplied(apps: seq<AppView>, job: Job): (r: bool)
    ensures r <==> exists i :: 0 <= i < |apps| && apps[i].jobId == Some(job.id)
    decreases |apps|
  {
    if |apps| == 0 then false
    else if apps[0].jobId == Some(job.id) then true
    else
      var rest := AlreadyApplied(apps[1..], job);
      assert forall i :: 1 <= i < |apps| ==> apps[i] == apps[1..][i - 1];
      rest
  }

  /** `checkAlreadyApplied` as written: `some` dereferences every job
      reference it reaches, so a missing one before the first match throws. */
  function CheckAlreadyAppliedAsWritten(apps: seq<AppView>, job: Job): (r: Result<bool, Thrown>)
    ensures r.Err? <==> exists i :: 0 <= i < |apps| && apps[i].jobId.None? &&
                                   (forall k :: 0 <= k < i ==> apps[k].jobId != Some(job.id))
    ensures r.Ok? ==> r.value == AlreadyApplied(apps, job)
    decreases |apps|
  {
    if |apps| == 0 then Ok(false)
    else match apps[0].jobId
      case None => Err(NullJobRef)
      case Some(id) =>
        if id == job.id then Ok(true)
        else
          var rest := CheckAlreadyAppliedAsWritten(apps[1..], job);
          assert forall i :: 1 <= i < |apps| ==> apps[i] == apps[1..][i - 1];
          rest
  }

  /** A missing job reference ahead of the viewed job's application makes
      the as-written check throw, where the intended answer is `true`. */
  lemma AsWrittenThrowsOnMissingReference()
    ensures var apps := [AppView(None), AppView(Some("j1"))];
      && CheckAlreadyAppliedAsWritten(apps, Job("j1", "c1")).Err?
      && AlreadyApplied(apps, Job("j1", "c1"))
  {
  }

  /** The effect that refreshes the flag: it runs only when the application
      list is non-empty and the job is loaded, and otherwise leaves the old
      value in place. */
  function RecomputeFlag(page: Page, apps: seq<AppView>): (r: Page)
    ensures r.jobData == page.jobData
    ensures |apps| > 0 && page.jobData.Some? ==>
      (r.isAlreadyApplied <==> exists i :: 0 <= i < |apps| && apps[i].jobId == Some(page.jobData.value.id))
    ensures |apps| == 0 || page.jobData.None? ==> r == page
  {
    if |apps| > 0 && page.jobData.Some? then
      page.(isAlreadyApplied := AlreadyApplied(apps, page.jobData.value))
    else page
  }

  /** The flag effect as written: it calls the unguarded check, so a missing
      job reference before the first match throws out of the effect. */
  function RecomputeFlagAsWritten(page: Page, apps: seq<AppView>): (r: Result<Page, Thrown>)
    ensures r.Err? <==> |apps| > 0 && page.jobData.Some? &&
                        CheckAlreadyAppliedAsWritten(apps, page.jobData.value).Err?
    ensures r.Ok? ==> r.value == RecomputeFlag(page, apps)
  {
    if |apps| > 0 && page.jobData.Some? then
      match CheckAlreadyAppliedAsWritten(apps, page.jobData.value)
      case Ok(hasApplied) => Ok(page.(isAlreadyApplied := hasApplied))
      case Err(e) => Err(e)
    else Ok(page)
  }

  /** The ids of the jobs the user has applied to (`app.jobId && app.jobId._id`);
      a missing reference contributes nothing a job id could match. */
  function AppliedJobIds(apps: seq<AppView>): (r: set<JobId>)
    ensures forall i :: 0 <= i < |apps| && apps[i].jobId.Some? ==> apps[i].jobId.value in r
    ensures forall id :: id in r ==> exists i :: 0 <= i < |apps| && apps[i].jobId == Some(id)
  {
    set i | 0 <= i < |apps| && apps[i].jobId.Some? :: apps[i].jobId.value
  }

  /** First filter: another job of the viewed job's company. */
  function OtherJobOfCompany(job: Job): Job -> bool
  {
    (j: Job) => j.id != job.id && j.companyId == job.companyId
  }

  /** Second filter: a job the user has not applied to. */
  function NotAppliedTo(applied: set<JobId>): Job -> bool
  {
    (j: Job) => j.id !in applied
  }

  /** A job the recommendation list may show. */
  predicate Recommendable(j: Job, job: Job, apps: seq<AppView>)
  {
    j.id != job.id && j.companyId == job.companyId && j.id !in AppliedJobIds(apps)
  }

  /** `Recommendable` as a filter callback. */
  function RecommendableFilter(job: Job, apps: seq<AppView>): Job -> bool
  {
    (j: Job) => Recommendable(j, job, apps)
  }

  /** "More jobs from this company": the first four (or fewer) other jobs of
      the same company that the user has not applied to, in listing order. */
  function Recommendations(jobs: seq<Job>, job: Job, apps: seq<AppView>): (r: seq<Job>)
    ensures r == Take(Filter(RecommendableFilter(job, apps), jobs), 4)
    ensures |r| <= 4
    ensures IsSubseq(r, jobs)
    ensures forall i :: 0 <= i < |r| ==> Recommendable(r[i], job, apps)
    ensures |r| < 4 ==> forall i :: 0 <= i < |jobs| && Recommendable(jobs[i], job, apps) ==> jobs[i] in r
  {
    var sameCompany := Filter(OtherJobOfCompany(job), jobs);
    var notApplied := Filter(NotAppliedTo(AppliedJobIds(apps)), sameCompany);
    FilterFuse(NotAppliedTo(AppliedJobIds(apps)), OtherJobOfCompany(job), RecommendableFilter(job, apps), jobs);
    FilterIsSubseq(RecommendableFilter(job, apps), jobs);
    PrefixOfSubseq(notApplied, jobs, |Take(notApplied, 4)|);
    Take(notApplied, 4)
  }

  /** An application whose job reference is missing excludes nothing,
      wherever it sits in the list. */
  lemma MissingReferenceExcludesNothing(jobs: seq<Job>, job: Job, apps: seq<AppView>, k: nat)
    requires k <= |apps|
    ensures Recommendations(jobs, job, apps[..k] + [AppView(None)] + apps[k..]) == Recommendations(jobs, job, apps)
  {
    var apps' := apps[..k] + [AppView(None)] + apps[k..];
    forall id | id in AppliedJobIds(apps')
      ensures id in AppliedJobIds(apps)
    {
      var i :| 0 <= i < |apps'| && apps'[i].jobId == Some(id);
      if i < k {
        assert apps'[i] == apps[i];
      } else {
        assert apps'[i] == apps[i - 1];
      }
    }
    forall id | id in AppliedJobIds(apps)
      ensures id in AppliedJobIds(apps')
    {
      var i :| 0 <= i < |apps| && apps[i].jobId == Some(id);
      if i < k {
        assert apps'[i] == apps[i];
      } else {
        assert apps'[i + 1] == apps[i];
      }
    }
    assert AppliedJobIds(apps') == AppliedJobIds(apps);
  }

  /** A toast notification. */
  datatype Toast = ToastError(message: string) | ToastSuccess(message: string)

  /** What the apply request came back with: the server's `{success, message}`
      body, or a transport error. */
  datatype Delivery = Delivered(success: bool, message: string) | NetworkError(message: string)

  /** What one click does: the job id posted to the apply endpoint (if any),
      where the page navigates (if anywhere), the toast shown, and whether
      the application list is fetched again. */
  datatype Effect = Effect(request: Option<JobId>, navigateTo: Option<string>, toast: Toast, refetchApplications: bool)

  const LoginToApply := "Login to apply for jobs"
  const UploadResume := "Upload resume to apply"
  const ApplicationsPath := "/applications"

  /** `applyHandler`: the login guard, then the resume guard, then the POST,
      whose reply picks the toast. `send` stands for the authenticated
      request. The page's flag is not consulted. */
  function ApplyHandler(page: Page, userData: Option<User>, send: JobId -> Delivery): (r: Effect)
    ensures userData.None? ==> r == Effect(None, None, ToastError(LoginToApply), false)
    ensures userData.Some? && userData.value.resume == "" ==>
      r == Effect(None, Some(ApplicationsPath), ToastError(UploadResume), false)
    ensures r.request.Some? <==> userData.Some? && userData.value.resume != "" && page.jobData.Some?
    ensures r.request.Some? ==> r.request.value == page.jobData.value.id && r.navigateTo.None?
    ensures r.refetchApplications <==> r.request.Some? && send(r.request.value).Delivered? && send(r.request.value).success
    ensures r.request.Some? ==> r.toast.message == send(r.request.value).message
    ensures r.request.Some? ==>
      (r.toast.ToastSuccess? <==> send(r.request.value).Delivered? && send(r.request.value).success)
  {
    if userData.None? then Effect(None, None, ToastError(LoginToApply), false)
    else if userData.value.resume == "" then Effect(None, Some(ApplicationsPath), ToastError(UploadResume), false)
    else if page.jobData.None? then Effect(None, None, ToastError(NullJobRef.message), false)
    else
      var jobId := page.jobData.value.id;
      match send(jobId)
      case Delivered(success, message) =>
        if success then Effect(Some(jobId), None, ToastSuccess(message), true)
        else Effect(Some(jobId), None, ToastError(message), false)
      case NetworkError(message) => Effect(Some(jobId), None, ToastError(message), false)
  }

  /** The flag changes the label only: a click does the same either way. */
  lemma FlagOnlyChangesLabel(page: Page, userData: Option<User>, send: JobId -> Delivery)
    ensures ApplyHandler(page.(isAlreadyApplied := true), userData, send)
         == ApplyHandler(page.(isAlreadyApplied := false), userData, send)
    ensures ButtonLabel(true) != ButtonLabel(false)
  {
  }
}
