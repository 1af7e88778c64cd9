/** The authenticated user endpoints: profile lookup, applying for a job,
    listing one's applications, and replacing one's resume. Every handler
    replies with a JSON body whose `success` flag reports the outcome; none
    sets an HTTP status, so every reply goes out as 200. */
module UserController {
  import opened Basics
  import opened Seqs
  import opened Store

  /** The JSON reply bodies: `{success: false, message}`,
      `{success: true, message}`, `{success: true, user}` and
      `{success: true, application}`. */
  datatype Reply =
    | Failure(message: string)
    | Success(message: string)
    | UserData(user: User)
    | Applications(applications: seq<Application>)
  {
    predicate IsSuccess() { !Failure? }
  }

  const UserNotFoundMsg := "User not found"
  const AlreadyAppliedMsg := "Already Applied"
  const JobNotFoundMsg := "Job Not found"
  const AppliedMsg := "Applied Successfully!"
  const ResumeUpdatedMsg := "Resume Updated"

  /** The runtime's messages when a missing user document is dereferenced. */
  const NullSetResume := "Cannot set properties of null (setting 'resume')"
  const NullReadSave := "Cannot read properties of null (reading 'save')"

  /** `getUserData`: the caller's own record. */
  function GetUserData(users: Users, userId: UserId): (r: Reply)
    ensures r.IsSuccess() <==> userId in users
    ensures userId in users ==> r == UserData(users[userId])
    ensures UsersWellKeyed(users) && r.UserData? ==> r.user.id == userId
    ensures !r.IsSuccess() ==> r.message == UserNotFoundMsg
  {
    if userId in users then UserData(users[userId]) else Failure(UserNotFoundMsg)
  }

  /** The query filter `{jobId, userId}`. */
  function OfPair(userId: UserId, jobId: JobId): Application -> bool
  {
    (a: Application) => ForPair(a, userId, jobId)
  }

  /** The query filter `{userId}`. */
  function OwnedBy(userId: UserId): Application -> bool
  {
    (a: Application) => a.userId == userId
  }

  /** The applications a `find({jobId, userId})` query returns. */
  function PairApplications(apps: seq<Application>, userId: UserId, jobId: JobId): (r: seq<Application>)
    ensures forall i :: 0 <= i < |r| ==> ForPair(r[i], userId, jobId)
    ensures |r| > 0 <==> exists i :: 0 <= i < |apps| && ForPair(apps[i], userId, jobId)
  {
    FilterNonEmpty(OfPair(userId, jobId), apps);
    Filter(OfPair(userId, jobId), apps)
  }

  /** How many applications the (user, job) pair has. */
  function PairCount(apps: seq<Application>, userId: UserId, jobId: JobId): nat
  {
    |PairApplications(apps, userId, jobId)|
  }

  /** The reply of `applyForJob` and the application collection after it. */
  datatype ApplyOutcome = ApplyOutcome(reply: Reply, apps: seq<Application>)

  /** `applyForJob`: the duplicate check comes first, then the job lookup,
      then the insert; `now` is the clock reading stored as the date. */
  function ApplyForJob(db: Db, userId: UserId, jobId: JobId, now: int): (r: ApplyOutcome)
    ensures PairCount(db.apps, userId, jobId) > 0 ==>
      r == ApplyOutcome(Failure(AlreadyAppliedMsg), db.apps)
    ensures PairCount(db.apps, userId, jobId) == 0 && jobId !in db.jobs ==>
      r == ApplyOutcome(Failure(JobNotFoundMsg), db.apps)
    ensures r.reply.IsSuccess() <==> PairCount(db.apps, userId, jobId) == 0 && jobId in db.jobs
    ensures r.reply.IsSuccess() ==>
      && r.reply == Success(AppliedMsg)
      && r.apps == db.apps + [Application(userId, db.jobs[jobId].companyId, jobId, now)]
    ensures !r.reply.IsSuccess() ==> r.apps == db.apps
    ensures PairCount(r.apps, userId, jobId) == if r.reply.IsSuccess() then 1 else PairCount(db.apps, userId, jobId)
  {
    if |PairApplications(db.apps, userId, jobId)| > 0 then
      ApplyOutcome(Failure(AlreadyAppliedMsg), db.apps)
    else if jobId !in db.jobs then
      ApplyOutcome(Failure(JobNotFoundMsg), db.apps)
    else
      var a := Application(userId, db.jobs[jobId].companyId, jobId, now);
      FilterAppendAccepted(OfPair(userId, jobId), db.apps, a);
      ApplyOutcome(Success(AppliedMsg), db.apps + [a])
  }

  /** One `applyForJob` call: the authenticated user, the requested job and
      the clock reading at the time of the call. */
  datatype ApplyRequest = ApplyRequest(userId: UserId, jobId: JobId, now: int)

  /** Serve the requests one after another; only the application
      collection changes. */
  function RunApplies(db: Db, reqs: seq<ApplyRequest>): (r: Db)
    ensures r.users == db.users && r.jobs == db.jobs
    ensures |db.apps| <= |r.apps| <= |db.apps| + |reqs|
    ensures r.apps[..|db.apps|] == db.apps
    decreases |reqs|
  {
    if |reqs| == 0 then db
    else
      var o := ApplyForJob(db, reqs[0].userId, reqs[0].jobId, reqs[0].now);
      RunApplies(db.(apps := o.apps), reqs[1..])
  }

  /** A successful application never creates a second one for its pair. */
  lemma ApplyKeepsNoDuplicates(db: Db, userId: UserId, jobId: JobId, now: int)
    requires NoDuplicateApplications(db.apps)
    ensures NoDuplicateApplications(ApplyForJob(db, userId, jobId, now).apps)
  {
  }

  /** Under one-at-a-time execution, no sequence of `applyForJob` calls
      ever gives a (user, job) pair two applications. */
  lemma {:induction false} SequentialAppliesKeepNoDuplicates(db: Db, reqs: seq<ApplyRequest>)
    requires NoDuplicateApplications(db.apps)
    ensures NoDuplicateApplications(RunApplies(db, reqs).apps)
    decreases |reqs|
  {
    if |reqs| > 0 {
      ApplyKeepsNoDuplicates(db, reqs[0].userId, reqs[0].jobId, reqs[0].now);
      var o := ApplyForJob(db, reqs[0].userId, reqs[0].jobId, reqs[0].now);
      SequentialAppliesKeepNoDuplicates(db.(apps := o.apps), reqs[1..]);
    }
  }

  /** The pairwise invariant says the same as "every pair has at most one
      application". */
  lemma NoDuplicatesIffAtMostOne(apps: seq<Application>)
    ensures NoDuplicateApplications(apps) <==>
      forall u, j :: PairCount(apps, u, j) <= 1
  {
    if NoDuplicateApplications(apps) {
      forall u, j
        ensures PairCount(apps, u, j) <= 1
      {
        FilterAtMostOne(OfPair(u, j), apps);
      }
    } else {
      var i, k :| 0 <= i < k < |apps| && ForPair(apps[k], apps[i].userId, apps[i].jobId);
      var u, j := apps[i].userId, apps[i].jobId;
      FilterAtLeastTwo(OfPair(u, j), apps, i, k);
      assert PairCount(apps, u, j) >= 2;
    }
  }

  /** Starting from an empty collection, any sequence of calls leaves every
      (user, job) pair with at most one application. */
  lemma AtMostOneApplicationPerPair(users: Users, jobs: Jobs, reqs: seq<ApplyRequest>, u: UserId, j: JobId)
    ensures PairCount(RunApplies(Db(users, jobs, []), reqs).apps, u, j) <= 1
  {
    SequentialAppliesKeepNoDuplicates(Db(users, jobs, []), reqs);
    NoDuplicatesIffAtMostOne(RunApplies(Db(users, jobs, []), reqs).apps);
  }

  /** `getUserJobApplication`: the caller's applications in store order. The
      source's "no application found" branch tests a query result that is
      always an array, so the reply is a success even when it is empty. */
  function GetUserJobApplication(apps: seq<Application>, userId: UserId): (r: Reply)
    ensures r.Applications?
    ensures forall i :: 0 <= i < |r.applications| ==> r.applications[i].userId == userId
    ensures forall i :: 0 <= i < |apps| && apps[i].userId == userId ==> apps[i] in r.applications
    ensures IsSubseq(r.applications, apps)
    ensures forall a :: multiset(r.applications)[a] == if a.userId == userId then multiset(apps)[a] else 0
  {
    FilterIsSubseq(OwnedBy(userId), apps);
    FilterMultiset(OwnedBy(userId), apps);
    Applications(Filter(OwnedBy(userId), apps))
  }

  /** `populate('jobId', ...)` on the listed applications: each job
      reference is resolved against the job collection, and is missing when
      the job document is gone. */
  function Populate(apps: seq<Application>, jobs: Jobs): (r: seq<AppView>)
    ensures |r| == |apps|
    ensures forall i :: 0 <= i < |r| ==> (r[i].jobId.None? <==> apps[i].jobId !in jobs)
    ensures forall i :: 0 <= i < |r| && r[i].jobId.Some? ==> r[i].jobId.value == apps[i].jobId
    ensures forall id :: (exists i :: 0 <= i < |r| && r[i].jobId == Some(id)) <==>
                         id in jobs && exists i :: 0 <= i < |apps| && apps[i].jobId == id
  {
    var r := seq(|apps|, i requires 0 <= i < |apps| =>
      AppView(if apps[i].jobId in jobs then Some(apps[i].jobId) else None));
    assert forall i :: 0 <= i < |apps| && apps[i].jobId in jobs ==> r[i].jobId == Some(apps[i].jobId);
    r
  }

  /** The uploaded file's path on the server. */
  type FilePath = string

  /** The media host's answer to an upload. */
  datatype UploadResult = Uploaded(secureUrl: string) | UploadFailed(message: string)

  /** The reply of `updateUserResume`, the user store after it, and whether
      the file was sent to the media host. */
  datatype ResumeOutcome = ResumeOutcome(reply: Reply, users: Users, uploaded: bool)

  /** `updateUserResume`: look the user up, upload the file if there is one
      and set `resume` to its URL, then save. The upload happens before the
      missing user is noticed. */
  function UpdateUserResume(users: Users, userId: UserId, file: Option<FilePath>, upload: FilePath -> UploadResult): (r: ResumeOutcome)
    ensures r.uploaded <==> file.Some?
    ensures r.reply.IsSuccess() <==> userId in users && (file.None? || upload(file.value).Uploaded?)
    ensures r.reply.IsSuccess() ==> r.reply == Success(ResumeUpdatedMsg)
    ensures !r.reply.IsSuccess() ==> r.users == users
    ensures file.None? ==> r.users == users
    ensures r.users.Keys == users.Keys
    ensures forall k :: k in users && k != userId ==> r.users[k] == users[k]
    ensures file.Some? && r.reply.IsSuccess() ==>
      r.users[userId] == users[userId].(resume := upload(file.value).secureUrl)
  {
    match file
    case None =>
      if userId in users then ResumeOutcome(Success(ResumeUpdatedMsg), users, false)
      else ResumeOutcome(Failure(NullReadSave), users, false)
    case Some(path) =>
      match upload(path)
      case UploadFailed(msg) => ResumeOutcome(Failure(msg), users, true)
      case Uploaded(url) =>
        if userId in users then
          ResumeOutcome(Success(ResumeUpdatedMsg), users[userId := users[userId].(resume := url)], true)
        else ResumeOutcome(Failure(NullSetResume), users, true)
  }
}
