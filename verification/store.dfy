/** The persisted entities, with the document database abstracted as
    in-memory maps and a sequence.

    The webhook controller and the user controller import the user model
    from two different module paths; this model assumes both name the same
    collection, so there is exactly one user store. */
module Store {
  import opened Basics

  type UserId = string
  type JobId = string
  type CompanyId = string

  /** A user account. `id` is the identity provider's user id, also the
      primary key; `resume` is the URL of the uploaded resume, "" if none. */
  datatype User = User(id: UserId, email: string, name: string, image: string, resume: string)

  /** A job posting, reduced to what the modelled logic reads. */
  datatype Job = Job(id: JobId, companyId: CompanyId)

  /** A job application linking a user, a job and the job's company;
      `date` is the creation time in milliseconds. */
  datatype Application = Application(userId: UserId, companyId: CompanyId, jobId: JobId, date: int)

  /** An application as the application listing sends it, after its job
      reference is populated: the job's id, or `None` when the referenced
      job document is gone. */
  datatype AppView = AppView(jobId: Option<JobId>)

  /** The user collection, keyed by primary key. */
  type Users = map<UserId, User>

  /** The job collection, keyed by primary key. */
  type Jobs = map<JobId, Job>

  /** The three collections the user controller reads and writes. The
      application collection is kept in insertion order. */
  datatype Db = Db(users: Users, jobs: Jobs, apps: seq<Application>)

  /** Every stored user sits under its own primary key. */
  predicate UsersWellKeyed(users: Users)
  {
    forall k :: k in users ==> users[k].id == k
  }

  /** Every stored job sits under its own primary key. */
  predicate JobsWellKeyed(jobs: Jobs)
  {
    forall k :: k in jobs ==> jobs[k].id == k
  }

  /** The application belongs to the given (user, job) pair. */
  predicate ForPair(a: Application, userId: UserId, jobId: JobId)
  {
    a.userId == userId && a.jobId == jobId
  }

  /** No two applications share a (user, job) pair. */
  predicate NoDuplicateApplications(apps: seq<Application>)
  {
    forall i, j :: 0 <= i < j < |apps| ==>
      !ForPair(apps[j], apps[i].userId, apps[i].jobId)
  }
}
