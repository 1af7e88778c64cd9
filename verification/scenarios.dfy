/** Properties that span more than one handler: the webhook-created user as
    the user endpoints and the job page then see it, repeated requests, and
    the apply button on a job the user has already applied to. */
module Scenarios {
  import opened Basics
  import opened Seqs
  import opened Store
  import opened Webhooks
  import opened UserController
  import opened ApplyJobPage

  /** A request whose headers the verifier accepted under `secret`. */
  predicate Accepted(secret: Option<string>, verify: Verifier, req: Request)
  {
    SecretSet(secret) && verify(req.body, req.headers, secret.value)
  }

  /** A user event request with the given type and data. */
  function UserEvent(headers: Headers, eventType: string, data: EventData): Request
  {
    Request(headers, Body(eventType, Some(data)))
  }

  /** A signed `user.created` for "u1" with one address and both names
      stores `{_id: "u1", email: "a@b.com", name: "A B", resume: ""}` with an
      empty image, and answers 201. */
  lemma SignedUserCreatedExample(secret: Option<string>, verify: Verifier, users: Users, headers: Headers)
    requires "u1" !in users
    requires Accepted(secret, verify, UserEvent(headers, CreatedEvent,
      EventData("u1", Some([Text("a@b.com")]), Text("A"), Text("B"), Undefined)))
    ensures var o := ClerkWebhooks(secret, verify, users, UserEvent(headers, CreatedEvent,
      EventData("u1", Some([Text("a@b.com")]), Text("A"), Text("B"), Undefined)));
      && o.response.status == 201
      && o.users == users["u1" := User("u1", "a@b.com", "A B", "", "")]
  {
    var data := EventData("u1", Some([Text("a@b.com")]), Text("A"), Text("B"), Undefined);
    var req := UserEvent(headers, CreatedEvent, data);
    assert DisplayName(data) == "A B";
    assert FirstEmail([Text("a@b.com")]) == "a@b.com";
    assert Dispatch(users, req.body) == OnCreated(users, data);
    var o := ClerkWebhooks(secret, verify, users, req);
    assert o.users["u1"] == User("u1", "a@b.com", "A B", "", "");
  }

  /** A replayed `user.created` is refused by the store's primary key: the
      answer is 500 and the store keeps the first record. */
  lemma ReplayedCreateIsRejected(secret: Option<string>, verify: Verifier, users: Users, req: Request)
    requires Accepted(secret, verify, req)
    requires req.body.eventType == CreatedEvent && req.body.data.Some?
    requires req.body.data.value.id in users
    ensures ClerkWebhooks(secret, verify, users, req) == Outcome(ProcessingError, users)
  {
  }

  /** A user created by the webhook is what `getUserData` then returns. */
  lemma CreatedUserIsVisible(secret: Option<string>, verify: Verifier, users: Users, req: Request)
    requires Accepted(secret, verify, req)
    requires req.body.eventType == CreatedEvent && req.body.data.Some?
    requires ClerkWebhooks(secret, verify, users, req).response.success
    ensures var d := req.body.data.value;
      var r := GetUserData(ClerkWebhooks(secret, verify, users, req).users, d.id);
      && r.UserData?
      && r.user.id == d.id
      && r.user.name == DisplayName(d)
      && r.user.resume == ""
  {
  }

  /** Create, upload a resume, then `user.updated`: email, name and image
      come from the update, the resume survives it. */
  lemma ResumeSurvivesProfileUpdate(
    secret: Option<string>, verify: Verifier, users: Users,
    create: Request, path: FilePath, upload: FilePath -> UploadResult, update: Request)
    requires Accepted(secret, verify, create) && Accepted(secret, verify, update)
    requires create.body.eventType == CreatedEvent && create.body.data.Some?
    requires update.body.eventType == UpdatedEvent && update.body.data.Some?
    requires update.body.data.value.id == create.body.data.value.id
    requires update.body.data.value.emailAddresses.Some?
    requires ClerkWebhooks(secret, verify, users, create).response.success
    requires upload(path).Uploaded?
    ensures var id := create.body.data.value.id;
      var afterCreate := ClerkWebhooks(secret, verify, users, create).users;
      var afterUpload := UpdateUserResume(afterCreate, id, Some(path), upload);
      var afterUpdate := ClerkWebhooks(secret, verify, afterUpload.users, update);
      var d := update.body.data.value;
      && afterUpload.reply.IsSuccess()
      && afterUpdate.response == UserUpdated
      && afterUpdate.users[id] == User(id, FirstEmail(d.emailAddresses.value), DisplayName(d),
                                       OrEmpty(d.imageUrl), upload(path).secureUrl)
  {
  }

  /** `user.created` then `user.deleted` for the same id restores the store. */
  lemma CreateThenDeleteRestores(secret: Option<string>, verify: Verifier, users: Users, create: Request, delete: Request)
    requires Accepted(secret, verify, create) && Accepted(secret, verify, delete)
    requires create.body.eventType == CreatedEvent && create.body.data.Some?
    requires delete.body.eventType == DeletedEvent && delete.body.data.Some?
    requires delete.body.data.value.id == create.body.data.value.id
    requires ClerkWebhooks(secret, verify, users, create).response.success
    ensures var o := ClerkWebhooks(secret, verify, ClerkWebhooks(secret, verify, users, create).users, delete);
      o.response == UserDeleted && o.users == users
  {
  }

  /** Deleting twice: the second delivery answers 404 and changes nothing. */
  lemma SecondDeleteIsNotFound(secret: Option<string>, verify: Verifier, users: Users, delete: Request)
    requires Accepted(secret, verify, delete)
    requires delete.body.eventType == DeletedEvent && delete.body.data.Some?
    ensures var once := ClerkWebhooks(secret, verify, users, delete).users;
      ClerkWebhooks(secret, verify, once, delete) == Outcome(UserNotFound, once)
  {
  }

  /** Applying twice: the second call answers "Already Applied", adds
      nothing, and the pair keeps exactly one application. */
  lemma SecondApplyIsRefused(db: Db, userId: UserId, jobId: JobId, now1: int, now2: int)
    requires ApplyForJob(db, userId, jobId, now1).reply.IsSuccess()
    ensures var first := ApplyForJob(db, userId, jobId, now1);
      var second := ApplyForJob(db.(apps := first.apps), userId, jobId, now2);
      && second == ApplyOutcome(Failure(AlreadyAppliedMsg), first.apps)
      && PairCount(second.apps, userId, jobId) == 1
  {
  }

  /** The flag is set only when the server holds an application of this
      user for the viewed job. */
  lemma FlagMeansServerHasApplication(db: Db, userId: UserId, jobId: JobId)
    requires JobsWellKeyed(db.jobs) && jobId in db.jobs
    requires RecomputeFlag(Page(Some(db.jobs[jobId]), false),
                           Populate(GetUserJobApplication(db.apps, userId).applications, db.jobs)).isAlreadyApplied
    ensures PairCount(db.apps, userId, jobId) > 0
  {
  }

  /** The apply endpoint as the page's request reaches it. */
  function ServerSend(db: Db, userId: UserId, now: int): JobId -> Delivery
  {
    (j: JobId) =>
      var o := ApplyForJob(db, userId, j, now);
      Delivered(o.reply.IsSuccess(), if o.reply.Failure? || o.reply.Success? then o.reply.message else "")
  }

  /** When the flag says "Already Applied", a click still posts the request;
      the server answers "Already Applied" and adds no application. */
  lemma FlaggedClickIsRefusedByServer(db: Db, userId: UserId, jobId: JobId, user: User, now: int)
    requires JobsWellKeyed(db.jobs) && jobId in db.jobs
    requires user.resume != ""
    requires RecomputeFlag(Page(Some(db.jobs[jobId]), false),
                           Populate(GetUserJobApplication(db.apps, userId).applications, db.jobs)).isAlreadyApplied
    ensures ApplyForJob(db, userId, jobId, now) == ApplyOutcome(Failure(AlreadyAppliedMsg), db.apps)
    ensures var page := RecomputeFlag(Page(Some(db.jobs[jobId]), false),
                                      Populate(GetUserJobApplication(db.apps, userId).applications, db.jobs));
      var click := ApplyHandler(page, Some(user), ServerSend(db, userId, now));
      click.request == Some(jobId) && click.toast == ToastError(AlreadyAppliedMsg) && !click.refetchApplications
  {
    FlagMeansServerHasApplication(db, userId, jobId);
  }
}
