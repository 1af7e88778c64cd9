/** The identity-provider webhook endpoint (`clerkWebhooks`): a secret check,
    a signature-verification gate, and a switch over the event type that
    creates, updates or deletes a user record. Every failure path answers
    with a fixed status and message and leaves the user store as it was. */
module Webhooks {
  import opened Basics
  import opened Store

  /** A JSON string field as JavaScript sees it: a string, `null`, or absent. */
  datatype JsText = Text(s: string) | Null | Undefined

  /** How a template literal renders the field: `${v}`. */
  function Interpolate(v: JsText): string
  {
    match v
    case Text(s) => s
    case Null => "null"
    case Undefined => "undefined"
  }

  /** `v || ""`: the string itself when it is a non-empty string, else "". */
  function OrEmpty(v: JsText): (r: string)
    ensures r != "" <==> v.Text? && v.s != ""
    ensures r != "" ==> v == Text(r)
  {
    if v.Text? then v.s else ""
  }

  /** The `data` object of a user event. `emailAddresses` holds the
      `email_address` field of each listed entry, or is `None` when the
      `email_addresses` array itself is missing. */
  datatype EventData = EventData(
    id: UserId,
    emailAddresses: Option<seq<JsText>>,
    firstName: JsText,
    lastName: JsText,
    imageUrl: JsText)

  /** The parsed request body `{type, data}`; `data` may be missing. */
  datatype Body = Body(eventType: string, data: Option<EventData>)

  /** The three signature headers, each possibly missing. */
  datatype Headers = Headers(svixId: Option<string>, svixTimestamp: Option<string>, svixSignature: Option<string>)

  datatype Request = Request(headers: Headers, body: Body)

  /** The HTTP status and the JSON body `{success, message}`. */
  datatype Response = Response(status: int, success: bool, message: string)

  /** The response together with the user store after the request. */
  datatype Outcome = Outcome(response: Response, users: Users)

  /** The signature library's check of a body and its headers against the
      shared secret; `true` when `verify` returns without throwing. */
  type Verifier = (Body, Headers, string) -> bool

  const CreatedEvent := "user.created"
  const UpdatedEvent := "user.updated"
  const DeletedEvent := "user.deleted"

  const UserCreated := Response(201, true, "User created")
  const UserUpdated := Response(200, true, "User updated")
  const UserDeleted := Response(200, true, "User deleted")
  const UserNotFound := Response(404, false, "User not found")
  const UnhandledEvent := Response(400, false, "Unhandled event type")
  const VerificationFailed := Response(400, false, "Webhook verification failed")
  const ProcessingError := Response(500, false, "Webhook processing error")

  /** The thrown errors the handler can meet; the outer catch ignores them. */
  const MissingSecret := Thrown("CLERK_WEBHOOK_SECRET is not set in environment variables")
  const MissingData := Thrown("Cannot read properties of undefined (reading 'id')")
  const MissingAddresses := Thrown("Cannot read properties of undefined (reading '0')")
  const DuplicateKey := Thrown("E11000 duplicate key error")

  /** An unset or empty environment variable is falsy. */
  predicate SecretSet(secret: Option<string>)
  {
    secret.Some? && secret.value != ""
  }

  /** `data.email_addresses[0]?.email_address || ""`. */
  function FirstEmail(addresses: seq<JsText>): (r: string)
    ensures r != "" ==> |addresses| > 0 && addresses[0] == Text(r)
    ensures |addresses| > 0 && addresses[0].Text? ==> r == addresses[0].s
    ensures |addresses| == 0 || !addresses[0].Text? ==> r == ""
  {
    if |addresses| == 0 then "" else OrEmpty(addresses[0])
  }

  /** `${first_name} ${last_name}`: no trimming, and a missing part renders
      as "null" or "undefined". */
  function DisplayName(data: EventData): (r: string)
    ensures |r| == |Interpolate(data.firstName)| + 1 + |Interpolate(data.lastName)|
    ensures r[..|Interpolate(data.firstName)|] == Interpolate(data.firstName)
    ensures r[|Interpolate(data.firstName)|] == ' '
    ensures r[|Interpolate(data.firstName)| + 1..] == Interpolate(data.lastName)
  {
    Interpolate(data.firstName) + " " + Interpolate(data.lastName)
  }

  /** The record `user.created` stores. */
  function NewUser(data: EventData, addresses: seq<JsText>): User
  {
    User(data.id, FirstEmail(addresses), DisplayName(data), OrEmpty(data.imageUrl), "")
  }

  /** `user.created`: build the record and insert it; the store refuses a
      second record under an existing primary key. */
  function OnCreated(users: Users, data: EventData): (r: Result<Outcome, Thrown>)
    ensures r.Ok? <==> data.emailAddresses.Some? && data.id !in users
    ensures r.Ok? ==> r.value.response == UserCreated
    ensures r.Ok? ==> r.value.users.Keys == users.Keys + {data.id}
    ensures r.Ok? ==> forall k :: k in users ==> r.value.users[k] == users[k]
    ensures r.Ok? ==> var u := r.value.users[data.id];
      && u.id == data.id
      && u.email == FirstEmail(data.emailAddresses.value)
      && u.name == DisplayName(data)
      && u.image == OrEmpty(data.imageUrl)
      && u.resume == ""
  {
    match data.emailAddresses
    case None => Err(MissingAddresses)
    case Some(addresses) =>
      var u := NewUser(data, addresses);
      if u.id in users then Err(DuplicateKey)
      else Ok(Outcome(UserCreated, users[u.id := u]))
  }

  /** `user.updated`: overwrite email, name and image of an existing record. */
  function OnUpdated(users: Users, data: EventData): (r: Result<Outcome, Thrown>)
    ensures r.Ok? <==> data.emailAddresses.Some?
    ensures r.Ok? && data.id !in users ==> r.value == Outcome(UserNotFound, users)
    ensures r.Ok? && data.id in users ==>
      && r.value.response == UserUpdated
      && r.value.users.Keys == users.Keys
      && (forall k :: k in users && k != data.id ==> r.value.users[k] == users[k])
      && r.value.users[data.id] == User(
           users[data.id].id,
           FirstEmail(data.emailAddresses.value),
           DisplayName(data),
           OrEmpty(data.imageUrl),
           users[data.id].resume)
  {
    match data.emailAddresses
    case None => Err(MissingAddresses)
    case Some(addresses) =>
      if data.id !in users then Ok(Outcome(UserNotFound, users))
      else
        var prev := users[data.id];
        var updated := prev.(email := FirstEmail(addresses), name := DisplayName(data), image := OrEmpty(data.imageUrl));
        Ok(Outcome(UserUpdated, users[data.id := updated]))
  }

  /** `user.deleted`: remove an existing record. */
  function OnDeleted(users: Users, data: EventData): (r: Outcome)
    ensures data.id !in users ==> r == Outcome(UserNotFound, users)
    ensures data.id in users ==> r.response == UserDeleted && r.users.Keys == users.Keys - {data.id}
    ensures forall k :: k in r.users ==> k in users && r.users[k] == users[k]
  {
    if data.id !in users then Outcome(UserNotFound, users)
    else Outcome(UserDeleted, users - {data.id})
  }

  /** The switch over the event type, after verification. */
  function Dispatch(users: Users, body: Body): (r: Result<Outcome, Thrown>)
    ensures body.eventType in {CreatedEvent, UpdatedEvent, DeletedEvent} && body.data.None? ==> r.Err?
    ensures body.eventType == CreatedEvent && body.data.Some? ==> r == OnCreated(users, body.data.value)
    ensures body.eventType == UpdatedEvent && body.data.Some? ==> r == OnUpdated(users, body.data.value)
    ensures body.eventType == DeletedEvent && body.data.Some? ==> r == Ok(OnDeleted(users, body.data.value))
    ensures body.eventType == CreatedEvent && r.Ok? ==> r.value.response == UserCreated
    ensures body.eventType == UpdatedEvent && r.Ok? ==> r.value.response in {UserUpdated, UserNotFound}
    ensures body.eventType == DeletedEvent ==> (r.Ok? <==> body.data.Some?)
    ensures body.eventType == DeletedEvent && r.Ok? ==> r.value.response in {UserDeleted, UserNotFound}
    ensures body.eventType !in {CreatedEvent, UpdatedEvent, DeletedEvent} ==>
      r == Ok(Outcome(UnhandledEvent, users))
    ensures r.Ok? && !r.value.response.success ==> r.value.users == users
  {
    if body.eventType == CreatedEvent then
      if body.data.None? then Err(MissingData) else OnCreated(users, body.data.value)
    else if body.eventType == UpdatedEvent then
      if body.data.None? then Err(MissingData) else OnUpdated(users, body.data.value)
    else if body.eventType == DeletedEvent then
      if body.data.None? then Err(MissingData) else Ok(OnDeleted(users, body.data.value))
    else Ok(Outcome(UnhandledEvent, users))
  }

  /** The whole handler: secret check, verification gate, dispatch, and the
      outer catch that turns any thrown error into a 500. */
  function ClerkWebhooks(secret: Option<string>, verify: Verifier, users: Users, req: Request): (r: Outcome)
    ensures r.response.status in {200, 201, 400, 404, 500}
    ensures r.response.success <==> r.response.status in {200, 201}
    ensures !r.response.success ==> r.users == users
    ensures !SecretSet(secret) ==> r.response == ProcessingError
    ensures SecretSet(secret) && !verify(req.body, req.headers, secret.value) ==> r.response == VerificationFailed
    ensures r.response.success ==> SecretSet(secret) && verify(req.body, req.headers, secret.value)
    ensures SecretSet(secret) && verify(req.body, req.headers, secret.value) ==>
      r == (if Dispatch(users, req.body).Ok? then Dispatch(users, req.body).value else Outcome(ProcessingError, users))
    ensures UsersWellKeyed(users) ==> UsersWellKeyed(r.users)
  {
    var attempt: Result<Outcome, Thrown> :=
      if !SecretSet(secret) then Err(MissingSecret)
      else if !verify(req.body, req.headers, secret.value) then Ok(Outcome(VerificationFailed, users))
      else Dispatch(users, req.body);
    match attempt
    case Ok(o) => o
    case Err(_) => Outcome(ProcessingError, users)
  }
}
