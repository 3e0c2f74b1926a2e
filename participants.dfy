/**
 * The participant routes: POST /add, GET /details/:email and DELETE /:email,
 * over the `participants` collection, here a map from key (the email) to the
 * properties stored under it.
 *
 * Each route is a method of ParticipantStore and is proved against a
 * function of the old collection and the request (AddSpec, DetailsSpec,
 * DeleteSpec) whose own contract says what the route promises.
 */
module Participants {
  import opened JsValues
  import opened Validators

  datatype Option<T> = None | Some(value: T)

  /** The properties stored under one key. */
  type Props = map<string, Value>

  /** The collection: key to stored properties. */
  type Store = map<string, Props>

  /** A record as `participants.get` returns it: its key and its properties. */
  datatype Item = Item(key: string, props: Props)

  /** The JSON object a route answers with: `{error}` or
      `{status, message?, participant?}`. */
  datatype Body =
    | ErrorBody(error: string)
    | SuccessBody(status: string, message: Option<string>, participant: Option<Item>)

  /** HTTP status code and JSON body. */
  datatype Reply = Reply(code: nat, body: Body)

  /** The reply of a route together with the collection it leaves behind. */
  datatype Step = Step(reply: Reply, store: Store)

  const NotFoundMessage := "Participant not found."
  const DeletedMessage := "Participant has been deleted."

  /** `props.name`, `undefined` when the record has no such property. */
  function Prop(p: Props, name: string): Value
  {
    if name in p then p[name] else Undefined
  }

  /** `participants.get(key)` for a route parameter. */
  function FindKey(store: Store, key: string): Option<Props>
  {
    if key in store then Some(store[key]) else None
  }

  /** `participants.get(key)` for a key taken from a request body; a key
      that is not a string is taken to be absent. */
  function Find(store: Store, key: Value): (r: Option<Props>)
    ensures r.Some? <==> key.Str? && key.s in store
    ensures r.Some? ==> r.value == store[key.s]
  {
    if key.Str? then FindKey(store, key.s) else None
  }

  /** `participants.set(key, given)`: the given properties are merged into
      those already stored under the key (an assumption about the store
      library, which documents `set` only as "adds/updates the record"). */
  function Merge(existing: Option<Props>, given: Props): (r: Props)
    ensures existing.None? ==> r == given
    ensures existing.Some? ==> r.Keys == existing.value.Keys + given.Keys
    ensures forall f | f in given :: r[f] == given[f]
    ensures existing.Some? ==> forall f | f in existing.value && f !in given :: r[f] == existing.value[f]
  {
    if existing.Some? then existing.value + given else given
  }

  /** The collection after `participants.set(key, given)`. */
  function Written(store: Store, key: string, given: Props): Store
  {
    store[key := Merge(FindKey(store, key), given)]
  }

  // ---------------------------------------------------------------------------
  // POST /add

  /** The checks of POST /add, in the order the handler runs them. */
  datatype AddError = Conflict | MissingFields | InvalidDob | InvalidEmail | InvalidActive | InvalidSalary

  function Rank(e: AddError): nat
  {
    match e
    case Conflict => 0
    case MissingFields => 1
    case InvalidDob => 2
    case InvalidEmail => 3
    case InvalidActive => 4
    case InvalidSalary => 5
  }

  /** The reply to a failed check. */
  function Failed(e: AddError): (r: Reply)
    ensures r.body.ErrorBody?
    ensures r.code == (if e == Conflict then 409 else 400)
  {
    match e
    case Conflict => Reply(409, ErrorBody("A participant with this email already exists."))
    case MissingFields => Reply(400, ErrorBody("Missing required fields."))
    case InvalidDob => Reply(400, ErrorBody("Invalid date of birth. Correct format is YYYY/MM/DD"))
    case InvalidEmail => Reply(400, ErrorBody("Invalid email address."))
    case InvalidActive => Reply(400, ErrorBody("Invalid active status. Must be true or false."))
    case InvalidSalary => Reply(400, ErrorBody("Invalid salary value. Salary must be a number."))
  }

  /** `!email || !firstName || !lastName || !dob || !work || !home ||
      active === undefined`: `active: false` counts as given. */
  predicate MissingRequired(body: Value)
  {
    || Falsy(Get(body, "email")) || Falsy(Get(body, "firstName")) || Falsy(Get(body, "lastName"))
    || Falsy(Get(body, "dob")) || Falsy(Get(body, "work")) || Falsy(Get(body, "home"))
    || Get(body, "active") == Undefined
  }

  /** `typeof work.salary !== 'number' || isNaN(work.salary)`. */
  predicate BadSalary(salary: Value)
  {
    !IsNumber(salary) || salary.NaN?
  }

  /** Check `e` rejects the request, looked at on its own. */
  predicate Fails(e: AddError, store: Store, body: Value)
  {
    match e
    case Conflict => Find(store, Get(body, "email")).Some?
    case MissingFields => MissingRequired(body)
    case InvalidDob => !TestDate(Get(body, "dob"))
    case InvalidEmail => !TestEmail(Get(body, "email"))
    case InvalidActive => !IsBoolean(Get(body, "active"))
    case InvalidSalary => BadSalary(Get(Get(body, "work"), "salary"))
  }

  /** The check that decides the reply: the first, in handler order, that
      rejects the request; none when every check passes. */
  function FirstFailure(store: Store, body: Value): (r: Option<AddError>)
    ensures r.None? <==> forall e :: !Fails(e, store, body)
    ensures r.Some? ==> Fails(r.value, store, body)
    ensures r.Some? ==> forall e :: Rank(e) < Rank(r.value) ==> !Fails(e, store, body)
  {
    if Fails(Conflict, store, body) then Some(Conflict)
    else if Fails(MissingFields, store, body) then Some(MissingFields)
    else if Fails(InvalidDob, store, body) then Some(InvalidDob)
    else if Fails(InvalidEmail, store, body) then Some(InvalidEmail)
    else if Fails(InvalidActive, store, body) then Some(InvalidActive)
    else if Fails(InvalidSalary, store, body) then Some(InvalidSalary)
    else None
  }

  /** The record POST /add writes: the six participant properties, with
      `work` and `home` rebuilt from their expected sub-properties. */
  function NormalisedProps(body: Value): (p: Props)
    ensures p.Keys == {"firstName", "lastName", "dob", "work", "home", "active"}
    ensures "email" !in p
    ensures forall f | f in {"firstName", "lastName", "dob", "active"} :: p[f] == Get(body, f)
    ensures p["work"].Obj? && p["work"].fields.Keys == {"companyName", "salary", "currency"}
    ensures forall f | f in p["work"].fields :: p["work"].fields[f] == Get(Get(body, "work"), f)
    ensures p["home"].Obj? && p["home"].fields.Keys == {"country", "city"}
    ensures forall f | f in p["home"].fields :: p["home"].fields[f] == Get(Get(body, "home"), f)
  {
    var work, home := Get(body, "work"), Get(body, "home");
    map[
      "firstName" := Get(body, "firstName"),
      "lastName" := Get(body, "lastName"),
      "dob" := Get(body, "dob"),
      "work" := Obj(map[
        "companyName" := Get(work, "companyName"),
        "salary" := Get(work, "salary"),
        "currency" := Get(work, "currency")]),
      "home" := Obj(map[
        "country" := Get(home, "country"),
        "city" := Get(home, "city")]),
      "active" := Get(body, "active")]
  }

  const Added := Reply(200, SuccessBody("success", Some("Participant added successfully"), None))

  /** POST /add. An existing email is a conflict whatever else the body
      holds; otherwise the first failing check is reported; a rejected
      request leaves the collection as it was; an accepted one writes the
      normalised record under a new key, changes nothing else, and is
      answered without the record. */
  function AddSpec(store: Store, body: Value): (r: Step)
    ensures Find(store, Get(body, "email")).Some? ==> r == Step(Failed(Conflict), store)
    ensures r.reply.code == 200 <==> FirstFailure(store, body).None?
    ensures r.reply.code != 200 ==> r.store == store && r.reply == Failed(FirstFailure(store, body).value)
    ensures r.reply.code == 200 ==>
      && IsValidEmail(Get(body, "email").s)
      && Get(body, "email").s !in store
      && r.store == store[Get(body, "email").s := NormalisedProps(body)]
      && r.reply.body.SuccessBody? && r.reply.body.participant.None?
  {
    match FirstFailure(store, body)
    case Some(e) => Step(Failed(e), store)
    case None => Step(Added, Written(store, Get(body, "email").s, NormalisedProps(body)))
  }

  // ---------------------------------------------------------------------------
  // GET /details/:email

  /** GET /details/:email. An absent key and a record whose `active` is
      exactly `false` are refused with 400; any other record, including one
      with no or a non-boolean `active`, is returned as stored. */
  function DetailsSpec(store: Store, email: string): (r: Reply)
    ensures email !in store ==> r == Reply(400, ErrorBody(NotFoundMessage))
    ensures email in store && Prop(store[email], "active") == Bool(false) ==>
      r == Reply(400, ErrorBody(DeletedMessage))
    ensures r.code == 200 <==> email in store && Prop(store[email], "active") != Bool(false)
    ensures r.code == 200 ==> r.body == SuccessBody("success", None, Some(Item(email, store[email])))
  {
    match FindKey(store, email)
    case None => Reply(400, ErrorBody(NotFoundMessage))
    case Some(p) =>
      if Prop(p, "active") == Bool(false) then Reply(400, ErrorBody(DeletedMessage))
      else Reply(200, SuccessBody("success", None, Some(Item(email, p))))
  }

  // ---------------------------------------------------------------------------
  // DELETE /:email

  /** DELETE /:email. An absent key is refused with 404 and changes nothing.
      A present one, deleted before or not, gets `active: false` merged into
      its record: every other property and every other key stay as they
      were, and the reply carries the record as it was before the write. */
  function DeleteSpec(store: Store, email: string): (r: Step)
    ensures email !in store ==> r == Step(Reply(404, ErrorBody(NotFoundMessage)), store)
    ensures email in store ==>
      && r.reply.code == 200
      && r.reply.body.SuccessBody?
      && r.reply.body.participant == Some(Item(email, store[email]))
      && r.store.Keys == store.Keys
      && r.store[email].Keys == store[email].Keys + {"active"}
      && Prop(r.store[email], "active") == Bool(false)
      && (forall f | f in store[email] && f != "active" :: r.store[email][f] == store[email][f])
      && (forall k | k in store && k != email :: r.store[k] == store[k])
  {
    match FindKey(store, email)
    case None => Step(Reply(404, ErrorBody(NotFoundMessage)), store)
    case Some(p) =>
      var reply := Reply(200, SuccessBody("Success", Some("Participant deleted successfully."), Some(Item(email, p))));
      Step(reply, Written(store, email, map["active" := Bool(false)]))
  }

  // ---------------------------------------------------------------------------
  // The routes, over the collection they share

  class ParticipantStore {
    var participants: Store

    constructor (initial: Store)
      ensures participants == initial
    {
      participants := initial;
    }

    /** `participants.set(key, given)`. */
    method Set(key: string, given: Props)
      modifies this
      ensures participants == Written(old(participants), key, given)
    {
      participants := participants[key := Merge(FindKey(participants, key), given)];
    }

    /** POST /add with request body `body`. */
    method Add(body: Value) returns (reply: Reply)
      modifies this
      ensures Step(reply, participants) == AddSpec(old(participants), body)
    {
      var email, dob, work, active := Get(body, "email"), Get(body, "dob"), Get(body, "work"), Get(body, "active");
      var existing := Find(participants, email);
      if existing.Some? {
        return Failed(Conflict);
      }
      if MissingRequired(body) {
        return Failed(MissingFields);
      }
      if !TestDate(dob) {
        return Failed(InvalidDob);
      }
      if !TestEmail(email) {
        return Failed(InvalidEmail);
      }
      if !IsBoolean(active) {
        return Failed(InvalidActive);
      }
      if BadSalary(Get(work, "salary")) {
        return Failed(InvalidSalary);
      }
      Set(email.s, NormalisedProps(body));
      reply := Added;
    }

    /** GET /details/:email. */
    method GetDetails(email: string) returns (reply: Reply)
      ensures reply == DetailsSpec(participants, email)
    {
      var existing := FindKey(participants, email);
      if existing.None? {
        return Reply(400, ErrorBody(NotFoundMessage));
      }
      var isActive := Prop(existing.value, "active");
      if isActive == Bool(false) {
        return Reply(400, ErrorBody(DeletedMessage));
      }
      return Reply(200, SuccessBody("success", None, Some(Item(email, existing.value))));
    }

    /** DELETE /:email. */
    method SoftDelete(email: string) returns (reply: Reply)
      modifies this
      ensures Step(reply, participants) == DeleteSpec(old(participants), email)
    {
      var existing := FindKey(participants, email);
      if existing.None? {
        return Reply(404, ErrorBody(NotFoundMessage));
      }
      Set(email, map["active" := Bool(false)]);
      return Reply(200, SuccessBody("Success", Some("Participant deleted successfully."), Some(Item(email, existing.value))));
    }
  }
}
