/**
 * What the three routes promise together: a participant's life from POST
 * /add through GET /details/:email and DELETE /:email, and the shape of the
 * collection that the routes keep.
 */
module Lifecycle {
  import opened JsValues
  import opened Validators
  import opened Participants

  /** A collection the routes can have built: every key is a valid address
      and every record's `active` is a boolean. */
  predicate WellFormed(store: Store)
  {
    forall k | k in store :: IsValidEmail(k) && IsBoolean(Prop(store[k], "active"))
  }

  lemma AddKeepsWellFormed(store: Store, body: Value)
    requires WellFormed(store)
    ensures WellFormed(AddSpec(store, body).store)
  {
  }

  lemma DeleteKeepsWellFormed(store: Store, email: string)
    requires WellFormed(store)
    ensures WellFormed(DeleteSpec(store, email).store)
  {
  }

  /** In a well-formed collection a record is shown exactly when it is
      active. */
  lemma DetailsShowActive(store: Store, email: string)
    requires WellFormed(store)
    ensures DetailsSpec(store, email).code == 200 <==> email in store && Prop(store[email], "active") == Bool(true)
  {
  }

  /** After a successful add, the details route returns exactly the
      normalised record if it was added active, and calls it deleted if it
      was added with `active: false`. */
  lemma AddThenDetails(store: Store, body: Value)
    requires AddSpec(store, body).reply.code == 200
    ensures Get(body, "active").Bool?
    ensures var email := Get(body, "email").s;
      var details := DetailsSpec(AddSpec(store, body).store, email);
      if Get(body, "active") == Bool(true)
      then details == Reply(200, SuccessBody("success", None, Some(Item(email, NormalisedProps(body)))))
      else details == Reply(400, ErrorBody(DeletedMessage))
  {
  }

  /** Once added, the same address is a conflict for any later body, and the
      collection stays as the first add left it. */
  lemma AddAgainConflicts(store: Store, body: Value, again: Value)
    requires AddSpec(store, body).reply.code == 200
    requires Get(again, "email") == Get(body, "email")
    ensures var after := AddSpec(store, body).store;
      AddSpec(after, again) == Step(Failed(Conflict), after)
  {
  }

  /** A soft-deleted record is refused by the details route. */
  lemma DeleteThenDetails(store: Store, email: string)
    requires email in store
    ensures DetailsSpec(DeleteSpec(store, email).store, email) == Reply(400, ErrorBody(DeletedMessage))
  {
  }

  /** Deleting twice succeeds twice: the second delete changes nothing more
      and returns the record as the first one left it, already inactive. */
  lemma DeleteTwice(store: Store, email: string)
    requires email in store
    ensures var once := DeleteSpec(store, email).store;
      var twice := DeleteSpec(once, email);
      && twice.reply.code == 200
      && twice.store == once
      && twice.reply.body.participant == Some(Item(email, once[email]))
      && Prop(once[email], "active") == Bool(false)
  {
    var once := DeleteSpec(store, email).store;
    var p := once[email];
    assert Merge(Some(p), map["active" := Bool(false)]) == p;
  }

  /** The body used in the lifecycle walk-through below. */
  function SampleBody(): Value
  {
    Obj(map[
      "email" := Str("a@b.com"),
      "firstName" := Str("A"),
      "lastName" := Str("B"),
      "dob" := Str("2000/01/01"),
      "work" := Obj(map["companyName" := Str("X"), "salary" := Num(100.0), "currency" := Str("USD")]),
      "home" := Obj(map["country" := Str("C"), "city" := Str("D")]),
      "active" := Bool(true)])
  }

  // The sample body's fields, read one group at a time to keep each proof small.

  lemma SampleNames()
    ensures Get(SampleBody(), "email") == Str("a@b.com")
    ensures Get(SampleBody(), "firstName") == Str("A")
    ensures Get(SampleBody(), "lastName") == Str("B")
  {
  }

  lemma SampleDobAndActive()
    ensures Get(SampleBody(), "dob") == Str("2000/01/01")
    ensures Get(SampleBody(), "active") == Bool(true)
  {
  }

  lemma SampleDobIsValid()
    ensures IsValidDate("2000/01/01")
  {
  }

  lemma SampleFragments()
    ensures Get(SampleBody(), "home").Obj?
    ensures Get(Get(SampleBody(), "work"), "salary") == Num(100.0)
  {
  }

  /** A body with the sample's values passes every check of POST /add. */
  lemma SampleValuesAreAccepted(store: Store, body: Value)
    requires "a@b.com" !in store
    requires Get(body, "email") == Str("a@b.com")
    requires Get(body, "firstName") == Str("A") && Get(body, "lastName") == Str("B")
    requires Get(body, "dob") == Str("2000/01/01") && Get(body, "active") == Bool(true)
    requires Get(body, "home").Obj? && Get(Get(body, "work"), "salary") == Num(100.0)
    ensures FirstFailure(store, body).None?
  {
    SampleDobIsValid();
    EmailAccepted();
    assert !Fails(InvalidDob, store, body);
    assert !Fails(InvalidEmail, store, body);
  }

  /** Walk-through on a collection without "a@b.com": add succeeds, the
      record is shown, a second add is a conflict, delete succeeds, a second
      delete succeeds too, and the details route then calls it deleted. */
  lemma SampleLifecycle(store: Store)
    requires "a@b.com" !in store
    ensures var s1 := AddSpec(store, SampleBody());
      var s2 := AddSpec(s1.store, SampleBody());
      var s3 := DeleteSpec(s2.store, "a@b.com");
      var s4 := DeleteSpec(s3.store, "a@b.com");
      && s1.reply == Added
      && DetailsSpec(s1.store, "a@b.com").code == 200
      && s2.reply.code == 409
      && s3.reply.code == 200
      && s4.reply.code == 200
      && DetailsSpec(s4.store, "a@b.com") == Reply(400, ErrorBody(DeletedMessage))
  {
    var body := SampleBody();
    SampleNames();
    SampleDobAndActive();
    SampleFragments();
    SampleValuesAreAccepted(store, body);
    var s1 := AddSpec(store, body);
    assert s1.reply == Added;
    AddThenDetails(store, body);
    AddAgainConflicts(store, body, body);
    var s2 := AddSpec(s1.store, body);
    assert s2.store == s1.store;
    assert "a@b.com" in s1.store;
    DeleteTwice(s1.store, "a@b.com");
    DeleteThenDetails(DeleteSpec(s1.store, "a@b.com").store, "a@b.com");
  }
}
