# Participant routes: validation and soft-delete lifecycle

This project models the participant routes of a small REST API. The API keeps
participants in a key-value collection (`participants`). The key is the
participant's email address. The value is the record's properties:
`firstName`, `lastName`, `dob`, `work {companyName, salary, currency}`,
`home {country, city}` and `active`.

The model covers:

- the two format checks, `isValidDate` (`/^\d{4}\/\d{2}\/\d{2}$/`) and
  `isValidEmail` (`/^[^\s@]+@[^\s@]+\.[^\s@]+$/`). Each is written as the
  predicate "the string matches the anchored pattern" over the pattern's own
  pieces. Lemmas prove exactly which strings each accepts. `\d` is the ASCII
  digits. `\s` is the fixed set of ECMAScript whitespace and line-terminator
  characters.
- the three routes that have bodies in the source:
  - POST `/add`: a conflict check, then five validation checks in a fixed
    order, then one normalised write.
  - GET `/details/:email`: an existence check, then an active check.
  - DELETE `/:email`: an existence check, then `active: false` is merged into
    the record. The reply carries the record as it was before the write.

Files:

- `js_values.dfy` (module `JsValues`): the values the routes test: `null`,
  booleans, numbers, strings and objects from the parsed body, `undefined`
  for a missing field, and NaN for `isNaN`. Arrays are left out. Also
  JavaScript truthiness (`!v`), `typeof`, and property reads. For the twelve
  property names the routes read, a read yields `undefined` on a missing
  property or a non-object.
- `validators.dfy` (module `Validators`): the two patterns and their languages.
- `participants.dfy` (module `Participants`): one specification function per
  route (`AddSpec`, `DetailsSpec`, `DeleteSpec`), each stated over the old
  collection and the request. The class `ParticipantStore` holds the
  collection as a `map` field. Its methods `Add`, `GetDetails` and
  `SoftDelete` run the handlers' steps and are proved equal to those
  functions.
- `lifecycle.dfy` (module `Lifecycle`): properties that relate the routes.
  They cover add then details, add twice, delete then details, and delete
  twice. They also show that the routes keep the collection well formed, and
  walk through a sample lifecycle.

Assumptions about code outside this repository:

- `participants.set(key, props)` merges `props` into the properties already
  stored under `key`. The store library documents it only as "adds/updates
  the record of the selected key" (routes/participants.js:184). A merge is
  what lets DELETE change only `active`.
- `participants.get(key)` with a key that is not a string finds nothing.
- `participants.get` returns the key and the properties (`Item`). The details
  route reads `existingParticipant.props.active`
  (routes/participants.js:43).

Behaviour of the code that the model keeps as written:

- DELETE on an already-deleted participant succeeds again with 200. Nothing
  in routes/participants.js:126-142 reads `active`.
- A successful POST `/add` replies without the record
  (routes/participants.js:109). The comment on that line says it needs
  fixing.
- "not found" is 400 on GET `/details/:email` (routes/participants.js:40)
  and 404 on DELETE (routes/participants.js:132).
- Any number other than NaN passes the salary check, an infinite one
  included (routes/participants.js:89).

## Model

| member | source | states |
|---|---|---|
| `Validators.DateLanguage` | routes/participants.js:150-153 | a string is accepted iff it is the zero-padded "YYYY/MM/DD" rendering of some year below 10000 and some month and day below 100; nothing checks that the date exists |
| `Validators.FormattedDatesAreValid` | routes/participants.js:150-153 | every rendering of such numbers is accepted, month 99 and day 00 included |
| `Validators.ValidDatesAreFormatted` | routes/participants.js:150-153 | every accepted string is exactly the rendering of the numbers its three digit groups denote |
| `Validators.DateExamples` | routes/participants.js:150-153 | "2024/01/15" and "2024/99/99" are accepted; "2024-01-15" and "15/01/2024" are rejected |
| `Validators.EmailLanguage` | routes/participants.js:155-158 | a string matches the address pattern iff it has no whitespace and exactly one '@', the part before the '@' is non-empty, and the part after it has a '.' with at least one character on each side |
| `Validators.MatchHasEmailProperties` | routes/participants.js:155-158 | a match has all the address properties (the "only if" direction) |
| `Validators.EmailPropertiesGiveMatch` | routes/participants.js:155-158 | a string with all the address properties matches (the "if" direction) |
| `Validators.EmailAccepted` | routes/participants.js:155-158 | "a@b.com" is accepted |
| `Validators.EmailRejected` | routes/participants.js:155-158 | "a@b", "@b.com", "a@@b.com" and "a b@c.d" are rejected |
| `Validators.IsSpace` | routes/participants.js:156 | `\s`: the ECMAScript WhiteSpace and LineTerminator characters (tab, line feed, vertical tab, form feed, carriage return, space, no-break space, the Unicode space separators, line and paragraph separators, and the byte order mark) |
| `Validators.IsValidDate` | routes/participants.js:150-153 | the string is four digits, '/', two digits, '/', two digits, and nothing more; its meaning is stated by `DateLanguage` |
| `Validators.TestDate` | routes/participants.js:80 | `isValidDate(dob)` holds of a modelled body value iff it is a string the date pattern accepts |
| `Validators.IsValidEmail` | routes/participants.js:155-158 | the string splits at some '@' and some later '.' into three non-empty runs without whitespace or '@'; its meaning is stated by `EmailLanguage` |
| `Validators.TestEmail` | routes/participants.js:83 | `isValidEmail(email)` holds of a modelled body value iff it is a string the address pattern accepts |
| `JsValues.Falsy` | routes/participants.js:77 | `!v` is true exactly for undefined, null, false, 0, NaN and the empty string; every object is truthy |
| `JsValues.Get` | routes/participants.js:71 | for the twelve property names the routes read (email, firstName, lastName, dob, work, home, active, companyName, salary, currency, country, city), a read yields the object's own property, or undefined when the property is missing or the value is not an object; no prototype carries any of these names |
| `JsValues.IsBoolean` | routes/participants.js:86 | `typeof v === 'boolean'` holds exactly for true and false |
| `JsValues.IsNumber` | routes/participants.js:89 | `typeof v === 'number'` holds for every number, NaN included |
| `Participants.Prop` | routes/participants.js:43 | a record's property, or undefined when the record has none |
| `Participants.FindKey` | routes/participants.js:37 | looking up a route parameter finds the key's record iff the key is in the collection |
| `Participants.Find` | routes/participants.js:72 | looking up a body's email finds a record iff the email is a string key of the collection, and then finds that key's record |
| `Participants.Merge` | routes/participants.js:184 | writing props to a key keeps the old properties the write does not name, takes the named ones from the write, and on a new key stores exactly the written props |
| `Participants.Written` | routes/participants.js:93 | the collection after a write: the key maps to the merge of the written props into its old record, and every other key is unchanged |
| `Participants.MissingRequired` | routes/participants.js:77 | fields are missing iff email, firstName, lastName, dob, work or home is falsy, or active is undefined; `active: false` counts as given |
| `Participants.BadSalary` | routes/participants.js:89 | a salary is refused iff it is not a number or it is NaN |
| `Participants.Fails` | routes/participants.js:72-91 | each of the six checks of POST /add on its own: conflict, missing fields, date, email, boolean active, salary |
| `Participants.FirstFailure` | routes/participants.js:72-91 | the check reported by POST /add rejects the request, and every check before it in handler order (conflict, missing fields, date, email, active, salary) passes; none is reported iff every check passes |
| `Participants.Failed` | routes/participants.js:73-91 | a conflict is answered with 409 and every validation failure with 400, each with an error body |
| `Participants.NormalisedProps` | routes/participants.js:93-107 | the written record has exactly the keys firstName, lastName, dob, work, home and active, and no email; work has exactly companyName, salary and currency, and home exactly country and city; each value is the one the request body holds at that path, so extra body fields are dropped |
| `Participants.AddSpec` | routes/participants.js:69-114 | an email already in the collection gives 409 and no change, whatever the rest of the body holds; otherwise the first failing check is answered and nothing changes; success happens iff no check fails, and then the email is a valid, new key, the collection gains exactly that key with the normalised record, every other key is untouched, and the reply carries no record |
| `Participants.DetailsSpec` | routes/participants.js:34-54 | an absent key gives 400 "not found"; a record whose active is exactly false gives 400 "deleted"; any other record, with no or a non-boolean active included, is returned unchanged with 200 |
| `Participants.DeleteSpec` | routes/participants.js:126-142 | an absent key gives 404 and no change; a present key gives 200 with the record as it was before the write, and afterwards that record's active is false, its other properties are unchanged, and every other key is unchanged |
| `Participants.ParticipantStore.constructor` | routes/participants.js:5 | the collection starts with the given contents |
| `Participants.ParticipantStore.Set` | routes/participants.js:184 | the collection afterwards holds the merge of the given props into the key's old record, and nothing else changes |
| `Participants.ParticipantStore.Add` | routes/participants.js:69-114 | the handler's reply and the collection it leaves are those of AddSpec on the old collection |
| `Participants.ParticipantStore.GetDetails` | routes/participants.js:34-54 | the reply is DetailsSpec of the collection, which the method cannot change (it has no modifies clause) |
| `Participants.ParticipantStore.SoftDelete` | routes/participants.js:126-142 | the handler's reply and the collection it leaves are those of DeleteSpec on the old collection |
| `Lifecycle.AddKeepsWellFormed` | routes/participants.js:93-107 | after POST /add, every key is still a valid address and every record's active is still a boolean |
| `Lifecycle.DeleteKeepsWellFormed` | routes/participants.js:135 | DELETE keeps every key a valid address and every active a boolean |
| `Lifecycle.DetailsShowActive` | routes/participants.js:43-49 | in a well-formed collection, details succeed iff the record exists and its active is true |
| `Lifecycle.AddThenDetails` | routes/participants.js:93-107 | after a successful add, details return exactly the normalised record if it was added with active true, and "deleted" if it was added with active false |
| `Lifecycle.AddAgainConflicts` | routes/participants.js:72-75 | after a successful add, any later add with the same email gets 409 and leaves the collection as it was |
| `Lifecycle.DeleteThenDetails` | routes/participants.js:43-47 | after a delete, details for that key answer 400 "deleted" |
| `Lifecycle.DeleteTwice` | routes/participants.js:129-137 | a second delete of the same key succeeds again with 200, changes nothing more, and returns the record already marked inactive |
| `Lifecycle.SampleValuesAreAccepted` | routes/participants.js:77-91 | a body with the sample values (valid date, valid address, boolean active, numeric salary) passes every check on a collection without its email |
| `Lifecycle.SampleLifecycle` | routes/participants.js:69-142 | on the sample body: add succeeds and the record is shown; add again gets 409; delete succeeds twice; details then answer "deleted" |

## Left out

- GET `/` (routes/participants.js:10-21) returns `participants.list()`. When the list is falsy, it answers 400 (routes/participants.js:13-15) and then calls `res.json` again at routes/participants.js:16. That second reply throws, because the response is already sent, and so does the catch's 500 reply at routes/participants.js:19. The client receives only the 400. The listing comes from the remote store, which the model does not hold, so the route is not modelled.
- The stub routes have no behaviour: GET `/details`, GET `/details/deleted`, GET `/work/:email`, GET `/home/:email` and PUT `/:email`. Their handlers are empty or only `return` (routes/participants.js:24-31, 57-64, 119-121). The model gives them no behaviour. So there is no active/deleted listing, no fragment read, and no full-replace update.
- The `try/catch` 500 replies and `console.error` calls are left out. The model's store never fails, and the model has no value whose handling throws. A request body that is `null` or `undefined` would make the destructuring at routes/participants.js:71 throw and reach the 500 path. The model treats such a body's fields as `undefined`.
- A `dob` or `email` that is an object with its own `toString` property (for example `{"toString": 1}`) makes the string conversion in `test()` at routes/participants.js:152 or 157 throw a TypeError, so the source answers 500. The model has no such failure: `TestDate` and `TestEmail` reject every non-string, so the model answers 400.
- GET `/details/deleted` is routed to the empty handler at routes/participants.js:29-31, before `/details/:email`. So `GetDetails("deleted")` is not what the source does for that path. No record can have that key: "deleted" is not a valid address, so POST `/add` never writes it.
- Express routing, the database client construction and `process.env` (routes/participants.js:1-5, 161) are framework glue.
- `async`/`await` and concurrency are left out. Each handler is one atomic step. So the race between the existence check and the write, where two concurrent adds both pass the check, is not modelled.
- Numbers are abstract: `Num(real)` is any number other than NaN. IEEE-754 rounding is not modelled. A JSON body cannot carry NaN. It can carry an infinity: `JSON.parse` turns `1e400` into `Infinity`, which passes the salary check at routes/participants.js:89. The model stands for it with some `Num`, which passes too.
- Arrays are not among the modelled body values. This changes what POST `/add` does. `test()` turns a one-element array into its element's text, and an array is truthy. So a `dob` of `["2024/01/15"]` or an `email` of `["a@b.com"]` passes routes/participants.js:77, 80 and 83 in the source. Such an email is also passed to `participants.get` at routes/participants.js:72. A non-string key finds nothing there, so the 409 check never fires, and routes/participants.js:93 stores the record under a non-string key. In the model, `TestDate` and `TestEmail` reject every non-string. The conflict check and `AddSpec` are stated for string emails only.
- Characters are Unicode scalar values. JavaScript strings are UTF-16 code units. The two patterns accept the same texts either way. `\d`, `@`, `.`, `/` and every `\s` character are single code units. `[^\s@]+` accepts both halves of a surrogate pair just as it accepts the one scalar value. A lone surrogate is the exception. `JSON.parse` can produce one, for example from `"\ud800"`, and `[^\s@]` accepts it. A Dafny `char` cannot hold one, so the model has no lone surrogates.
- Basic authentication and the requirement notes in comments (routes/participants.js:144-148, 165-187) are not code.
