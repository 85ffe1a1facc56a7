# Meetapp request handlers, modelled in Dafny

This project models the business rules of the meetapp backend. Users register and edit their profile. Organizers create, edit and cancel meetups that have a banner file. Other users subscribe to meetups that have not happened yet, and hold at most one subscription per timeslot.

The model keeps the database in memory as four tables, each with an auto-increment key (`Db.Tables`, kept in place in the class `Db.Store`): users, meetups, subscriptions and the ids of uploaded files. For every handler that writes the store there are two members:

- a method on the live store, which checks its guards in the order the source does, answers a status code and writes the store only on success;
- a pure function of the old store that gives the same answer.

The method's postcondition ties it to the function. The two listing handlers, which only read, are pure functions of the store (`SubscriptionController.Upcoming`, `MeetupController.List`). The function's postconditions state the source's promises, and lemmas state what holds across calls.

Time is an integer count of milliseconds in one fixed time zone (`DateFns`). Some behaviour lives in code outside the modelled files. It enters the model as parameters:

- `isPast(date, now)`: the Meetup model's `isPast`;
- `isEmail`: the validator's email pattern;
- `hash` and `verify`: bcrypt. A salted hash is a fixed function here.

A request body is a record of `Field`s. Each field is not sent, sent with a value, or sent with a value the schema cannot cast (`Malformed`).

`resource()` is the datatype `UserModel.Resource`. It has exactly the fields id, email, name, created_at and updated_at, so no password or hash can appear in it. The users table row `Db.UserRow` has no password column: the plaintext is a virtual attribute of the instance class `UserModel.User`, and persisted state never holds it.

Invariants of the store (`Db`):

- `WellFormed`: every key is below its sequence, and every subscription names a meetup key that has been handed out.
- `UniqueEmails`: no two users share an email.
- `OneSubscriptionPerTimeslot`: no user holds two subscriptions whose meetups exist and share a date.

Registration, profile update with the corrected email guard (see ## Findings), subscribing, and creating and cancelling meetups all preserve these invariants. Profile update with the guard as written does not preserve unique emails (`UserController.AsWrittenDuplicatesEmptyEmail`). Updating a meetup does not preserve the timeslot rule (see below).

The status codes are the ones the code answers:

- A missing field in meetup creation answers 422, not 400.
- Editing or cancelling someone else's meetup answers 400.
- Subscribing to one's own meetup answers 401.
- A wrong old password answers 422.
- Creation accepts a date only when the start of the date's hour is not before `now`. A date later in the current hour is therefore refused unless `now` is itself a whole hour (`MeetupController.LaterThisHourRefused`). Equivalently, the date must be at or after the first whole hour not before `now` (`DateFns.StartOfHourNotBefore`).

Other points the code settles:

- `update` of a meetup writes every sent column, including `user_id` and `date`. It neither checks the new date nor looks at subscriptions. It can therefore put a subscriber's two meetups in one timeslot (`MeetupController.UpdateCanBreakTimeslotRule`).
- The banner check in meetup `update` runs only for a truthy (non-zero) `file_id`.

## Model

| member | source | states |
|---|---|---|
| `SubscriptionController.Subscribe` | src/app/controllers/SubscriptionController.js:29-74 | 404 exactly when the meetup is missing. Otherwise 400 exactly when it is past. Otherwise 401 exactly when the requester organizes it or already holds a subscription at its date. Every failure leaves the store unchanged. Success adds exactly one row `(requester, meetup)` under the next key and changes nothing else. |
| `SubscriptionController.Store` | src/app/controllers/SubscriptionController.js:29-75 | The handler on the live store checks the guards in the source's order. Its status and new state are those of `Subscribe`, and it returns the created row only on success. |
| `SubscriptionController.SubscribeKeepsInvariants` | src/app/controllers/SubscriptionController.js:48-72 | If no user holds two subscriptions in one timeslot before `store`, none does after, and the store stays well formed. |
| `SubscriptionController.SecondSubscriptionFails` | src/app/controllers/SubscriptionController.js:48-67 | After a successful subscription, the same request fails at any later time and changes nothing, because a meetup shares its own date. |
| `SubscriptionController.Upcoming` | src/app/controllers/SubscriptionController.js:7-24 | `index` lists a subscription exactly when it is the requester's and its meetup exists with a date strictly after `now`. Each subscription appears once, and the list is ordered by meetup date, ascending. |
| `SubscriptionController.SortByDatePermutes` | src/app/controllers/SubscriptionController.js:23 | Ordering by meetup date returns a permutation of the selected rows. |
| `MeetupController.MatchingBelow` | src/app/controllers/MeetupController.js:20-25 | With a date filter, a meetup is selected exactly when its date lies between the start and the end of that day, both ends included. Without one, every meetup is selected. Rows come in key order. |
| `MeetupController.Paginate` | src/app/controllers/MeetupController.js:42-43 | The page holds the rows at offset `limit*page - limit`, at most `limit` of them. A negative limit or offset gives no page. |
| `MeetupController.List` | src/app/controllers/MeetupController.js:16-44 | `index` with page 1 and limit 10 by default. The page is exactly the window at offset `limit*page - limit` of the matching meetups in key order, so it holds at most `limit` stored rows that match the day filter, each once. A negative limit or offset gives no page. |
| `MeetupController.FirstPageByDefault` | src/app/controllers/MeetupController.js:18-43 | Without a page number the offset is 0, so the answer is the first `limit` matching meetups. |
| `MeetupController.StoreSchemaValid` | src/app/controllers/MeetupController.js:50-56 | The creation schema holds exactly when title, description and location are non-empty strings and a date and a file id are sent. |
| `MeetupController.Create` | src/app/controllers/MeetupController.js:49-81 | 422 exactly when title, description, location, date or file_id is missing. Otherwise 400 exactly when the start of the date's hour is before `now` or the file does not exist. Failures leave the store unchanged. Success adds one meetup under the next key, with the date at or after the next whole hour and the owner equal to the requester whatever `user_id` the body carries. |
| `MeetupController.Store` | src/app/controllers/MeetupController.js:49-80 | The handler on the live store gives the same status and new state as `Create` and returns the created meetup. |
| `MeetupController.LaterThisHourRefused` | src/app/controllers/MeetupController.js:66-70 | A date later in the current hour is accepted only if `now` is exactly on the hour. |
| `DateFns.StartOfHourNotBefore` | src/app/controllers/MeetupController.js:66-68 | The start of the date's hour is not before `now` exactly when the date is at or after the first whole hour not before `now`. |
| `DateFns.StartOfHour` | src/app/controllers/MeetupController.js:66 | `startOfHour` gives the whole hour at or before the instant, less than one hour earlier. |
| `DateFns.StartOfDay` | src/app/controllers/MeetupController.js:24 | `startOfDay` gives the midnight at or before the instant, less than one day earlier. |
| `DateFns.EndOfDay` | src/app/controllers/MeetupController.js:24 | `endOfDay` is the last millisecond of the day that `startOfDay` begins. |
| `MeetupController.CreateKeepsInvariants` | src/app/controllers/MeetupController.js:78 | Creating a meetup keeps the store well formed and keeps the timeslot rule, because no subscription names the new key. |
| `MeetupController.OwnerGuard` | src/app/controllers/MeetupController.js:100-116 | The guards shared by update and delete: 404 exactly when the meetup is missing, 400 when the requester is not its organizer or it is past, and no objection otherwise. |
| `MeetupController.UpdateSchemaValid` | src/app/controllers/MeetupController.js:84-90 | The update schema holds exactly when no sent key has a value of the wrong type. |
| `MeetupController.Update` | src/app/controllers/MeetupController.js:83-128 | 422 for a body the schema refuses. Then the shared guards, in order. Then 400 for a truthy `file_id` that names no file. Failures change nothing. Success replaces exactly the sent columns of that one meetup and no other row, and the new date is not checked. |
| `MeetupController.UpdateMeetup` | src/app/controllers/MeetupController.js:83-145 | The handler on the live store gives the same status and new state as `Update` and returns the updated meetup. |
| `MeetupController.UpdateKeepsWellFormed` | src/app/controllers/MeetupController.js:128 | An update adds no key and touches no user, so the store stays well formed and emails stay unique. |
| `MeetupController.UpdateCanBreakTimeslotRule` | src/app/controllers/MeetupController.js:128 | Moving a meetup onto another meetup's date can give a subscriber of both two subscriptions in one timeslot. |
| `MeetupController.Delete` | src/app/controllers/MeetupController.js:148-171 | Returns the shared guards' answer and changes nothing when they object. Otherwise it removes exactly that meetup and leaves every other row as it was. |
| `MeetupController.DeleteMeetup` | src/app/controllers/MeetupController.js:148-171 | The handler on the live store gives the same status and new state as `Delete`. |
| `MeetupController.DeleteKeepsInvariants` | src/app/controllers/MeetupController.js:169 | Cancelling keeps the store well formed and keeps the timeslot rule. |
| `UserController.StoreSchemaValid` | src/app/controllers/UserController.js:7-15 | The registration schema holds exactly when the email is non-empty and of valid format, the name is non-empty and the password has JavaScript length at least six. |
| `Wrappers.JsLength` | src/app/controllers/UserController.js:12-14 | The length that `min(6)` measures counts UTF-16 code units, between one and two per character. |
| `Wrappers.ThreeEmojiHaveLengthSix` | src/app/controllers/UserController.js:12-14 | Three characters outside the Basic Multilingual Plane already reach length six. |
| `UserController.Register` | src/app/controllers/UserController.js:6-29 | 200 exactly when the email has valid format, the name is present, the password has JavaScript length at least six and no user holds the email. Otherwise 422 and nothing changes. Success stores one user whose hash is `hash(password)`, never a `password_hash` sent in the body. |
| `UserController.Store` | src/app/controllers/UserController.js:6-30 | The handler on the live store gives the same status and new state as `Register` and returns the new user's resource. |
| `UserController.RegisterKeepsInvariants` | src/app/controllers/UserController.js:21-27 | Registration keeps emails unique and the store well formed. |
| `UserController.UpdateSchemaValid` | src/app/controllers/UserController.js:33-49 | The profile schema key by key: a sent email is empty or of valid format; a sent password has length at least six and equals `confirmPassword`; a sent `confirmPassword` equals the password; a sent `oldPassword` has length at least six; once the password is non-empty, confirmation and old password are required. |
| `UserController.Update` | src/app/controllers/UserController.js:32-81 | 422 for a body the schema refuses. Then 404 when the requester has no row. Then 422 when a different sent email is held by another user, or a sent old password fails verification. Failures change nothing. Success rewrites only the requester's row: sent email and name, a hash that is `hash(password)` when a password is sent and otherwise unchanged, the creation time kept. |
| `UserController.UpdateProfile` | src/app/controllers/UserController.js:32-82 | The handler on the live store gives the same status and new state as `Update`. It drops the body's `password_hash` before applying the body and returns the updated resource. |
| `UserController.UpdateKeepsInvariants` | src/app/controllers/UserController.js:65-79 | A profile update keeps emails unique and the store well formed. |
| `UserController.PasswordChangeRule` | src/app/controllers/UserController.js:36-48 | When the schema accepts a sent password, it has JavaScript length at least six, equals `confirmPassword`, and comes with an `oldPassword` of JavaScript length at least six. A `confirmPassword` without a password is refused. |
| `UserController.PasswordChangeNeedsOldPassword` | src/app/controllers/UserController.js:44-75 | A successful update that sends a password was sent an old password that verifies against the stored hash. |
| `UserController.UpdateIgnoresSentHash` | src/app/controllers/UserController.js:77-79 | A `password_hash` key in the body has no effect on the answer or the store. |
| `UserController.UpdateAsWritten` | src/app/controllers/UserController.js:65-71 | The update with the email guard as written: failures change nothing, and success writes the body into the requester's row. |
| `UserController.AsWrittenDiffersOnlyOnEmptyEmail` | src/app/controllers/UserController.js:65 | The written guard and the corrected one agree on every body whose email is not the empty string. |
| `UserController.AsWrittenDuplicatesEmptyEmail` | src/app/controllers/UserController.js:65 | Under the written guard, two users who set an empty email in turn both succeed and end up sharing it. |
| `UserModel.ResourceOf` | src/app/models/User.js:33-41 | `resource()` on a stored row: the id, email, name, created_at and updated_at, and nothing else. |
| `UserModel.User.Resource` | src/app/models/User.js:33-41 | `resource()` of an instance is the projection of its persisted columns. |
| `UserModel.ResourceHidesHash` | src/app/models/User.js:33-41 | Two users differing only in their password hash have the same resource, so the resource reveals nothing of the hash. |
| `UserModel.User.BeforeSave` | src/app/models/User.js:20-24 | The save hook sets the hash to `hash(password)` when the virtual password is a non-empty string and otherwise leaves it unchanged. |
| `UserModel.User.CheckPassword` | src/app/models/User.js:29-31 | `checkPassword(p)` is the verifier applied to `p` and the stored hash. |
| `UserModel.SaveThenCheck` | src/app/models/User.js:29-31 | When `verify(p, hash(p))` always holds, saving with password `p` and then checking `p` succeeds. |

## Findings

| source | as written | input that shows it | evidently intended | confidence | as-written member | corrected member |
|---|---|---|---|---|---|---|
| src/app/controllers/UserController.js:65 | `if (email && user.email !== email)`: the uniqueness check runs only for a truthy email. The schema's `email()` test lets the empty string through, and `user.update` then writes it. | Two users each send `PUT /users` with `{ "email": "" }`. Both get 200 and share the email `""`. | Check uniqueness whenever an email is sent and differs from the user's own. | medium: assumes no unique constraint in the unmodelled migrations; not executed | `UserController.AsWrittenDuplicatesEmptyEmail` | `UserController.Update` |

`UserController.Update` and the handler `UserController.UpdateProfile` use the corrected guard, and `UserController.UpdateKeepsInvariants` proves that they keep emails unique. `UserController.UpdateAsWritten` keeps the written guard.

## Left out

- src/app.js, src/routes.js and the authentication middleware: they only wire handlers to routes and put the token's user id in the request. The model takes that id as a parameter.
- src/app/controllers/AuthController.js: its answer comes from bcrypt's compare and from signing a JWT. Both are foreign code.
- The validator's email pattern, cast rules and error messages: the pattern is the parameter `isEmail`, and a value the schema cannot cast is `Malformed`.
- bcrypt: `hash` and `verify` are parameters. The random salt is folded into `hash`. The model does not separate the controllers' `isPasswordCorrect` from the model's `checkPassword`: both are `verify` against the stored hash.
- The body of `isPast`: it lives in the Meetup model, which is not part of this model. It is the parameter `isPast`.
- `parseISO` and time zones: dates are integer milliseconds already parsed, in one fixed zone. Meetup `store` runs `parseISO` on the raw body date, not on the date the schema cast. A date the schema accepts but `parseISO` cannot read (such as `"2019/06/22 10:00"`) becomes an invalid date that is never before `now`, so the source creates the meetup even when it lies in the past. The model, whose dates are already parsed, answers 400 for a past date.
- Query-string and path-parameter coercion from strings, and `null` values in bodies.
- Body keys other than the ones modelled, for example `id` or timestamps sent by a client.
- Response shaping: `include`, `reload` and the embedded organizer and banner.
- Concurrency: each handler is atomic. The read-then-write race between the conflict query and `Subscription.create` is not modelled.
- Meetup and subscription timestamps.
- Sequelize skipping a save in which no attribute changed: a successful profile update always sets `updated_at` to `now`.
- Foreign keys: migrations are not part of this model. Cancelling a meetup leaves its subscriptions as rows that no inner join finds any more. A `file_id` of 0 written by an update is stored as is.
- MeetupController.List: the query has no order, so the model lists by key. A database error for a negative LIMIT or OFFSET is modelled as no page.
- SubscriptionController.Upcoming and MeetupController.List require `WellFormed`, the key-sequence invariant that every writing handler keeps (the `...KeepsInvariants` lemmas and `MeetupController.UpdateKeepsWellFormed`), so that listing in key order can stop at the sequence.
- The banner check of meetup `update` tests the raw body value, not the value the schema cast. A `file_id` sent as the string `"0"` is truthy there and is looked up. The model has one cast integer per field, so it skips the lookup for that input as it does for the number 0.
