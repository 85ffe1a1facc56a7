/** The meetup handlers: list by day with pagination, create, update and
    cancel. Whether a stored meetup is past is the parameter `isPast`. */
module MeetupController {
  import opened Wrappers
  import opened Http
  import opened DateFns
  import opened Db

  // ---------------------------------------------------------------------------
  // index

  /** One listed meetup with its key. */
  datatype MeetupItem = MeetupItem(id: Id, meetup: MeetupRow)

  /** The `where` the handler builds: with a date, the meetups from the first
      to the last millisecond of that day, both ends included; without one,
      every meetup. */
  predicate Matches(day: Option<Time>, date: Time) {
    day.Some? ==> StartOfDay(day.value) <= date <= EndOfDay(day.value)
  }

  /** The matching meetups with key below `n`, in key order. */
  function MatchingBelow(t: Tables, day: Option<Time>, n: nat): (r: seq<MeetupItem>)
    ensures forall x :: x in r <==> x.id < n && x.id in t.meetups && x.meetup == t.meetups[x.id] &&
                                    Matches(day, x.meetup.date)
    ensures forall i, j :: 0 <= i < j < |r| ==> r[i].id < r[j].id
  {
    if n == 0 then []
    else
      var k := n - 1;
      var prefix := MatchingBelow(t, day, k);
      if k in t.meetups && Matches(day, t.meetups[k].date) then prefix + [MeetupItem(k, t.meetups[k])]
      else prefix
  }

  /** The `limit` rows from position `offset` on, or fewer at the end. */
  function Window<T>(s: seq<T>, offset: nat, limit: nat): (r: seq<T>)
    ensures |r| == (if offset >= |s| then 0 else if |s| - offset < limit then |s| - offset else limit)
    ensures forall i :: 0 <= i < |r| ==> r[i] == s[offset + i]
  {
    if offset >= |s| then []
    else if |s| - offset < limit then s[offset..]
    else s[offset..offset + limit]
  }

  /** A window keeps the rows it takes and their order. */
  lemma WindowOfMatching(s: seq<MeetupItem>, offset: nat, limit: nat)
    requires forall i, j :: 0 <= i < j < |s| ==> s[i].id < s[j].id
    ensures forall x :: x in Window(s, offset, limit) ==> x in s
    ensures var r := Window(s, offset, limit);
            forall i, j :: 0 <= i < j < |r| ==> r[i].id < r[j].id
  {
  }

  /** Pagination: the window at offset `limit * page - limit`. A negative limit
      or offset is refused by the database. */
  function Paginate<T>(s: seq<T>, page: int, limit: int): (r: Option<seq<T>>)
    ensures r.None? <==> limit < 0 || limit * page - limit < 0
    ensures r.Some? ==> r.value == Window(s, limit * page - limit, limit)
  {
    var offset := limit * page - limit;
    if limit < 0 || offset < 0 then None
    else Some(Window(s, offset, limit))
  }

  /** `index`: the page of matching meetups, page 1 and 10 per page by default.
      The query has no order; the model lists by key. */
  function List(t: Tables, day: Option<Time>, page: Option<int>, limit: Option<int>)
    : (r: Option<seq<MeetupItem>>)
    requires WellFormed(t)
    ensures r.None? <==> limit.GetOr(10) < 0 || limit.GetOr(10) * page.GetOr(1) - limit.GetOr(10) < 0
    ensures r.Some? ==>
              r.value == Window(MatchingBelow(t, day, t.nextMeetupId),
                                limit.GetOr(10) * page.GetOr(1) - limit.GetOr(10), limit.GetOr(10))
    ensures r.Some? ==> |r.value| <= limit.GetOr(10)
    ensures r.Some? ==> forall x :: x in r.value ==>
              x.id in t.meetups && x.meetup == t.meetups[x.id] && Matches(day, x.meetup.date)
    ensures r.Some? ==> forall i, j :: 0 <= i < j < |r.value| ==> r.value[i].id < r.value[j].id
  {
    var all := MatchingBelow(t, day, t.nextMeetupId);
    var r := Paginate(all, page.GetOr(1), limit.GetOr(10));
    if r.Some? then
      WindowOfMatching(all, limit.GetOr(10) * page.GetOr(1) - limit.GetOr(10), limit.GetOr(10));
      r
    else r
  }

  /** Without a page number the first page is served: it starts with the
      earliest-keyed matching meetup and holds up to `limit` of them. */
  lemma FirstPageByDefault(t: Tables, day: Option<Time>, limit: Option<int>)
    requires WellFormed(t)
    requires limit.GetOr(10) >= 0
    ensures var r := List(t, day, None, limit);
            var all := MatchingBelow(t, day, t.nextMeetupId);
            r.Some? && r.value == all[..if |all| < limit.GetOr(10) then |all| else limit.GetOr(10)]
  {
  }

  // ---------------------------------------------------------------------------
  // store

  /** The keys of a meetup request body that the handlers look at. */
  datatype MeetupBody = MeetupBody(title: Field<string>, description: Field<string>,
                                   location: Field<string>, date: Field<Time>,
                                   fileId: Field<int>, userId: Field<Id>)

  /** The creation schema: title, description, location, date and file id, all
      required. */
  predicate StoreSchemaValid(b: MeetupBody) {
    Filled(b.title) && Filled(b.description) && Filled(b.location) &&
    b.date.Given? && b.fileId.Given?
  }

  /** The row `Meetup.create({ ...body, user_id })` stores: the requester
      overrides any `user_id` in the body. */
  function NewMeetup(b: MeetupBody, userId: Id): MeetupRow
    requires StoreSchemaValid(b)
  {
    MeetupRow(userId, b.title.value, b.description.value, b.location.value, b.date.value, b.fileId.value)
  }

  /** `store`: a new meetup organized by `userId`. The guards run in order: the
      schema, the start of the date's hour not before `now`, and the banner file. */
  function Create(t: Tables, userId: Id, b: MeetupBody, now: Time): (r: Reply)
    ensures r.status == UnprocessableEntity <==> !StoreSchemaValid(b)
    ensures r.status == BadRequest <==>
              StoreSchemaValid(b) && (StartOfHour(b.date.value) < now || b.fileId.value !in t.files)
    ensures r.status == Ok || r.status == BadRequest || r.status == UnprocessableEntity
    ensures r.status != Ok ==> r.tables == t
    ensures r.status == Ok ==>
              b.date.Given? && b.date.value >= NextWholeHour(now) &&
              t.nextMeetupId in r.tables.meetups &&
              r.tables == t.(meetups := t.meetups[t.nextMeetupId := r.tables.meetups[t.nextMeetupId]],
                             nextMeetupId := t.nextMeetupId + 1) &&
              r.tables.meetups[t.nextMeetupId] == NewMeetup(b, userId) &&
              r.tables.meetups[t.nextMeetupId].userId == userId
  {
    if !StoreSchemaValid(b) then Reply(UnprocessableEntity, t)
    else if StartOfHour(b.date.value) < now then Reply(BadRequest, t)
    else if b.fileId.value !in t.files then Reply(BadRequest, t)
    else
      StartOfHourNotBefore(b.date.value, now);
      Reply(Ok, t.(meetups := t.meetups[t.nextMeetupId := NewMeetup(b, userId)],
                   nextMeetupId := t.nextMeetupId + 1))
  }

  /** The handler itself, on the live store. */
  method Store(db: Db.Store, userId: Id, body: MeetupBody, now: Time)
    returns (status: Status, meetup: Option<MeetupItem>)
    modifies db
    ensures Reply(status, db.State()) == Create(old(db.State()), userId, body, now)
    ensures meetup == if status == Ok then Some(MeetupItem(old(db.nextMeetupId), db.meetups[old(db.nextMeetupId)]))
                      else None
  {
    if !StoreSchemaValid(body) {
      return UnprocessableEntity, None;
    }
    var startHour := StartOfHour(body.date.value);
    if startHour < now {
      return BadRequest, None;
    }
    var fileExists := body.fileId.value in db.files;
    if !fileExists {
      return BadRequest, None;
    }
    var row := NewMeetup(body, userId);
    var id := db.nextMeetupId;
    db.meetups := db.meetups[id := row];
    db.nextMeetupId := id + 1;
    return Ok, Some(MeetupItem(id, row));
  }

  /** A date later in the current hour is refused unless `now` is itself a
      whole hour. */
  lemma LaterThisHourRefused(t: Tables, userId: Id, b: MeetupBody, now: Time)
    requires StoreSchemaValid(b)
    requires now <= b.date.value < StartOfHour(now) + HOUR
    ensures Create(t, userId, b, now).status == Ok ==> now % HOUR == 0
  {
  }

  /** Creating a meetup keeps the store well formed and every user to one
      subscription per timeslot: no subscription names the new key yet. */
  lemma CreateKeepsInvariants(t: Tables, userId: Id, b: MeetupBody, now: Time)
    requires WellFormed(t) && UniqueEmails(t.users) && OneSubscriptionPerTimeslot(t)
    ensures var t' := Create(t, userId, b, now).tables;
            WellFormed(t') && UniqueEmails(t'.users) && OneSubscriptionPerTimeslot(t')
  {
  }

  // ---------------------------------------------------------------------------
  // update

  /** The update schema: every key optional, of the right type when sent. */
  predicate UpdateSchemaValid(b: MeetupBody) {
    !b.title.Malformed? && !b.description.Malformed? && !b.location.Malformed? &&
    !b.date.Malformed? && !b.fileId.Malformed?
  }

  /** `meetup.update(body)`: each sent key replaces its column, the owner
      included. */
  function Applied(m: MeetupRow, b: MeetupBody): MeetupRow {
    MeetupRow(b.userId.Or(m.userId), b.title.Or(m.title), b.description.Or(m.description),
              b.location.Or(m.location), b.date.Or(m.date), b.fileId.Or(m.fileId))
  }

  /** The guards `update` and `delete` share, in order: the meetup exists, the
      requester organizes it, and it is not past. */
  function OwnerGuard(t: Tables, userId: Id, id: Id, now: Time, isPast: (Time, Time) -> bool)
    : (r: Option<Status>)
    ensures r == Some(NotFound) <==> id !in t.meetups
    ensures r == Some(BadRequest) <==>
              id in t.meetups && (t.meetups[id].userId != userId || isPast(t.meetups[id].date, now))
    ensures r.None? <==> id in t.meetups && t.meetups[id].userId == userId && !isPast(t.meetups[id].date, now)
  {
    if id !in t.meetups then Some(NotFound)
    else if t.meetups[id].userId != userId then Some(BadRequest)
    else if isPast(t.meetups[id].date, now) then Some(BadRequest)
    else None
  }

  /** `update`: the schema first, then the shared guards, then the banner
      when a non-zero file id is sent; on success only the sent keys of that
      one meetup change. The new date is not checked. */
  function Update(t: Tables, userId: Id, id: Id, b: MeetupBody, now: Time,
                  isPast: (Time, Time) -> bool): (r: Reply)
    ensures !UpdateSchemaValid(b) ==> r.status == UnprocessableEntity
    ensures UpdateSchemaValid(b) && OwnerGuard(t, userId, id, now, isPast).Some? ==>
              r.status == OwnerGuard(t, userId, id, now, isPast).value
    ensures r.status == Ok <==>
              UpdateSchemaValid(b) && OwnerGuard(t, userId, id, now, isPast).None? &&
              (b.fileId.Given? && b.fileId.value != 0 ==> b.fileId.value in t.files)
    ensures UpdateSchemaValid(b) && OwnerGuard(t, userId, id, now, isPast).None? &&
            b.fileId.Given? && b.fileId.value != 0 && b.fileId.value !in t.files ==>
              r.status == BadRequest
    ensures r.status != Ok ==> r.tables == t
    ensures r.status == Ok ==>
              id in t.meetups && id in r.tables.meetups &&
              r.tables == t.(meetups := t.meetups[id := r.tables.meetups[id]]) &&
              r.tables.meetups[id] == Applied(t.meetups[id], b)
  {
    if !UpdateSchemaValid(b) then Reply(UnprocessableEntity, t)
    else
      var guard := OwnerGuard(t, userId, id, now, isPast);
      if guard.Some? then Reply(guard.value, t)
      else if b.fileId.Given? && b.fileId.value != 0 && b.fileId.value !in t.files then Reply(BadRequest, t)
      else Reply(Ok, t.(meetups := t.meetups[id := Applied(t.meetups[id], b)]))
  }

  /** The handler itself, on the live store. */
  method UpdateMeetup(db: Db.Store, userId: Id, id: Id, body: MeetupBody, now: Time,
                      isPast: (Time, Time) -> bool)
    returns (status: Status, meetup: Option<MeetupItem>)
    modifies db
    ensures Reply(status, db.State()) == Update(old(db.State()), userId, id, body, now, isPast)
    ensures meetup == if status == Ok then Some(MeetupItem(id, db.meetups[id])) else None
  {
    if !UpdateSchemaValid(body) {
      return UnprocessableEntity, None;
    }
    if id !in db.meetups {
      return NotFound, None;
    }
    var m := db.meetups[id];
    if m.userId != userId {
      return BadRequest, None;
    }
    if isPast(m.date, now) {
      return BadRequest, None;
    }
    var fileId := body.fileId;
    if fileId.Given? && fileId.value != 0 {
      var fileExists := fileId.value in db.files;
      if !fileExists {
        return BadRequest, None;
      }
    }
    db.meetups := db.meetups[id := Applied(m, body)];
    return Ok, Some(MeetupItem(id, db.meetups[id]));
  }

  /** An update keeps the store well formed and the emails unique; it adds no
      key and touches no user. */
  lemma UpdateKeepsWellFormed(t: Tables, userId: Id, id: Id, b: MeetupBody, now: Time,
                              isPast: (Time, Time) -> bool)
    requires WellFormed(t) && UniqueEmails(t.users)
    ensures var t' := Update(t, userId, id, b, now, isPast).tables;
            WellFormed(t') && UniqueEmails(t'.users)
  {
  }

  /** An update may move a meetup onto the date of another meetup that a
      subscriber of both already attends, so the one-subscription-per-timeslot
      rule does not survive it. */
  lemma UpdateCanBreakTimeslotRule(isPast: (Time, Time) -> bool)
    requires !isPast(2 * HOUR, 0)
    ensures var t := Empty({}).(meetups := map[0 := MeetupRow(1, "a", "a", "a", HOUR, 7),
                                               1 := MeetupRow(1, "b", "b", "b", 2 * HOUR, 7)],
                                subscriptions := map[0 := SubscriptionRow(2, 0), 1 := SubscriptionRow(2, 1)],
                                nextMeetupId := 2, nextSubscriptionId := 2);
            var b := MeetupBody(Absent, Absent, Absent, Given(HOUR), Absent, Absent);
            var r := Update(t, 1, 1, b, 0, isPast);
            OneSubscriptionPerTimeslot(t) && r.status == Ok && !OneSubscriptionPerTimeslot(r.tables)
  {
    var t := Empty({}).(meetups := map[0 := MeetupRow(1, "a", "a", "a", HOUR, 7),
                                       1 := MeetupRow(1, "b", "b", "b", 2 * HOUR, 7)],
                        subscriptions := map[0 := SubscriptionRow(2, 0), 1 := SubscriptionRow(2, 1)],
                        nextMeetupId := 2, nextSubscriptionId := 2);
    var b := MeetupBody(Absent, Absent, Absent, Given(HOUR), Absent, Absent);
    var r := Update(t, 1, 1, b, 0, isPast);
    assert SameTimeslot(r.tables, r.tables.subscriptions[0], r.tables.subscriptions[1]);
    forall x, y | x in t.subscriptions && y in t.subscriptions &&
                  SameTimeslot(t, t.subscriptions[x], t.subscriptions[y])
      ensures x == y
    {
    }
  }

  // ---------------------------------------------------------------------------
  // delete

  /** `delete`: the shared guards, then the meetup row is removed; every other
      row stays. */
  function Delete(t: Tables, userId: Id, id: Id, now: Time, isPast: (Time, Time) -> bool): (r: Reply)
    ensures r.status == Ok <==> OwnerGuard(t, userId, id, now, isPast).None?
    ensures r.status != Ok ==> r.status == OwnerGuard(t, userId, id, now, isPast).value && r.tables == t
    ensures r.status == Ok ==>
              r.tables == t.(meetups := r.tables.meetups) &&
              r.tables.meetups.Keys == t.meetups.Keys - {id} &&
              forall k :: k in r.tables.meetups ==> r.tables.meetups[k] == t.meetups[k]
  {
    var guard := OwnerGuard(t, userId, id, now, isPast);
    if guard.Some? then Reply(guard.value, t)
    else Reply(Ok, t.(meetups := t.meetups - {id}))
  }

  /** The handler itself, on the live store. */
  method DeleteMeetup(db: Db.Store, userId: Id, id: Id, now: Time, isPast: (Time, Time) -> bool)
    returns (status: Status)
    modifies db
    ensures Reply(status, db.State()) == Delete(old(db.State()), userId, id, now, isPast)
  {
    if id !in db.meetups {
      return NotFound;
    }
    var m := db.meetups[id];
    if m.userId != userId {
      return BadRequest;
    }
    if isPast(m.date, now) {
      return BadRequest;
    }
    db.meetups := db.meetups - {id};
    return Ok;
  }

  /** Cancelling a meetup keeps the store well formed and every user to one
      subscription per timeslot: its subscriptions stop joining any meetup. */
  lemma DeleteKeepsInvariants(t: Tables, userId: Id, id: Id, now: Time, isPast: (Time, Time) -> bool)
    requires WellFormed(t) && UniqueEmails(t.users) && OneSubscriptionPerTimeslot(t)
    ensures var t' := Delete(t, userId, id, now, isPast).tables;
            WellFormed(t') && UniqueEmails(t'.users) && OneSubscriptionPerTimeslot(t')
  {
  }
}
