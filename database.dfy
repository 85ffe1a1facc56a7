/** The relational store behind the handlers: the users, meetups, subscriptions
    and files tables, each keyed by an auto-increment primary key. */
module Db {
  import opened Http
  import opened DateFns

  type Id = nat

  /** The persisted columns of a user. The plaintext password is a virtual
      attribute of the model and has no column here. */
  datatype UserRow = UserRow(email: string, name: string, passwordHash: string,
                             createdAt: Time, updatedAt: Time)

  datatype MeetupRow = MeetupRow(userId: Id, title: string, description: string,
                                 location: string, date: Time, fileId: int)

  datatype SubscriptionRow = SubscriptionRow(userId: Id, meetupId: Id)

  /** A snapshot of the whole store. The `next` counters are the values the
      auto-increment sequences hand out next. */
  datatype Tables = Tables(users: map<Id, UserRow>,
                           meetups: map<Id, MeetupRow>,
                           subscriptions: map<Id, SubscriptionRow>,
                           files: set<int>,
                           nextUserId: Id,
                           nextMeetupId: Id,
                           nextSubscriptionId: Id)

  /** What a handler answers and the store it leaves behind. */
  datatype Reply = Reply(status: Status, tables: Tables)

  /** Every key lies below its sequence, and every subscription names a meetup
      id that has been handed out. */
  ghost predicate WellFormed(t: Tables) {
    (forall id :: id in t.users ==> id < t.nextUserId) &&
    (forall id :: id in t.meetups ==> id < t.nextMeetupId) &&
    (forall id :: id in t.subscriptions ==>
       id < t.nextSubscriptionId && t.subscriptions[id].meetupId < t.nextMeetupId)
  }

  function UserEmail(users: map<Id, UserRow>, id: Id): string
    requires id in users
  {
    users[id].email
  }

  /** The `User.findOne({ where: { email } })` query finds a row. */
  predicate EmailTaken(users: map<Id, UserRow>, email: string) {
    exists id :: id in users && UserEmail(users, id) == email
  }

  /** No two users share an email. */
  ghost predicate UniqueEmails(users: map<Id, UserRow>) {
    forall a, b :: a in users && b in users && UserEmail(users, a) == UserEmail(users, b) ==> a == b
  }

  /** Subscription `s` belongs to `user` and joins an existing meetup held at
      `date`: the inner join the conflict query performs. */
  predicate HeldAt(t: Tables, s: SubscriptionRow, user: Id, date: Time) {
    s.userId == user && s.meetupId in t.meetups && t.meetups[s.meetupId].date == date
  }

  /** `user` already holds a subscription for a meetup at `date`. */
  predicate HasSubscriptionAt(t: Tables, user: Id, date: Time) {
    exists id :: id in t.subscriptions && HeldAt(t, t.subscriptions[id], user, date)
  }

  /** Two subscription rows of one user whose meetups both exist and share a date. */
  predicate SameTimeslot(t: Tables, x: SubscriptionRow, y: SubscriptionRow) {
    x.userId == y.userId && x.meetupId in t.meetups && HeldAt(t, y, x.userId, t.meetups[x.meetupId].date)
  }

  /** The scheduling rule: no user holds two subscriptions in one timeslot. */
  ghost predicate OneSubscriptionPerTimeslot(t: Tables) {
    forall a, b ::
      a in t.subscriptions && b in t.subscriptions && SameTimeslot(t, t.subscriptions[a], t.subscriptions[b])
      ==> a == b
  }

  function Empty(files: set<int>): (t: Tables)
    ensures WellFormed(t) && UniqueEmails(t.users) && OneSubscriptionPerTimeslot(t)
  {
    Tables(map[], map[], map[], files, 0, 0, 0)
  }

  /** The database the handlers read and write in place. */
  class Store {
    var users: map<Id, UserRow>
    var meetups: map<Id, MeetupRow>
    var subscriptions: map<Id, SubscriptionRow>
    var files: set<int>
    var nextUserId: Id
    var nextMeetupId: Id
    var nextSubscriptionId: Id

    /** The current contents, as a value. */
    function State(): Tables
      reads this
    {
      Tables(users, meetups, subscriptions, files, nextUserId, nextMeetupId, nextSubscriptionId)
    }

    /** A store whose only rows are the uploaded files `files`. */
    constructor (files: set<int>)
      ensures State() == Empty(files)
    {
      users, meetups, subscriptions := map[], map[], map[];
      this.files := files;
      nextUserId, nextMeetupId, nextSubscriptionId := 0, 0, 0;
    }
  }
}
