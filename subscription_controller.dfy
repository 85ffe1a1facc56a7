/** The subscription handlers: subscribe to someone else's upcoming meetup, and
    list one's own upcoming subscriptions. */
module SubscriptionController {
  import opened Wrappers
  import opened Http
  import opened DateFns
  import opened Db

  /** The row `Subscription.create` adds for `userId` and `meetupId`. */
  function Subscribed(t: Tables, userId: Id, meetupId: Id): Tables {
    t.(subscriptions := t.subscriptions[t.nextSubscriptionId := SubscriptionRow(userId, meetupId)],
       nextSubscriptionId := t.nextSubscriptionId + 1)
  }

  /** `store`: the answer to `userId` asking to subscribe to meetup `meetupId`
      at time `now`. The guards run in order: the meetup must exist, must not be
      past, must be organized by someone else, and must not fall in a timeslot
      in which `userId` already holds a subscription. */
  function Subscribe(t: Tables, userId: Id, meetupId: Id, now: Time,
                     isPast: (Time, Time) -> bool): (r: Reply)
    ensures r.status == NotFound <==> meetupId !in t.meetups
    ensures r.status == BadRequest <==>
              meetupId in t.meetups && isPast(t.meetups[meetupId].date, now)
    ensures r.status == Unauthorized <==>
              meetupId in t.meetups && !isPast(t.meetups[meetupId].date, now) &&
              (t.meetups[meetupId].userId == userId ||
               HasSubscriptionAt(t, userId, t.meetups[meetupId].date))
    ensures r.status == Ok <==>
              meetupId in t.meetups && !isPast(t.meetups[meetupId].date, now) &&
              t.meetups[meetupId].userId != userId &&
              !HasSubscriptionAt(t, userId, t.meetups[meetupId].date)
    ensures r.status != Ok ==> r.tables == t
    ensures r.status == Ok ==> r.tables == Subscribed(t, userId, meetupId)
  {
    if meetupId !in t.meetups then Reply(NotFound, t)
    else
      var meetup := t.meetups[meetupId];
      if isPast(meetup.date, now) then Reply(BadRequest, t)
      else if meetup.userId == userId then Reply(Unauthorized, t)
      else if HasSubscriptionAt(t, userId, meetup.date) then Reply(Unauthorized, t)
      else Reply(Ok, Subscribed(t, userId, meetupId))
  }

  /** The handler itself, on the live store. */
  method Store(db: Db.Store, userId: Id, meetupId: Id, now: Time, isPast: (Time, Time) -> bool)
    returns (status: Status, subscription: Option<SubscriptionRow>)
    modifies db
    ensures Reply(status, db.State()) == Subscribe(old(db.State()), userId, meetupId, now, isPast)
    ensures subscription == if status == Ok then Some(SubscriptionRow(userId, meetupId)) else None
  {
    if meetupId !in db.meetups {
      return NotFound, None;
    }
    var meetup := db.meetups[meetupId];
    if isPast(meetup.date, now) {
      return BadRequest, None;
    }
    if meetup.userId == userId {
      return Unauthorized, None;
    }
    var checkDate := HasSubscriptionAt(db.State(), userId, meetup.date);
    if checkDate {
      return Unauthorized, None;
    }
    var row := SubscriptionRow(userId, meetupId);
    db.subscriptions := db.subscriptions[db.nextSubscriptionId := row];
    db.nextSubscriptionId := db.nextSubscriptionId + 1;
    return Ok, Some(row);
  }

  /** A successful subscription keeps the store well formed and keeps every
      user to one subscription per timeslot. */
  lemma SubscribeKeepsInvariants(t: Tables, userId: Id, meetupId: Id, now: Time,
                                 isPast: (Time, Time) -> bool)
    requires WellFormed(t) && OneSubscriptionPerTimeslot(t)
    ensures WellFormed(Subscribe(t, userId, meetupId, now, isPast).tables)
    ensures OneSubscriptionPerTimeslot(Subscribe(t, userId, meetupId, now, isPast).tables)
  {
  }

  /** Once `userId` is subscribed to a meetup, asking again fails and changes
      nothing, whatever the time: the meetup shares its own timeslot. */
  lemma SecondSubscriptionFails(t: Tables, userId: Id, meetupId: Id, now: Time, later: Time,
                                isPast: (Time, Time) -> bool)
    requires Subscribe(t, userId, meetupId, now, isPast).status == Ok
    ensures var t' := Subscribe(t, userId, meetupId, now, isPast).tables;
            Subscribe(t', userId, meetupId, later, isPast).status != Ok &&
            Subscribe(t', userId, meetupId, later, isPast).tables == t'
  {
    var t' := Subscribe(t, userId, meetupId, now, isPast).tables;
    var n := t.nextSubscriptionId;
    assert HeldAt(t', t'.subscriptions[n], userId, t'.meetups[meetupId].date);
  }

  // ---------------------------------------------------------------------------
  // index: the requester's upcoming subscriptions, earliest meetup first

  /** One element of the listing: a subscription with its joined meetup. */
  datatype Listing = Listing(id: Id, subscription: SubscriptionRow, meetup: MeetupRow)

  /** `x` is a row the listing query selects for `userId` at time `now`: the user's
      subscription, joined (inner) with a meetup strictly after `now`. */
  predicate Selected(t: Tables, userId: Id, now: Time, x: Listing) {
    x.id in t.subscriptions && x.subscription == t.subscriptions[x.id] &&
    x.subscription.userId == userId &&
    x.subscription.meetupId in t.meetups && x.meetup == t.meetups[x.subscription.meetupId] &&
    x.meetup.date > now
  }

  predicate ByDate(s: seq<Listing>) {
    forall i, j :: 0 <= i < j < |s| ==> s[i].meetup.date <= s[j].meetup.date
  }

  predicate DistinctIds(s: seq<Listing>) {
    forall i, j :: 0 <= i < j < |s| ==> s[i].id != s[j].id
  }

  /** The selected rows with key below `n`, in key order. */
  function SelectedBelow(t: Tables, userId: Id, now: Time, n: nat): (r: seq<Listing>)
    ensures forall x :: x in r <==> Selected(t, userId, now, x) && x.id < n
    ensures forall i, j :: 0 <= i < j < |r| ==> r[i].id < r[j].id
  {
    if n == 0 then []
    else
      var k := n - 1;
      var prefix := SelectedBelow(t, userId, now, k);
      if k in t.subscriptions && t.subscriptions[k].meetupId in t.meetups then
        var x := Listing(k, t.subscriptions[k], t.meetups[t.subscriptions[k].meetupId]);
        if Selected(t, userId, now, x) then prefix + [x] else prefix
      else prefix
  }

  /** `x` placed before the first element of `s` with a later meetup. */
  function InsertByDate(x: Listing, s: seq<Listing>): (r: seq<Listing>)
    requires ByDate(s)
    ensures ByDate(r)
    ensures forall y :: y in r <==> y == x || y in s
    ensures DistinctIds(s) && (forall y :: y in s ==> y.id != x.id) ==> DistinctIds(r)
  {
    if s == [] then [x]
    else if x.meetup.date <= s[0].meetup.date then
      assert forall y :: y in s ==> x.meetup.date <= y.meetup.date by {
        forall y | y in s ensures x.meetup.date <= y.meetup.date {
          var k :| 0 <= k < |s| && s[k] == y;
          if k > 0 { assert s[0].meetup.date <= s[k].meetup.date; }
        }
      }
      ConsByDate(x, s);
      [x] + s
    else
      assert s == [s[0]] + s[1..];
      var rest := InsertByDate(x, s[1..]);
      assert forall y :: y in rest ==> s[0].meetup.date <= y.meetup.date;
      ConsByDate(s[0], rest);
      [s[0]] + rest
  }

  /** Putting in front an element no later than any other keeps the order and,
      when its id is new, the distinct ids. */
  lemma ConsByDate(a: Listing, s: seq<Listing>)
    requires ByDate(s)
    requires forall y :: y in s ==> a.meetup.date <= y.meetup.date
    ensures ByDate([a] + s)
    ensures DistinctIds(s) && (forall y :: y in s ==> y.id != a.id) ==> DistinctIds([a] + s)
  {
  }

  /** An insertion sort by meetup date. */
  function SortByDate(s: seq<Listing>): (r: seq<Listing>)
    ensures ByDate(r)
    ensures forall y :: y in r <==> y in s
    ensures DistinctIds(s) ==> DistinctIds(r)
  {
    if s == [] then []
    else
      assert s == [s[0]] + s[1..];
      InsertByDate(s[0], SortByDate(s[1..]))
  }

  /** Inserting adds exactly one occurrence of `x`. */
  lemma {:induction false} InsertByDatePermutes(x: Listing, s: seq<Listing>)
    requires ByDate(s)
    ensures multiset(InsertByDate(x, s)) == multiset(s) + multiset{x}
  {
    if s != [] && x.meetup.date > s[0].meetup.date {
      assert s == [s[0]] + s[1..];
      InsertByDatePermutes(x, s[1..]);
    }
  }

  /** The sort returns a permutation of its input. */
  lemma {:induction false} SortByDatePermutes(s: seq<Listing>)
    ensures multiset(SortByDate(s)) == multiset(s)
  {
    if s != [] {
      assert s == [s[0]] + s[1..];
      SortByDatePermutes(s[1..]);
      InsertByDatePermutes(s[0], SortByDate(s[1..]));
    }
  }

  /** `index`: exactly the selected rows, each once, ordered by meetup date. */
  function Upcoming(t: Tables, userId: Id, now: Time): (r: seq<Listing>)
    requires WellFormed(t)
    ensures forall x :: x in r <==> Selected(t, userId, now, x)
    ensures DistinctIds(r)
    ensures ByDate(r)
  {
    var selected := SelectedBelow(t, userId, now, t.nextSubscriptionId);
    SortByDate(selected)
  }
}
