/** The notifications collection (models/Notification.js): inserts with
    defaults, the per-user listing, and the two ways of marking as read. */
module NotificationModel {
  import opened Common
  import opened Listing

  datatype NotificationType =
    | FriendRequest | FriendAccepted
    | SessionRequest | SessionAccepted | SessionInvite | SessionCancelled
    | PromoLiked | PromoSaved | ReviewLiked | NewPromoNearby

  /** The `data` object: named ids (sessionId, fromUserId, requestId, ...). */
  type NotificationData = map<string, Oid>

  datatype Notification = Notification(
    id: Oid,
    userId: Oid,
    kind: NotificationType,
    title: string,
    description: string,
    data: NotificationData,
    isRead: bool,
    createdAt: int)

  /** What `createNotification` is given; None is a field left out. */
  datatype NewNotification = NewNotification(
    userId: Oid,
    kind: NotificationType,
    title: string,
    description: Option<string>,
    data: Option<NotificationData>)

  /** The collection as a value. */
  type Notes = Table<Oid, Notification>

  ghost predicate NotificationsValid(t: Table<Oid, Notification>) {
    forall id :: id in t.rows ==> t.rows[id].id == id && id.n < t.nextId
  }

  /** The record `createNotification` inserts: unread, with description ''
      and data {} when they are not given. */
  function NewNotificationRecord(id: Oid, n: NewNotification, now: int): (r: Notification)
    ensures !r.isRead && r.userId == n.userId && r.kind == n.kind
    ensures n.description.None? ==> r.description == ""
    ensures n.data.None? ==> r.data == map[]
  {
    var description := if n.description.Some? && n.description.value != "" then n.description.value else "";
    Notification(id, n.userId, n.kind, n.title, description, n.data.GetOr(map[]), false, now)
  }

  function InsertNotification(t: Table<Oid, Notification>, n: NewNotification, now: int): Table<Oid, Notification> {
    var r := NewNotificationRecord(t.Fresh(), n, now);
    Table(t.rows[r.id := r], t.nextId + 1)
  }

  /** One notification per entry of `to`, inserted in that order, all built
      from `make`. */
  function InsertEach(t: Table<Oid, Notification>, to: seq<Oid>, make: Oid -> NewNotification, now: int): Table<Oid, Notification>
    decreases |to|
  {
    if to == [] then t
    else InsertEach(InsertNotification(t, make(to[0]), now), to[1..], make, now)
  }

  /** Inserting for the recipients `to` adds exactly |to| records under the
      next fresh ids, keeps every old record and keeps the table valid. */
  lemma {:induction false} InsertEachKeeps(t: Table<Oid, Notification>, to: seq<Oid>,
                                           make: Oid -> NewNotification, now: int)
    requires NotificationsValid(t)
    ensures var t' := InsertEach(t, to, make, now);
      && NotificationsValid(t')
      && t'.nextId == t.nextId + |to|
      && (forall id :: id in t.rows ==> id in t'.rows && t'.rows[id] == t.rows[id])
      && (forall id :: id in t'.rows <==> id in t.rows || t.nextId <= id.n < t.nextId + |to|)
    decreases |to|
  {
    if to != [] {
      var t1 := InsertNotification(t, make(to[0]), now);
      InsertEachKeeps(t1, to[1..], make, now);
    }
  }

  /** Inserting more notifications keeps every record already there. */
  lemma {:induction false} InsertEachKeepsOld(t: Table<Oid, Notification>, to: seq<Oid>,
                                              make: Oid -> NewNotification, now: int, id: Oid)
    requires NotificationsValid(t) && id in t.rows
    ensures id in InsertEach(t, to, make, now).rows && InsertEach(t, to, make, now).rows[id] == t.rows[id]
    decreases |to|
  {
    if to != [] {
      var t1 := InsertNotification(t, make(to[0]), now);
      InsertEachKeepsOld(t1, to[1..], make, now, id);
    }
  }

  /** The i-th new record is the one built for the i-th recipient. */
  lemma {:induction false} InsertEachAddsOnePerRecipient(t: Table<Oid, Notification>, to: seq<Oid>,
                                                         make: Oid -> NewNotification, now: int)
    requires NotificationsValid(t)
    ensures forall i :: 0 <= i < |to| ==> RecordFor(InsertEach(t, to, make, now), t.nextId + i, make(to[i]), now)
    decreases |to|
  {
    if to != [] {
      var t1 := InsertNotification(t, make(to[0]), now);
      InsertEachAddsOnePerRecipient(t1, to[1..], make, now);
      var t' := InsertEach(t1, to[1..], make, now);
      assert InsertEach(t, to, make, now) == t';
      InsertEachKeepsOld(t1, to[1..], make, now, t.Fresh());
      forall i | 0 <= i < |to| ensures RecordFor(t', t.nextId + i, make(to[i]), now) {
        if i > 0 {
          assert RecordFor(t', t1.nextId + (i - 1), make(to[1..][i - 1]), now);
        }
      }
    }
  }

  /** The record under id `n` is the one built from `n`. */
  ghost predicate RecordFor(t: Table<Oid, Notification>, n: nat, x: NewNotification, now: int) {
    Oid(n) in t.rows && t.rows[Oid(n)] == NewNotificationRecord(Oid(n), x, now)
  }

  /** `markNotificationAsRead`: `updateOne` on one id, whoever owns it. */
  function MarkRead(t: Table<Oid, Notification>, id: Oid): Table<Oid, Notification> {
    if id in t.rows then t.(rows := t.rows[id := t.rows[id].(isRead := true)]) else t
  }

  /** `markAllNotificationsAsRead`: `updateMany` over the user's unread ones. */
  function MarkAllRead(t: Table<Oid, Notification>, userId: Oid): Table<Oid, Notification> {
    t.(rows := map id | id in t.rows :: if t.rows[id].userId == userId && !t.rows[id].isRead then t.rows[id].(isRead := true) else t.rows[id])
  }

  /** Marking one notification touches that record's isRead only. */
  lemma {:induction false} MarkReadTouchesOne(t: Table<Oid, Notification>, id: Oid)
    ensures MarkRead(t, id).rows.Keys == t.rows.Keys
    ensures id in t.rows ==> MarkRead(t, id).rows[id].isRead && MarkRead(t, id).rows[id].(isRead := t.rows[id].isRead) == t.rows[id]
    ensures forall other :: other in t.rows && other != id ==> MarkRead(t, id).rows[other] == t.rows[other]
  {
  }

  /** After marking all, none of the user's notifications is unread; other
      users' notifications and every other field are unchanged; and marking
      all again changes nothing. */
  lemma {:induction false} MarkAllReadSpec(t: Table<Oid, Notification>, userId: Oid)
    ensures var t' := MarkAllRead(t, userId);
      && t'.rows.Keys == t.rows.Keys
      && (forall id :: id in t.rows && t.rows[id].userId == userId ==> t'.rows[id] == t.rows[id].(isRead := true))
      && (forall id :: id in t.rows && t.rows[id].userId != userId ==> t'.rows[id] == t.rows[id])
      && MarkAllRead(t', userId) == t'
  {
    var t' := MarkAllRead(t, userId);
    assert MarkAllRead(t', userId).rows == t'.rows;
  }

  /** The notifications of one user. */
  ghost function OfUser(rows: map<Oid, Notification>, userId: Oid): set<Notification> {
    set n | n in rows.Values && n.userId == userId
  }

  datatype NotificationPage = NotificationPage(notifications: seq<Notification>, page: int, limit: int, total: nat)

  /** `findUserNotifications`: one page of the user's notifications, newest
      first (page and limit default to 1 and 50), with the count of all of
      them. None is the store refusing a negative skip. */
  ghost function FindUserNotifications(rows: map<Oid, Notification>, userId: Oid, page: Option<int>, limit: Option<int>)
    : (r: Option<NotificationPage>)
    ensures var p := PageParam(page, 1);
      var l := PageParam(limit, 50);
      && (r.None? <==> Skip(p, l) < 0)
      && (r.Some? ==>
            && r.value.total == |OfUser(rows, userId)|
            && r.value.page == p && r.value.limit == l
            && r.value.notifications == Window(Ordered(OfUser(rows, userId), (n: Notification) => n.createdAt), Skip(p, l), l).value
            && SortedDesc(r.value.notifications, (n: Notification) => n.createdAt)
            && (l > 0 ==> |r.value.notifications| <= l)
            && (forall i :: 0 <= i < |r.value.notifications| ==>
                  r.value.notifications[i] in rows.Values && r.value.notifications[i].userId == userId))
  {
    var p := PageParam(page, 1);
    var l := PageParam(limit, 50);
    var mine := OfUser(rows, userId);
    if Skip(p, l) < 0 then None
    else
      var key := (n: Notification) => n.createdAt;
      var w := Window(Ordered(mine, key), Skip(p, l), l).value;
      PageOfOrdered(mine, key, Skip(p, l), l);
      assert forall i :: 0 <= i < |w| ==> w[i] in mine;
      Some(NotificationPage(w, p, l, |mine|))
  }

  /** With a positive limit every notification of the user is listed, on
      exactly one page. */
  lemma FindUserNotificationsListsEachOnce(rows: map<Oid, Notification>, userId: Oid, limit: int, x: Notification, q: int)
    requires limit >= 1
    requires x in rows.Values && x.userId == userId
    requires q >= 1
    ensures FindUserNotifications(rows, userId, Some(q), Some(limit)).Some?
    ensures x in FindUserNotifications(rows, userId, Some(q), Some(limit)).value.notifications
      <==> q == PageNumber(Ordered(OfUser(rows, userId), (n: Notification) => n.createdAt), limit, x)
  {
    assert PageParam(Some(q), 1) == q && PageParam(Some(limit), 50) == limit;
    MulMono(0, q - 1, limit);
    PageHoldsOnce(OfUser(rows, userId), (n: Notification) => n.createdAt, limit, q, x, FindUserNotifications(rows, userId, Some(q), Some(limit)).value.notifications);
  }

  class NotificationTable {
    var rows: map<Oid, Notification>
    var nextId: nat

    function Snap(): Table<Oid, Notification>
      reads this
    {
      Table(rows, nextId)
    }

    ghost predicate Valid()
      reads this
    {
      NotificationsValid(Snap())
    }

    constructor ()
      ensures Valid() && rows == map[] && nextId == 0
    {
      rows := map[];
      nextId := 0;
    }

    method CreateNotification(n: NewNotification, now: int) returns (r: Notification)
      requires Valid()
      modifies this
      ensures Valid()
      ensures Snap() == InsertNotification(old(Snap()), n, now)
      ensures r == NewNotificationRecord(old(Snap()).Fresh(), n, now)
    {
      r := NewNotificationRecord(Oid(nextId), n, now);
      rows := rows[r.id := r];
      nextId := nextId + 1;
    }

    /** One `createNotification` per recipient, in the order given. */
    method CreateEach(to: seq<Oid>, make: Oid -> NewNotification, now: int)
      requires Valid()
      modifies this
      ensures Valid()
      ensures Snap() == InsertEach(old(Snap()), to, make, now)
    {
      var i := 0;
      while i < |to|
        invariant 0 <= i <= |to|
        invariant Valid()
        invariant InsertEach(Snap(), to[i..], make, now) == InsertEach(old(Snap()), to, make, now)
      {
        assert to[i..] == [to[i]] + to[i + 1..];
        var _ := CreateNotification(make(to[i]), now);
        i := i + 1;
      }
    }

    method MarkNotificationAsRead(id: Oid)
      requires Valid()
      modifies this
      ensures Valid()
      ensures Snap() == MarkRead(old(Snap()), id)
    {
      if id in rows {
        rows := rows[id := rows[id].(isRead := true)];
      }
    }

    method MarkAllNotificationsAsRead(userId: Oid)
      requires Valid()
      modifies this
      ensures Valid()
      ensures Snap() == MarkAllRead(old(Snap()), userId)
    {
      rows := map id | id in rows :: if rows[id].userId == userId && !rows[id].isRead then rows[id].(isRead := true) else rows[id];
    }
  }
}
