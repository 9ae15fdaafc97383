/**
 * The caller's notifications (server/src/routes/v1/notifications.ts): the list of one's
 * own live notifications and the read mark.
 */
module Notifications {
  import opened Wrappers
  import opened Schema
  import opened HttpErrors
  import opened Store
  import opened Helpers
  import Queries

  /** A notification the user still sees: addressed to them and not deleted. */
  predicate Inbox(n: Notification, userId: Id)
  {
    n.userId == userId && n.deletedAt.None?
  }

  /** GET /me/notifications: the caller's live notifications, newest first. */
  function ListNotifications(ns: seq<Notification>, user: Option<Actor>): (r: Result<seq<Id>, HttpError>)
    ensures user.None? ==> r == Err(Unauthorized("Login required"))
    ensures r.Ok? <==> user.Some?
    ensures r.Ok? ==> Queries.Decreasing(r.value)
    ensures r.Ok? ==> forall id :: id in r.value <==> Has(ns, id) && Inbox(ns[id - 1], user.value.id)
  {
    var me :- RequireUser(user);
    Ok(Queries.SelectNewestFirst(ns, (n: Notification) => Inbox(n, me.id)))
  }

  /**
   * The row the read mark applies to: a missing or deleted one is 404 "Notification not
   * found"; someone else's is 403 "Access denied".
   */
  function MarkCheck(ns: seq<Notification>, user: Option<Actor>, id: Id): (r: Result<Notification, HttpError>)
    ensures user.None? ==> r == Err(Unauthorized("Login required"))
    ensures user.Some? && !(Has(ns, id) && ns[id - 1].deletedAt.None?) ==> r == Err(NotFound("Notification not found"))
    ensures user.Some? && Has(ns, id) && ns[id - 1].deletedAt.None? && ns[id - 1].userId != user.value.id ==>
      r == Err(Forbidden("Access denied"))
    ensures r.Ok? <==> user.Some? && Has(ns, id) && Inbox(ns[id - 1], user.value.id)
  {
    var me :- RequireUser(user);
    if !Has(ns, id) || ns[id - 1].deletedAt.Some? then Err(NotFound("Notification not found"))
    else if ns[id - 1].userId != me.id then Err(Forbidden("Access denied"))
    else Ok(ns[id - 1])
  }

  /** UPDATE notifications SET read_at WHERE id: that row's read time and nothing else. */
  function Marked(ns: seq<Notification>, id: Id, readAt: Time): (r: seq<Notification>)
    requires Has(ns, id)
    ensures |r| == |ns| && r[id - 1].readAt == Some(readAt)
    ensures r[id - 1] == ns[id - 1].(readAt := Some(readAt))
    ensures forall i :: 0 <= i < |ns| && i != id - 1 ==> r[i] == ns[i]
  {
    ns[id - 1 := ns[id - 1].(readAt := Some(readAt))]
  }

  /** Marking twice with the same time is marking once. */
  lemma MarkIdempotent(ns: seq<Notification>, id: Id, readAt: Time)
    requires Has(ns, id)
    ensures Marked(Marked(ns, id, readAt), id, readAt) == Marked(ns, id, readAt)
  {
  }

  /** A read mark neither hides nor reveals a notification: everyone's listing stays the same. */
  lemma MarkKeepsListing(ns: seq<Notification>, id: Id, readAt: Time, user: Option<Actor>)
    requires Has(ns, id)
    ensures ListNotifications(Marked(ns, id, readAt), user) == ListNotifications(ns, user)
  {
    if user.Some? {
      var a := ListNotifications(Marked(ns, id, readAt), user).value;
      var b := ListNotifications(ns, user).value;
      assert forall x :: x in a <==> x in b;
      Queries.DecreasingSameSet(a, b);
    }
  }

  /**
   * PATCH /me/notifications/:notificationId: the owner marks a live notification read,
   * at the time given in the body or else now.
   */
  method MarkRead(db: Db, ctx: Ctx, id: Id, readAt: Option<Time>) returns (r: Result<Time, HttpError>)
    modifies db.journal`notifications
    ensures r.Ok? <==> old(MarkCheck(db.journal.notifications, ctx.user, id)).Ok?
    ensures r.Err? ==>
      r.error == old(MarkCheck(db.journal.notifications, ctx.user, id)).error
      && db.journal.notifications == old(db.journal.notifications)
    ensures r.Ok? ==>
      r.value == readAt.GetOr(ctx.now)
      && db.journal.notifications == Marked(old(db.journal.notifications), id, r.value)
  {
    var _ :- MarkCheck(db.journal.notifications, ctx.user, id);
    var at := readAt.GetOr(ctx.now);
    db.journal.notifications := Marked(db.journal.notifications, id, at);
    r := Ok(at);
  }
}
