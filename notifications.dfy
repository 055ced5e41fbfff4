/** `push_follow_notification`, `push_comment_notification` and
    `push_collect_notification`: each adds one unread notification row. */
module Notifications {
  import opened Base
  import opened Text
  import opened Http
  import opened Models

  /** The notification table after adding one unread row for `receiver`. */
  function Push(t: Tables, message: Message, receiver: UserId): Tables
  {
    t.(notifications := t.notifications[FreshId(t.notifications.Keys) := Notification(message, receiver, false)])
  }

  /** The ids of a user's unread notifications. */
  function UnreadOf(t: Tables, uid: UserId): set<NotificationId>
  {
    Unread(t.notifications, uid)
  }

  function Unread(ns: map<NotificationId, Notification>, uid: UserId): set<NotificationId>
  {
    set n | n in ns && ns[n].receiver == uid && !ns[n].isRead
  }

  /** A push adds exactly one row, unread and addressed to the receiver,
      keeps every existing row, and touches no other table. */
  lemma PushAddsOne(t: Tables, message: Message, receiver: UserId)
    ensures var s := Push(t, message, receiver);
      && s == t.(notifications := s.notifications)
      && |s.notifications| == |t.notifications| + 1
      && (forall n :: n in t.notifications ==> n in s.notifications && s.notifications[n] == t.notifications[n])
      && (exists n :: n in s.notifications && n !in t.notifications
           && s.notifications[n] == Notification(message, receiver, false))
      && (forall n :: n in s.notifications && n !in t.notifications ==> n == FreshId(t.notifications.Keys))
  {
    var s := Push(t, message, receiver);
    var n := FreshId(t.notifications.Keys);
    assert s.notifications.Keys == t.notifications.Keys + {n};
    assert n in s.notifications && n !in t.notifications;
  }

  /** Adding a row raises one user's unread count by one when the row is
      theirs and unread, and leaves every other count unchanged. */
  lemma AddUnread(ns: map<NotificationId, Notification>, n: NotificationId, note: Notification, uid: UserId)
    requires n !in ns
    ensures |Unread(ns[n := note], uid)| ==
      if note.receiver == uid && !note.isRead then |Unread(ns, uid)| + 1 else |Unread(ns, uid)|
  {
    var before, after := Unread(ns, uid), Unread(ns[n := note], uid);
    if note.receiver == uid && !note.isRead {
      assert after == before + {n};
    } else {
      assert after == before;
    }
  }

  /** A push raises the receiver's unread count by one and leaves everyone
      else's unchanged. */
  lemma PushUnread(t: Tables, message: Message, receiver: UserId, uid: UserId)
    ensures |UnreadOf(Push(t, message, receiver), uid)| ==
      if uid == receiver then |UnreadOf(t, uid)| + 1 else |UnreadOf(t, uid)|
  {
    AddUnread(t.notifications, FreshId(t.notifications.Keys), Notification(message, receiver, false), uid);
  }

  lemma PushValid(t: Tables, message: Message, receiver: UserId)
    requires ValidTables(t) && receiver in t.users
    ensures ValidTables(Push(t, message, receiver))
  {
  }

  /** The HTML stored in `Notification.message`, with `url_for` given as a
      function of the endpoint it names. */
  function MessageHtml(m: Message, urlFor: Endpoint -> string): string
  {
    match m
    case FollowMessage(follower) =>
      "User <a href=\"" + urlFor(UserIndex(follower)) + "\">" + follower + "</a> followed you."
    case CommentMessage(photo, page) =>
      "<a href=\"" + urlFor(ShowPhoto(photo, Some(page))) + "#comments\">This photo</a> has new comment/reply."
    case CollectMessage(collector, photo) =>
      "User <a href=\"" + urlFor(UserIndex(collector)) + "\">\"" + collector + "\"</a>collected your <a href=\""
        + urlFor(ShowPhoto(photo, None)) + "\">photo</a>"
  }

  lemma OccursIn(a: string, b: string, c: string)
    ensures OccursAt(a + b + c, b, |a|)
  {
    assert (a + b + c)[|a|..|a| + |b|] == b;
  }

  /** The follow message names the follower and links to the follower's page. */
  lemma FollowMessageNamesFollower(follower: string, urlFor: Endpoint -> string)
    ensures Contains(MessageHtml(FollowMessage(follower), urlFor), follower)
    ensures Contains(MessageHtml(FollowMessage(follower), urlFor), urlFor(UserIndex(follower)))
  {
    var url := urlFor(UserIndex(follower));
    var html := MessageHtml(FollowMessage(follower), urlFor);
    var pre := "User <a href=\"";
    OccursIn(pre, url, "\">" + follower + "</a> followed you.");
    assert html == pre + url + ("\">" + follower + "</a> followed you.");
    OccursIn(pre + url + "\">", follower, "</a> followed you.");
    assert html == (pre + url + "\">") + follower + "</a> followed you.";
  }

  /** The comment message links to the photo at the page it was given. */
  lemma CommentMessageLinksPhoto(photo: PhotoId, page: int, urlFor: Endpoint -> string)
    ensures Contains(MessageHtml(CommentMessage(photo, page), urlFor), urlFor(ShowPhoto(photo, Some(page))))
  {
    var url := urlFor(ShowPhoto(photo, Some(page)));
    OccursIn("<a href=\"", url, "#comments\">This photo</a> has new comment/reply.");
  }

  /** The collect message names the collector and links to the photo. */
  lemma CollectMessageNamesBoth(collector: string, photo: PhotoId, urlFor: Endpoint -> string)
    ensures Contains(MessageHtml(CollectMessage(collector, photo), urlFor), collector)
    ensures Contains(MessageHtml(CollectMessage(collector, photo), urlFor), urlFor(ShowPhoto(photo, None)))
  {
    var userUrl := urlFor(UserIndex(collector));
    var photoUrl := urlFor(ShowPhoto(photo, None));
    var html := MessageHtml(CollectMessage(collector, photo), urlFor);
    var head := "User <a href=\"" + userUrl + "\">\"";
    var mid := "\"</a>collected your <a href=\"";
    var tail := "\">photo</a>";
    assert html == head + collector + (mid + photoUrl + tail);
    OccursIn(head, collector, mid + photoUrl + tail);
    assert html == (head + collector + mid) + photoUrl + tail;
    OccursIn(head + collector + mid, photoUrl, tail);
  }

  /** `push_follow_notification(follower, receiver)`. */
  method PushFollowNotification(db: Db, follower: User, receiver: UserId)
    modifies db
    ensures db.Snapshot() == Push(old(db.Snapshot()), FollowMessage(follower.username), receiver)
  {
    var id := FreshId(db.notifications.Keys);
    db.notifications := db.notifications[id := Notification(FollowMessage(follower.username), receiver, false)];
  }

  /** `push_comment_notification(photo_id, receiver, page=1)`. */
  method PushCommentNotification(db: Db, photoId: PhotoId, receiver: UserId, page: int := 1)
    modifies db
    ensures db.Snapshot() == Push(old(db.Snapshot()), CommentMessage(photoId, page), receiver)
  {
    var id := FreshId(db.notifications.Keys);
    db.notifications := db.notifications[id := Notification(CommentMessage(photoId, page), receiver, false)];
  }

  /** `push_collect_notification(collector, photo_id, receiver)`. */
  method PushCollectNotification(db: Db, collector: User, photoId: PhotoId, receiver: UserId)
    modifies db
    ensures db.Snapshot() == Push(old(db.Snapshot()), CollectMessage(collector.username, photoId), receiver)
  {
    var id := FreshId(db.notifications.Keys);
    db.notifications := db.notifications[id := Notification(CollectMessage(collector.username, photoId), receiver, false)];
  }
}
