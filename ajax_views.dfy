/** The `ajax` blueprint: JSON follow and unfollow with their status-code
    ladders, and the two counters the pages poll. */
module AjaxViews {
  import opened Base
  import opened Http
  import opened Models
  import opened Decorators
  import opened Notifications
  import opened UserViews
  import MainViews

  /** `ajax.follow(username)`: the checks run in this order and the first
      that fails answers; only the last step follows, and it notifies the
      followed user when that user's flag is set. */
  function AjaxFollowSpec(t: Tables, cu: Principal, username: string): (Response, Tables)
    requires InSession(t, cu)
  {
    if cu.Guest? then (Json(Message("Login required."), 403), t)
    else if !t.users[cu.id].confirmed then (Json(Message("Please confirm your account."), 400), t)
    else if !Can(t, t.users[cu.id], "FOLLOW") then (Json(Message("Insufficient permissions."), 403), t)
    else match FindUser(t.users, username)
      case None => (Abort(404), t)
      case Some(uid) =>
        if Following(t, cu.id, uid) then (Json(Message("Already followed."), 400), t)
        else
          var s := AddFollow(t, cu.id, uid);
          if t.users[uid].receiveFollowNotification then
            (Json(Message("User followed."), 200), Push(s, FollowMessage(t.users[cu.id].username), uid))
          else (Json(Message("User followed."), 200), s)
  }

  /** Every answer but 200 leaves the tables alone; 200 means exactly one new
      edge. */
  lemma AjaxFollowLadder(t: Tables, cu: Principal, username: string)
    requires InSession(t, cu)
    ensures var (r, s) := AjaxFollowSpec(t, cu, username);
      && (cu.Guest? ==> r == Json(Message("Login required."), 403))
      && (cu.Member? && !t.users[cu.id].confirmed ==> r == Json(Message("Please confirm your account."), 400))
      && (cu.Member? && t.users[cu.id].confirmed && !Can(t, t.users[cu.id], "FOLLOW") ==>
            r == Json(Message("Insufficient permissions."), 403))
      && (cu.Member? && t.users[cu.id].confirmed && Can(t, t.users[cu.id], "FOLLOW") && FindUser(t.users, username).None? ==>
            r == Abort(404))
      && ((cu.Member? && t.users[cu.id].confirmed && Can(t, t.users[cu.id], "FOLLOW") && FindUser(t.users, username).Some? &&
           Following(t, cu.id, FindUser(t.users, username).value)) ==> r == Json(Message("Already followed."), 400))
      && (r != Json(Message("User followed."), 200) ==> s == t)
      && (r == Json(Message("User followed."), 200) <==>
            && cu.Member? && t.users[cu.id].confirmed && Can(t, t.users[cu.id], "FOLLOW")
            && FindUser(t.users, username).Some? && !Following(t, cu.id, FindUser(t.users, username).value))
      && (r == Json(Message("User followed."), 200) ==>
            && s.follows == t.follows + {(cu.id, FindUser(t.users, username).value)}
            && s == t.(follows := s.follows, notifications := s.notifications))
  {
  }

  /** The JSON follow and the page's (corrected) follow make the same change. */
  lemma AjaxFollowAgreesWithPage(t: Tables, cu: Principal, username: string, back: Endpoint)
    requires InSession(t, cu)
    ensures AjaxFollowSpec(t, cu, username).1 == FollowFixedSpec(t, cu, username, back).1
  {
  }

  /** After a JSON follow, a notification is pushed exactly when the
      followed user asks for follow notifications. */
  lemma AjaxFollowNotifies(t: Tables, id: UserId, username: string)
    requires id in t.users && t.users[id].confirmed && Can(t, t.users[id], "FOLLOW")
    requires UsernameInUse(t.users, username) && !Following(t, id, FindUser(t.users, username).value)
    ensures var uid := FindUser(t.users, username).value;
      var s := AjaxFollowSpec(t, Member(id), username).1;
      |UnreadOf(s, uid)| == |UnreadOf(t, uid)| + 1 <==> t.users[uid].receiveFollowNotification
  {
    FollowNew(t, id, username, MainIndex);
    AjaxFollowAgreesWithPage(t, Member(id), username, MainIndex);
  }

  lemma AjaxFollowValid(t: Tables, cu: Principal, username: string)
    requires ValidTables(t) && InSession(t, cu)
    ensures ValidTables(AjaxFollowSpec(t, cu, username).1)
  {
    AjaxFollowAgreesWithPage(t, cu, username, MainIndex);
    FollowFixedValid(t, cu, username, MainIndex);
  }

  /** `ajax.follow(username)`. */
  method AjaxFollow(db: Db, cu: Principal, username: string) returns (r: Response)
    requires InSession(db.Snapshot(), cu)
    modifies db
    ensures (r, db.Snapshot()) == AjaxFollowSpec(old(db.Snapshot()), cu, username)
  {
    if cu.Guest? {
      return Json(Message("Login required."), 403);
    }
    if !db.users[cu.id].confirmed {
      return Json(Message("Please confirm your account."), 400);
    }
    if !Can(db.Snapshot(), db.users[cu.id], "FOLLOW") {
      return Json(Message("Insufficient permissions."), 403);
    }
    var found := FindUser(db.users, username);
    if found.None? {
      return Abort(404);
    }
    var uid := found.value;
    if (cu.id, uid) in db.follows {
      return Json(Message("Already followed."), 400);
    }
    db.follows := db.follows + {(cu.id, uid)};
    if db.users[uid].receiveFollowNotification {
      PushFollowNotification(db, db.users[cu.id], uid);
    }
    return Json(Message("User followed."), 200);
  }

  /** `ajax.unfollow(username)`. */
  function AjaxUnfollowSpec(t: Tables, cu: Principal, username: string): (Response, Tables)
    requires InSession(t, cu)
  {
    if cu.Guest? then (Json(Message("Login required."), 403), t)
    else match FindUser(t.users, username)
      case None => (Abort(404), t)
      case Some(uid) =>
        if !Following(t, cu.id, uid) then (Json(Message("Not followed yet."), 400), t)
        else (Json(Message("User unfollowed."), 200), RemoveFollow(t, cu.id, uid))
  }

  /** 200 exactly when the edge was there, and then only that edge goes;
      every other answer changes nothing. */
  lemma AjaxUnfollowLadder(t: Tables, cu: Principal, username: string)
    requires InSession(t, cu)
    ensures var (r, s) := AjaxUnfollowSpec(t, cu, username);
      && (cu.Guest? ==> r == Json(Message("Login required."), 403))
      && (cu.Member? && FindUser(t.users, username).None? ==> r == Abort(404))
      && (cu.Member? && FindUser(t.users, username).Some? && !Following(t, cu.id, FindUser(t.users, username).value) ==>
            r == Json(Message("Not followed yet."), 400))
      && (cu.Member? && FindUser(t.users, username).Some? && Following(t, cu.id, FindUser(t.users, username).value) ==>
            r == Json(Message("User unfollowed."), 200))
      && (r.Json? && r.status == 200 <==>
            cu.Member? && FindUser(t.users, username).Some? && Following(t, cu.id, FindUser(t.users, username).value))
      && (!(r.Json? && r.status == 200) ==> s == t)
      && (r.Json? && r.status == 200 ==>
            s == t.(follows := t.follows - {(cu.id, FindUser(t.users, username).value)})
            && |s.follows| == |t.follows| - 1)
  {
  }

  /** A JSON follow undone by a JSON unfollow restores the follow graph. */
  lemma AjaxFollowUnfollow(t: Tables, id: UserId, username: string)
    requires id in t.users && t.users[id].confirmed && Can(t, t.users[id], "FOLLOW")
    requires UsernameInUse(t.users, username) && !Following(t, id, FindUser(t.users, username).value)
    ensures var s := AjaxFollowSpec(t, Member(id), username).1;
      && InSession(s, Member(id))
      && AjaxUnfollowSpec(s, Member(id), username).1.follows == t.follows
  {
    var uid := FindUser(t.users, username).value;
    AjaxFollowLadder(t, Member(id), username);
    var s := AjaxFollowSpec(t, Member(id), username).1;
    assert s.users == t.users;
    assert s.follows - {(id, uid)} == t.follows;
  }

  lemma AjaxUnfollowValid(t: Tables, cu: Principal, username: string)
    requires ValidTables(t) && InSession(t, cu)
    ensures ValidTables(AjaxUnfollowSpec(t, cu, username).1)
  {
    if cu.Member? && FindUser(t.users, username).Some? && Following(t, cu.id, FindUser(t.users, username).value) {
      var s := RemoveFollow(t, cu.id, FindUser(t.users, username).value);
      assert FollowsValid(s.follows, s.users);
    }
  }

  /** `ajax.unfollow(username)`. */
  method AjaxUnfollow(db: Db, cu: Principal, username: string) returns (r: Response)
    requires InSession(db.Snapshot(), cu)
    modifies db
    ensures (r, db.Snapshot()) == AjaxUnfollowSpec(old(db.Snapshot()), cu, username)
  {
    if cu.Guest? {
      return Json(Message("Login required."), 403);
    }
    var found := FindUser(db.users, username);
    if found.None? {
      return Abort(404);
    }
    var uid := found.value;
    if (cu.id, uid) !in db.follows {
      return Json(Message("Not followed yet."), 400);
    }
    db.follows := db.follows - {(cu.id, uid)};
    return Json(Message("User unfollowed."), 200);
  }

  // ---------------------------------------------------------------- counters

  /** `user.followers`: the users following `uid`. */
  function Followers(t: Tables, uid: UserId): (r: set<UserId>)
    ensures forall f :: f in r <==> (f, uid) in t.follows
  {
    set e | e in t.follows && e.1 == uid :: e.0
  }

  /** `followers_count(user_id)`: the follower count less one, which assumes
      every user follows themself. */
  function FollowersCount(t: Tables, uid: UserId): (r: Response)
    ensures uid !in t.users <==> r == Abort(404)
    ensures uid in t.users ==> r == Json(Count(|Followers(t, uid)| - 1), 200)
  {
    if uid !in t.users then Abort(404) else Json(Count(|Followers(t, uid)| - 1), 200)
  }

  /** A new follower raises the reported count by one; an unfollow lowers it
      by one. */
  lemma FollowRaisesCount(t: Tables, id: UserId, username: string)
    requires id in t.users && t.users[id].confirmed && Can(t, t.users[id], "FOLLOW")
    requires UsernameInUse(t.users, username) && !Following(t, id, FindUser(t.users, username).value)
    ensures var uid := FindUser(t.users, username).value;
      var s := AjaxFollowSpec(t, Member(id), username).1;
      && FollowersCount(s, uid).body.n == FollowersCount(t, uid).body.n + 1
      && InSession(s, Member(id))
      && FollowersCount(AjaxUnfollowSpec(s, Member(id), username).1, uid).body.n == FollowersCount(t, uid).body.n
  {
    var uid := FindUser(t.users, username).value;
    AjaxFollowLadder(t, Member(id), username);
    var s := AjaxFollowSpec(t, Member(id), username).1;
    assert Followers(s, uid) == Followers(t, uid) + {id};
    AjaxFollowUnfollow(t, id, username);
    assert Followers(AjaxUnfollowSpec(s, Member(id), username).1, uid) == Followers(t, uid);
  }

  /** Nobody follows a fresh user, so their page reports -1 followers. */
  lemma FollowersCountNegative(t: Tables, uid: UserId)
    requires uid in t.users && forall e :: e in t.follows ==> e.1 != uid
    ensures FollowersCount(t, uid) == Json(Count(-1), 200)
  {
    assert Followers(t, uid) == {};
  }

  /** `notifications_count()`: the current user's unread notifications. */
  function NotificationsCount(t: Tables, cu: Principal): (r: Response)
    ensures cu.Guest? <==> r == Json(Message("Login required."), 403)
    ensures cu.Member? ==> r == Json(Count(|UnreadOf(t, cu.id)|), 200)
  {
    match cu
    case Guest => Json(Message("Login required."), 403)
    case Member(id) => Json(Count(|UnreadOf(t, id)|), 200)
  }

  /** Each push to a user raises their count by one, and marking all read
      sets it to zero. */
  lemma NotificationsCountMoves(t: Tables, message: Message, id: UserId)
    requires id in t.users
    ensures NotificationsCount(Push(t, message, id), Member(id)).body.n == NotificationsCount(t, Member(id)).body.n + 1
    ensures NotificationsCount(MainViews.ReadAllSpec(t, Member(id)).1, Member(id)) == Json(Count(0), 200)
  {
    PushUnread(t, message, id, id);
    MainViews.ReadAllEffect(t, id);
  }
}
