/** The `user` blueprint: the profile page's gates, following and
    unfollowing, and the three settings forms that write the current user's
    row. */
module UserViews {
  import opened Base
  import opened Http
  import opened Models
  import opened Decorators
  import opened Notifications
  import opened FormsUser
  import opened Utils
  import MainViews

  // ---------------------------------------------------------------- lookup

  /** `User.query.filter_by(username=username).first()`: the smallest id with
      that username, or None. */
  function FindUser(users: map<UserId, User>, username: string): (r: Option<UserId>)
    ensures r.None? <==> !UsernameInUse(users, username)
    ensures r.Some? ==> r.value in users && users[r.value].username == username
    ensures r.Some? ==> forall id :: id in users && users[id].username == username ==> r.value <= id
  {
    var ids := set id | id in users && users[id].username == username;
    assert forall id :: id in users && users[id].username == username ==> id in ids;
    if ids == {} then None
    else
      var m := MinOf(ids);
      Some(m)
  }

  /** With usernames unique, a user's own username finds that user. */
  lemma FindOwn(users: map<UserId, User>, id: UserId)
    requires UniqueUsers(users) && id in users
    ensures FindUser(users, users[id].username) == Some(id)
  {
    assert UsernameInUse(users, users[id].username);
  }

  /** `current_user.is_following(user)`. */
  predicate Following(t: Tables, follower: UserId, followed: UserId)
  {
    (follower, followed) in t.follows
  }

  // ---------------------------------------------------------------- index

  /** `index(username)` up to the photo listing: the page owner, and the
      session afterwards.  Visiting one's own page while locked and not an
      administrator leads back to the main index; visiting it while
      inactive logs the user out (the page is still shown). */
  function IndexSpec(t: Tables, cu: Principal, username: string): (Response, Principal)
    requires InSession(t, cu)
    requires cu.Member? && t.users[cu.id].role.Some? ==> t.users[cu.id].role.value < |t.roles|
  {
    match FindUser(t.users, username)
    case None => (Abort(404), cu)
    case Some(uid) =>
      var own := cu == Member(uid);
      if t.users[uid].locked && own && CurrentIsAdmin(t, cu).Err? then (ServerError(CurrentIsAdmin(t, cu).fault), cu)
      else if t.users[uid].locked && own && !CurrentIsAdmin(t, cu).value then (Redirect(MainIndex), cu)
      else if own && !t.users[uid].active then (Render(UserIndexPage(uid)), Guest)
      else (Render(UserIndexPage(uid)), cu)
  }

  /** The gates on one's own page. */
  lemma IndexOwnPage(t: Tables, id: UserId)
    requires UniqueUsers(t.users) && id in t.users
    requires t.users[id].role.Some? ==> t.users[id].role.value < |t.roles|
    ensures var u := t.users[id];
      var (r, session) := IndexSpec(t, Member(id), u.username);
      && (u.locked && IsAdmin(t, u) == Ok(false) ==> r == Redirect(MainIndex) && session == Member(id))
      && (u.locked && u.role.None? ==> r == ServerError(AttributeError("name")) && session == Member(id))
      && (!u.locked || IsAdmin(t, u) == Ok(true) ==>
            && r == Render(UserIndexPage(id))
            && (session == Guest <==> !u.active)
            && (u.active ==> session == Member(id)))
  {
    FindOwn(t.users, id);
  }

  /** Someone else's page never changes the session and is always shown. */
  lemma IndexOtherPage(t: Tables, cu: Principal, username: string)
    requires InSession(t, cu)
    requires cu.Member? && t.users[cu.id].role.Some? ==> t.users[cu.id].role.value < |t.roles|
    requires UsernameInUse(t.users, username) && cu != Member(FindUser(t.users, username).value)
    ensures IndexSpec(t, cu, username) == (Render(UserIndexPage(FindUser(t.users, username).value)), cu)
  {
  }

  // ---------------------------------------------------------------- follow

  /** The gates of `follow`: logged in, confirmed, may FOLLOW. */
  function FollowGate(t: Tables, cu: Principal): (g: Gate)
    requires InSession(t, cu)
    ensures g.Proceed? <==> cu.Member? && t.users[cu.id].confirmed && Can(t, t.users[cu.id], "FOLLOW")
  {
    Then(LoginRequired(cu), Then(ConfirmRequired(t, cu), PermissionRequired(t, cu, "FOLLOW")))
  }

  function AddFollow(t: Tables, follower: UserId, followed: UserId): (s: Tables)
    ensures s == t.(follows := s.follows)
    ensures s.follows == t.follows + {(follower, followed)}
  {
    t.(follows := t.follows + {(follower, followed)})
  }

  function RemoveFollow(t: Tables, follower: UserId, followed: UserId): (s: Tables)
    ensures s == t.(follows := s.follows)
    ensures s.follows == t.follows - {(follower, followed)}
  {
    t.(follows := t.follows - {(follower, followed)})
  }

  /** `follow(username)` as written: the notification is pushed when the
      follower's own follow-notification flag is set.  `back` is where
      `redirect_back()` sends the browser. */
  function FollowSpec(t: Tables, cu: Principal, username: string, back: Endpoint): (Response, Tables)
    requires InSession(t, cu)
  {
    var g := FollowGate(t, cu);
    if g.Halt? then (g.response, t)
    else match FindUser(t.users, username)
      case None => (Abort(404), t)
      case Some(uid) =>
        if Following(t, cu.id, uid) then (Render(UserIndexPage(uid)), t)
        else
          var s := AddFollow(t, cu.id, uid);
          if t.users[cu.id].receiveFollowNotification then
            (Redirect(back), Push(s, FollowMessage(t.users[cu.id].username), uid))
          else (Redirect(back), s)
  }

  /** `follow(username)` deciding on the followed user's flag, as the AJAX
      `follow` does. */
  function FollowFixedSpec(t: Tables, cu: Principal, username: string, back: Endpoint): (Response, Tables)
    requires InSession(t, cu)
  {
    var g := FollowGate(t, cu);
    if g.Halt? then (g.response, t)
    else match FindUser(t.users, username)
      case None => (Abort(404), t)
      case Some(uid) =>
        if Following(t, cu.id, uid) then (Render(UserIndexPage(uid)), t)
        else
          var s := AddFollow(t, cu.id, uid);
          if t.users[uid].receiveFollowNotification then
            (Redirect(back), Push(s, FollowMessage(t.users[cu.id].username), uid))
          else (Redirect(back), s)
  }

  /** Following again adds no edge and changes nothing. */
  lemma FollowAgain(t: Tables, id: UserId, username: string, back: Endpoint)
    requires id in t.users && UsernameInUse(t.users, username)
    requires Following(t, id, FindUser(t.users, username).value)
    ensures FollowSpec(t, Member(id), username, back).1 == t
    ensures FollowFixedSpec(t, Member(id), username, back).1 == t
  {
  }

  /** A first follow that passes the gates adds exactly the one edge, and at
      most one notification, addressed to the followed user. */
  lemma FollowNew(t: Tables, id: UserId, username: string, back: Endpoint)
    requires id in t.users && t.users[id].confirmed && Can(t, t.users[id], "FOLLOW")
    requires UsernameInUse(t.users, username) && !Following(t, id, FindUser(t.users, username).value)
    ensures var uid := FindUser(t.users, username).value;
      var (r, s) := FollowFixedSpec(t, Member(id), username, back);
      && r == Redirect(back)
      && s.follows == t.follows + {(id, uid)} && |s.follows| == |t.follows| + 1
      && s == t.(follows := s.follows, notifications := s.notifications)
      && (|UnreadOf(s, uid)| == |UnreadOf(t, uid)| + 1 <==> t.users[uid].receiveFollowNotification)
      && (!t.users[uid].receiveFollowNotification ==> s.notifications == t.notifications)
  {
    var uid := FindUser(t.users, username).value;
    var s := AddFollow(t, id, uid);
    if t.users[uid].receiveFollowNotification {
      PushUnread(s, FollowMessage(t.users[id].username), uid, uid);
    }
  }

  /** The follow as written adds exactly the one edge, and pushes one
      notification to the followed user exactly when the follower's own flag
      is set; nobody else's unread notifications change. */
  lemma FollowAsWrittenNew(t: Tables, id: UserId, username: string, back: Endpoint)
    requires id in t.users && t.users[id].confirmed && Can(t, t.users[id], "FOLLOW")
    requires UsernameInUse(t.users, username) && !Following(t, id, FindUser(t.users, username).value)
    ensures var uid := FindUser(t.users, username).value;
      var (r, s) := FollowSpec(t, Member(id), username, back);
      && r == Redirect(back)
      && s.follows == t.follows + {(id, uid)} && |s.follows| == |t.follows| + 1
      && s == t.(follows := s.follows, notifications := s.notifications)
      && |UnreadOf(s, uid)| == |UnreadOf(t, uid)| + (if t.users[id].receiveFollowNotification then 1 else 0)
      && (!t.users[id].receiveFollowNotification ==> s.notifications == t.notifications)
      && (forall v :: v != uid ==> UnreadOf(s, v) == UnreadOf(t, v))
  {
    var uid := FindUser(t.users, username).value;
    var s := AddFollow(t, id, uid);
    if t.users[id].receiveFollowNotification {
      PushUnread(s, FollowMessage(t.users[id].username), uid, uid);
      var after := Push(s, FollowMessage(t.users[id].username), uid);
      forall v | v != uid
        ensures UnreadOf(after, v) == UnreadOf(t, v)
      {
        var n := FreshId(s.notifications.Keys);
        assert after.notifications == s.notifications[n := Notification(FollowMessage(t.users[id].username), uid, false)];
        assert UnreadOf(after, v) == UnreadOf(s, v);
      }
    }
  }

  /** The as-written view and the corrected one disagree whenever the two
      users' flags differ: a follower without the flag following a user
      who wants notifications leaves that user without one. */
  lemma FollowFlagMismatch(t: Tables, id: UserId, username: string, back: Endpoint)
    requires id in t.users && t.users[id].confirmed && Can(t, t.users[id], "FOLLOW")
    requires UsernameInUse(t.users, username) && !Following(t, id, FindUser(t.users, username).value)
    requires !t.users[id].receiveFollowNotification
    requires t.users[FindUser(t.users, username).value].receiveFollowNotification
    ensures var uid := FindUser(t.users, username).value;
      && FollowSpec(t, Member(id), username, back).1.notifications == t.notifications
      && |UnreadOf(FollowFixedSpec(t, Member(id), username, back).1, uid)| == |UnreadOf(t, uid)| + 1
  {
    var uid := FindUser(t.users, username).value;
    PushUnread(AddFollow(t, id, uid), FollowMessage(t.users[id].username), uid, uid);
  }

  lemma AddFollowValid(t: Tables, a: UserId, b: UserId)
    requires ValidTables(t) && a in t.users && b in t.users
    ensures ValidTables(AddFollow(t, a, b))
  {
    var s := AddFollow(t, a, b);
    assert FollowsValid(s.follows, s.users);
  }

  lemma FollowFixedValid(t: Tables, cu: Principal, username: string, back: Endpoint)
    requires ValidTables(t) && InSession(t, cu)
    ensures ValidTables(FollowFixedSpec(t, cu, username, back).1)
  {
    if FollowGate(t, cu).Halt? || FindUser(t.users, username).None? || Following(t, cu.id, FindUser(t.users, username).value) {
      assert FollowFixedSpec(t, cu, username, back).1 == t;
    } else {
      var uid := FindUser(t.users, username).value;
      var s := AddFollow(t, cu.id, uid);
      AddFollowValid(t, cu.id, uid);
      if t.users[uid].receiveFollowNotification {
        PushValid(s, FollowMessage(t.users[cu.id].username), uid);
        assert FollowFixedSpec(t, cu, username, back).1 == Push(s, FollowMessage(t.users[cu.id].username), uid);
      } else {
        assert FollowFixedSpec(t, cu, username, back).1 == s;
      }
    }
  }

  /** The follow as written keeps the database consistent too: it differs
      from the corrected one only in whose flag decides the notification. */
  lemma FollowSpecValid(t: Tables, cu: Principal, username: string, back: Endpoint)
    requires ValidTables(t) && InSession(t, cu)
    ensures ValidTables(FollowSpec(t, cu, username, back).1)
  {
    if FollowGate(t, cu).Halt? || FindUser(t.users, username).None? || Following(t, cu.id, FindUser(t.users, username).value) {
      assert FollowSpec(t, cu, username, back).1 == t;
    } else {
      var uid := FindUser(t.users, username).value;
      var s := AddFollow(t, cu.id, uid);
      AddFollowValid(t, cu.id, uid);
      if t.users[cu.id].receiveFollowNotification {
        PushValid(s, FollowMessage(t.users[cu.id].username), uid);
        assert FollowSpec(t, cu, username, back).1 == Push(s, FollowMessage(t.users[cu.id].username), uid);
      } else {
        assert FollowSpec(t, cu, username, back).1 == s;
      }
    }
  }

  /** After a follow, the followed user's photos are in the follower's feed
      on the main index. */
  lemma FollowFeed(t: Tables, id: UserId, username: string, back: Endpoint, p: PhotoId)
    requires id in t.users && t.users[id].confirmed && Can(t, t.users[id], "FOLLOW")
    requires UsernameInUse(t.users, username)
    requires p in t.photos && t.photos[p].author == FindUser(t.users, username).value
    ensures var s := FollowFixedSpec(t, Member(id), username, back).1;
      p in MainViews.FeedPhotos(s, Member(id)).value
  {
    var uid := FindUser(t.users, username).value;
    if !Following(t, id, uid) {
      FollowNew(t, id, username, back);
    }
  }

  /** `follow(username)` with the browser's `next` argument and referrer. */
  method Follow(db: Db, cu: Principal, username: string, next: Option<string>, referrer: Option<string>, isSafe: string -> bool)
    returns (r: Response)
    requires InSession(db.Snapshot(), cu)
    modifies db
    ensures (r, db.Snapshot()) == FollowFixedSpec(old(db.Snapshot()), cu, username, BackTarget(next, referrer, isSafe, MainIndex))
  {
    var g := FollowGate(db.Snapshot(), cu);
    if g.Halt? {
      return g.response;
    }
    var found := FindUser(db.users, username);
    if found.None? {
      return Abort(404);
    }
    var uid := found.value;
    if (cu.id, uid) in db.follows {
      return Render(UserIndexPage(uid));
    }
    db.follows := db.follows + {(cu.id, uid)};
    if db.users[uid].receiveFollowNotification {
      PushFollowNotification(db, db.users[cu.id], uid);
    }
    r := RedirectBack(next, referrer, isSafe, MainIndex);
  }

  // ---------------------------------------------------------------- unfollow

  /** `unfollow(username)`: it has no `login_required`, so the Guest reaches
      `is_following`, which it lacks. */
  function UnfollowSpec(t: Tables, cu: Principal, username: string, back: Endpoint): (Response, Tables)
    requires InSession(t, cu)
  {
    match FindUser(t.users, username)
    case None => (Abort(404), t)
    case Some(uid) =>
      if cu.Guest? then (ServerError(AttributeError("is_following")), t)
      else if !Following(t, cu.id, uid) then (Render(UserIndexPage(uid)), t)
      else (Redirect(back), RemoveFollow(t, cu.id, uid))
  }

  /** Unfollowing removes exactly the edge if it is there, and otherwise
      changes nothing. */
  lemma UnfollowEffect(t: Tables, id: UserId, username: string, back: Endpoint)
    requires id in t.users && UsernameInUse(t.users, username)
    ensures var uid := FindUser(t.users, username).value;
      var (r, s) := UnfollowSpec(t, Member(id), username, back);
      && s.follows == t.follows - {(id, uid)}
      && s == t.(follows := s.follows)
      && (Following(t, id, uid) <==> r == Redirect(back))
      && (!Following(t, id, uid) ==> r == Render(UserIndexPage(uid)) && s == t)
  {
    var uid := FindUser(t.users, username).value;
    if !Following(t, id, uid) {
      assert t.follows - {(id, uid)} == t.follows;
    }
  }

  /** A follow undone by an unfollow leaves the follow graph as it was; only
      the notification, if one was pushed, remains. */
  lemma FollowThenUnfollow(t: Tables, id: UserId, username: string, back: Endpoint)
    requires id in t.users && t.users[id].confirmed && Can(t, t.users[id], "FOLLOW")
    requires UsernameInUse(t.users, username) && !Following(t, id, FindUser(t.users, username).value)
    ensures var s := FollowFixedSpec(t, Member(id), username, back).1;
      && InSession(s, Member(id))
      && UnfollowSpec(s, Member(id), username, back).1 == t.(notifications := s.notifications)
  {
    var uid := FindUser(t.users, username).value;
    var s := FollowFixedSpec(t, Member(id), username, back).1;
    FollowNew(t, id, username, back);
    assert s.users == t.users;
    assert s.follows - {(id, uid)} == t.follows;
  }

  lemma UnfollowValid(t: Tables, cu: Principal, username: string, back: Endpoint)
    requires ValidTables(t) && InSession(t, cu)
    ensures ValidTables(UnfollowSpec(t, cu, username, back).1)
  {
    if FindUser(t.users, username).Some? && cu.Member? && Following(t, cu.id, FindUser(t.users, username).value) {
      var s := RemoveFollow(t, cu.id, FindUser(t.users, username).value);
      assert FollowsValid(s.follows, s.users);
    }
  }

  /** `unfollow(username)`. */
  method Unfollow(db: Db, cu: Principal, username: string, next: Option<string>, referrer: Option<string>, isSafe: string -> bool)
    returns (r: Response)
    requires InSession(db.Snapshot(), cu)
    modifies db
    ensures (r, db.Snapshot()) == UnfollowSpec(old(db.Snapshot()), cu, username, BackTarget(next, referrer, isSafe, MainIndex))
  {
    var found := FindUser(db.users, username);
    if found.None? {
      return Abort(404);
    }
    var uid := found.value;
    if cu.Guest? {
      return ServerError(AttributeError("is_following"));
    }
    if (cu.id, uid) !in db.follows {
      return Render(UserIndexPage(uid));
    }
    db.follows := db.follows - {(cu.id, uid)};
    r := RedirectBack(next, referrer, isSafe, MainIndex);
  }

  // ---------------------------------------------------------------- settings

  /** The user row after a valid profile submission. */
  function Profiled(u: User, f: EditProfileInput): (v: User)
    ensures v.name == f.name && v.username == f.username && v.website == f.website
    ensures v.bio == f.bio && v.location == f.location
    ensures v.(name := u.name, username := u.username, website := u.website, bio := u.bio, location := u.location) == u
  {
    u.(name := f.name, username := f.username, website := f.website, bio := f.bio, location := f.location)
  }

  /** `edit_profile()` with a submitted form; `isUrl` is WTForms' `URL()`. */
  function EditProfileSpec(t: Tables, cu: Principal, f: EditProfileInput, isUrl: string -> bool): (Response, Tables)
    requires InSession(t, cu)
  {
    if cu.Guest? then (Redirect(Login), t)
    else if !EditProfileValid(f, t.users[cu.id].username, t.users, isUrl) then (Render(EditProfilePage), t)
    else (Redirect(UserIndex(f.username)), SetUser(t, cu.id, Profiled(t.users[cu.id], f)))
  }

  /** A valid submission rewrites exactly the five profile fields of the
      current user's row and nothing else; an invalid one changes nothing. */
  lemma EditProfileEffect(t: Tables, id: UserId, f: EditProfileInput, isUrl: string -> bool)
    requires id in t.users
    ensures var (r, s) := EditProfileSpec(t, Member(id), f, isUrl);
      && (EditProfileValid(f, t.users[id].username, t.users, isUrl) ==>
            && r == Redirect(UserIndex(f.username))
            && s == t.(users := s.users) && s.users.Keys == t.users.Keys
            && (forall v :: v in t.users && v != id ==> s.users[v] == t.users[v])
            && s.users[id].name == f.name && s.users[id].username == f.username
            && s.users[id].website == f.website && s.users[id].bio == f.bio
            && s.users[id].location == f.location
            && s.users[id].(name := t.users[id].name, username := t.users[id].username,
                             website := t.users[id].website, bio := t.users[id].bio,
                             location := t.users[id].location) == t.users[id])
      && (!EditProfileValid(f, t.users[id].username, t.users, isUrl) ==> r == Render(EditProfilePage) && s == t)
  {
  }

  lemma EditProfileValidity(t: Tables, cu: Principal, f: EditProfileInput, isUrl: string -> bool)
    requires ValidTables(t) && InSession(t, cu)
    ensures ValidTables(EditProfileSpec(t, cu, f, isUrl).1)
  {
    if cu.Member? && EditProfileValid(f, t.users[cu.id].username, t.users, isUrl) {
      EditProfileUsernameRule(f.username, t.users[cu.id].username, t.users);
      ValidSetUser(t, cu.id, Profiled(t.users[cu.id], f));
    }
  }

  /** `edit_profile()`. */
  method EditProfile(db: Db, cu: Principal, f: EditProfileInput, isUrl: string -> bool) returns (r: Response)
    requires InSession(db.Snapshot(), cu)
    modifies db
    ensures (r, db.Snapshot()) == EditProfileSpec(old(db.Snapshot()), cu, f, isUrl)
  {
    if cu.Guest? {
      return Redirect(Login);
    }
    if !EditProfileValid(f, db.users[cu.id].username, db.users, isUrl) {
      return Render(EditProfilePage);
    }
    var u := db.users[cu.id];
    db.users := db.users[cu.id := u.(name := f.name, username := f.username, website := f.website,
                                     bio := f.bio, location := f.location)];
    return Redirect(UserIndex(f.username));
  }

  /** `notification_setting()`: `submitted` is `validate_on_submit()`, and
      the three flags are the form's check boxes. */
  function NotificationSettingSpec(t: Tables, cu: Principal, submitted: bool, comment: bool, follow: bool, collect: bool)
    : (Response, Tables)
    requires InSession(t, cu)
  {
    if cu.Guest? then (Redirect(Login), t)
    else if !submitted then (Render(NotificationSettingPage), t)
    else
      var u := t.users[cu.id];
      (Redirect(NotificationSetting),
       SetUser(t, cu.id, u.(receiveCommentNotification := comment, receiveFollowNotification := follow,
                            receiveCollectNotification := collect)))
  }

  /** The settings form writes exactly the three flags of the current user. */
  lemma NotificationSettingEffect(t: Tables, id: UserId, comment: bool, follow: bool, collect: bool)
    requires id in t.users
    ensures var (r, s) := NotificationSettingSpec(t, Member(id), true, comment, follow, collect);
      && r == Redirect(NotificationSetting)
      && s == t.(users := s.users) && s.users.Keys == t.users.Keys
      && (forall v :: v in t.users && v != id ==> s.users[v] == t.users[v])
      && s.users[id].receiveCommentNotification == comment
      && s.users[id].receiveFollowNotification == follow
      && s.users[id].receiveCollectNotification == collect
      && s.users[id].(receiveCommentNotification := t.users[id].receiveCommentNotification,
                      receiveFollowNotification := t.users[id].receiveFollowNotification,
                      receiveCollectNotification := t.users[id].receiveCollectNotification) == t.users[id]
  {
  }

  /** The follow flag chosen in the settings decides whether the next
      follower's follow notifies this user. */
  lemma FollowFlagHonoured(t: Tables, id: UserId, other: UserId, comment: bool, follow: bool, collect: bool, back: Endpoint)
    requires UniqueUsers(t.users) && id in t.users && other in t.users
    requires t.users[other].confirmed && Can(t, t.users[other], "FOLLOW") && !Following(t, other, id)
    ensures var s := NotificationSettingSpec(t, Member(id), true, comment, follow, collect).1;
      && InSession(s, Member(other))
      && (|UnreadOf(FollowFixedSpec(s, Member(other), t.users[id].username, back).1, id)| == |UnreadOf(s, id)| + 1
          <==> follow)
  {
    var s := NotificationSettingSpec(t, Member(id), true, comment, follow, collect).1;
    assert s.users[id].username == t.users[id].username;
    assert UniqueUsers(s.users) by {
      forall a, b | a in s.users && b in s.users && a != b
        ensures s.users[a].username != s.users[b].username
      {
        assert s.users[a].username == t.users[a].username && s.users[b].username == t.users[b].username;
      }
    }
    FindOwn(s.users, id);
    assert s.users[other].confirmed && Can(s, s.users[other], "FOLLOW");
    FollowNew(s, other, t.users[id].username, back);
  }

  lemma NotificationSettingValid(t: Tables, cu: Principal, submitted: bool, comment: bool, follow: bool, collect: bool)
    requires ValidTables(t) && InSession(t, cu)
    ensures ValidTables(NotificationSettingSpec(t, cu, submitted, comment, follow, collect).1)
  {
    if cu.Member? && submitted {
      var u := t.users[cu.id];
      ValidSetUser(t, cu.id, u.(receiveCommentNotification := comment, receiveFollowNotification := follow,
                                receiveCollectNotification := collect));
    }
  }

  /** `notification_setting()`. */
  method NotificationSettingView(db: Db, cu: Principal, submitted: bool, comment: bool, follow: bool, collect: bool)
    returns (r: Response)
    requires InSession(db.Snapshot(), cu)
    modifies db
    ensures (r, db.Snapshot()) == NotificationSettingSpec(old(db.Snapshot()), cu, submitted, comment, follow, collect)
  {
    if cu.Guest? {
      return Redirect(Login);
    }
    if !submitted {
      return Render(NotificationSettingPage);
    }
    var u := db.users[cu.id];
    db.users := db.users[cu.id := u.(receiveCommentNotification := comment, receiveFollowNotification := follow,
                                     receiveCollectNotification := collect)];
    return Redirect(NotificationSetting);
  }

  /** `privacy_setting()`: only `public_collections` is written. */
  function PrivacySettingSpec(t: Tables, cu: Principal, submitted: bool, publicCollections: bool): (Response, Tables)
    requires InSession(t, cu)
  {
    if cu.Guest? then (Redirect(Login), t)
    else if !submitted then (Render(PrivacySettingPage), t)
    else (Redirect(PrivacySetting), SetUser(t, cu.id, t.users[cu.id].(publicCollections := publicCollections)))
  }

  lemma PrivacySettingEffect(t: Tables, id: UserId, publicCollections: bool)
    requires id in t.users
    ensures var (r, s) := PrivacySettingSpec(t, Member(id), true, publicCollections);
      && r == Redirect(PrivacySetting)
      && s == t.(users := s.users) && s.users.Keys == t.users.Keys
      && (forall v :: v in t.users && v != id ==> s.users[v] == t.users[v])
      && s.users[id].publicCollections == publicCollections
      && s.users[id].(publicCollections := t.users[id].publicCollections) == t.users[id]
  {
  }

  lemma PrivacySettingValid(t: Tables, cu: Principal, submitted: bool, publicCollections: bool)
    requires ValidTables(t) && InSession(t, cu)
    ensures ValidTables(PrivacySettingSpec(t, cu, submitted, publicCollections).1)
  {
    if cu.Member? && submitted {
      ValidSetUser(t, cu.id, t.users[cu.id].(publicCollections := publicCollections));
    }
  }

  /** `privacy_setting()`. */
  method PrivacySettingView(db: Db, cu: Principal, submitted: bool, publicCollections: bool) returns (r: Response)
    requires InSession(db.Snapshot(), cu)
    modifies db
    ensures (r, db.Snapshot()) == PrivacySettingSpec(old(db.Snapshot()), cu, submitted, publicCollections)
  {
    if cu.Guest? {
      return Redirect(Login);
    }
    if !submitted {
      return Render(PrivacySettingPage);
    }
    db.users := db.users[cu.id := db.users[cu.id].(publicCollections := publicCollections)];
    return Redirect(PrivacySetting);
  }
}
