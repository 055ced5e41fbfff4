/** The tables of the application, the role/permission rules and their
    seeding (`Role.init_role`, `User.init_role_permission`), and the
    database object the views change. */
module Models {
  import opened Base

  type UserId = nat
  type PhotoId = nat
  type TagId = nat
  type CommentId = nat
  type NotificationId = nat

  /** A row of the user table.  `role` is the position of the user's role in
      the role table, or None when the user has no role yet.  `password` is
      the value last given to `set_password`; the salted hash werkzeug
      stores instead is not modelled. */
  datatype User = User(
    username: string,
    email: string,
    password: string,
    name: string,
    website: string,
    bio: string,
    location: string,
    confirmed: bool,
    role: Option<nat>,
    locked: bool,
    active: bool,
    receiveCommentNotification: bool,
    receiveFollowNotification: bool,
    receiveCollectNotification: bool,
    publicCollections: bool)

  /** A role and the names of its permissions, in the order they were attached. */
  datatype Role = Role(name: string, permissions: seq<string>)

  /** A photo; `flag` counts reports and `tags` is the photo's tag list. */
  datatype Photo = Photo(description: string, author: UserId, canComment: bool, flag: int, tags: seq<TagId>)

  datatype Tag = Tag(name: string)

  datatype Comment = Comment(body: string, author: UserId, photo: PhotoId, flag: int, replied: Option<CommentId>)

  /** What a notification says; `Notifications.MessageHtml` renders it. */
  datatype Message =
    | FollowMessage(follower: string)
    | CommentMessage(photo: PhotoId, page: int)
    | CollectMessage(collector: string, photo: PhotoId)

  datatype Notification = Notification(message: Message, receiver: UserId, isRead: bool)

  /** The whole database at one moment.  Follow and collect rows are kept as
      sets of (follower, followed) and (collector, photo) pairs. */
  datatype Tables = Tables(
    users: map<UserId, User>,
    roles: seq<Role>,
    permissions: seq<string>,
    photos: map<PhotoId, Photo>,
    tags: map<TagId, Tag>,
    comments: map<CommentId, Comment>,
    follows: set<(UserId, UserId)>,
    collects: set<(UserId, PhotoId)>,
    notifications: map<NotificationId, Notification>)

  predicate Distinct<T(==)>(s: seq<T>)
  {
    forall i, j :: 0 <= i < j < |s| ==> s[i] != s[j]
  }

  ghost predicate DistinctRoleNames(roles: seq<Role>)
  {
    forall i, j :: 0 <= i < j < |roles| ==> roles[i].name != roles[j].name
  }

  /** The role and permission tables are consistent: unique names, and every
      permission a role holds is a row of the permission table. */
  ghost predicate RolesValid(roles: seq<Role>, permissions: seq<string>)
  {
    && DistinctRoleNames(roles)
    && Distinct(permissions)
    && (forall i, p :: 0 <= i < |roles| && p in roles[i].permissions ==> p in permissions)
  }

  ghost predicate TagListValid(tags: map<TagId, Tag>, list: seq<TagId>)
  {
    (forall i :: 0 <= i < |list| ==> list[i] in tags) && Distinct(list)
  }

  /** Every user's role points into the role table. */
  ghost predicate UserRolesValid(users: map<UserId, User>, roles: seq<Role>)
  {
    forall u :: u in users && users[u].role.Some? ==> users[u].role.value < |roles|
  }

  /** Usernames and emails are unique. */
  ghost predicate UniqueUsers(users: map<UserId, User>)
  {
    forall u, v :: u in users && v in users && u != v ==>
      users[u].username != users[v].username && users[u].email != users[v].email
  }

  /** Every photo has an existing author and a valid tag list. */
  ghost predicate PhotosValid(photos: map<PhotoId, Photo>, users: map<UserId, User>, tags: map<TagId, Tag>)
  {
    forall p :: p in photos ==> photos[p].author in users && TagListValid(tags, photos[p].tags)
  }

  /** Tag names are unique. */
  ghost predicate UniqueTagNames(tags: map<TagId, Tag>)
  {
    forall a, b :: a in tags && b in tags && a != b ==> tags[a].name != tags[b].name
  }

  ghost predicate CommentsValid(comments: map<CommentId, Comment>, users: map<UserId, User>, photos: map<PhotoId, Photo>)
  {
    forall c :: c in comments ==> comments[c].author in users && comments[c].photo in photos
  }

  ghost predicate FollowsValid(follows: set<(UserId, UserId)>, users: map<UserId, User>)
  {
    forall e :: e in follows ==> e.0 in users && e.1 in users
  }

  ghost predicate CollectsValid(collects: set<(UserId, PhotoId)>, users: map<UserId, User>, photos: map<PhotoId, Photo>)
  {
    forall e :: e in collects ==> e.0 in users && e.1 in photos
  }

  ghost predicate NotificationsValid(notifications: map<NotificationId, Notification>, users: map<UserId, User>)
  {
    forall n :: n in notifications ==> notifications[n].receiver in users
  }

  /** The integrity constraints of the schema: foreign keys point at rows
      that exist, names declared unique are unique, and no photo carries a
      tag twice. */
  ghost predicate ValidTables(t: Tables)
  {
    && RolesValid(t.roles, t.permissions)
    && UserRolesValid(t.users, t.roles)
    && UniqueUsers(t.users)
    && PhotosValid(t.photos, t.users, t.tags)
    && UniqueTagNames(t.tags)
    && CommentsValid(t.comments, t.users, t.photos)
    && FollowsValid(t.follows, t.users)
    && CollectsValid(t.collects, t.users, t.photos)
    && NotificationsValid(t.notifications, t.users)
  }

  /** `User.query.filter_by(username=name).first()` finds a row. */
  predicate UsernameInUse(users: map<UserId, User>, name: string)
  {
    exists id :: id in users && users[id].username == name
  }

  /** `User.query.filter_by(email=email).first()` finds a row. */
  predicate EmailInUse(users: map<UserId, User>, email: string)
  {
    exists id :: id in users && users[id].email == email
  }

  // ---------------------------------------------------------------- authorization

  /** `User.can`: the permission row exists, the user has a role, and the
      role holds the permission. */
  predicate Can(t: Tables, u: User, permission: string)
  {
    && permission in t.permissions
    && u.role.Some?
    && u.role.value < |t.roles|
    && permission in t.roles[u.role.value].permissions
  }

  /** `User.is_admin`: the role's name is exactly 'Administrator'; reading
      the name of a missing role raises AttributeError. */
  function IsAdmin(t: Tables, u: User): (r: Result<bool>)
    requires u.role.Some? ==> u.role.value < |t.roles|
    ensures r.Err? <==> u.role.None?
    ensures r.Ok? ==> (r.value <==> t.roles[u.role.value].name == "Administrator")
  {
    match u.role
    case None => Err(AttributeError("name"))
    case Some(i) => Ok(t.roles[i].name == "Administrator")
  }

  /** A user without a role can do nothing. */
  lemma RolelessCannot(t: Tables, u: User, permission: string)
    requires u.role.None?
    ensures !Can(t, u, permission)
  {
  }

  /** `User.set_role` calls the configuration mapping as if it were a
      function, which raises TypeError whenever the user has no role yet; a
      user who has one is left as is. */
  function SetRole(u: User): (r: Result<User>)
    ensures r.Err? <==> u.role.None?
    ensures r.Ok? ==> r.value == u
  {
    if u.role.None? then Err(TypeError("'Config' object is not callable")) else Ok(u)
  }

  // ---------------------------------------------------------------- role seeding

  /** The roles `Role.init_role` seeds, in the iteration order of its map. */
  const RoleOrder: seq<string> := ["Locked", "User", "Moderator", "Administrator"]

  /** The role to permission map `Role.init_role` seeds. */
  const RolesPermissions: map<string, seq<string>> := map[
    "Locked" := ["FOLLOW", "COLLECT"],
    "User" := ["FOLLOW", "COLLECT", "COMMENT", "UPLOAD"],
    "Moderator" := ["FOLLOW", "COLLECT", "COMMENT", "UPLOAD", "MODERATE"],
    "Administrator" := ["FOLLOW", "COLLECT", "COMMENT", "UPLOAD", "MODERATE", "ADMINISTER"]]

  /** The seeded capabilities grow with the role: Locked, User, Moderator,
      Administrator each hold all permissions of the one before; only the
      Administrator may ADMINISTER and only Moderator and Administrator may
      MODERATE. */
  lemma SeededRolesNested()
    ensures RolesPermissions.Keys == set n | n in RoleOrder
    ensures forall p :: p in RolesPermissions["Locked"] ==> p in RolesPermissions["User"]
    ensures forall p :: p in RolesPermissions["User"] ==> p in RolesPermissions["Moderator"]
    ensures forall p :: p in RolesPermissions["Moderator"] ==> p in RolesPermissions["Administrator"]
    ensures forall n :: n in RolesPermissions ==> ("ADMINISTER" in RolesPermissions[n] <==> n == "Administrator")
    ensures forall n :: n in RolesPermissions ==> ("MODERATE" in RolesPermissions[n] <==> n == "Moderator" || n == "Administrator")
  {
  }

  lemma RoleOrderDistinct()
    ensures Distinct(RoleOrder)
    ensures forall i :: 0 <= i < |RoleOrder| ==> RoleOrder[i] in RolesPermissions
    ensures forall n :: n in RoleOrder ==> n in RolesPermissions
  {
  }

  /** `Role.query.filter_by(name=name).first()`: the first role with that name. */
  function FindRole(roles: seq<Role>, name: string): (r: Option<nat>)
    ensures r.None? <==> forall i :: 0 <= i < |roles| ==> roles[i].name != name
    ensures r.Some? ==> r.value < |roles| && roles[r.value].name == name
    ensures r.Some? ==> forall i :: 0 <= i < r.value ==> roles[i].name != name
  {
    if roles == [] then None
    else if roles[0].name == name then Some(0)
    else
      match FindRole(roles[1..], name)
      case None => None
      case Some(k) => Some(k + 1)
  }

  /** The permission table after looking up each name in turn and adding
      the ones not found, as the inner loop of `init_role` does. */
  function AddMissing(permissions: seq<string>, names: seq<string>): seq<string>
    decreases |names|
  {
    if names == [] then permissions
    else AddMissing(if names[0] in permissions then permissions else permissions + [names[0]], names[1..])
  }

  /** Permissions are only appended, every name ends up present, and nothing
      but the names is added. */
  lemma {:induction false} AddMissingBounds(permissions: seq<string>, names: seq<string>)
    ensures var r := AddMissing(permissions, names);
      && permissions <= r
      && (forall x :: x in names ==> x in r)
      && (forall x :: x in r ==> x in permissions || x in names)
    decreases |names|
  {
    if names != [] {
      var next := if names[0] in permissions then permissions else permissions + [names[0]];
      AddMissingBounds(next, names[1..]);
      var r := AddMissing(next, names[1..]);
      assert forall x :: x in names[1..] ==> x in names;
      PrefixMember(next, r, names[0]);
    }
  }

  /** One step of `AddMissing`: the first name is looked up and added when
      missing. */
  lemma AddMissingStep(permissions: seq<string>, names: seq<string>)
    requires names != []
    ensures AddMissing(permissions, names) ==
      AddMissing(if names[0] in permissions then permissions else permissions + [names[0]], names[1..])
  {
  }

  lemma {:induction false} AddMissingDistinct(permissions: seq<string>, names: seq<string>)
    requires Distinct(permissions)
    ensures Distinct(AddMissing(permissions, names))
    decreases |names|
  {
    if names != [] {
      AddMissingDistinct(if names[0] in permissions then permissions else permissions + [names[0]], names[1..]);
    }
  }

  lemma {:induction false} AddMissingPresent(permissions: seq<string>, names: seq<string>)
    requires forall x :: x in names ==> x in permissions
    ensures AddMissing(permissions, names) == permissions
    decreases |names|
  {
    if names != [] {
      assert names[0] in names;
      AddMissingPresent(permissions, names[1..]);
    }
  }

  /** The role table after one iteration of the outer loop of `init_role`:
      find or create the role, then give it the permissions of the map. */
  function SeedRoles(roles: seq<Role>, name: string): seq<Role>
    requires name in RolesPermissions
  {
    var found := FindRole(roles, name);
    var grown := if found.None? then roles + [Role(name, [])] else roles;
    var i := if found.None? then |roles| else found.value;
    grown[i := Role(name, RolesPermissions[name])]
  }

  /** One iteration of the outer loop of `init_role`. */
  function SeedRole(t: Tables, name: string): Tables
    requires name in RolesPermissions
  {
    t.(roles := SeedRoles(t.roles, name), permissions := AddMissing(t.permissions, RolesPermissions[name]))
  }

  /** The outer loop of `init_role` over the given role names, in order. */
  function SeedNames(t: Tables, names: seq<string>): Tables
    requires forall n :: n in names ==> n in RolesPermissions
    decreases |names|
  {
    if names == [] then t else SeedNames(SeedRole(t, names[0]), names[1..])
  }

  function InitRoleSpec(t: Tables): Tables
  {
    RoleOrderDistinct();
    SeedNames(t, RoleOrder)
  }

  lemma FindRoleAt(roles: seq<Role>, name: string, i: nat)
    requires DistinctRoleNames(roles)
    requires i < |roles| && roles[i].name == name
    ensures FindRole(roles, name) == Some(i)
  {
  }

  /** Role `name` exists and holds exactly the permissions the map gives it,
      all of which are rows of the permission table. */
  ghost predicate RoleSeeded(t: Tables, name: string)
  {
    && name in RolesPermissions
    && FindRole(t.roles, name).Some?
    && t.roles[FindRole(t.roles, name).value].permissions == RolesPermissions[name]
    && (forall p :: p in RolesPermissions[name] ==> p in t.permissions)
  }

  /** What seeding leaves alone: every other table, every existing role's
      position and name, every role outside the map, and the permission rows
      already present (new ones are appended). */
  ghost predicate Extends(t: Tables, s: Tables)
  {
    && s == t.(roles := s.roles, permissions := s.permissions)
    && |t.roles| <= |s.roles|
    && (forall i :: 0 <= i < |t.roles| ==> s.roles[i].name == t.roles[i].name)
    && (forall i :: 0 <= i < |t.roles| && t.roles[i].name !in RolesPermissions ==> s.roles[i] == t.roles[i])
    && t.permissions <= s.permissions
  }

  lemma ExtendsTransitive(a: Tables, b: Tables, c: Tables)
    requires Extends(a, b) && Extends(b, c)
    ensures Extends(a, c)
  {
  }

  lemma PrefixMember<T>(a: seq<T>, b: seq<T>, x: T)
    requires a <= b && x in a
    ensures x in b
  {
    var k :| 0 <= k < |a| && a[k] == x;
    assert b[k] == x;
  }

  lemma SeedRolesEffect(roles: seq<Role>, name: string)
    requires name in RolesPermissions
    requires DistinctRoleNames(roles)
    ensures var r := SeedRoles(roles, name);
      && DistinctRoleNames(r)
      && |roles| <= |r| <= |roles| + 1
      && (forall i :: 0 <= i < |roles| ==> r[i].name == roles[i].name)
      && (forall i :: 0 <= i < |roles| && roles[i].name != name ==> r[i] == roles[i])
      && (forall i :: |roles| <= i < |r| ==> r[i].name == name)
      && (forall i :: 0 <= i < |r| && r[i].name == name ==> r[i].permissions == RolesPermissions[name])
      && FindRole(r, name).Some?
  {
    var found := FindRole(roles, name);
    var i := if found.None? then |roles| else found.value;
    var r := SeedRoles(roles, name);
    assert r[i] == Role(name, RolesPermissions[name]);
    FindRoleAt(r, name, i);
  }

  /** What one seeding step does to the role and permission tables. */
  lemma SeedRoleEffect(t: Tables, name: string)
    requires name in RolesPermissions
    requires RolesValid(t.roles, t.permissions)
    ensures var s := SeedRole(t, name);
      RolesValid(s.roles, s.permissions) && Extends(t, s) && RoleSeeded(s, name)
  {
    var s := SeedRole(t, name);
    SeedRolesEffect(t.roles, name);
    AddMissingBounds(t.permissions, RolesPermissions[name]);
    AddMissingDistinct(t.permissions, RolesPermissions[name]);
    forall i, p | 0 <= i < |s.roles| && p in s.roles[i].permissions
      ensures p in s.permissions
    {
      if s.roles[i].name != name {
        assert s.roles[i] == t.roles[i];
        PrefixMember(t.permissions, s.permissions, p);
      }
    }
  }

  lemma SeedRoleKeeps(t: Tables, name: string, other: string)
    requires name in RolesPermissions
    requires RolesValid(t.roles, t.permissions)
    requires RoleSeeded(t, other)
    ensures RoleSeeded(SeedRole(t, name), other)
  {
    if name == other {
      SeedRoleEffect(t, name);
      return;
    }
    var s := SeedRole(t, name);
    SeedRolesEffect(t.roles, name);
    AddMissingBounds(t.permissions, RolesPermissions[name]);
    var j := FindRole(t.roles, other).value;
    assert s.roles[j] == t.roles[j];
    FindRoleAt(s.roles, other, j);
    forall p | p in RolesPermissions[other]
      ensures p in s.permissions
    {
      PrefixMember(t.permissions, s.permissions, p);
    }
  }

  /** Seeding a list of names keeps the role tables consistent, only
      extends them, keeps the roles of `done` seeded and seeds every name of
      the list. */
  lemma {:induction false} SeedNamesEffect(t: Tables, names: seq<string>, done: set<string>)
    requires forall n :: n in names ==> n in RolesPermissions
    requires RolesValid(t.roles, t.permissions)
    requires forall n :: n in done ==> RoleSeeded(t, n)
    ensures var s := SeedNames(t, names);
      && RolesValid(s.roles, s.permissions) && Extends(t, s)
      && (forall n :: n in done ==> RoleSeeded(s, n))
      && (forall n :: n in names ==> RoleSeeded(s, n))
    decreases |names|
  {
    if names != [] {
      var n0 := names[0];
      var t' := SeedRole(t, n0);
      SeedRoleEffect(t, n0);
      forall n | n in done
        ensures RoleSeeded(t', n)
      {
        SeedRoleKeeps(t, n0, n);
      }
      assert forall n :: n in names[1..] ==> n in names;
      SeedNamesEffect(t', names[1..], done + {n0});
      var s := SeedNames(t', names[1..]);
      assert SeedNames(t, names) == s;
      ExtendsTransitive(t, t', s);
      forall n | n in names
        ensures RoleSeeded(s, n)
      {
        if n != n0 {
          var j :| 0 <= j < |names| && names[j] == n;
          assert names[1..][j - 1] == n;
        }
      }
    }
  }

  /** After `init_role`, each of Locked, User, Moderator and Administrator
      exists exactly once with exactly the permissions of the map, and the
      tables stay consistent. */
  lemma InitRoleSeedsMap(t: Tables)
    requires RolesValid(t.roles, t.permissions)
    ensures var s := InitRoleSpec(t);
      && RolesValid(s.roles, s.permissions)
      && (forall n :: n in RoleOrder ==> RoleSeeded(s, n))
      && (forall n, i :: n in RoleOrder && 0 <= i < |s.roles| && s.roles[i].name == n ==>
            s.roles[i].permissions == RolesPermissions[n])
  {
    RoleOrderDistinct();
    SeedNamesEffect(t, RoleOrder, {});
    var s := InitRoleSpec(t);
    forall n, i | n in RoleOrder && 0 <= i < |s.roles| && s.roles[i].name == n
      ensures s.roles[i].permissions == RolesPermissions[n]
    {
      assert RoleSeeded(s, n);
      FindRoleAt(s.roles, n, i);
    }
  }

  /** `init_role` keeps the database consistent, keeps the user table and
      every other table, and keeps every existing role at its position. */
  lemma InitRoleKeeps(t: Tables)
    requires ValidTables(t)
    ensures ValidTables(InitRoleSpec(t)) && Extends(t, InitRoleSpec(t))
  {
    RoleOrderDistinct();
    SeedNamesEffect(t, RoleOrder, {});
  }

  /** Seeding roles that are already seeded changes nothing. */
  lemma {:induction false} SeedNamesSeeded(t: Tables, names: seq<string>)
    requires forall n :: n in names ==> n in RolesPermissions && RoleSeeded(t, n)
    ensures SeedNames(t, names) == t
    decreases |names|
  {
    if names != [] {
      var name := names[0];
      assert RoleSeeded(t, name);
      var i := FindRole(t.roles, name).value;
      AddMissingPresent(t.permissions, RolesPermissions[name]);
      assert t.roles[i := Role(name, RolesPermissions[name])] == t.roles;
      assert SeedRole(t, name) == t;
      assert forall n :: n in names[1..] ==> n in names;
      SeedNamesSeeded(t, names[1..]);
    }
  }

  /** Running `init_role` a second time creates no role or permission and
      changes no mapping. */
  lemma InitRoleIdempotent(t: Tables)
    requires RolesValid(t.roles, t.permissions)
    ensures InitRoleSpec(InitRoleSpec(t)) == InitRoleSpec(t)
  {
    InitRoleSeedsMap(t);
    SeedNamesSeeded(InitRoleSpec(t), RoleOrder);
  }

  /** Once the roles are seeded, a user whose role is one of the four can
      exactly what the map grants that role. */
  lemma CanAfterSeeding(t: Tables, u: User, permission: string)
    requires RolesValid(t.roles, t.permissions)
    requires u.role.Some? && u.role.value < |InitRoleSpec(t).roles|
    requires InitRoleSpec(t).roles[u.role.value].name in RoleOrder
    ensures var s := InitRoleSpec(t);
      Can(s, u, permission) <==> permission in RolesPermissions[s.roles[u.role.value].name]
  {
    InitRoleSeedsMap(t);
  }

  // ---------------------------------------------------------------- user rows

  /** Replacing user rows keeps the database consistent when usernames and
      emails stay as they were and every role points into the role table. */
  lemma ValidWithUsers(t: Tables, users: map<UserId, User>)
    requires ValidTables(t)
    requires users.Keys == t.users.Keys
    requires forall id :: id in users ==> users[id].username == t.users[id].username && users[id].email == t.users[id].email
    requires forall id :: id in users && users[id].role.Some? ==> users[id].role.value < |t.roles|
    ensures ValidTables(t.(users := users))
  {
  }

  /** The tables after replacing the row of user `uid` with `u` (a
      `db.session.commit()` after assigning columns of that row). */
  function SetUser(t: Tables, uid: UserId, u: User): (s: Tables)
    requires uid in t.users
    ensures s == t.(users := s.users) && s.users.Keys == t.users.Keys && s.users[uid] == u
    ensures forall v :: v in t.users && v != uid ==> s.users[v] == t.users[v]
  {
    t.(users := t.users[uid := u])
  }

  /** Replacing one user row keeps the database consistent when the username
      is unchanged or unused, the email likewise, and the role points into
      the role table. */
  lemma ValidSetUser(t: Tables, uid: UserId, u: User)
    requires ValidTables(t) && uid in t.users
    requires u.username == t.users[uid].username || !UsernameInUse(t.users, u.username)
    requires u.email == t.users[uid].email || !EmailInUse(t.users, u.email)
    requires u.role.Some? ==> u.role.value < |t.roles|
    ensures ValidTables(SetUser(t, uid, u))
  {
    var s := SetUser(t, uid, u);
    assert s.users.Keys == t.users.Keys;
    forall a, b | a in s.users && b in s.users && a != b
      ensures s.users[a].username != s.users[b].username && s.users[a].email != s.users[b].email
    {
      if a == uid {
        assert s.users[b] == t.users[b];
      } else if b == uid {
        assert s.users[a] == t.users[a];
      }
    }
  }

  /** The photo's author is a row of the user table, as the photo's
      foreign key guarantees. */
  predicate AuthorKnown(t: Tables, photoId: PhotoId)
  {
    photoId in t.photos ==> t.photos[photoId].author in t.users
  }

  /** The tables after replacing the row of photo `pid` with `p`. */
  function SetPhoto(t: Tables, pid: PhotoId, p: Photo): (s: Tables)
    requires pid in t.photos
    ensures s == t.(photos := s.photos) && s.photos.Keys == t.photos.Keys && s.photos[pid] == p
    ensures forall q :: q in t.photos && q != pid ==> s.photos[q] == t.photos[q]
  {
    t.(photos := t.photos[pid := p])
  }

  /** A photo row whose author exists and whose tag list is valid keeps the
      database consistent. */
  lemma ValidSetPhoto(t: Tables, pid: PhotoId, p: Photo)
    requires ValidTables(t) && pid in t.photos
    requires p.author in t.users && TagListValid(t.tags, p.tags)
    ensures ValidTables(SetPhoto(t, pid, p))
  {
    var s := SetPhoto(t, pid, p);
    assert s.photos.Keys == t.photos.Keys;
  }

  /** The tables after replacing the row of comment `cid` with `c`. */
  function SetComment(t: Tables, cid: CommentId, c: Comment): (s: Tables)
    requires cid in t.comments
    ensures s == t.(comments := s.comments) && s.comments.Keys == t.comments.Keys && s.comments[cid] == c
    ensures forall d :: d in t.comments && d != cid ==> s.comments[d] == t.comments[d]
  {
    t.(comments := t.comments[cid := c])
  }

  lemma ValidSetComment(t: Tables, cid: CommentId, c: Comment)
    requires ValidTables(t) && cid in t.comments
    requires c.author in t.users && c.photo in t.photos
    ensures ValidTables(SetComment(t, cid, c))
  {
  }

  /** The tables after replacing the row of notification `nid` with `n`. */
  function SetNotification(t: Tables, nid: NotificationId, n: Notification): (s: Tables)
    requires nid in t.notifications
    ensures s == t.(notifications := s.notifications) && s.notifications.Keys == t.notifications.Keys
    ensures s.notifications[nid] == n
    ensures forall m :: m in t.notifications && m != nid ==> s.notifications[m] == t.notifications[m]
  {
    t.(notifications := t.notifications[nid := n])
  }

  lemma ValidSetNotification(t: Tables, nid: NotificationId, n: Notification)
    requires ValidTables(t) && nid in t.notifications && n.receiver in t.users
    ensures ValidTables(SetNotification(t, nid, n))
  {
  }

  /** The role `init_role_permission` gives one user. */
  function DefaultRole(roles: seq<Role>, u: User, adminEmail: string): User
  {
    if u.role.Some? then u
    else if u.email == adminEmail then u.(role := FindRole(roles, "Administrator"))
    else u.(role := FindRole(roles, "User"))
  }

  function AssignedUsers(users: map<UserId, User>, roles: seq<Role>, adminEmail: string): map<UserId, User>
  {
    map id | id in users :: DefaultRole(roles, users[id], adminEmail)
  }

  function AssignRoles(t: Tables, adminEmail: string): Tables
  {
    t.(users := AssignedUsers(t.users, t.roles, adminEmail))
  }

  /** The loop of `init_role_permission` over all users, on the user table. */
  method AssignUsers(users: map<UserId, User>, roles: seq<Role>, adminEmail: string)
    returns (updated: map<UserId, User>)
    ensures updated == AssignedUsers(users, roles, adminEmail)
  {
    updated := users;
    var todo := users.Keys;
    while todo != {}
      invariant todo <= users.Keys && updated.Keys == users.Keys
      invariant forall id :: id in updated ==>
        updated[id] == if id in todo then users[id] else DefaultRole(roles, users[id], adminEmail)
      decreases todo
    {
      var id :| id in todo;
      if updated[id].role.None? {
        if updated[id].email == adminEmail {
          updated := updated[id := updated[id].(role := FindRole(roles, "Administrator"))];
        } else {
          updated := updated[id := updated[id].(role := FindRole(roles, "User"))];
        }
      }
      todo := todo - {id};
    }
  }

  lemma AssignRolesValid(t: Tables, adminEmail: string)
    requires ValidTables(t)
    ensures ValidTables(AssignRoles(t, adminEmail))
  {
    AssignRolesUsers(t, adminEmail);
    ValidWithUsers(t, AssignRoles(t, adminEmail).users);
  }

  lemma AssignRolesUsers(t: Tables, adminEmail: string)
    requires forall id :: id in t.users && t.users[id].role.Some? ==> t.users[id].role.value < |t.roles|
    ensures var users := AssignRoles(t, adminEmail).users;
      && users.Keys == t.users.Keys
      && (forall id :: id in users ==> users[id].username == t.users[id].username && users[id].email == t.users[id].email)
      && (forall id :: id in users && users[id].role.Some? ==> users[id].role.value < |t.roles|)
  {
    var users := AssignRoles(t, adminEmail).users;
    forall id | id in users
      ensures users[id].username == t.users[id].username && users[id].email == t.users[id].email
      ensures users[id].role.Some? ==> users[id].role.value < |t.roles|
    {
      DefaultRoleShape(t.roles, t.users[id], adminEmail);
    }
  }

  lemma DefaultRoleShape(roles: seq<Role>, u: User, adminEmail: string)
    requires u.role.Some? ==> u.role.value < |roles|
    ensures var v := DefaultRole(roles, u, adminEmail);
      v == u.(role := v.role) && (v.role.Some? ==> v.role.value < |roles|)
  {
    if u.role.None? {
      var r := if u.email == adminEmail then FindRole(roles, "Administrator") else FindRole(roles, "User");
      assert DefaultRole(roles, u, adminEmail) == u.(role := r);
    }
  }

  /** With both roles seeded, every role-less user becomes Administrator iff
      the email is the configured admin email, and User otherwise; users who
      had a role keep it; no other column and no other table changes. */
  lemma AssignRolesRule(t: Tables, adminEmail: string)
    requires FindRole(t.roles, "Administrator").Some? && FindRole(t.roles, "User").Some?
    ensures var s := AssignRoles(t, adminEmail);
      && s == t.(users := s.users)
      && s.users.Keys == t.users.Keys
      && (forall id :: id in t.users && t.users[id].role.Some? ==> s.users[id] == t.users[id])
      && (forall id :: id in t.users && t.users[id].role.None? ==>
            && s.users[id] == t.users[id].(role := s.users[id].role)
            && s.users[id].role.Some?
            && s.users[id].role.value < |s.roles|
            && (s.roles[s.users[id].role.value].name == "Administrator" <==> t.users[id].email == adminEmail)
            && (t.users[id].email != adminEmail ==> s.roles[s.users[id].role.value].name == "User"))
  {
  }

  /** The loop body of `init_role` over one role's permission names: each
      name is looked up in the permission table, created when missing, and
      attached to the role in order. */
  method FillPermissions(permissions: seq<string>, names: seq<string>) returns (attached: seq<string>, after: seq<string>)
    ensures attached == names
    ensures after == AddMissing(permissions, names)
  {
    attached, after := [], permissions;
    assert names[0..] == names;
    var j := 0;
    while j < |names|
      invariant 0 <= j <= |names|
      invariant attached == names[..j]
      invariant AddMissing(after, names[j..]) == AddMissing(permissions, names)
    {
      var p := names[j];
      AddMissingStep(after, names[j..]);
      if p !in after {
        after := after + [p];
      }
      assert names[j..][1..] == names[j + 1..];
      attached := attached + [p];
      assert names[..j + 1] == names[..j] + [p];
      j := j + 1;
    }
    assert names[..j] == names;
    assert names[j..] == [];
  }

  /** The database session: one field per table.  The views change these
      fields; `Snapshot` reads them all at once. */
  class Db {
    var users: map<UserId, User>
    var roles: seq<Role>
    var permissions: seq<string>
    var photos: map<PhotoId, Photo>
    var tags: map<TagId, Tag>
    var comments: map<CommentId, Comment>
    var follows: set<(UserId, UserId)>
    var collects: set<(UserId, PhotoId)>
    var notifications: map<NotificationId, Notification>

    function Snapshot(): Tables
      reads this
    {
      Tables(users, roles, permissions, photos, tags, comments, follows, collects, notifications)
    }

    ghost predicate Valid()
      reads this
    {
      ValidTables(Snapshot())
    }

    /** `db.create_all()`: every table empty. */
    constructor ()
      ensures Valid()
      ensures Snapshot() == Tables(map[], [], [], map[], map[], map[], {}, {}, map[])
    {
      users, roles, permissions := map[], [], [];
      photos, tags, comments := map[], map[], map[];
      follows, collects, notifications := {}, {}, map[];
    }

    /** The body of the outer loop of `Role.init_role` for one role name. */
    method SeedRoleStep(name: string)
      requires name in RolesPermissions
      modifies this
      ensures Snapshot() == SeedRole(old(Snapshot()), name)
    {
      var found := FindRole(roles, name);
      var i: nat;
      if found.None? {
        roles := roles + [Role(name, [])];
        i := |roles| - 1;
      } else {
        i := found.value;
      }
      Refill(i, RolesPermissions[name]);
    }

    /** The inner loop of `Role.init_role`: empty the role's permission list,
        then for each name look the permission up, create it if missing, and
        attach it. */
    method Refill(i: nat, names: seq<string>)
      requires i < |roles|
      modifies this
      ensures Snapshot() == old(Snapshot()).(
        roles := old(roles)[i := old(roles)[i].(permissions := names)],
        permissions := AddMissing(old(permissions), names))
    {
      var attached, perms := FillPermissions(permissions, names);
      roles := roles[i := roles[i].(permissions := attached)];
      permissions := perms;
    }

    /** `Role.init_role`. */
    method InitRole()
      requires Valid()
      modifies this
      ensures Valid()
      ensures Snapshot() == InitRoleSpec(old(Snapshot()))
    {
      ghost var start := Snapshot();
      RoleOrderDistinct();
      var rest := RoleOrder;
      while rest != []
        invariant forall n :: n in rest ==> n in RolesPermissions
        invariant SeedNames(Snapshot(), rest) == InitRoleSpec(start)
        decreases |rest|
      {
        SeedRoleStep(rest[0]);
        assert forall n :: n in rest[1..] ==> n in rest;
        rest := rest[1..];
      }
      InitRoleKeeps(start);
    }

    /** `User.init_role_permission`. */
    method InitRolePermission(adminEmail: string)
      requires Valid()
      modifies this
      ensures Valid()
      ensures Snapshot() == AssignRoles(old(Snapshot()), adminEmail)
    {
      ghost var start := Snapshot();
      var updated := AssignUsers(users, roles, adminEmail);
      AssignRolesValid(start, adminEmail);
      users := updated;
      assert Snapshot() == AssignRoles(start, adminEmail);
    }
  }
}
