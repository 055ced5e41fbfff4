/** Who is asking (`current_user`) and the view decorators that stand in
    front of the handlers: `login_required`, `confirm_required`,
    `permission_required` and `admin_required`. */
module Decorators {
  import opened Base
  import opened Http
  import opened Models

  /** Flask-Login hands a view either the anonymous `Guest` or a user loaded
      from the session, so a member is always a row of the user table. */
  predicate InSession(t: Tables, cu: Principal)
  {
    cu.Member? ==> cu.id in t.users
  }

  /** `current_user.can(p)`: always False for the Guest, `User.can` otherwise. */
  predicate CurrentCan(t: Tables, cu: Principal, permission: string)
    requires InSession(t, cu)
  {
    match cu
    case Guest => false
    case Member(id) => Can(t, t.users[id], permission)
  }

  /** `current_user.is_admin`: always False for the Guest. */
  function CurrentIsAdmin(t: Tables, cu: Principal): (r: Result<bool>)
    requires InSession(t, cu)
    requires cu.Member? && t.users[cu.id].role.Some? ==> t.users[cu.id].role.value < |t.roles|
    ensures cu.Guest? ==> r == Ok(false)
    ensures cu.Member? ==> r == IsAdmin(t, t.users[cu.id])
  {
    match cu
    case Guest => Ok(false)
    case Member(id) => IsAdmin(t, t.users[id])
  }

  /** The Guest fails every permission check. */
  lemma GuestCannot(t: Tables, permission: string)
    ensures !CurrentCan(t, Guest, permission)
    ensures CurrentIsAdmin(t, Guest) == Ok(false)
  {
  }

  /** What a decorator decides: run the view, or answer in its place. */
  datatype Gate = Proceed | Halt(response: Response)

  /** A decorated view: the decorator's answer if it halts, the view's own
      result otherwise. */
  function Guarded(g: Gate, body: Response): (r: Response)
    ensures g.Halt? ==> r == g.response
    ensures g.Proceed? ==> r == body
  {
    match g
    case Proceed => body
    case Halt(response) => response
  }

  /** Two decorators stacked: the outer one decides first. */
  function Then(outer: Gate, inner: Gate): (g: Gate)
    ensures g.Proceed? <==> outer.Proceed? && inner.Proceed?
    ensures outer.Halt? ==> g == outer
  {
    if outer.Halt? then outer else inner
  }

  /** `login_required`: the Guest is redirected to the login view. */
  function LoginRequired(cu: Principal): (g: Gate)
    ensures g.Halt? <==> cu.Guest?
    ensures g.Halt? ==> g.response == Redirect(Login)
  {
    if cu.Guest? then Halt(Redirect(Login)) else Proceed
  }

  /** `confirm_required`: an unconfirmed user is redirected to the index.  The
      Guest has no `confirmed` attribute. */
  function ConfirmRequired(t: Tables, cu: Principal): (g: Gate)
    requires InSession(t, cu)
  {
    match cu
    case Guest => Halt(ServerError(AttributeError("confirmed")))
    case Member(id) => if !t.users[id].confirmed then Halt(Redirect(MainIndex)) else Proceed
  }

  /** `permission_required(p)`: 403 unless the current user can p. */
  function PermissionRequired(t: Tables, cu: Principal, permission: string): (g: Gate)
    requires InSession(t, cu)
  {
    if !CurrentCan(t, cu, permission) then Halt(Abort(403)) else Proceed
  }

  /** `admin_required` is `permission_required('ADMINISTER')`. */
  function AdminRequired(t: Tables, cu: Principal): (g: Gate)
    requires InSession(t, cu)
    ensures g.Halt? <==> !CurrentCan(t, cu, "ADMINISTER")
    ensures g.Halt? ==> g.response == Abort(403)
  {
    PermissionRequired(t, cu, "ADMINISTER")
  }

  /** An unconfirmed member never reaches the view: whatever it would have
      answered, the answer is the redirect to the index. */
  lemma ConfirmBlocks(t: Tables, id: UserId, body: Response)
    requires id in t.users && !t.users[id].confirmed
    ensures Guarded(ConfirmRequired(t, Member(id)), body) == Redirect(MainIndex)
  {
  }

  /** A confirmed member gets the view's own answer unchanged. */
  lemma ConfirmTransparent(t: Tables, id: UserId, body: Response)
    requires id in t.users && t.users[id].confirmed
    ensures Guarded(ConfirmRequired(t, Member(id)), body) == body
  {
  }

  /** `permission_required(p)` aborts with 403 exactly when the user cannot
      p, and otherwise hands back the view's answer. */
  lemma PermissionRule(t: Tables, cu: Principal, permission: string, body: Response)
    requires InSession(t, cu)
    ensures Guarded(PermissionRequired(t, cu, permission), body) ==
      if CurrentCan(t, cu, permission) then body else Abort(403)
    ensures cu.Guest? ==> Guarded(PermissionRequired(t, cu, permission), body) == Abort(403)
  {
  }

  /** `admin_required` accepts exactly the users holding ADMINISTER. */
  lemma AdminRule(t: Tables, cu: Principal, body: Response)
    requires InSession(t, cu)
    ensures Guarded(AdminRequired(t, cu), body) == Guarded(PermissionRequired(t, cu, "ADMINISTER"), body)
    ensures Guarded(AdminRequired(t, cu), body) == body <==> (CurrentCan(t, cu, "ADMINISTER") || body == Abort(403))
  {
  }

  /** Once the roles are seeded, only an Administrator passes `admin_required`. */
  lemma AdminRequiredSeeded(t: Tables, id: UserId)
    requires RolesValid(t.roles, t.permissions)
    requires id in t.users
    requires var u := t.users[id];
      u.role.Some? && u.role.value < |InitRoleSpec(t).roles| && InitRoleSpec(t).roles[u.role.value].name in RoleOrder
    ensures var s := InitRoleSpec(t);
      id in s.users &&
      (AdminRequired(s, Member(id)).Proceed? <==> s.roles[s.users[id].role.value].name == "Administrator")
  {
    var s := InitRoleSpec(t);
    InitRoleSeedsMap(t);
    RoleOrderDistinct();
    SeedNamesEffect(t, RoleOrder, {});
    CanAfterSeeding(t, t.users[id], "ADMINISTER");
    SeededRolesNested();
  }
}
