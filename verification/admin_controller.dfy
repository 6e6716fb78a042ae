/**
 * The administration controller: every action requires the "Admin" role.
 * POST `ManageUser` dispatches an action name to the administration
 * service; POST `ToggleAdminRole` flips a user's role membership directly
 * through the user manager, refusing only the caller's own account.
 *
 * The signed-in user, the clock (`DateTime.Now`, for blocking) and whether
 * Identity manages to delete a user are parameters.
 */
module AdminController {
  import opened Entities
  import opened Data
  import AdminService

  const ToggleAdminAction := "toggle-admin"
  const ToggleBlockAction := "toggle-block"
  const DeleteAction := "delete"
  const SelfRoleError := "You cannot remove admin role from yourself."

  /** What an action answers with; a redirect to `Index` may carry an error message for the next page. */
  datatype AdminResult =
    | Forbidden                               // the caller is not in the "Admin" role
    | NotFound
    | RedirectToIndex(error: Option<string>)
    | ServerError                             // an exception escaped the action

  /** The action names `ManageUser` knows. */
  predicate KnownAction(action: string) {
    action == ToggleAdminAction || action == ToggleBlockAction || action == DeleteAction
  }

  // ---------------------------------------------------------------------
  // ManageUser
  // ---------------------------------------------------------------------

  /** A service result: `true` redirects to `Index`, `false` is answered with NotFound. */
  function Answer(success: bool): AdminResult {
    if success then RedirectToIndex(None) else NotFound
  }

  /**
   * POST `ManageUser(userId, action)`: the three known actions go to the
   * service and any other name is answered with NotFound. A deletion that
   * Identity refuses throws after the rollback.
   */
  function ManageUserEffect(db: Db, c: Caller, userId: UserId, action: string, now: DateTime, identityDeleted: bool): (Db, AdminResult) {
    if !c.isAdmin then (db, Forbidden)
    else if action == ToggleAdminAction then
      var (db', ok) := AdminService.ToggleAdminEffect(db, userId);
      (db', Answer(ok))
    else if action == ToggleBlockAction then
      var (db', ok) := AdminService.ToggleBlockEffect(db, userId, now);
      (db', Answer(ok))
    else if action == DeleteAction then
      var (db', r) := AdminService.DeleteUserEffect(db, userId, identityDeleted);
      (db', match r
            case UserNotFound => NotFound
            case Deleted => RedirectToIndex(None)
            case DeletionFailed => ServerError)
    else (db, NotFound)
  }

  /**
   * `ManageUser` changes the store only when it redirects. It redirects
   * exactly when an administrator names a known action for a stored user
   * (and, for a deletion, Identity deletes the user). It answers NotFound
   * for an unknown action or user, and fails with an exception when
   * Identity refuses a deletion.
   */
  lemma ManageUserOutcomes(db: Db, c: Caller, userId: UserId, action: string, now: DateTime, identityDeleted: bool)
    ensures var (db', r) := ManageUserEffect(db, c, userId, action, now, identityDeleted);
      && (r == Forbidden <==> !c.isAdmin)
      && (r == RedirectToIndex(None) <==>
            c.isAdmin && KnownAction(action) && UserExists(db.users, userId) && (action == DeleteAction ==> identityDeleted))
      && (r == NotFound <==> c.isAdmin && (!KnownAction(action) || !UserExists(db.users, userId)))
      && (r == ServerError <==> c.isAdmin && action == DeleteAction && UserExists(db.users, userId) && !identityDeleted)
      && (r != RedirectToIndex(None) ==> db' == db)
  {
    if c.isAdmin {
      if action == ToggleAdminAction {
        AdminService.ToggleAdminExact(db, userId);
      } else if action == ToggleBlockAction {
        AdminService.ToggleBlockFlips(db, userId, now);
      } else if action == DeleteAction {
        AdminService.DeleteUserAllOrNothing(db, userId, identityDeleted);
      }
    }
  }

  method ManageUser(ctx: AppDbContext, c: Caller, userId: UserId, action: string, now: DateTime, identityDeleted: bool)
    returns (r: AdminResult)
    modifies ctx
    ensures (ctx.Tables(), r) == ManageUserEffect(old(ctx.Tables()), c, userId, action, now, identityDeleted)
  {
    if !c.isAdmin {
      return Forbidden;
    }
    if action == ToggleAdminAction {
      var ok := AdminService.ToggleAdminAsync(ctx, userId);
      r := Answer(ok);
    } else if action == ToggleBlockAction {
      var ok := AdminService.ToggleBlockAsync(ctx, userId, now);
      r := Answer(ok);
    } else if action == DeleteAction {
      var outcome := AdminService.DeleteUserAsync(ctx, userId, identityDeleted);
      match outcome
      case UserNotFound => r := NotFound;
      case Deleted => r := RedirectToIndex(None);
      case DeletionFailed => r := ServerError;
    } else {
      r := NotFound;
    }
  }

  // ---------------------------------------------------------------------
  // ToggleAdminRole
  // ---------------------------------------------------------------------

  /**
   * POST `ToggleAdminRole(userId)`: the caller's own account is refused
   * with an error message; an unknown user is answered with NotFound;
   * otherwise the user leaves the role when in it and joins it when not.
   * Unlike the service's toggle, nothing keeps the last administrator.
   */
  function ToggleAdminRoleEffect(db: Db, c: Caller, userId: UserId): (Db, AdminResult) {
    if !c.isAdmin then (db, Forbidden)
    else if userId == c.userId then (db, RedirectToIndex(Some(SelfRoleError)))
    else if FindUser(db.users, userId).None? then (db, NotFound)
    else if userId in db.admins then (db.(admins := db.admins - {userId}), RedirectToIndex(None))
    else (db.(admins := db.admins + {userId}), RedirectToIndex(None))
  }

  /**
   * An administrator toggling another stored user flips exactly that
   * user's membership of the role; every other call changes nothing, and
   * a call on oneself carries the error message.
   */
  lemma ToggleAdminRoleFlips(db: Db, c: Caller, userId: UserId)
    ensures var (db', r) := ToggleAdminRoleEffect(db, c, userId);
      && (r == Forbidden <==> !c.isAdmin)
      && (r == RedirectToIndex(Some(SelfRoleError)) <==> c.isAdmin && userId == c.userId)
      && (r == NotFound <==> c.isAdmin && userId != c.userId && !UserExists(db.users, userId))
      && (r == RedirectToIndex(None) <==> c.isAdmin && userId != c.userId && UserExists(db.users, userId))
      && (r != RedirectToIndex(None) ==> db' == db)
      && (r == RedirectToIndex(None) ==>
            && db' == db.(admins := db'.admins)
            && (userId in db'.admins <==> userId !in db.admins)
            && forall v :: v != userId ==> (v in db'.admins <==> v in db.admins))
  {
  }

  /**
   * The caller never changes their own membership, so an administrator
   * whose role is stored keeps it and the role is never left empty by
   * their call.
   */
  lemma ToggleAdminRoleKeepsCaller(db: Db, c: Caller, userId: UserId)
    requires IsAdmin(db, c.userId)
    ensures var (db', _) := ToggleAdminRoleEffect(db, c, userId);
      IsAdmin(db', c.userId) && exists u :: u in db'.users && u.id in db'.admins
  {
    var (db', _) := ToggleAdminRoleEffect(db, c, userId);
    var u :| u in db.users && u.id == c.userId;
    assert u in db'.users && u.id in db'.admins;
  }

  /**
   * Without the last-admin guard, a caller whose cookie still carries the
   * role after it was taken from them removes the only stored
   * administrator, and no user is left in the role.
   */
  lemma ToggleAdminRoleCanEmptyRole(db: Db, c: Caller, u: User)
    requires c.isAdmin && u in db.users && u.id != c.userId
    requires db.admins == {u.id}
    ensures var (db', r) := ToggleAdminRoleEffect(db, c, u.id);
      r == RedirectToIndex(None) && db'.admins == {} && db'.users == db.users
  {
  }

  method ToggleAdminRole(ctx: AppDbContext, c: Caller, userId: UserId) returns (r: AdminResult)
    modifies ctx
    ensures (ctx.Tables(), r) == ToggleAdminRoleEffect(old(ctx.Tables()), c, userId)
  {
    if !c.isAdmin {
      return Forbidden;
    }
    if userId == c.userId {
      return RedirectToIndex(Some(SelfRoleError));
    }
    var user := FindUser(ctx.users, userId);
    if user.None? {
      return NotFound;
    }
    if userId in ctx.admins {
      ctx.admins := ctx.admins - {userId};
    } else {
      ctx.admins := ctx.admins + {userId};
    }
    r := RedirectToIndex(None);
  }
}
