/**
 * The administration service: granting and revoking the "Admin" role (never
 * taking it from the last admin), blocking and unblocking a user through
 * the lockout end, and deleting a user with everything that belongs to
 * them, all or nothing.
 */
module AdminService {
  import opened Seqs
  import opened Entities
  import opened Data
  import FormService
  import TemplateRepository

  // ---------------------------------------------------------------------
  // ToggleAdminAsync
  // ---------------------------------------------------------------------

  /** Some user other than `userId` holds the role. */
  predicate OtherAdminExists(users: seq<User>, admins: set<UserId>, userId: UserId) {
    exists u :: u in users && u.id != userId && u.id in admins
  }

  /**
   * `ToggleAdminAsync(userId)`: an unknown user gives `false`. A user without
   * the role gets it. A user with the role loses it, and gets it back at once
   * when no other user holds it.
   */
  function ToggleAdminEffect(db: Db, userId: UserId): (Db, bool) {
    if FindUser(db.users, userId).None? then (db, false)
    else if userId in db.admins then
      var removed := db.admins - {userId};
      if OtherAdminExists(db.users, removed, userId) then (db.(admins := removed), true)
      else (db.(admins := removed + {userId}), true)
    else (db.(admins := db.admins + {userId}), true)
  }

  /**
   * Toggling the role succeeds exactly for a stored user and then changes
   * only that user's membership: a non-admin becomes admin, and an admin
   * loses the role exactly when another user holds it.
   */
  lemma ToggleAdminExact(db: Db, userId: UserId)
    ensures var (db', ok) := ToggleAdminEffect(db, userId);
      && (ok <==> UserExists(db.users, userId))
      && (!ok ==> db' == db)
      && db' == db.(admins := db'.admins)
      && (ok && userId !in db.admins ==> db'.admins == db.admins + {userId})
      && (ok && userId in db.admins ==>
            (userId !in db'.admins <==> OtherAdminExists(db.users, db.admins, userId)))
      && (forall v :: v != userId ==> (v in db'.admins <==> v in db.admins))
  {
    var removed := db.admins - {userId};
    if userId in db.admins {
      assert OtherAdminExists(db.users, removed, userId) <==> OtherAdminExists(db.users, db.admins, userId);
    }
  }

  /** Toggling the role never leaves the users without an admin when they had one. */
  lemma ToggleAdminKeepsAnAdmin(db: Db, userId: UserId)
    requires exists u :: u in db.users && u.id in db.admins
    ensures var (db', _) := ToggleAdminEffect(db, userId);
      exists u :: u in db'.users && u.id in db'.admins
  {
    var (db', ok) := ToggleAdminEffect(db, userId);
    var u :| u in db.users && u.id in db.admins;
    if u.id != userId || userId !in db'.admins {
      var removed := db.admins - {userId};
      if u.id == userId {
        var v :| v in db.users && v.id != userId && v.id in removed;
        assert v in db'.users && v.id in db'.admins;
      } else {
        assert u in db'.users && u.id in db'.admins;
      }
    } else {
      assert u in db'.users && u.id in db'.admins;
    }
  }

  method ToggleAdminAsync(ctx: AppDbContext, userId: UserId) returns (ok: bool)
    modifies ctx
    ensures (ctx.Tables(), ok) == ToggleAdminEffect(old(ctx.Tables()), userId)
  {
    var user := FindUser(ctx.users, userId);
    if user.None? {
      return false;
    }
    if userId in ctx.admins {
      ctx.admins := ctx.admins - {userId};
      if !OtherAdminExists(ctx.users, ctx.admins, userId) {
        ctx.admins := ctx.admins + {userId};
      }
    } else {
      ctx.admins := ctx.admins + {userId};
    }
    ok := true;
  }

  // ---------------------------------------------------------------------
  // ToggleBlockAsync
  // ---------------------------------------------------------------------

  /** A user is blocked while their lockout end lies after `now`. */
  predicate IsBlocked(u: User, now: DateTime) {
    u.lockoutEnd.Some? && u.lockoutEnd.value > now
  }

  /**
   * `ToggleBlockAsync(userId)`: an unknown user gives `false`; a blocked user
   * has the lockout end cleared, any other user has it set to the largest
   * date.
   */
  function ToggleBlockEffect(db: Db, userId: UserId, now: DateTime): (Db, bool) {
    var i := FindIndex(db.users, HasUserId(userId));
    if i < 0 then (db, false)
    else
      var u := db.users[i];
      var lockoutEnd := if IsBlocked(u, now) then None else Some(MaxDateTime);
      (db.(users := db.users[i := u.(lockoutEnd := lockoutEnd)]), true)
  }

  /**
   * Toggling the block succeeds exactly for a stored user. It then clears
   * the lockout end of a blocked user and sets it to the largest date for
   * any other, so (at any time before that date) it flips whether the user
   * is blocked; only that user's lockout end changes.
   */
  lemma ToggleBlockFlips(db: Db, userId: UserId, now: DateTime)
    ensures var (db', ok) := ToggleBlockEffect(db, userId, now);
      && (ok <==> UserExists(db.users, userId))
      && (!ok ==> db' == db)
      && db' == db.(users := db'.users)
      && |db'.users| == |db.users|
      && (forall v :: v in db.users && v.id != userId ==> v in db'.users)
      && (ok ==>
            var i := FindIndex(db.users, HasUserId(userId));
            && 0 <= i < |db.users|
            && FindUser(db.users, userId) == Some(db.users[i])
            && FindUser(db'.users, userId) == Some(db'.users[i])
            && var u := db.users[i];
               var u' := db'.users[i];
               && u' == u.(lockoutEnd := u'.lockoutEnd)
               && (IsBlocked(u, now) ==> u'.lockoutEnd.None?)
               && (!IsBlocked(u, now) ==> u'.lockoutEnd == Some(MaxDateTime))
               && (now < MaxDateTime ==> (IsBlocked(u', now) <==> !IsBlocked(u, now))))
  {
    var i := FindIndex(db.users, HasUserId(userId));
    var (db', ok) := ToggleBlockEffect(db, userId, now);
    if ok {
      var u := db.users[i];
      FindIndexAfterUpdate(db.users, i, db'.users[i], HasUserId(userId));
      forall v | v in db.users && v.id != userId ensures v in db'.users {
        var k :| 0 <= k < |db.users| && db.users[k] == v;
        assert db'.users[k] == v;
      }
    }
  }

  method ToggleBlockAsync(ctx: AppDbContext, userId: UserId, now: DateTime) returns (ok: bool)
    modifies ctx
    ensures (ctx.Tables(), ok) == ToggleBlockEffect(old(ctx.Tables()), userId, now)
  {
    var i := FindIndex(ctx.users, HasUserId(userId));
    if i < 0 {
      return false;
    }
    var u := ctx.users[i];
    if u.lockoutEnd.Some? && u.lockoutEnd.value > now {
      ctx.users := ctx.users[i := u.(lockoutEnd := None)];
    } else {
      ctx.users := ctx.users[i := u.(lockoutEnd := Some(MaxDateTime))];
    }
    ok := true;
  }

  // ---------------------------------------------------------------------
  // DeleteUserAsync
  // ---------------------------------------------------------------------

  datatype DeleteOutcome =
    | UserNotFound     // `false` is returned
    | Deleted          // the transaction is committed and `true` is returned
    | DeletionFailed   // the Identity delete failed: rolled back, and the exception propagates

  function TemplateOwnedBy(userId: UserId): Template -> bool {
    (t: Template) => t.userId == userId
  }

  function NotGrantedTo(userId: UserId): TemplateAccess -> bool {
    (a: TemplateAccess) => a.userId != userId
  }

  /** The user owns a stored template with id `id`. */
  predicate OwnsTemplate(db: Db, userId: UserId, id: Guid) {
    exists t :: t in db.templates && t.userId == userId && t.id == id
  }

  function TemplateIds(ts: seq<Template>): set<Guid> {
    set t | t in ts :: t.id
  }

  function TemplateKeys(ts: seq<Template>): set<Option<Guid>> {
    set t | t in ts :: Some(t.id)
  }

  function FormIds(fs: seq<Form>): set<Guid> {
    set f | f in fs :: f.id
  }

  /** The template without the user's access row. */
  function Revoked(t: Template, userId: UserId): Template {
    t.(allowedUsers := Filter(t.allowedUsers, NotGrantedTo(userId)))
  }

  function RevokeAccess(ts: seq<Template>, userId: UserId): (r: seq<Template>)
    ensures |r| == |ts|
    ensures forall i :: 0 <= i < |ts| ==> r[i] == Revoked(ts[i], userId)
  {
    seq(|ts|, i requires 0 <= i < |ts| => Revoked(ts[i], userId))
  }

  /** The ids of `ts` in order as the optional keys comments and likes carry. */
  function KeysOf(ts: seq<Template>): (r: seq<Option<Guid>>)
    ensures |r| == |ts| && forall i :: 0 <= i < |ts| ==> r[i] == Some(ts[i].id)
  {
    seq(|ts|, i requires 0 <= i < |ts| => Some(ts[i].id))
  }

  lemma IdsOfSets(ts: seq<Template>, fs: seq<Form>)
    ensures forall k :: k in TemplateIds(ts) <==> k in Keys(ts, TemplateId)
    ensures forall k :: k in TemplateKeys(ts) <==> k in KeysOf(ts)
    ensures forall k :: k in FormIds(fs) <==> k in Keys(fs, FormId)
  {
    forall t | t in ts ensures t.id in Keys(ts, TemplateId) && Some(t.id) in KeysOf(ts) {
      var i :| 0 <= i < |ts| && ts[i] == t;
      assert Keys(ts, TemplateId)[i] == t.id && KeysOf(ts)[i] == Some(t.id);
    }
    forall f | f in fs ensures f.id in Keys(fs, FormId) {
      var i :| 0 <= i < |fs| && fs[i] == f;
      assert Keys(fs, FormId)[i] == f.id;
    }
  }

  /** The user's templates, and the user's own forms. */
  function OwnedTemplates(db: Db, userId: UserId): seq<Template> {
    Filter(db.templates, TemplateOwnedBy(userId))
  }

  function OwnedForms(db: Db, userId: UserId): seq<Form> {
    Filter(db.forms, FormService.OwnedBy(userId))
  }

  /** What a deletion keeps of each table. */
  function KeptTemplates(db: Db, userId: UserId): seq<Template> {
    RevokeAccess(Without(db.templates, TemplateId, TemplateIds(OwnedTemplates(db, userId))), userId)
  }

  function KeptForms(db: Db, userId: UserId): seq<Form> {
    Without(Without(db.forms, FormTemplate, TemplateIds(OwnedTemplates(db, userId))), FormId, FormIds(OwnedForms(db, userId)))
  }

  function KeptComments(db: Db, userId: UserId): seq<Comment> {
    Without(Without(db.comments, CommentTemplate, TemplateKeys(OwnedTemplates(db, userId))), CommentOwner, {userId})
  }

  function KeptLikes(db: Db, userId: UserId): seq<Like> {
    Without(Without(db.likes, LikeTemplate, TemplateKeys(OwnedTemplates(db, userId))), LikeOwner, {userId})
  }

  /** The forms a deletion removes: the user's own, and those on a template with an id in `owned`. */
  function RemovedWithUser(userId: UserId, owned: set<Guid>): Form -> bool {
    (f: Form) => f.userId == userId || f.templateId in owned
  }

  /** The store as the body of the transaction leaves it, before Identity deletes the user. */
  function Transacted(db: Db, userId: UserId): Db {
    db.(templates := KeptTemplates(db, userId), forms := KeptForms(db, userId),
        comments := KeptComments(db, userId), likes := KeptLikes(db, userId))
  }

  /** The keys of the answers of the forms a deletion removes. */
  function RemovedAnswerIds(db: Db, userId: UserId): set<Option<Guid>> {
    AnswerIdsWhere(db.forms, RemovedWithUser(userId, TemplateIds(OwnedTemplates(db, userId))))
  }

  /**
   * `DeleteUserAsync(userId, identityDeleted)`: an unknown user gives
   * `false`. Otherwise, in one transaction, every template of the user goes
   * with its comments, likes and forms (and so their answers and
   * snapshots); then the user's comments, likes, access rows and forms go;
   * then Identity deletes the user (and so their role membership) and saves,
   * and the store deletes the comments and likes on the removed answers.
   * `identityDeleted` is whether that last step succeeds; when it does not,
   * everything is rolled back.
   */
  function DeleteUserEffect(db: Db, userId: UserId, identityDeleted: bool): (Db, DeleteOutcome) {
    if FindUser(db.users, userId).None? then (db, UserNotFound)
    else if !identityDeleted then (db, DeletionFailed)
    else
      var removed := Transacted(db, userId).(users := Without(db.users, UserKey, {userId}), admins := db.admins - {userId});
      (CascadeAnswers(removed, RemovedAnswerIds(db, userId)), Deleted)
  }

  /** Deleting an unknown user, or a deletion Identity refuses, changes nothing. */
  lemma DeleteUserAllOrNothing(db: Db, userId: UserId, identityDeleted: bool)
    ensures var (db', r) := DeleteUserEffect(db, userId, identityDeleted);
      && (r == UserNotFound <==> !UserExists(db.users, userId))
      && (r == DeletionFailed <==> UserExists(db.users, userId) && !identityDeleted)
      && (r == Deleted <==> UserExists(db.users, userId) && identityDeleted)
      && (r != Deleted ==> db' == db)
  {
  }

  /** The ids of the user's templates are exactly the ids `OwnsTemplate` names. */
  lemma OwnedTemplateIds(db: Db, userId: UserId)
    ensures forall k :: k in TemplateIds(OwnedTemplates(db, userId)) <==> OwnsTemplate(db, userId, k)
  {
    forall k | OwnsTemplate(db, userId, k) ensures k in TemplateIds(OwnedTemplates(db, userId)) {
      var t :| t in db.templates && t.userId == userId && t.id == k;
      assert t in OwnedTemplates(db, userId);
    }
  }

  /**
   * A successful deletion keeps exactly the comments and likes the
   * transaction leaves that are on no answer of a removed form.
   */
  lemma DeleteUserCascades(db: Db, userId: UserId)
    requires UserExists(db.users, userId)
    ensures var (db', _) := DeleteUserEffect(db, userId, true);
      && (forall c :: c in db'.comments <==>
            && c in KeptComments(db, userId)
            && forall f, a :: f in db.forms && (f.userId == userId || OwnsTemplate(db, userId, f.templateId)) && a in f.answers
                 ==> c.answerId != Some(a.id))
      && (forall l :: l in db'.likes <==>
            && l in KeptLikes(db, userId)
            && forall f, a :: f in db.forms && (f.userId == userId || OwnsTemplate(db, userId, f.templateId)) && a in f.answers
                 ==> l.answerId != Some(a.id))
  {
    var removed := Transacted(db, userId).(users := Without(db.users, UserKey, {userId}), admins := db.admins - {userId});
    var ids := TemplateIds(OwnedTemplates(db, userId));
    OwnedTemplateIds(db, userId);
    CascadeFormAnswersExact(removed, db.forms, RemovedWithUser(userId, ids));
  }

  /**
   * After a successful deletion nothing of the user remains: not the user
   * or their role, no template they owned, no form, comment or like on such
   * a template, no form, comment, like or access row of their own, and no
   * comment or like on an answer of a removed form. Tags stay.
   */
  lemma DeleteUserRemovesEverything(db: Db, userId: UserId)
    requires UserExists(db.users, userId)
    ensures var (db', r) := DeleteUserEffect(db, userId, true);
      && r == Deleted
      && (forall u :: u in db'.users ==> u.id != userId)
      && userId !in db'.admins
      && (forall t :: t in db'.templates ==> t.userId != userId && forall a :: a in t.allowedUsers ==> a.userId != userId)
      && (forall f :: f in db'.forms ==> f.userId != userId && !OwnsTemplate(db, userId, f.templateId))
      && (forall c :: c in db'.comments ==>
            && c.userId != userId && !(c.templateId.Some? && OwnsTemplate(db, userId, c.templateId.value))
            && forall f, a :: f in db.forms && (f.userId == userId || OwnsTemplate(db, userId, f.templateId)) && a in f.answers
                 ==> c.answerId != Some(a.id))
      && (forall l :: l in db'.likes ==>
            && l.userId != userId && !(l.templateId.Some? && OwnsTemplate(db, userId, l.templateId.value))
            && forall f, a :: f in db.forms && (f.userId == userId || OwnsTemplate(db, userId, f.templateId)) && a in f.answers
                 ==> l.answerId != Some(a.id))
      && db'.tags == db.tags
  {
    DeleteUserCascades(db, userId);
    var owned := Filter(db.templates, TemplateOwnedBy(userId));
    var forms := Filter(db.forms, FormService.OwnedBy(userId));
    var (db', _) := DeleteUserEffect(db, userId, true);
    var kept := Without(db.templates, TemplateId, TemplateIds(owned));
    forall t | t in db'.templates
      ensures t.userId != userId && forall a :: a in t.allowedUsers ==> a.userId != userId
    {
      var i :| 0 <= i < |db'.templates| && db'.templates[i] == t;
      assert kept[i] in kept;
      assert t == Revoked(kept[i], userId);
      assert kept[i] !in owned;
    }
    forall t | t in db.templates && t.userId == userId ensures t.id in TemplateIds(owned) && Some(t.id) in TemplateKeys(owned) {
      assert t in owned;
    }
    forall f | f in db'.forms ensures f.userId != userId {
      assert f.id !in FormIds(forms);
    }
  }

  /** With unique form ids, a deletion keeps every form that is neither the user's nor on one of the user's templates. */
  lemma KeptFormsKeepOthers(db: Db, userId: UserId)
    requires FormService.FormIdsUnique(db.forms)
    ensures forall f :: f in db.forms && f.userId != userId && !OwnsTemplate(db, userId, f.templateId) ==> f in KeptForms(db, userId)
  {
    var owned := OwnedTemplates(db, userId);
    var forms := OwnedForms(db, userId);
    forall f | f in db.forms && f.userId != userId && !OwnsTemplate(db, userId, f.templateId)
      ensures f in KeptForms(db, userId)
    {
      forall g | g in forms ensures g.id != f.id {
        var i :| 0 <= i < |db.forms| && db.forms[i] == f;
        var j :| 0 <= j < |db.forms| && db.forms[j] == g;
        assert i != j;
      }
      assert f.templateId !in TemplateIds(owned);
      assert f.id !in FormIds(forms);
    }
  }

  /** A deletion keeps every comment and like that is neither the user's nor on one of the user's templates. */
  lemma KeptCommentsAndLikesKeepOthers(db: Db, userId: UserId)
    ensures forall c :: c in db.comments && c.userId != userId && !(c.templateId.Some? && OwnsTemplate(db, userId, c.templateId.value))
              ==> c in KeptComments(db, userId)
    ensures forall l :: l in db.likes && l.userId != userId && !(l.templateId.Some? && OwnsTemplate(db, userId, l.templateId.value))
              ==> l in KeptLikes(db, userId)
  {
    var owned := OwnedTemplates(db, userId);
    forall k | k in TemplateKeys(owned) ensures k.Some? && OwnsTemplate(db, userId, k.value) {
      var t :| t in owned && k == Some(t.id);
    }
  }

  /**
   * A successful deletion keeps every other user, every form that is
   * neither the user's nor on one of the user's templates, and every comment
   * and like that is neither the user's, nor on one of the user's templates,
   * nor on an answer of a removed form; only the user leaves the role.
   */
  lemma DeleteUserKeepsOthers(db: Db, userId: UserId)
    requires UserExists(db.users, userId)
    requires FormService.FormIdsUnique(db.forms)
    ensures var (db', _) := DeleteUserEffect(db, userId, true);
      && (forall u :: u in db.users && u.id != userId ==> u in db'.users)
      && db'.admins == db.admins - {userId}
      && (forall f :: f in db.forms && f.userId != userId && !OwnsTemplate(db, userId, f.templateId) ==> f in db'.forms)
      && (forall c ::
            && c in db.comments && c.userId != userId && !(c.templateId.Some? && OwnsTemplate(db, userId, c.templateId.value))
            && (forall f, a :: f in db.forms && (f.userId == userId || OwnsTemplate(db, userId, f.templateId)) && a in f.answers
                  ==> c.answerId != Some(a.id))
            ==> c in db'.comments)
      && (forall l ::
            && l in db.likes && l.userId != userId && !(l.templateId.Some? && OwnsTemplate(db, userId, l.templateId.value))
            && (forall f, a :: f in db.forms && (f.userId == userId || OwnsTemplate(db, userId, f.templateId)) && a in f.answers
                  ==> l.answerId != Some(a.id))
            ==> l in db'.likes)
  {
    KeptFormsKeepOthers(db, userId);
    KeptCommentsAndLikesKeepOthers(db, userId);
    DeleteUserCascades(db, userId);
  }

  /** With unique template ids, a template the user does not own survives the removal of the user's templates. */
  lemma NotOwnedSurvives(db: Db, userId: UserId, t: Template)
    requires TemplateRepository.TemplateIdsUnique(db.templates)
    requires t in db.templates && t.userId != userId
    ensures t in Without(db.templates, TemplateId, TemplateIds(OwnedTemplates(db, userId)))
  {
    var owned := OwnedTemplates(db, userId);
    forall o | o in owned ensures o.id != t.id {
      var i :| 0 <= i < |db.templates| && db.templates[i] == t;
      var j :| 0 <= j < |db.templates| && db.templates[j] == o;
      assert i != j;
    }
  }

  /** Every template in the table is kept, without the user's access rows. */
  lemma RevokeAccessKeeps(ts: seq<Template>, userId: UserId, t: Template)
    requires t in ts
    ensures Revoked(t, userId) in RevokeAccess(ts, userId)
  {
    var k :| 0 <= k < |ts| && ts[k] == t;
    assert RevokeAccess(ts, userId)[k] == Revoked(t, userId);
  }

  /** Every template the user does not own is kept, without the user's access rows. */
  lemma DeleteUserKeepsTemplates(db: Db, userId: UserId)
    requires UserExists(db.users, userId)
    requires TemplateRepository.TemplateIdsUnique(db.templates)
    ensures var (db', _) := DeleteUserEffect(db, userId, true);
      forall t :: t in db.templates && t.userId != userId ==> Revoked(t, userId) in db'.templates
  {
    assert DeleteUserEffect(db, userId, true).0.templates == KeptTemplates(db, userId);
    forall t | t in db.templates && t.userId != userId ensures Revoked(t, userId) in KeptTemplates(db, userId) {
      NotOwnedSurvives(db, userId, t);
      RevokeAccessKeeps(Without(db.templates, TemplateId, TemplateIds(OwnedTemplates(db, userId))), userId, t);
    }
  }

  lemma KeysOfPrefix(ts: seq<Template>, k: nat)
    requires k < |ts|
    ensures KeysOf(ts[..k + 1]) == KeysOf(ts[..k]) + [Some(ts[k].id)]
  {
  }

  /** Removes one template with the comments, likes and forms on it, as one step of the loop in `DeleteUserAsync`. */
  method RemoveTemplateRows(ctx: AppDbContext, id: Guid)
    modifies ctx
    ensures ctx.templates == Without(old(ctx.templates), TemplateId, {id})
    ensures ctx.forms == Without(old(ctx.forms), FormTemplate, {id})
    ensures ctx.comments == Without(old(ctx.comments), CommentTemplate, {Some(id)})
    ensures ctx.likes == Without(old(ctx.likes), LikeTemplate, {Some(id)})
    ensures unchanged(ctx`tags, ctx`users, ctx`admins, ctx`nextGuid)
  {
    ctx.comments := Without(ctx.comments, CommentTemplate, {Some(id)});
    ctx.likes := Without(ctx.likes, LikeTemplate, {Some(id)});
    ctx.forms := Without(ctx.forms, FormTemplate, {id});
    ctx.templates := Without(ctx.templates, TemplateId, {id});
  }

  /** Removes the user's templates one by one, each with the comments, likes and forms on it. */
  method RemoveOwnTemplates(ctx: AppDbContext, owned: seq<Template>)
    modifies ctx
    ensures ctx.templates == WithoutEach(old(ctx.templates), TemplateId, Keys(owned, TemplateId))
    ensures ctx.forms == WithoutEach(old(ctx.forms), FormTemplate, Keys(owned, TemplateId))
    ensures ctx.comments == WithoutEach(old(ctx.comments), CommentTemplate, KeysOf(owned))
    ensures ctx.likes == WithoutEach(old(ctx.likes), LikeTemplate, KeysOf(owned))
    ensures unchanged(ctx`tags, ctx`users, ctx`admins, ctx`nextGuid)
  {
    var k := 0;
    while k < |owned|
      invariant 0 <= k <= |owned|
      invariant ctx.templates == WithoutEach(old(ctx.templates), TemplateId, Keys(owned[..k], TemplateId))
      invariant ctx.forms == WithoutEach(old(ctx.forms), FormTemplate, Keys(owned[..k], TemplateId))
      invariant ctx.comments == WithoutEach(old(ctx.comments), CommentTemplate, KeysOf(owned[..k]))
      invariant ctx.likes == WithoutEach(old(ctx.likes), LikeTemplate, KeysOf(owned[..k]))
      invariant unchanged(ctx`tags, ctx`users, ctx`admins, ctx`nextGuid)
    {
      var t := owned[k];
      KeysOfPrefix(owned, k);
      KeysPrefix(owned, TemplateId, k);
      WithoutEachStep(old(ctx.templates), TemplateId, Keys(owned[..k], TemplateId), t.id);
      WithoutEachStep(old(ctx.forms), FormTemplate, Keys(owned[..k], TemplateId), t.id);
      WithoutEachStep(old(ctx.comments), CommentTemplate, KeysOf(owned[..k]), Some(t.id));
      WithoutEachStep(old(ctx.likes), LikeTemplate, KeysOf(owned[..k]), Some(t.id));
      RemoveTemplateRows(ctx, t.id);
      k := k + 1;
    }
    assert owned[..|owned|] == owned;
  }

  /** Removes the user's forms one by one (with their answers and snapshots). */
  method RemoveOwnForms(ctx: AppDbContext, forms: seq<Form>)
    modifies ctx
    ensures ctx.forms == WithoutEach(old(ctx.forms), FormId, Keys(forms, FormId))
    ensures unchanged(ctx`templates, ctx`comments, ctx`likes, ctx`tags, ctx`users, ctx`admins, ctx`nextGuid)
  {
    var k := 0;
    while k < |forms|
      invariant 0 <= k <= |forms|
      invariant ctx.forms == WithoutEach(old(ctx.forms), FormId, Keys(forms[..k], FormId))
      invariant unchanged(ctx`templates, ctx`comments, ctx`likes, ctx`tags, ctx`users, ctx`admins, ctx`nextGuid)
    {
      KeysPrefix(forms, FormId, k);
      WithoutEachStep(old(ctx.forms), FormId, Keys(forms[..k], FormId), forms[k].id);
      ctx.forms := Without(ctx.forms, FormId, {forms[k].id});
      k := k + 1;
    }
    assert forms[..|forms|] == forms;
  }

  /** The first loop of the transaction: the user's templates go with everything on them. */
  method RemoveOwnedTemplates(ctx: AppDbContext, owned: seq<Template>)
    modifies ctx
    ensures ctx.templates == Without(old(ctx.templates), TemplateId, TemplateIds(owned))
    ensures ctx.forms == Without(old(ctx.forms), FormTemplate, TemplateIds(owned))
    ensures ctx.comments == Without(old(ctx.comments), CommentTemplate, TemplateKeys(owned))
    ensures ctx.likes == Without(old(ctx.likes), LikeTemplate, TemplateKeys(owned))
    ensures unchanged(ctx`tags, ctx`users, ctx`admins, ctx`nextGuid)
  {
    IdsOfSets(owned, []);
    ghost var saved := ctx.Tables();
    RemoveOwnTemplates(ctx, owned);
    WithoutEachAtOnce(saved.templates, TemplateId, Keys(owned, TemplateId), TemplateIds(owned));
    WithoutEachAtOnce(saved.forms, FormTemplate, Keys(owned, TemplateId), TemplateIds(owned));
    WithoutEachAtOnce(saved.comments, CommentTemplate, KeysOf(owned), TemplateKeys(owned));
    WithoutEachAtOnce(saved.likes, LikeTemplate, KeysOf(owned), TemplateKeys(owned));
  }

  /** The second loop of the transaction: the user's own forms go. */
  method RemoveOwnedForms(ctx: AppDbContext, forms: seq<Form>)
    modifies ctx
    ensures ctx.forms == Without(old(ctx.forms), FormId, FormIds(forms))
    ensures unchanged(ctx`templates, ctx`comments, ctx`likes, ctx`tags, ctx`users, ctx`admins, ctx`nextGuid)
  {
    IdsOfSets([], forms);
    ghost var before := ctx.forms;
    RemoveOwnForms(ctx, forms);
    WithoutEachAtOnce(before, FormId, Keys(forms, FormId), FormIds(forms));
  }

  /** The user's direct relationships go: their comments, likes and access rows. */
  method RemoveDirectRows(ctx: AppDbContext, userId: UserId)
    modifies ctx
    ensures ctx.comments == Without(old(ctx.comments), CommentOwner, {userId})
    ensures ctx.likes == Without(old(ctx.likes), LikeOwner, {userId})
    ensures ctx.templates == RevokeAccess(old(ctx.templates), userId)
    ensures unchanged(ctx`forms, ctx`tags, ctx`users, ctx`admins, ctx`nextGuid)
  {
    ctx.comments := Without(ctx.comments, CommentOwner, {userId});
    ctx.likes := Without(ctx.likes, LikeOwner, {userId});
    ctx.templates := RevokeAccess(ctx.templates, userId);
  }

  /** The transaction up to the loop over the user's own forms, from the store `db`. */
  method RemoveTemplatesAndOwnRows(ctx: AppDbContext, userId: UserId, ghost db: Db)
    modifies ctx
    requires ctx.Tables() == db
    ensures ctx.templates == KeptTemplates(db, userId)
    ensures ctx.forms == Without(db.forms, FormTemplate, TemplateIds(OwnedTemplates(db, userId)))
    ensures ctx.comments == KeptComments(db, userId)
    ensures ctx.likes == KeptLikes(db, userId)
    ensures unchanged(ctx`tags, ctx`users, ctx`admins, ctx`nextGuid)
  {
    var owned := OwnedTemplates(ctx.Tables(), userId);
    RemoveOwnedTemplates(ctx, owned);
    RemoveDirectRows(ctx, userId);
  }

  /** The body of the transaction in `DeleteUserAsync`, before Identity deletes the user. */
  method RemoveUserRows(ctx: AppDbContext, userId: UserId)
    modifies ctx
    ensures ctx.Tables() == Transacted(old(ctx.Tables()), userId)
  {
    var forms := OwnedForms(ctx.Tables(), userId);
    RemoveTemplatesAndOwnRows(ctx, userId, ctx.Tables());
    RemoveOwnedForms(ctx, forms);
  }

  /** Rolls the transaction back: the four tables it wrote get their saved contents again. */
  method Rollback(ctx: AppDbContext, saved: Db)
    modifies ctx
    requires ctx.tags == saved.tags && ctx.users == saved.users
    requires ctx.admins == saved.admins && ctx.nextGuid == saved.nextGuid
    ensures ctx.Tables() == saved
  {
    ctx.templates, ctx.forms, ctx.comments, ctx.likes := saved.templates, saved.forms, saved.comments, saved.likes;
  }

  /**
   * Identity deletes the user and saves: the user and their role membership
   * go, and the store deletes the comments and likes on the answers with
   * keys `gone`.
   */
  method CommitDeletion(ctx: AppDbContext, userId: UserId, gone: set<Option<Guid>>)
    modifies ctx
    ensures ctx.Tables() == CascadeAnswers(old(ctx.Tables()).(users := Without(old(ctx.users), UserKey, {userId}),
                                                              admins := old(ctx.admins) - {userId}), gone)
  {
    ctx.users := Without(ctx.users, UserKey, {userId});
    ctx.admins := ctx.admins - {userId};
    ctx.SaveAnswerDeletions(gone);
  }

  method DeleteUserAsync(ctx: AppDbContext, userId: UserId, identityDeleted: bool) returns (r: DeleteOutcome)
    modifies ctx
    ensures (ctx.Tables(), r) == DeleteUserEffect(old(ctx.Tables()), userId, identityDeleted)
  {
    var user := FindUser(ctx.users, userId);
    if user.None? {
      return UserNotFound;
    }
    var saved := ctx.Tables();
    var gone := RemovedAnswerIds(saved, userId);
    RemoveUserRows(ctx, userId);
    if !identityDeleted {
      Rollback(ctx, saved);
      return DeletionFailed;
    }
    CommitDeletion(ctx, userId, gone);
    r := Deleted;
  }
}
