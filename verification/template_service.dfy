/**
 * The template service: creating a template with full access for every
 * administrator, renumbering a template's questions from a list of ids,
 * and the access check.
 */
module TemplateService {
  import opened Seqs
  import opened Entities
  import opened Data
  import TemplateRepository

  const FullAccess := "Full"

  /** `GetUsersInRoleAsync("Admin")`: the users in the role, in table order. */
  function AdminUsers(db: Db): (r: seq<User>)
    ensures forall u :: u in r <==> u in db.users && u.id in db.admins
  {
    Filter(db.users, (u: User) => u.id in db.admins)
  }

  /** One "Full" grant on template `templateId` per user, in order. */
  function FullGrants(templateId: Guid, users: seq<User>): (r: seq<TemplateAccess>)
    ensures |r| == |users|
    decreases |users|
  {
    if users == [] then []
    else FullGrants(templateId, users[..|users| - 1]) + [TemplateAccess(templateId, users[|users| - 1].id, FullAccess)]
  }

  /** The grants name the users one for one, each with full access to the template. */
  lemma {:induction false} FullGrantsExact(templateId: Guid, users: seq<User>)
    ensures forall i :: 0 <= i < |users| ==>
      FullGrants(templateId, users)[i] == TemplateAccess(templateId, users[i].id, FullAccess)
    decreases |users|
  {
    if users != [] {
      var init := users[..|users| - 1];
      FullGrantsExact(templateId, init);
      forall i | 0 <= i < |users| ensures FullGrants(templateId, users)[i] == TemplateAccess(templateId, users[i].id, FullAccess) {
        if i < |init| { assert users[i] == init[i]; }
      }
    }
  }

  /**
   * The template `CreateTemplateAsync` stores, as written: the given one with
   * a full grant per administrator appended, whatever grants it already has.
   */
  function WithAdminGrants(db: Db, t: Template): Template {
    t.(allowedUsers := t.allowedUsers + FullGrants(t.id, AdminUsers(db)))
  }

  /**
   * As written, creating a template keeps the grants it came with and adds
   * one full grant per administrator, and nothing else of the template changes.
   */
  lemma AdminGrantsAdded(db: Db, t: Template)
    ensures var s := WithAdminGrants(db, t);
      && s == t.(allowedUsers := s.allowedUsers)
      && s.allowedUsers[..|t.allowedUsers|] == t.allowedUsers
      && |s.allowedUsers| == |t.allowedUsers| + |AdminUsers(db)|
      && (forall u :: u in db.users && u.id in db.admins ==> TemplateAccess(t.id, u.id, FullAccess) in s.allowedUsers)
      && (forall a :: a in s.allowedUsers && a !in t.allowedUsers ==>
            a.templateId == t.id && a.accessType == FullAccess && a.userId in db.admins)
  {
    var admins := AdminUsers(db);
    var grants := FullGrants(t.id, admins);
    FullGrantsExact(t.id, admins);
    var s := WithAdminGrants(db, t);
    forall u | u in db.users && u.id in db.admins ensures TemplateAccess(t.id, u.id, FullAccess) in s.allowedUsers {
      var k :| 0 <= k < |admins| && admins[k] == u;
      assert s.allowedUsers[|t.allowedUsers| + k] == grants[k];
    }
    forall a | a in s.allowedUsers && a !in t.allowedUsers
      ensures a.templateId == t.id && a.accessType == FullAccess && a.userId in db.admins
    {
      var k :| 0 <= k < |s.allowedUsers| && s.allowedUsers[k] == a;
      assert k >= |t.allowedUsers|;
      assert a == grants[k - |t.allowedUsers|];
      assert admins[k - |t.allowedUsers|] in admins;
    }
  }

  /**
   * As written, an administrator who already holds a grant on the new
   * template (one listed by e-mail on a private template) gets a second row
   * with the same key, and the store refuses the whole template.
   */
  lemma AdminAlreadyGrantedBreaksCreate(db: Db, t: Template, u: User)
    requires u in db.users && u.id in db.admins
    requires HasGrantFor(t.allowedUsers, t.id, u.id)
    ensures !AccessKeysUnique(WithAdminGrants(db, t).allowedUsers)
    ensures TemplateRepository.CreateEffect(db, WithAdminGrants(db, t)) == (db, false)
  {
    var s := WithAdminGrants(db, t).allowedUsers;
    var admins := AdminUsers(db);
    FullGrantsExact(t.id, admins);
    var a :| a in t.allowedUsers && a.templateId == t.id && a.userId == u.id;
    var i :| 0 <= i < |t.allowedUsers| && t.allowedUsers[i] == a;
    var k :| 0 <= k < |admins| && admins[k] == u;
    var j := |t.allowedUsers| + k;
    assert s[i] == a;
    assert s[j] == FullGrants(t.id, admins)[k];
    assert i < j && SameAccessKey(s[i], s[j]);
  }

  /** The full grants, skipping administrators that already hold a grant on the template. */
  function AdminGrantsOnce(grants: seq<TemplateAccess>, templateId: Guid, admins: seq<User>): seq<TemplateAccess>
    decreases |admins|
  {
    if admins == [] then grants
    else
      GrantOnce(AdminGrantsOnce(grants, templateId, admins[..|admins| - 1]),
                TemplateAccess(templateId, admins[|admins| - 1].id, FullAccess))
  }

  /**
   * Granting administrators once keeps the rows already there, leaves every
   * administrator with a row, gives a full grant to each one that had none,
   * adds only full grants for administrators, and keeps the keys unique.
   */
  lemma {:induction false} AdminGrantsOnceExact(grants: seq<TemplateAccess>, templateId: Guid, admins: seq<User>)
    ensures var r := AdminGrantsOnce(grants, templateId, admins);
      && |grants| <= |r| && r[..|grants|] == grants
      && (forall u :: u in admins ==> HasGrantFor(r, templateId, u.id))
      && (forall a :: a in r && a !in grants ==>
            a.templateId == templateId && a.accessType == FullAccess && exists u :: u in admins && u.id == a.userId)
      && (forall u :: u in admins && !HasGrantFor(grants, templateId, u.id) ==> TemplateAccess(templateId, u.id, FullAccess) in r)
      && (AccessKeysUnique(grants) ==> AccessKeysUnique(r))
    decreases |admins|
  {
    if admins != [] {
      var init := admins[..|admins| - 1];
      var last := admins[|admins| - 1];
      var g := TemplateAccess(templateId, last.id, FullAccess);
      var prev := AdminGrantsOnce(grants, templateId, init);
      var r := AdminGrantsOnce(grants, templateId, admins);
      AdminGrantsOnceExact(grants, templateId, init);
      GrantOnceKeepsKeysUnique(prev, g);
      assert r[..|prev|] == prev;
      assert r[..|grants|] == prev[..|grants|];
      forall u | u in admins ensures HasGrantFor(r, templateId, u.id) {
        if u != last {
          assert u in init;
          var a :| a in prev && a.templateId == templateId && a.userId == u.id;
          assert a in r;
        }
      }
      forall a | a in r && a !in grants
        ensures a.templateId == templateId && a.accessType == FullAccess && exists u :: u in admins && u.id == a.userId
      {
        if a != g {
          assert a in prev;
          var u :| u in init && u.id == a.userId;
          assert u in admins;
        }
      }
      forall u | u in admins && !HasGrantFor(grants, templateId, u.id)
        ensures TemplateAccess(templateId, u.id, FullAccess) in r
      {
        if u in init {
          assert TemplateAccess(templateId, u.id, FullAccess) in prev;
        } else {
          assert u == last;
          if HasGrantFor(prev, templateId, u.id) {
            var a :| a in prev && a.templateId == templateId && a.userId == u.id;
            assert a !in grants;
            assert a == g;
          }
        }
      }
    }
  }

  /** The template `CreateTemplateAsync` stores: one full grant for each administrator that has no grant yet. */
  function WithAdminGrantsOnce(db: Db, t: Template): Template {
    t.(allowedUsers := AdminGrantsOnce(t.allowedUsers, t.id, AdminUsers(db)))
  }

  /**
   * Creating a template changes only its grants: those it came with are
   * kept, every administrator ends up with a row, those without one get full
   * access, no other row is added, and a template whose keys were unique
   * stays insertable.
   */
  lemma AdminGrantsOnceAdded(db: Db, t: Template)
    ensures var s := WithAdminGrantsOnce(db, t);
      && s == t.(allowedUsers := s.allowedUsers)
      && |t.allowedUsers| <= |s.allowedUsers| && s.allowedUsers[..|t.allowedUsers|] == t.allowedUsers
      && (forall u :: u in db.users && u.id in db.admins ==> HasGrantFor(s.allowedUsers, t.id, u.id))
      && (forall u :: u in db.users && u.id in db.admins && !HasGrantFor(t.allowedUsers, t.id, u.id) ==>
            TemplateAccess(t.id, u.id, FullAccess) in s.allowedUsers)
      && (forall a :: a in s.allowedUsers && a !in t.allowedUsers ==>
            a.templateId == t.id && a.accessType == FullAccess && a.userId in db.admins)
      && (TemplateRepository.Insertable(t) ==> TemplateRepository.Insertable(s))
  {
    var admins := AdminUsers(db);
    AdminGrantsOnceExact(t.allowedUsers, t.id, admins);
    var s := WithAdminGrantsOnce(db, t);
    forall a | a in s.allowedUsers && a !in t.allowedUsers ensures a.userId in db.admins {
      var u :| u in admins && u.id == a.userId;
    }
  }

  /** With unique user ids, the administrators are listed once each. */
  lemma AdminIdsDistinct(db: Db)
    requires UserIdsUnique(db.users)
    ensures forall i, j :: 0 <= i < j < |AdminUsers(db)| ==> AdminUsers(db)[i].id != AdminUsers(db)[j].id
  {
    FilterKeysDistinct(db.users, (u: User) => u.id in db.admins, (u: User) => u.id);
  }

  /**
   * Administrators listed once each, none of whom holds a row on the
   * template yet, get exactly the rows the unconditional loop adds.
   */
  lemma {:induction false} AdminGrantsOnceAsWritten(grants: seq<TemplateAccess>, templateId: Guid, admins: seq<User>)
    requires forall u :: u in admins ==> !HasGrantFor(grants, templateId, u.id)
    requires forall i, j :: 0 <= i < j < |admins| ==> admins[i].id != admins[j].id
    ensures AdminGrantsOnce(grants, templateId, admins) == grants + FullGrants(templateId, admins)
    decreases |admins|
  {
    if admins != [] {
      var init := admins[..|admins| - 1];
      var last := admins[|admins| - 1];
      assert forall k :: 0 <= k < |init| ==> init[k] == admins[k];
      AdminGrantsOnceAsWritten(grants, templateId, init);
      var full := FullGrants(templateId, init);
      FullGrantsExact(templateId, init);
      assert !HasGrantFor(grants + full, templateId, last.id) by {
        forall a | a in grants + full && a.templateId == templateId ensures a.userId != last.id {
          if a !in grants {
            var k :| 0 <= k < |full| && full[k] == a;
            assert a.userId == admins[k].id;
          }
        }
      }
    }
  }

  /**
   * When user ids are unique and no administrator holds a row on the
   * template yet, granting each administrator once is what the code as
   * written does.
   */
  lemma WithAdminGrantsOnceAsWritten(db: Db, t: Template)
    requires UserIdsUnique(db.users)
    requires forall u :: u in db.users && u.id in db.admins ==> !HasGrantFor(t.allowedUsers, t.id, u.id)
    ensures WithAdminGrantsOnce(db, t) == WithAdminGrants(db, t)
  {
    AdminIdsDistinct(db);
    AdminGrantsOnceAsWritten(t.allowedUsers, t.id, AdminUsers(db));
  }

  /**
   * `CreateTemplateAsync`: grants every administrator without a grant full
   * access, then stores the template.
   */
  method CreateTemplateAsync(ctx: AppDbContext, t: Template) returns (r: Template, stored: bool)
    modifies ctx
    ensures r == WithAdminGrantsOnce(old(ctx.Tables()), t)
    ensures (ctx.Tables(), stored) == TemplateRepository.CreateEffect(old(ctx.Tables()), r)
  {
    var admins := AdminUsers(ctx.Tables());
    var template := t;
    var k := 0;
    while k < |admins|
      invariant 0 <= k <= |admins|
      invariant template == t.(allowedUsers := AdminGrantsOnce(t.allowedUsers, t.id, admins[..k]))
    {
      if !HasGrantFor(template.allowedUsers, t.id, admins[k].id) {
        template := template.(allowedUsers := template.allowedUsers + [TemplateAccess(t.id, admins[k].id, FullAccess)]);
      }
      assert admins[..k + 1][..k] == admins[..k];
      k := k + 1;
    }
    assert admins[..|admins|] == admins;
    r := template;
    stored := TemplateRepository.CreateTemplateAsync(ctx, template);
  }

  // ---------------------------------------------------------------------
  // ReorderQuestions
  // ---------------------------------------------------------------------

  /** Each question's new `Order`: the position of its id in `ids`, or -1 when absent. */
  function Reordered(qs: seq<Question>, ids: seq<Guid>): (r: seq<Question>)
    ensures |r| == |qs|
  {
    seq(|qs|, i requires 0 <= i < |qs| => qs[i].(order := IndexOf(ids, qs[i].id)))
  }

  /**
   * A reorder changes only the `Order` field: the question at each position
   * keeps every other field, and its order is the first index of its id
   * in the list, or -1 exactly when the id is not listed.
   */
  lemma ReorderChangesOnlyOrder(qs: seq<Question>, ids: seq<Guid>)
    ensures var r := Reordered(qs, ids);
      forall i :: 0 <= i < |qs| ==>
        && r[i] == qs[i].(order := r[i].order)
        && (r[i].order == -1 <==> qs[i].id !in ids)
        && (0 <= r[i].order ==> ids[r[i].order] == qs[i].id && qs[i].id !in ids[..r[i].order])
  {
  }

  function QuestionIds(qs: seq<Question>): (ids: seq<Guid>)
    ensures |ids| == |qs|
  {
    seq(|qs|, i requires 0 <= i < |qs| => qs[i].id)
  }

  /** The list is a permutation of the template's question ids, which are distinct. */
  predicate PermutesQuestions(qs: seq<Question>, ids: seq<Guid>) {
    NoDuplicates(ids) && multiset(ids) == multiset(QuestionIds(qs))
  }

  /** Every listed question is placed somewhere in the list. */
  lemma PermutedIdsListed(qs: seq<Question>, ids: seq<Guid>)
    requires PermutesQuestions(qs, ids)
    ensures |ids| == |qs|
    ensures forall i :: 0 <= i < |qs| ==> qs[i].id in ids
  {
    var qids := QuestionIds(qs);
    assert |multiset(ids)| == |multiset(qids)|;
    forall i | 0 <= i < |qs| ensures qs[i].id in ids {
      assert qids[i] in multiset(qids);
    }
  }

  /** Distinct questions get distinct orders. */
  lemma ReorderDistinct(qs: seq<Question>, ids: seq<Guid>)
    requires PermutesQuestions(qs, ids)
    ensures var r := Reordered(qs, ids);
      forall i, j :: 0 <= i < j < |r| ==> r[i].order != r[j].order
  {
    var r := Reordered(qs, ids);
    var qids := QuestionIds(qs);
    PermutedIdsListed(qs, ids);
    NoDuplicatesPermutation(ids, qids);
    forall i, j | 0 <= i < j < |r| ensures r[i].order != r[j].order {
      assert qids[i] != qids[j];
    }
  }

  /** The question listed at position `k` has order `k`. */
  predicate ListedAt(r: seq<Question>, ids: seq<Guid>, k: int)
    requires 0 <= k < |ids|
  {
    exists i :: 0 <= i < |r| && r[i].id == ids[k] && r[i].order == k
  }

  /** The question listed at position k gets order k. */
  lemma ReorderCovers(qs: seq<Question>, ids: seq<Guid>)
    requires PermutesQuestions(qs, ids)
    ensures forall k :: 0 <= k < |ids| ==> ListedAt(Reordered(qs, ids), ids, k)
  {
    var r := Reordered(qs, ids);
    var qids := QuestionIds(qs);
    forall k | 0 <= k < |ids| ensures ListedAt(r, ids, k) {
      assert ids[k] in multiset(qids);
      var i :| 0 <= i < |qids| && qids[i] == ids[k];
      assert IndexOf(ids, ids[k]) == k by {
        var m := IndexOf(ids, ids[k]);
        assert ids[m] == ids[k];
      }
      assert r[i].id == ids[k] && r[i].order == k;
    }
  }

  /**
   * When the list is a permutation of the question ids, the orders become
   * exactly 0 .. n-1: each in range, no two equal, and the question listed
   * at position k gets order k.
   */
  lemma ReorderByPermutation(qs: seq<Question>, ids: seq<Guid>)
    requires PermutesQuestions(qs, ids)
    ensures var r := Reordered(qs, ids);
      && (forall i :: 0 <= i < |r| ==> 0 <= r[i].order < |qs|)
      && (forall i, j :: 0 <= i < j < |r| ==> r[i].order != r[j].order)
      && (forall k :: 0 <= k < |ids| ==> ListedAt(r, ids, k))
  {
    PermutedIdsListed(qs, ids);
    ReorderDistinct(qs, ids);
    ReorderCovers(qs, ids);
  }

  datatype ReorderOutcome = TemplateNotFound | Reorder(result: TemplateRepository.UpdateResult)

  /**
   * `ReorderQuestions(templateId, ids)`: renumbers the loaded template's
   * questions and writes the template back; an unknown template is an
   * error and nothing changes.
   */
  function ReorderEffect(db: Db, templateId: Guid, ids: seq<Guid>): (Db, ReorderOutcome) {
    match FindTemplate(db.templates, templateId)
    case None => (db, TemplateNotFound)
    case Some(t) =>
      var (db', r) := TemplateRepository.UpdateEffect(db, t, t.(questions := Reordered(t.questions, ids)));
      (db', Reorder(r))
  }

  /**
   * Reordering an unknown template changes nothing. Reordering a stored one
   * always goes through (the row was loaded just before the write): the
   * template comes back with renumbered questions and a new version, and
   * no other template changes.
   */
  lemma ReorderStored(db: Db, templateId: Guid, ids: seq<Guid>)
    ensures var (db', outcome) := ReorderEffect(db, templateId, ids);
      match FindTemplate(db.templates, templateId)
      case None => outcome == TemplateNotFound && db' == db
      case Some(t) =>
        && outcome.Reorder? && outcome.result.Updated?
        && outcome.result.stored == t.(questions := Reordered(t.questions, ids), version := t.version + 1)
        && FindTemplate(db'.templates, templateId) == Some(outcome.result.stored)
        && db' == db.(templates := db'.templates)
        && forall u :: u in db.templates && u.id != templateId ==> u in db'.templates
  {
    match FindTemplate(db.templates, templateId)
    case None =>
    case Some(t) =>
      TemplateRepository.UpdateSucceedsIffCurrent(db, t, t.(questions := Reordered(t.questions, ids)));
  }

  method ReorderQuestions(ctx: AppDbContext, templateId: Guid, ids: seq<Guid>) returns (outcome: ReorderOutcome)
    modifies ctx
    ensures (ctx.Tables(), outcome) == ReorderEffect(old(ctx.Tables()), templateId, ids)
  {
    var found := FindTemplate(ctx.templates, templateId);
    if found.None? {
      return TemplateNotFound;
    }
    var t := found.value;
    var qs := t.questions;
    var k := 0;
    while k < |qs|
      invariant 0 <= k <= |qs| && |qs| == |t.questions|
      invariant forall j :: 0 <= j < k ==> qs[j] == t.questions[j].(order := IndexOf(ids, t.questions[j].id))
      invariant forall j :: k <= j < |qs| ==> qs[j] == t.questions[j]
    {
      qs := qs[k := qs[k].(order := IndexOf(ids, qs[k].id))];
      k := k + 1;
    }
    assert qs == Reordered(t.questions, ids);
    var r := TemplateRepository.UpdateTemplateAsync(ctx, t, t.(questions := qs));
    outcome := Reorder(r);
  }

  // ---------------------------------------------------------------------
  // Access
  // ---------------------------------------------------------------------

  /** `HasAccessToTemplate(templateId, userId)`. */
  function HasAccessToTemplate(db: Db, templateId: Guid, userId: UserId): bool {
    match FindTemplate(db.templates, templateId)
    case None => false
    case Some(t) =>
      match FindUser(db.users, userId)
      case None => false
      case Some(u) =>
        if u.id in db.admins then true
        else if t.isPublic then true
        else t.userId == userId || exists a :: a in t.allowedUsers && a.userId == userId
  }

  /**
   * Access is denied when the template or the user is missing, even for a
   * public template; otherwise it is granted exactly to administrators, on
   * public templates, to the owner and to users with an access row.
   */
  lemma AccessIff(db: Db, templateId: Guid, userId: UserId)
    ensures var found := FindTemplate(db.templates, templateId);
      HasAccessToTemplate(db, templateId, userId) <==>
        && found.Some?
        && UserExists(db.users, userId)
        && (|| IsAdmin(db, userId)
            || found.value.isPublic
            || found.value.userId == userId
            || exists a :: a in found.value.allowedUsers && a.userId == userId)
  {
  }

  /** `TemplateExistsAsync(id)`. */
  predicate TemplateExists(db: Db, id: Guid) {
    exists t :: t in db.templates && t.id == id
  }

  /**
   * A stored template exists from then on, and a deleted one no longer
   * exists when template ids are unique; deleting leaves every other
   * template's existence as it was.
   */
  lemma TemplateExistsAfterCreateAndDelete(db: Db, t: Template, id: Guid, other: Guid)
    requires id != other
    ensures TemplateRepository.CreateEffect(db, t).1 ==> TemplateExists(TemplateRepository.CreateEffect(db, t).0, t.id)
    ensures TemplateExists(db, id) && TemplateRepository.TemplateIdsUnique(db.templates) ==>
      !TemplateExists(TemplateRepository.DeleteEffect(db, id), id)
    ensures TemplateExists(TemplateRepository.DeleteEffect(db, id), other) <==> TemplateExists(db, other)
  {
    TemplateRepository.CreateAddsExactly(db, t);
    if TemplateRepository.CreateEffect(db, t).1 {
      assert t in TemplateRepository.CreateEffect(db, t).0.templates;
    }
    if TemplateExists(db, id) {
      TemplateRepository.DeleteRemovesEverythingOfTemplate(db, id);
    } else {
      TemplateRepository.DeleteUnknownTemplate(db, id);
    }
  }
}
