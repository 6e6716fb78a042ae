/**
 * Filling in templates: a new form takes a value copy of its template's
 * questions (the snapshots it will be answered against), can be listed per
 * user or per template, touched on submission and deleted.
 */
module FormService {
  import opened Seqs
  import opened Entities
  import opened Data
  import TemplateRepository
  import TemplateService

  // ---------------------------------------------------------------------
  // Snapshots
  // ---------------------------------------------------------------------

  /** The snapshot of question `q` stored with form `formId`. */
  function Snapshot(formId: Guid, q: Question): QuestionSnapshot {
    QuestionSnapshot(formId, q.id, q.title, q.description, q.qtype, q.allowEmpty, q.order)
  }

  /** One snapshot per question, in the order the template lists them. */
  function Snapshots(formId: Guid, qs: seq<Question>): (ss: seq<QuestionSnapshot>)
    ensures |ss| == |qs|
    ensures forall i :: 0 <= i < |qs| ==> ss[i] == Snapshot(formId, qs[i])
  {
    seq(|qs|, i requires 0 <= i < |qs| => Snapshot(formId, qs[i]))
  }

  /** The question a snapshot records, as a question of template `templateId`. */
  function Restore(templateId: Guid, s: QuestionSnapshot): Question {
    Question(s.originalQuestionId, templateId, s.title, s.description, s.qtype, s.allowEmpty, s.order)
  }

  function RestoreAll(templateId: Guid, ss: seq<QuestionSnapshot>): (qs: seq<Question>)
    ensures |qs| == |ss|
  {
    seq(|ss|, i requires 0 <= i < |ss| => Restore(templateId, ss[i]))
  }

  /**
   * A snapshot loses nothing of its question: every field of every question
   * of the template can be read back from the snapshots, in order.
   */
  lemma SnapshotsRestore(formId: Guid, templateId: Guid, qs: seq<Question>)
    requires forall q :: q in qs ==> q.templateId == templateId
    ensures RestoreAll(templateId, Snapshots(formId, qs)) == qs
  {
    var r := RestoreAll(templateId, Snapshots(formId, qs));
    forall i | 0 <= i < |qs| ensures r[i] == qs[i] {
      assert qs[i] in qs;
    }
  }

  // ---------------------------------------------------------------------
  // CreateForm
  // ---------------------------------------------------------------------

  /** Every stored form id was drawn from the id counter. */
  predicate FormIdsFresh(db: Db) {
    forall f :: f in db.forms ==> f.id < db.nextGuid
  }

  /** No two stored forms share an id (the primary key). */
  predicate FormIdsUnique(forms: seq<Form>) {
    forall i, j :: 0 <= i < j < |forms| ==> forms[i].id != forms[j].id
  }

  /**
   * `CreateForm(templateId, userId)` at time `now`: the stored form and the
   * new state, or `None` with nothing stored when the template is missing.
   */
  function CreateFormEffect(db: Db, templateId: Guid, userId: UserId, now: DateTime): (Db, Option<Form>) {
    match FindTemplate(db.templates, templateId)
    case None => (db, None)
    case Some(t) =>
      var id := db.nextGuid;
      var form := Form(id, templateId, userId, now, now, DefaultIsSubmitted, Snapshots(id, t.questions), []);
      (db.(forms := db.forms + [form], nextGuid := id + 1), Some(form))
  }

  /** A missing template stores nothing. */
  lemma CreateFormMissingTemplate(db: Db, templateId: Guid, userId: UserId, now: DateTime)
    requires forall t :: t in db.templates ==> t.id != templateId
    ensures CreateFormEffect(db, templateId, userId, now) == (db, None)
  {
  }

  /**
   * For an existing template, exactly one form is added: it carries the
   * given template and user, is not submitted, has no answers, and holds one
   * snapshot per question copying that question's fields, with the question
   * id as the original id. No other table changes.
   */
  lemma {:induction false} CreateFormStoresCopy(db: Db, templateId: Guid, userId: UserId, now: DateTime)
    requires exists t :: t in db.templates && t.id == templateId
    ensures var (db', r) := CreateFormEffect(db, templateId, userId, now);
      && r.Some?
      && var f := r.value;
      && var t := FindTemplate(db.templates, templateId).value;
      && db'.forms == db.forms + [f]
      && db' == db.(forms := db'.forms, nextGuid := db'.nextGuid)
      && f.templateId == templateId && f.userId == userId
      && !f.isSubmitted && f.answers == []
      && f.createdAt == now && f.updatedAt == now
      && |f.snapshots| == |t.questions|
      && (forall i :: 0 <= i < |t.questions| ==>
            var s, q := f.snapshots[i], t.questions[i];
            s.formId == f.id && s.originalQuestionId == q.id && s.title == q.title
            && s.description == q.description && s.qtype == q.qtype
            && s.allowEmpty == q.allowEmpty && s.order == q.order)
  {
    var found := FindTemplate(db.templates, templateId);
    assert found.Some? by {
      var t :| t in db.templates && t.id == templateId;
    }
  }

  /** Creating a form keeps form ids fresh and unique, so the new id is a new key. */
  lemma {:induction false} CreateFormKeepsIds(db: Db, templateId: Guid, userId: UserId, now: DateTime)
    requires FormIdsFresh(db) && FormIdsUnique(db.forms)
    ensures var (db', r) := CreateFormEffect(db, templateId, userId, now);
      FormIdsFresh(db') && FormIdsUnique(db'.forms)
      && (r.Some? ==> forall f :: f in db.forms ==> f.id != r.value.id)
  {
    var (db', r) := CreateFormEffect(db, templateId, userId, now);
    if r.Some? {
      forall i, j | 0 <= i < j < |db'.forms| ensures db'.forms[i].id != db'.forms[j].id {
        assert db'.forms[i] in db.forms;
        if j < |db.forms| { assert db'.forms[j] == db.forms[j]; }
      }
    }
  }

  /**
   * Snapshots are copies: after a form is created, saving a changed template
   * through the repository (as POST `Edit` of a template does) or
   * renumbering the template's questions leaves the form in the store, and
   * it still reads back the questions as they were when it was created.
   */
  lemma {:induction false} SnapshotsSurviveTemplateEdits(db: Db, templateId: Guid, userId: UserId, now: DateTime,
                                                         loaded: Template, edited: Template, ids: seq<Guid>)
    requires exists t :: t in db.templates && t.id == templateId
    requires forall t, q :: t in db.templates && q in t.questions ==> q.templateId == t.id
    ensures var (db1, r) := CreateFormEffect(db, templateId, userId, now);
      && r.Some?
      && r.value in TemplateRepository.UpdateEffect(db1, loaded, edited).0.forms
      && r.value in TemplateService.ReorderEffect(db1, templateId, ids).0.forms
      && RestoreAll(templateId, r.value.snapshots) == FindTemplate(db.templates, templateId).value.questions
  {
    var (db1, r) := CreateFormEffect(db, templateId, userId, now);
    CreateFormStoresCopy(db, templateId, userId, now);
    assert r.value in db1.forms;
    var t := FindTemplate(db.templates, templateId).value;
    SnapshotsRestore(db.nextGuid, templateId, t.questions);
    TemplateRepository.UpdateSucceedsIffCurrent(db1, loaded, edited);
    TemplateRepository.StaleUpdateChangesNothing(db1, loaded, edited);
    match FindTemplate(db1.templates, templateId)
    case None =>
    case Some(u) =>
      var changed := u.(questions := TemplateService.Reordered(u.questions, ids));
      TemplateRepository.UpdateSucceedsIffCurrent(db1, u, changed);
      TemplateRepository.StaleUpdateChangesNothing(db1, u, changed);
  }

  /** `CreateForm`: adds the new form to the store. */
  method CreateForm(ctx: AppDbContext, templateId: Guid, userId: UserId, now: DateTime) returns (r: Option<Form>)
    modifies ctx
    ensures (ctx.Tables(), r) == CreateFormEffect(old(ctx.Tables()), templateId, userId, now)
  {
    var found := FindTemplate(ctx.templates, templateId);
    if found.None? {
      return None;
    }
    var id := ctx.NewGuid();
    var form := Form(id, templateId, userId, now, now, DefaultIsSubmitted, Snapshots(id, found.value.questions), []);
    ctx.forms := ctx.forms + [form];
    r := Some(form);
  }

  // ---------------------------------------------------------------------
  // Queries
  // ---------------------------------------------------------------------

  /** `GetFormWithAnswersAndSnapshots`. */
  function GetFormWithAnswersAndSnapshots(db: Db, id: Guid): (r: Option<Form>)
    ensures r.None? <==> forall f :: f in db.forms ==> f.id != id
    ensures r.Some? ==> r.value in db.forms && r.value.id == id
  {
    FindForm(db.forms, id)
  }

  function OwnedBy(userId: UserId): Form -> bool {
    (f: Form) => f.userId == userId
  }

  function UpdatedAtKey(f: Form): int {
    f.updatedAt
  }

  /** `GetUserForms`: the user's forms, most recently updated first. */
  function GetUserForms(db: Db, userId: UserId): seq<Form> {
    SortByDescending(Filter(db.forms, OwnedBy(userId)), UpdatedAtKey)
  }

  /**
   * The user's forms are exactly the stored forms with that user id, each as
   * often as it is stored, ordered by non-increasing `UpdatedAt`; forms with
   * equal `UpdatedAt` keep their stored order.
   */
  lemma UserFormsExact(db: Db, userId: UserId)
    ensures var r := GetUserForms(db, userId);
      && (forall f :: f in r <==> f in db.forms && f.userId == userId)
      && multiset(r) == multiset(Filter(db.forms, OwnedBy(userId)))
      && (forall i, j :: 0 <= i < j < |r| ==> r[i].updatedAt >= r[j].updatedAt)
      && (forall t :: WithKey(r, UpdatedAtKey, t) == WithKey(Filter(db.forms, OwnedBy(userId)), UpdatedAtKey, t))
  {
    var mine := Filter(db.forms, OwnedBy(userId));
    var r := GetUserForms(db, userId);
    SortPermutes(mine, UpdatedAtKey);
    SortSorted(mine, UpdatedAtKey);
    forall f ensures f in r <==> f in mine {
      assert f in r <==> f in multiset(r);
      assert f in mine <==> f in multiset(mine);
    }
    forall t ensures WithKey(GetUserForms(db, userId), UpdatedAtKey, t) == WithKey(mine, UpdatedAtKey, t) {
      SortStable(mine, UpdatedAtKey, t);
    }
  }

  /** `GetFormsByTemplate`: the template's forms, in stored order. */
  function GetFormsByTemplate(db: Db, templateId: Guid): (r: seq<Form>)
    ensures forall f :: f in r <==> f in db.forms && f.templateId == templateId
  {
    Filter(db.forms, OfTemplate(templateId))
  }

  // ---------------------------------------------------------------------
  // SubmitForm and DeleteFormAsync
  // ---------------------------------------------------------------------

  /** `SubmitForm` at time `now`: the form's `UpdatedAt` becomes `now`; nothing else changes. */
  function SubmitFormEffect(db: Db, id: Guid, now: DateTime): Db {
    var i := FindIndex(db.forms, HasFormId(id));
    if i < 0 then db else db.(forms := db.forms[i := db.forms[i].(updatedAt := now)])
  }

  /**
   * Submitting touches only the time stamp: the form keeps its submission
   * flag, answers and snapshots, and every other form and table is unchanged.
   */
  lemma SubmitFormOnlyTouches(db: Db, id: Guid, now: DateTime)
    ensures var db' := SubmitFormEffect(db, id, now);
      && |db'.forms| == |db.forms|
      && db' == db.(forms := db'.forms)
      && forall i :: 0 <= i < |db.forms| ==>
           if db.forms[i].id == id && FindIndex(db.forms, HasFormId(id)) == i
           then db'.forms[i] == db.forms[i].(updatedAt := now)
                && db'.forms[i].isSubmitted == db.forms[i].isSubmitted
           else db'.forms[i] == db.forms[i]
  {
  }

  method SubmitForm(ctx: AppDbContext, id: Guid, now: DateTime)
    modifies ctx
    ensures ctx.Tables() == SubmitFormEffect(old(ctx.Tables()), id, now)
  {
    var i := FindIndex(ctx.forms, HasFormId(id));
    if 0 <= i {
      ctx.forms := ctx.forms[i := ctx.forms[i].(updatedAt := now)];
    }
  }

  /**
   * `DeleteFormAsync`: removes the form with that key, with its answers and
   * snapshots; the store then deletes the comments and likes on those answers.
   */
  function DeleteFormEffect(db: Db, id: Guid): Db {
    var i := FindIndex(db.forms, HasFormId(id));
    if i < 0 then db
    else CascadeAnswers(db, AnswerIds(db.forms[i].answers)).(forms := RemoveAt(db.forms, i))
  }

  /**
   * Deleting an unknown id changes nothing. Deleting a known one removes
   * exactly that form, one row, and the comments and likes on its answers;
   * every other comment and like stays and no other table changes. When keys
   * are unique, no form with that id remains.
   */
  lemma DeleteFormExact(db: Db, id: Guid)
    ensures var db' := DeleteFormEffect(db, id);
      && db' == db.(forms := db'.forms, comments := db'.comments, likes := db'.likes)
      && match FindForm(db.forms, id)
         case None => db' == db
         case Some(f) =>
           && multiset(db'.forms) == multiset(db.forms) - multiset{f}
           && |db'.forms| == |db.forms| - 1
           && (FormIdsUnique(db.forms) ==> forall g :: g in db'.forms ==> g.id != id)
           && (forall c :: c in db'.comments <==> c in db.comments && forall a :: a in f.answers ==> c.answerId != Some(a.id))
           && (forall l :: l in db'.likes <==> l in db.likes && forall a :: a in f.answers ==> l.answerId != Some(a.id))
  {
    var i := FindIndex(db.forms, HasFormId(id));
    if 0 <= i {
      var cleared := CascadeAnswers(db, AnswerIds(db.forms[i].answers));
      assert DeleteFormEffect(db, id) == cleared.(forms := RemoveAt(db.forms, i));
      CascadeAnswersExact(db, db.forms[i].answers);
      if FormIdsUnique(db.forms) {
        var r := RemoveAt(db.forms, i);
        forall g | g in r ensures g.id != id {
          var k :| 0 <= k < |r| && r[k] == g;
          if k < i { assert g == db.forms[k]; } else { assert g == db.forms[k + 1]; }
        }
      }
    }
  }

  method DeleteFormAsync(ctx: AppDbContext, id: Guid)
    modifies ctx
    ensures ctx.Tables() == DeleteFormEffect(old(ctx.Tables()), id)
  {
    var i := FindIndex(ctx.forms, HasFormId(id));
    if 0 <= i {
      var gone := AnswerIds(ctx.forms[i].answers);
      ctx.forms := RemoveAt(ctx.forms, i);
      ctx.SaveAnswerDeletions(gone);
    }
  }
}
