/**
 * The template repository: adding a template, listing a user's templates,
 * updating one under optimistic concurrency (the stored row version must
 * still be the one the caller loaded) and deleting one with everything that
 * hangs off it.
 */
module TemplateRepository {
  import opened Seqs
  import opened Entities
  import opened Data

  /** No two stored templates share an id (the primary key). */
  predicate TemplateIdsUnique(templates: seq<Template>) {
    forall i, j :: 0 <= i < j < |templates| ==> templates[i].id != templates[j].id
  }

  // ---------------------------------------------------------------------
  // CreateTemplateAsync and GetTemplatesByUserIdAsync
  // ---------------------------------------------------------------------

  /**
   * The rows a new template brings can be inserted: no two of its access rows
   * share the key (TemplateId, UserId) and no two of its tag links share the
   * key (TemplateId, TagId).
   */
  predicate Insertable(t: Template) {
    AccessKeysUnique(t.allowedUsers) && NoDuplicates(t.templateTags)
  }

  /**
   * `CreateTemplateAsync(t)`: adds the template with its questions, grants
   * and tag links in one save. A save whose rows repeat a key is refused as
   * a whole and the store is left as it was.
   */
  function CreateEffect(db: Db, t: Template): (Db, bool) {
    if Insertable(t) then (db.(templates := db.templates + [t]), true) else (db, false)
  }

  /** A template is stored exactly when its rows have unique keys, and then it is appended and nothing else changes. */
  lemma CreateAddsExactly(db: Db, t: Template)
    ensures var (db', stored) := CreateEffect(db, t);
      && (stored <==> Insertable(t))
      && (stored ==> db'.templates == db.templates + [t] && db'.templates[|db.templates|] == t)
      && db' == db.(templates := db'.templates)
      && (!stored ==> db' == db)
  {
  }

  method CreateTemplateAsync(ctx: AppDbContext, t: Template) returns (stored: bool)
    modifies ctx
    ensures (ctx.Tables(), stored) == CreateEffect(old(ctx.Tables()), t)
  {
    stored := AccessKeysUnique(t.allowedUsers) && NoDuplicates(t.templateTags);
    if stored {
      ctx.templates := ctx.templates + [t];
    }
  }

  /** `GetTemplatesByUserIdAsync`: the templates the user owns, in stored order. */
  function GetTemplatesByUserId(db: Db, userId: UserId): (r: seq<Template>)
    ensures forall t :: t in r <==> t in db.templates && t.userId == userId
  {
    Filter(db.templates, (t: Template) => t.userId == userId)
  }

  // ---------------------------------------------------------------------
  // UpdateTemplateAsync
  // ---------------------------------------------------------------------

  datatype UpdateResult =
    | Updated(stored: Template)    // the write went through
    | Gone                         // the row no longer exists: `null` is returned
    | Conflict(caller: Template)   // another write came first: the caller's token is refreshed and the error propagates

  /**
   * The row a save leaves when the stored template is `current`, the caller
   * loaded `loaded` and now holds `t`. The template is marked modified, so
   * every column of its own row comes from `t`, under a new version. A child
   * collection is written only when the caller changed it; otherwise its rows
   * stay as they are stored now, whatever another request did to them.
   */
  function Written(current: Template, loaded: Template, t: Template): Template {
    t.(version := t.version + 1,
       questions := if t.questions == loaded.questions then current.questions else t.questions,
       allowedUsers := if t.allowedUsers == loaded.allowedUsers then current.allowedUsers else t.allowedUsers,
       templateTags := if t.templateTags == loaded.templateTags then current.templateTags else t.templateTags)
  }

  /**
   * `UpdateTemplateAsync(t)` on a template loaded as `loaded` (the original
   * values the context tracks): writes over the stored row with the same id,
   * provided the row still carries the version `t` was loaded with; the
   * write gives the row a new version.
   */
  function UpdateEffect(db: Db, loaded: Template, t: Template): (Db, UpdateResult) {
    var i := FindIndex(db.templates, HasTemplateId(t.id));
    if i < 0 then (db, Gone)
    else if db.templates[i].version != t.version then (db, Conflict(t.(version := db.templates[i].version)))
    else
      var stored := Written(db.templates[i], loaded, t);
      (db.(templates := db.templates[i := stored]), Updated(stored))
  }

  /** A successful update leaves the row count and every other row as they were, and changes no other table. */
  lemma UpdateKeepsOtherRows(db: Db, loaded: Template, t: Template)
    ensures var (db', r) := UpdateEffect(db, loaded, t);
      r.Updated? ==>
        && |db'.templates| == |db.templates|
        && db' == db.(templates := db'.templates)
        && forall u :: u in db.templates && u.id != t.id ==> u in db'.templates
  {
    var (db', r) := UpdateEffect(db, loaded, t);
    if r.Updated? {
      forall u | u in db.templates && u.id != t.id ensures u in db'.templates {
        var k :| 0 <= k < |db.templates| && db.templates[k] == u;
        assert db'.templates[k] == u;
      }
    }
  }

  /** When the stored row has the caller's version, the update stores what the save writes over that row. */
  lemma UpdateStoresCallerRow(db: Db, loaded: Template, t: Template)
    requires var i := FindIndex(db.templates, HasTemplateId(t.id)); 0 <= i && db.templates[i].version == t.version
    ensures var (db', r) := UpdateEffect(db, loaded, t);
      && r == Updated(Written(FindTemplate(db.templates, t.id).value, loaded, t))
      && FindTemplate(db'.templates, t.id) == Some(r.stored)
  {
    var i := FindIndex(db.templates, HasTemplateId(t.id));
    var stored := Written(db.templates[i], loaded, t);
    var ts := db.templates[i := stored];
    assert UpdateEffect(db, loaded, t) == (db.(templates := ts), Updated(stored));
    FindIndexAfterUpdate(db.templates, i, stored, HasTemplateId(t.id));
    assert ts[i] == stored;
  }

  /**
   * An update succeeds exactly when the stored row has the caller's
   * version. The row then holds the caller's own columns under a new
   * version; each child collection the caller left alone keeps the rows
   * stored now, and one it changed holds the caller's rows. When nothing
   * was written in between, that is simply the caller's template. Nothing
   * else changes.
   */
  lemma UpdateSucceedsIffCurrent(db: Db, loaded: Template, t: Template)
    ensures var (db', r) := UpdateEffect(db, loaded, t);
      var found := FindTemplate(db.templates, t.id);
      && (r.Updated? <==> found.Some? && found.value.version == t.version)
      && (r.Updated? ==>
            && r.stored.(questions := t.questions, allowedUsers := t.allowedUsers, templateTags := t.templateTags)
                 == t.(version := t.version + 1)
            && r.stored.questions == (if t.questions == loaded.questions then found.value.questions else t.questions)
            && r.stored.allowedUsers == (if t.allowedUsers == loaded.allowedUsers then found.value.allowedUsers else t.allowedUsers)
            && r.stored.templateTags == (if t.templateTags == loaded.templateTags then found.value.templateTags else t.templateTags)
            && (found.value == loaded ==> r.stored == t.(version := t.version + 1))
            && r.stored.version != found.value.version
            && FindTemplate(db'.templates, t.id) == Some(r.stored)
            && |db'.templates| == |db.templates|
            && db' == db.(templates := db'.templates)
            && forall u :: u in db.templates && u.id != t.id ==> u in db'.templates)
  {
    var i := FindIndex(db.templates, HasTemplateId(t.id));
    UpdateKeepsOtherRows(db, loaded, t);
    if 0 <= i && db.templates[i].version == t.version {
      UpdateStoresCallerRow(db, loaded, t);
    }
  }

  /**
   * A stale update changes nothing: when the row still exists the caller's
   * token is refreshed to the stored version (everything else of the
   * caller's template is kept), and when it is gone the update reports it.
   */
  lemma StaleUpdateChangesNothing(db: Db, loaded: Template, t: Template)
    ensures var (db', r) := UpdateEffect(db, loaded, t);
      var found := FindTemplate(db.templates, t.id);
      && (r.Gone? <==> found.None?)
      && (r.Conflict? <==> found.Some? && found.value.version != t.version)
      && (!r.Updated? ==> db' == db)
      && (r.Conflict? ==> r.caller == t.(version := found.value.version))
  {
  }

  method UpdateTemplateAsync(ctx: AppDbContext, loaded: Template, t: Template) returns (r: UpdateResult)
    modifies ctx
    ensures (ctx.Tables(), r) == UpdateEffect(old(ctx.Tables()), loaded, t)
  {
    var i := FindIndex(ctx.templates, HasTemplateId(t.id));
    if i < 0 {
      return Gone;
    }
    var current := ctx.templates[i];
    if current.version != t.version {
      return Conflict(t.(version := current.version));
    }
    var stored := t.(version := t.version + 1);
    if t.questions == loaded.questions {
      stored := stored.(questions := current.questions);
    }
    if t.allowedUsers == loaded.allowedUsers {
      stored := stored.(allowedUsers := current.allowedUsers);
    }
    if t.templateTags == loaded.templateTags {
      stored := stored.(templateTags := current.templateTags);
    }
    ctx.templates := ctx.templates[i := stored];
    r := Updated(stored);
  }

  // ---------------------------------------------------------------------
  // DeleteTemplateAsync
  // ---------------------------------------------------------------------

  /**
   * `DeleteTemplateAsync(id)`: removes the template (and so its questions,
   * access rows and tag links), its forms (and so their answers and
   * snapshots), and the comments and likes on it. On saving, the store also
   * deletes the comments and likes on the removed answers. Tag rows stay.
   */
  function DeleteEffect(db: Db, id: Guid): Db {
    var i := FindIndex(db.templates, HasTemplateId(id));
    if i < 0 then db
    else
      var removed := db.(templates := RemoveAt(db.templates, i),
                         forms := Without(db.forms, FormTemplate, {id}),
                         comments := Without(db.comments, CommentTemplate, {Some(id)}),
                         likes := Without(db.likes, LikeTemplate, {Some(id)}));
      CascadeAnswers(removed, AnswerIdsWhere(db.forms, OfTemplate(id)))
  }

  /** Deleting an unknown template changes nothing. */
  lemma DeleteUnknownTemplate(db: Db, id: Guid)
    requires forall t :: t in db.templates ==> t.id != id
    ensures DeleteEffect(db, id) == db
  {
  }

  /**
   * After deleting a stored template, nothing that refers to it remains (no
   * form, comment or like, and with unique keys not the template itself),
   * nor any comment or like on an answer of one of its forms. Every other
   * template, form, comment and like is kept, and the tag, user and role
   * tables are untouched.
   */
  lemma {:induction false} DeleteRemovesEverythingOfTemplate(db: Db, id: Guid)
    requires exists t :: t in db.templates && t.id == id
    ensures var db' := DeleteEffect(db, id);
      && (forall f :: f in db'.forms <==> f in db.forms && f.templateId != id)
      && (forall c :: c in db'.comments <==>
            && c in db.comments && c.templateId != Some(id)
            && forall f, a :: f in db.forms && f.templateId == id && a in f.answers ==> c.answerId != Some(a.id))
      && (forall l :: l in db'.likes <==>
            && l in db.likes && l.templateId != Some(id)
            && forall f, a :: f in db.forms && f.templateId == id && a in f.answers ==> l.answerId != Some(a.id))
      && (forall t :: t in db.templates && t.id != id ==> t in db'.templates)
      && (forall t :: t in db'.templates ==> t in db.templates)
      && |db'.templates| == |db.templates| - 1
      && (TemplateIdsUnique(db.templates) ==> forall t :: t in db'.templates ==> t.id != id)
      && db'.tags == db.tags && db'.users == db.users && db'.admins == db.admins
  {
    var i := FindIndex(db.templates, HasTemplateId(id));
    RemoveAtMembers(db.templates, i);
    DeleteTemplateCascades(db, id);
  }

  /**
   * The comments and likes a template deletion keeps: those on neither the
   * template nor an answer of one of its forms.
   */
  lemma DeleteTemplateCascades(db: Db, id: Guid)
    requires exists t :: t in db.templates && t.id == id
    ensures var db' := DeleteEffect(db, id);
      && (forall c :: c in db'.comments <==>
            && c in db.comments && c.templateId != Some(id)
            && forall f, a :: f in db.forms && f.templateId == id && a in f.answers ==> c.answerId != Some(a.id))
      && (forall l :: l in db'.likes <==>
            && l in db.likes && l.templateId != Some(id)
            && forall f, a :: f in db.forms && f.templateId == id && a in f.answers ==> l.answerId != Some(a.id))
  {
    var i := FindIndex(db.templates, HasTemplateId(id));
    var removed := db.(templates := RemoveAt(db.templates, i),
                       forms := Without(db.forms, FormTemplate, {id}),
                       comments := Without(db.comments, CommentTemplate, {Some(id)}),
                       likes := Without(db.likes, LikeTemplate, {Some(id)}));
    var db' := CascadeAnswers(removed, AnswerIdsWhere(db.forms, OfTemplate(id)));
    assert DeleteEffect(db, id) == db';
    CascadeFormAnswersExact(removed, db.forms, OfTemplate(id));
    forall c ensures c in db'.comments <==>
      && c in db.comments && c.templateId != Some(id)
      && forall f, a :: f in db.forms && f.templateId == id && a in f.answers ==> c.answerId != Some(a.id)
    {
      assert c in removed.comments <==> c in db.comments && c.templateId != Some(id);
    }
    forall l ensures l in db'.likes <==>
      && l in db.likes && l.templateId != Some(id)
      && forall f, a :: f in db.forms && f.templateId == id && a in f.answers ==> l.answerId != Some(a.id)
    {
      assert l in removed.likes <==> l in db.likes && l.templateId != Some(id);
    }
  }

  method DeleteTemplateAsync(ctx: AppDbContext, id: Guid)
    modifies ctx
    ensures ctx.Tables() == DeleteEffect(old(ctx.Tables()), id)
  {
    var i := FindIndex(ctx.templates, HasTemplateId(id));
    if 0 <= i {
      var gone := AnswerIdsWhere(ctx.forms, OfTemplate(id));
      ctx.forms := Without(ctx.forms, FormTemplate, {id});
      ctx.comments := Without(ctx.comments, CommentTemplate, {Some(id)});
      ctx.likes := Without(ctx.likes, LikeTemplate, {Some(id)});
      ctx.templates := RemoveAt(ctx.templates, i);
      ctx.SaveAnswerDeletions(gone);
    }
  }
}
