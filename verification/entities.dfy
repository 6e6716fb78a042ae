/**
 * The persisted entities of the forms application, as values: templates with
 * their questions, access grants and tag links; forms with their question
 * snapshots and answers; tags, comments, likes and users.
 *
 * A `Guid` is a natural number (new ones are drawn from a counter kept with
 * the tables), a user id is a string and a `DateTime` is a tick count.
 */
module Entities {
  import opened Seqs

  type Guid = nat
  type UserId = string
  type DateTime = int

  /** `DateTimeOffset.MaxValue` in ticks: the lockout end that blocks a user for good. */
  const MaxDateTime: DateTime := 3155378975999999999

  /** Entity defaults (`Template.Topic`, `Template.IsPublic`, `Question.AllowEmpty`, `Form.IsSubmitted`). */
  const DefaultTopic := "Other"
  const DefaultIsPublic := true
  const DefaultAllowEmpty := false
  const DefaultIsSubmitted := false

  /** The most times one question type may occur in a template. */
  const MaxQuestionsPerType := 4

  datatype Option<T> = None | Some(value: T)

  datatype Question = Question(
    id: Guid,
    templateId: Guid,
    title: string,
    description: string,
    qtype: string,   // "Text", "Multiline", "Number" or "Checkbox"
    allowEmpty: bool,
    order: int)

  datatype TemplateAccess = TemplateAccess(templateId: Guid, userId: UserId, accessType: string)

  datatype Tag = Tag(id: Guid, name: string)

  datatype TemplateTag = TemplateTag(templateId: Guid, tagId: Guid)

  /**
   * A template owns its questions, access grants and tag links (they are
   * deleted with it). `version` stands for the row version the store checks on
   * update; every successful write changes it.
   */
  datatype Template = Template(
    id: Guid,
    title: string,
    description: string,
    topic: string,
    userId: UserId,
    isPublic: bool,
    createdDate: DateTime,
    updatedDate: DateTime,
    version: nat,
    questions: seq<Question>,
    allowedUsers: seq<TemplateAccess>,
    templateTags: seq<TemplateTag>)
  {
    /** How many questions have type `t`. */
    function GetQuestionTypeCount(t: string): (n: nat)
      ensures n <= |questions|
      ensures n == 0 <==> forall q :: q in questions ==> q.qtype != t
    {
      Count(questions, (q: Question) => q.qtype == t)
    }

    /** Whether one more question of type `t` is allowed. */
    predicate CanAddQuestionType(t: string) {
      GetQuestionTypeCount(t) < MaxQuestionsPerType
    }

    function WithQuestion(q: Question): (t: Template)
      ensures t.questions == questions + [q]
    {
      this.(questions := questions + [q])
    }
  }

  /** Adding a question of type `t` raises the count of `t` by one and no other count. */
  lemma {:induction false} AddQuestionCount(tpl: Template, q: Question, t: string)
    ensures tpl.WithQuestion(q).GetQuestionTypeCount(t)
         == tpl.GetQuestionTypeCount(t) + (if q.qtype == t then 1 else 0)
  {
    CountAppend(tpl.questions, [q], (x: Question) => x.qtype == t);
  }

  /** An addition the limit allows never takes its type past four questions. */
  lemma CanAddQuestionTypeLimit(tpl: Template, q: Question)
    ensures tpl.CanAddQuestionType(q.qtype) ==> tpl.WithQuestion(q).GetQuestionTypeCount(q.qtype) <= 4
  {
    AddQuestionCount(tpl, q, q.qtype);
  }

  datatype QuestionSnapshot = QuestionSnapshot(
    formId: Guid,
    originalQuestionId: Guid,
    title: string,
    description: string,
    qtype: string,
    allowEmpty: bool,
    order: int)

  /** An answer row: its own key, its form, the question it answers and the value. */
  datatype FormAnswer = FormAnswer(id: Guid, formId: Guid, questionId: Guid, value: string)

  /** A form owns its question snapshots and answers (they are deleted with it). */
  datatype Form = Form(
    id: Guid,
    templateId: Guid,
    userId: UserId,
    createdAt: DateTime,
    updatedAt: DateTime,
    isSubmitted: bool,
    snapshots: seq<QuestionSnapshot>,
    answers: seq<FormAnswer>)

  /** A comment on a template or on an answer. */
  datatype Comment = Comment(
    content: string,
    createdAt: DateTime,
    templateId: Option<Guid>,
    answerId: Option<Guid>,
    userId: UserId)

  /** A like of a template or of an answer. */
  datatype Like = Like(templateId: Option<Guid>, answerId: Option<Guid>, userId: UserId)

  /** An Identity user: id, e-mail and lockout end. */
  datatype User = User(id: UserId, email: string, lockoutEnd: Option<DateTime>)

  /** The signed-in user: the name-identifier claim and membership of the "Admin" role as the cookie carries it. */
  datatype Caller = Caller(userId: UserId, isAdmin: bool)

  /**
   * The whole store: one sequence per table, the members of the "Admin" role,
   * and the next fresh `Guid`.
   */
  datatype Db = Db(
    templates: seq<Template>,
    forms: seq<Form>,
    comments: seq<Comment>,
    likes: seq<Like>,
    tags: seq<Tag>,
    users: seq<User>,
    admins: set<UserId>,
    nextGuid: Guid)

  // Keys used to select the rows that a delete removes.

  function TemplateId(t: Template): Guid { t.id }
  function TemplateOwner(t: Template): UserId { t.userId }
  function FormId(f: Form): Guid { f.id }
  function FormTemplate(f: Form): Guid { f.templateId }
  function FormOwner(f: Form): UserId { f.userId }
  function CommentTemplate(c: Comment): Option<Guid> { c.templateId }
  function CommentAnswer(c: Comment): Option<Guid> { c.answerId }
  function CommentOwner(c: Comment): UserId { c.userId }
  function LikeTemplate(l: Like): Option<Guid> { l.templateId }
  function LikeAnswer(l: Like): Option<Guid> { l.answerId }
  function LikeOwner(l: Like): UserId { l.userId }
  function UserKey(u: User): UserId { u.id }

  function HasTemplateId(id: Guid): Template -> bool { (t: Template) => t.id == id }
  function HasFormId(id: Guid): Form -> bool { (f: Form) => f.id == id }
  function OfTemplate(templateId: Guid): Form -> bool { (f: Form) => f.templateId == templateId }
  function HasUserId(id: UserId): User -> bool { (u: User) => u.id == id }

  /** The template with id `id`, if the table has one (the first such row). */
  function FindTemplate(templates: seq<Template>, id: Guid): (r: Option<Template>)
    ensures r.None? <==> forall t :: t in templates ==> t.id != id
    ensures r.Some? ==> r.value in templates && r.value.id == id
  {
    var i := FindIndex(templates, HasTemplateId(id));
    if i < 0 then None else Some(templates[i])
  }

  function FindForm(forms: seq<Form>, id: Guid): (r: Option<Form>)
    ensures r.None? <==> forall f :: f in forms ==> f.id != id
    ensures r.Some? ==> r.value in forms && r.value.id == id
  {
    var i := FindIndex(forms, HasFormId(id));
    if i < 0 then None else Some(forms[i])
  }

  function FindUser(users: seq<User>, id: UserId): (r: Option<User>)
    ensures r.None? <==> forall u :: u in users ==> u.id != id
    ensures r.Some? ==> r.value in users && r.value.id == id
  {
    var i := FindIndex(users, HasUserId(id));
    if i < 0 then None else Some(users[i])
  }

  // ---------------------------------------------------------------------
  // The cascades on `AnswerId`: a comment or like on an answer goes with it
  // ---------------------------------------------------------------------

  /** The keys the comments and likes on `answers` refer to them by. */
  function AnswerIds(answers: seq<FormAnswer>): set<Option<Guid>> {
    set a | a in answers :: Some(a.id)
  }

  /** The keys of the answers of every form of `forms` that `removed` selects. */
  function AnswerIdsWhere(forms: seq<Form>, removed: Form -> bool): set<Option<Guid>> {
    set f, a | f in forms && removed(f) && a in f.answers :: Some(a.id)
  }

  /**
   * The store once the deletion of the answers with keys `gone` is saved:
   * the store deletes the comments and likes on them as well.
   */
  function CascadeAnswers(db: Db, gone: set<Option<Guid>>): Db {
    db.(comments := Without(db.comments, CommentAnswer, gone),
        likes := Without(db.likes, LikeAnswer, gone))
  }

  /**
   * Deleting the answers `gone` keeps exactly the comments and likes that are
   * on none of them, and changes no other table.
   */
  lemma CascadeAnswersExact(db: Db, gone: seq<FormAnswer>)
    ensures var db' := CascadeAnswers(db, AnswerIds(gone));
      && db' == db.(comments := db'.comments, likes := db'.likes)
      && (forall c :: c in db'.comments <==> c in db.comments && forall a :: a in gone ==> c.answerId != Some(a.id))
      && (forall l :: l in db'.likes <==> l in db.likes && forall a :: a in gone ==> l.answerId != Some(a.id))
  {
    var db' := CascadeAnswers(db, AnswerIds(gone));
    forall c ensures c in db'.comments <==> c in db.comments && forall a :: a in gone ==> c.answerId != Some(a.id) {
      if c.answerId in AnswerIds(gone) {
        var a :| a in gone && Some(a.id) == c.answerId;
      }
    }
    forall l ensures l in db'.likes <==> l in db.likes && forall a :: a in gone ==> l.answerId != Some(a.id) {
      if l.answerId in AnswerIds(gone) {
        var a :| a in gone && Some(a.id) == l.answerId;
      }
    }
  }

  /**
   * Deleting the answers of the forms `removed` selects keeps exactly the
   * comments and likes on no answer of such a form.
   */
  lemma CascadeFormAnswersExact(db: Db, forms: seq<Form>, removed: Form -> bool)
    ensures var db' := CascadeAnswers(db, AnswerIdsWhere(forms, removed));
      && db' == db.(comments := db'.comments, likes := db'.likes)
      && (forall c :: c in db'.comments <==>
            c in db.comments && forall f, a :: f in forms && removed(f) && a in f.answers ==> c.answerId != Some(a.id))
      && (forall l :: l in db'.likes <==>
            l in db.likes && forall f, a :: f in forms && removed(f) && a in f.answers ==> l.answerId != Some(a.id))
  {
    var gone := AnswerIdsWhere(forms, removed);
    var db' := CascadeAnswers(db, gone);
    forall c ensures c in db'.comments <==>
      c in db.comments && forall f, a :: f in forms && removed(f) && a in f.answers ==> c.answerId != Some(a.id)
    {
      if c.answerId in gone {
        var f, a :| f in forms && removed(f) && a in f.answers && Some(a.id) == c.answerId;
      }
    }
    forall l ensures l in db'.likes <==>
      l in db.likes && forall f, a :: f in forms && removed(f) && a in f.answers ==> l.answerId != Some(a.id)
    {
      if l.answerId in gone {
        var f, a :| f in forms && removed(f) && a in f.answers && Some(a.id) == l.answerId;
      }
    }
  }

  /** No two users share an id, as the users table's primary key guarantees. */
  predicate UserIdsUnique(users: seq<User>) {
    forall i, j :: 0 <= i < j < |users| ==> users[i].id != users[j].id
  }

  predicate UserExists(users: seq<User>, id: UserId) {
    exists u :: u in users && u.id == id
  }

  /** `IsInRoleAsync(user, "Admin")` for a user that exists. */
  predicate IsAdmin(db: Db, id: UserId) {
    UserExists(db.users, id) && id in db.admins
  }

  // ---------------------------------------------------------------------
  // The key of an access row: (TemplateId, UserId)
  // ---------------------------------------------------------------------

  /** Two access rows with the same composite key (TemplateId, UserId). */
  predicate SameAccessKey(a: TemplateAccess, b: TemplateAccess) {
    a.templateId == b.templateId && a.userId == b.userId
  }

  /** No two rows of `grants` share a key, as the store requires. */
  predicate AccessKeysUnique(grants: seq<TemplateAccess>) {
    forall i, j :: 0 <= i < j < |grants| ==> !SameAccessKey(grants[i], grants[j])
  }

  /** Some row grants `userId` access to template `templateId`. */
  predicate HasGrantFor(grants: seq<TemplateAccess>, templateId: Guid, userId: UserId) {
    exists a :: a in grants && a.templateId == templateId && a.userId == userId
  }

  /** Adds `g` unless a row with the same key is already there. */
  function GrantOnce(grants: seq<TemplateAccess>, g: TemplateAccess): seq<TemplateAccess> {
    if HasGrantFor(grants, g.templateId, g.userId) then grants else grants + [g]
  }

  /**
   * Granting once keeps the rows already there, leaves a row for the key
   * afterwards, adds nothing but `g`, and never introduces a duplicate key.
   */
  lemma GrantOnceKeepsKeysUnique(grants: seq<TemplateAccess>, g: TemplateAccess)
    ensures var r := GrantOnce(grants, g);
      && |grants| <= |r| && r[..|grants|] == grants
      && HasGrantFor(r, g.templateId, g.userId)
      && (forall a :: a in r ==> a in grants || a == g)
      && (!HasGrantFor(grants, g.templateId, g.userId) ==> g in r)
      && (AccessKeysUnique(grants) ==> AccessKeysUnique(r))
  {
    var r := GrantOnce(grants, g);
    if !HasGrantFor(grants, g.templateId, g.userId) {
      assert r[|grants|] == g;
      if AccessKeysUnique(grants) {
        forall i, j | 0 <= i < j < |r| ensures !SameAccessKey(r[i], r[j]) {
          if j == |grants| {
            assert r[i] in grants;
          }
        }
      }
    }
  }
}
