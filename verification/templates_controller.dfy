/**
 * The templates controller: who may see, edit, delete or read the responses
 * of a template; how POST `Create` builds a template (question orders,
 * visibility, tags, view grants); and how POST `Edit` copies the edited
 * fields and reports a concurrent change.
 *
 * The signed-in user is a parameter (their id claim and whether the cookie
 * says they are in the "Admin" role), and so is the outcome of model
 * validation.
 */
module TemplatesController {
  import opened Seqs
  import opened Text
  import opened Entities
  import opened Data
  import TemplateService
  import TemplateRepository
  import FormService

  const PublicVisibility := "public"
  const ViewAccess := "View"

  /** Only `Details` serves anonymous visitors; every other action requires a signed-in user. */
  datatype Visitor = Anonymous | SignedIn(caller: Caller)

  /** What an action answers with. */
  datatype ActionResult =
    | NotFound
    | Forbidden
    | RedirectToIndex
    | ShowForm            // the view again, with the posted model
    | ConcurrencyError    // the view again, with a model error about a concurrent change
    | Ok
    | ServerError         // an exception escaped the action

  // ---------------------------------------------------------------------
  // Details
  // ---------------------------------------------------------------------

  datatype DetailsResult = DetailsNotFound | LoginRedirect | DetailsForbidden | ShowDetails(template: Template)

  /** The caller owns the template, is an administrator, or holds an access row on it. */
  predicate OwnerAdminOrGranted(t: Template, c: Caller) {
    t.userId == c.userId || c.isAdmin || exists a :: a in t.allowedUsers && a.userId == c.userId
  }

  /** `Details(id)`. */
  function Details(db: Db, id: Guid, visitor: Visitor): DetailsResult {
    match FindTemplate(db.templates, id)
    case None => DetailsNotFound
    case Some(t) =>
      if !t.isPublic then
        if visitor.Anonymous? then LoginRedirect
        else if !OwnerAdminOrGranted(t, visitor.caller) then DetailsForbidden
        else ShowDetails(t)
      else ShowDetails(t)
  }

  /**
   * A public template is shown to anyone; a private one sends an anonymous
   * visitor to the login page and is forbidden to a signed-in user who is
   * neither its owner, an administrator nor granted access.
   */
  lemma DetailsOutcomes(db: Db, id: Guid, visitor: Visitor)
    ensures var found := FindTemplate(db.templates, id);
      var r := Details(db, id, visitor);
      && (r.DetailsNotFound? <==> found.None?)
      && (r.ShowDetails? <==> found.Some? && (found.value.isPublic || (visitor.SignedIn? && OwnerAdminOrGranted(found.value, visitor.caller))))
      && (r.ShowDetails? ==> r.template == found.value)
      && (r.LoginRedirect? <==> found.Some? && !found.value.isPublic && visitor.Anonymous?)
      && (r.DetailsForbidden? <==> found.Some? && !found.value.isPublic && visitor.SignedIn? && !OwnerAdminOrGranted(found.value, visitor.caller))
  {
  }

  /**
   * For a signed-in user who exists and whose role claim matches the role
   * table, the page is shown exactly when the service's access check grants
   * access.
   */
  lemma DetailsAgreesWithAccessCheck(db: Db, id: Guid, c: Caller)
    requires UserExists(db.users, c.userId) && c.isAdmin == (c.userId in db.admins)
    ensures Details(db, id, SignedIn(c)).ShowDetails? <==> TemplateService.HasAccessToTemplate(db, id, c.userId)
  {
    TemplateService.AccessIff(db, id, c.userId);
  }

  // ---------------------------------------------------------------------
  // The owner-or-administrator check of Edit, Delete and Responses
  // ---------------------------------------------------------------------

  datatype Guarded = GuardNotFound | GuardForbidden | Allowed(template: Template)

  predicate OwnerOrAdmin(t: Template, c: Caller) {
    t.userId == c.userId || c.isAdmin
  }

  /**
   * The check GET `Edit`, GET `Delete`, POST `Delete` and `Responses` make:
   * the template must exist, and the caller must own it or be an
   * administrator; an access row is not enough.
   */
  function OwnerOrAdminGuard(db: Db, id: Guid, c: Caller): (r: Guarded)
    ensures var found := FindTemplate(db.templates, id);
      && (r.GuardNotFound? <==> found.None?)
      && (r.Allowed? <==> found.Some? && OwnerOrAdmin(found.value, c))
      && (r.Allowed? ==> r.template == found.value && r.template in db.templates)
  {
    match FindTemplate(db.templates, id)
    case None => GuardNotFound
    case Some(t) => if t.userId != c.userId && !c.isAdmin then GuardForbidden else Allowed(t)
  }

  datatype ResponsesResult = ResponsesNotFound | ResponsesForbidden | ShowResponses(title: string, forms: seq<Form>)

  /** `Responses(id)`: the forms filled in from the template, for its owner or an administrator. */
  function Responses(db: Db, id: Guid, c: Caller): (r: ResponsesResult)
    ensures var found := FindTemplate(db.templates, id);
      && (r.ResponsesNotFound? <==> found.None?)
      && (r.ShowResponses? <==> found.Some? && OwnerOrAdmin(found.value, c))
      && (r.ShowResponses? ==> r.title == found.value.title && forall f :: f in r.forms <==> f in db.forms && f.templateId == id)
  {
    match OwnerOrAdminGuard(db, id, c)
    case GuardNotFound => ResponsesNotFound
    case GuardForbidden => ResponsesForbidden
    case Allowed(t) => ShowResponses(t.title, FormService.GetFormsByTemplate(db, id))
  }

  /** POST `Delete` (`DeleteConfirmed`): the cascade delete, for the owner or an administrator only. */
  function DeleteConfirmedEffect(db: Db, id: Guid, c: Caller): (Db, ActionResult) {
    match OwnerOrAdminGuard(db, id, c)
    case GuardNotFound => (db, NotFound)
    case GuardForbidden => (db, Forbidden)
    case Allowed(_) => (TemplateRepository.DeleteEffect(db, id), RedirectToIndex)
  }

  /**
   * Only the owner or an administrator deletes a template; anyone else
   * changes nothing. A permitted delete leaves no form, comment or like of
   * the template and keeps the tag, user and role tables.
   */
  lemma DeleteOnlyByOwnerOrAdmin(db: Db, id: Guid, c: Caller)
    ensures var found := FindTemplate(db.templates, id);
      var (db', r) := DeleteConfirmedEffect(db, id, c);
      && (r == RedirectToIndex <==> found.Some? && OwnerOrAdmin(found.value, c))
      && (r != RedirectToIndex ==> db' == db)
      && (r == RedirectToIndex ==>
            && (forall f :: f in db'.forms ==> f.templateId != id)
            && (forall x :: x in db'.comments ==> x.templateId != Some(id))
            && (forall l :: l in db'.likes ==> l.templateId != Some(id))
            && |db'.templates| == |db.templates| - 1
            && db'.tags == db.tags && db'.users == db.users && db'.admins == db.admins)
  {
    var found := FindTemplate(db.templates, id);
    if found.Some? && OwnerOrAdmin(found.value, c) {
      TemplateRepository.DeleteRemovesEverythingOfTemplate(db, id);
    }
  }

  method DeleteConfirmed(ctx: AppDbContext, id: Guid, c: Caller) returns (r: ActionResult)
    modifies ctx
    ensures (ctx.Tables(), r) == DeleteConfirmedEffect(old(ctx.Tables()), id, c)
  {
    var guard := OwnerOrAdminGuard(ctx.Tables(), id, c);
    match guard
    case GuardNotFound => r := NotFound;
    case GuardForbidden => r := Forbidden;
    case Allowed(_) =>
      TemplateRepository.DeleteTemplateAsync(ctx, id);
      r := RedirectToIndex;
  }

  // ---------------------------------------------------------------------
  // ReorderQuestions (the AJAX action)
  // ---------------------------------------------------------------------

  /** As written: any signed-in user renumbers any template's questions; an unknown template is an exception. */
  function ReorderQuestionsAsWritten(db: Db, templateId: Guid, ids: seq<Guid>, c: Caller): (Db, ActionResult) {
    var (db', outcome) := TemplateService.ReorderEffect(db, templateId, ids);
    (db', if outcome.TemplateNotFound? then ServerError else Ok)
  }

  /** As written, a user who neither owns the template nor is an administrator renumbers its questions. */
  lemma StrangerReorders(db: Db, templateId: Guid, ids: seq<Guid>, c: Caller)
    requires FindTemplate(db.templates, templateId).Some?
    requires !OwnerOrAdmin(FindTemplate(db.templates, templateId).value, c)
    ensures var t := FindTemplate(db.templates, templateId).value;
      var (db', r) := ReorderQuestionsAsWritten(db, templateId, ids, c);
      && r == Ok
      && FindTemplate(db'.templates, templateId).Some?
      && FindTemplate(db'.templates, templateId).value.questions == TemplateService.Reordered(t.questions, ids)
  {
    TemplateService.ReorderStored(db, templateId, ids);
  }

  /** The action with the check the other template-changing actions make. */
  function ReorderQuestionsEffect(db: Db, templateId: Guid, ids: seq<Guid>, c: Caller): (Db, ActionResult) {
    match OwnerOrAdminGuard(db, templateId, c)
    case GuardNotFound => (db, NotFound)
    case GuardForbidden => (db, Forbidden)
    case Allowed(_) => ReorderQuestionsAsWritten(db, templateId, ids, c)
  }

  /**
   * Questions are renumbered only for the owner or an administrator, and
   * then exactly as the service renumbers them; anyone else changes nothing.
   */
  lemma ReorderOnlyByOwnerOrAdmin(db: Db, templateId: Guid, ids: seq<Guid>, c: Caller)
    ensures var found := FindTemplate(db.templates, templateId);
      var (db', r) := ReorderQuestionsEffect(db, templateId, ids, c);
      && (r == Ok <==> found.Some? && OwnerOrAdmin(found.value, c))
      && (r != Ok ==> db' == db)
      && (r == Ok ==>
            && FindTemplate(db'.templates, templateId).Some?
            && FindTemplate(db'.templates, templateId).value.questions == TemplateService.Reordered(found.value.questions, ids))
  {
    TemplateService.ReorderStored(db, templateId, ids);
  }

  /** The AJAX action with the owner-or-administrator check, renumbering through the service. */
  method ReorderQuestions(ctx: AppDbContext, templateId: Guid, ids: seq<Guid>, c: Caller) returns (r: ActionResult)
    modifies ctx
    ensures (ctx.Tables(), r) == ReorderQuestionsEffect(old(ctx.Tables()), templateId, ids, c)
  {
    var guard := OwnerOrAdminGuard(ctx.Tables(), templateId, c);
    match guard
    case GuardNotFound => r := NotFound;
    case GuardForbidden => r := Forbidden;
    case Allowed(_) =>
      var outcome := TemplateService.ReorderQuestions(ctx, templateId, ids);
      r := if outcome.TemplateNotFound? then ServerError else Ok;
  }

  // ---------------------------------------------------------------------
  // POST Edit
  // ---------------------------------------------------------------------

  /** The posted edit model: the id and the three editable fields. */
  datatype EditInput = EditInput(id: Guid, title: string, description: string, topic: string)

  /** The loaded template with the posted title, description and topic. */
  function Edited(t: Template, input: EditInput): Template {
    t.(title := input.title, description := input.description, topic := input.topic)
  }

  /**
   * POST `Edit(routeId, input)` as written. The template is loaded from
   * `loaded` and written against `saved`, the store as it is at the moment
   * of the write (the same unless another request changed it in between).
   * A row that vanished makes the update return nothing, which the action
   * ignores; a concurrent change becomes a model error.
   */
  function EditAsWritten(loaded: Db, saved: Db, routeId: Guid, input: EditInput, valid: bool, c: Caller): (Db, ActionResult) {
    if routeId != input.id then (loaded, NotFound)
    else if !valid then (loaded, ShowForm)
    else
      match FindTemplate(loaded.templates, routeId)
      case None => (loaded, NotFound)
      case Some(t) =>
        var (db', result) := TemplateRepository.UpdateEffect(saved, t, Edited(t, input));
        (db', if result.Conflict? then ConcurrencyError else RedirectToIndex)
  }

  /** As written, a user who neither owns the template nor is an administrator overwrites its title. */
  lemma StrangerEdits(db: Db, input: EditInput, c: Caller)
    requires FindTemplate(db.templates, input.id).Some?
    requires !OwnerOrAdmin(FindTemplate(db.templates, input.id).value, c)
    ensures var (db', r) := EditAsWritten(db, db, input.id, input, true, c);
      && r == RedirectToIndex
      && FindTemplate(db'.templates, input.id).Some?
      && FindTemplate(db'.templates, input.id).value.title == input.title
  {
    var t := FindTemplate(db.templates, input.id).value;
    TemplateRepository.UpdateSucceedsIffCurrent(db, t, Edited(t, input));
  }

  /** POST `Edit` with the owner-or-administrator check of GET `Edit`. */
  function EditEffect(loaded: Db, saved: Db, routeId: Guid, input: EditInput, valid: bool, c: Caller): (Db, ActionResult) {
    if routeId != input.id then (loaded, NotFound)
    else if !valid then (loaded, ShowForm)
    else
      match OwnerOrAdminGuard(loaded, routeId, c)
      case GuardNotFound => (loaded, NotFound)
      case GuardForbidden => (loaded, Forbidden)
      case Allowed(_) => EditAsWritten(loaded, saved, routeId, input, valid, c)
  }

  /**
   * Without a concurrent change, an edit by the owner or an administrator
   * stores the loaded template with only the title, description and topic
   * replaced (and a new version); an id mismatch is not found, an invalid
   * model is shown again, and no one else changes anything.
   */
  lemma EditCopiesThreeFields(db: Db, routeId: Guid, input: EditInput, valid: bool, c: Caller)
    ensures var found := FindTemplate(db.templates, routeId);
      var (db', r) := EditEffect(db, db, routeId, input, valid, c);
      && (routeId != input.id ==> r == NotFound)
      && (routeId == input.id && !valid ==> r == ShowForm)
      && (r == RedirectToIndex <==> routeId == input.id && valid && found.Some? && OwnerOrAdmin(found.value, c))
      && (r != RedirectToIndex ==> db' == db)
      && (r == RedirectToIndex ==>
            && FindTemplate(db'.templates, routeId) == Some(Edited(found.value, input).(version := found.value.version + 1))
            && db' == db.(templates := db'.templates)
            && forall u :: u in db.templates && u.id != routeId ==> u in db'.templates)
  {
    var found := FindTemplate(db.templates, routeId);
    if routeId == input.id && valid && found.Some? && OwnerOrAdmin(found.value, c) {
      TemplateRepository.UpdateSucceedsIffCurrent(db, found.value, Edited(found.value, input));
    }
  }

  /**
   * When another request wrote the row between load and write, the edit is
   * reported as a model error and the store is left as that request left
   * it; when the row was deleted meanwhile, the action still redirects and
   * nothing is written. When the row still has the loaded version (another
   * request changed only rows hanging off it, as deleting a user removes
   * their access rows), the edit writes the template's own columns and
   * keeps the questions, access rows and tag links stored at that moment.
   */
  lemma EditConcurrentChange(loaded: Db, saved: Db, input: EditInput, c: Caller)
    requires FindTemplate(loaded.templates, input.id).Some?
    requires OwnerOrAdmin(FindTemplate(loaded.templates, input.id).value, c)
    ensures var t := FindTemplate(loaded.templates, input.id).value;
      var current := FindTemplate(saved.templates, input.id);
      var (db', r) := EditEffect(loaded, saved, input.id, input, true, c);
      && (current.Some? && current.value.version != t.version ==> r == ConcurrencyError && db' == saved)
      && (current.None? ==> r == RedirectToIndex && db' == saved)
      && (current.Some? && current.value.version == t.version ==>
            && r == RedirectToIndex
            && FindTemplate(db'.templates, input.id) == Some(Edited(t, input).(
                 version := t.version + 1,
                 questions := current.value.questions,
                 allowedUsers := current.value.allowedUsers,
                 templateTags := current.value.templateTags))
            && db' == saved.(templates := db'.templates)
            && forall u :: u in saved.templates && u.id != input.id ==> u in db'.templates)
  {
    var t := FindTemplate(loaded.templates, input.id).value;
    TemplateRepository.StaleUpdateChangesNothing(saved, t, Edited(t, input));
    TemplateRepository.UpdateSucceedsIffCurrent(saved, t, Edited(t, input));
  }

  /**
   * POST `Edit` with nothing written in between: loads the template, checks
   * the caller, copies the three fields and saves.
   */
  method Edit(ctx: AppDbContext, routeId: Guid, input: EditInput, valid: bool, c: Caller) returns (r: ActionResult)
    modifies ctx
    ensures (ctx.Tables(), r) == EditEffect(old(ctx.Tables()), old(ctx.Tables()), routeId, input, valid, c)
  {
    if routeId != input.id {
      return NotFound;
    }
    if !valid {
      return ShowForm;
    }
    var guard := OwnerOrAdminGuard(ctx.Tables(), routeId, c);
    match guard
    case GuardNotFound => r := NotFound;
    case GuardForbidden => r := Forbidden;
    case Allowed(t) =>
      var result := TemplateRepository.UpdateTemplateAsync(ctx, t, Edited(t, input));
      r := if result.Conflict? then ConcurrencyError else RedirectToIndex;
  }

  // ---------------------------------------------------------------------
  // POST Create: questions
  // ---------------------------------------------------------------------

  /** A question as posted. */
  datatype QuestionInput = QuestionInput(title: string, description: string, qtype: string, allowEmpty: bool)

  /** The posted create model. */
  datatype CreateInput = CreateInput(
    title: string,
    description: string,
    topic: string,
    visibility: string,
    questions: seq<QuestionInput>,
    allowedUserEmails: string,
    tags: string)

  /**
   * The template's questions: the i-th posted question becomes a question of
   * the template with order i (its index in the posted list) and id
   * `firstId + i`.
   */
  function NewQuestions(templateId: Guid, firstId: Guid, inputs: seq<QuestionInput>): (qs: seq<Question>)
    ensures |qs| == |inputs|
  {
    seq(|inputs|, i requires 0 <= i < |inputs| =>
      Question(firstId + i, templateId, inputs[i].title, inputs[i].description, inputs[i].qtype, inputs[i].allowEmpty, i))
  }

  /**
   * The questions keep the posted fields in the posted order, their orders
   * are 0 .. n-1, their ids are distinct, and renumbering them by their own
   * id list (what the reorder action does with an unchanged list) keeps
   * every order.
   */
  lemma QuestionsNumbered(templateId: Guid, firstId: Guid, inputs: seq<QuestionInput>)
    ensures var qs := NewQuestions(templateId, firstId, inputs);
      && (forall i :: 0 <= i < |qs| ==>
            && qs[i].order == i && qs[i].templateId == templateId
            && qs[i].title == inputs[i].title && qs[i].description == inputs[i].description
            && qs[i].qtype == inputs[i].qtype && qs[i].allowEmpty == inputs[i].allowEmpty)
      && (forall i, j :: 0 <= i < j < |qs| ==> qs[i].id != qs[j].id)
      && TemplateService.Reordered(qs, TemplateService.QuestionIds(qs)) == qs
  {
    var qs := NewQuestions(templateId, firstId, inputs);
    var ids := TemplateService.QuestionIds(qs);
    var r := TemplateService.Reordered(qs, ids);
    forall i | 0 <= i < |qs| ensures r[i] == qs[i] {
      var m := IndexOf(ids, ids[i]);
      assert ids[m] == ids[i];
    }
  }

  // ---------------------------------------------------------------------
  // POST Create: tags
  // ---------------------------------------------------------------------

  /** A tag name as typed: trimmed, then lower-cased. */
  function NormalizeTagName(piece: string): string {
    ToLower(Trim(piece))
  }

  /** A normalised name is blank exactly when the piece was. */
  lemma NormalizedBlank(piece: string)
    ensures IsBlank(NormalizeTagName(piece)) <==> IsBlank(piece)
  {
    var t := Trim(piece);
    if t != [] {
      LowerEnds(t);
    }
  }

  /** A name from a non-blank piece is non-empty, lower case, has no white space at either end, and has no comma when the piece has none. */
  lemma NormalizedNameWellFormed(piece: string)
    requires !IsBlank(piece)
    ensures var n := NormalizeTagName(piece);
      && n != [] && IsLower(n) && !IsWhiteSpace(n[0]) && !IsWhiteSpace(n[|n| - 1])
      && (',' !in piece ==> ',' !in n)
  {
    var t := Trim(piece);
    var n := NormalizeTagName(piece);
    LowerIsLower(t);
    LowerEnds(t);
    if ',' !in piece {
      TrimKeepsCharacters(piece);
      forall i | 0 <= i < |n| ensures n[i] != ',' {
        assert t[i] in t;
      }
    }
  }

  /** The normalised pieces that are not blank, in order, duplicates kept. */
  function NormalizedTagNames(pieces: seq<string>): seq<string>
    decreases |pieces|
  {
    if pieces == [] then []
    else
      var rest := NormalizedTagNames(pieces[..|pieces| - 1]);
      var name := NormalizeTagName(pieces[|pieces| - 1]);
      if IsBlank(name) then rest else rest + [name]
  }

  /** A name is kept exactly when it is the normalised form of a non-blank piece. */
  lemma {:induction false} NormalizedTagNamesExact(pieces: seq<string>)
    ensures forall n :: n in NormalizedTagNames(pieces) <==>
      exists k :: 0 <= k < |pieces| && !IsBlank(pieces[k]) && n == NormalizeTagName(pieces[k])
    decreases |pieces|
  {
    if pieces != [] {
      var init := pieces[..|pieces| - 1];
      var last := pieces[|pieces| - 1];
      NormalizedTagNamesExact(init);
      NormalizedBlank(last);
      forall n | n in NormalizedTagNames(pieces)
        ensures exists k :: 0 <= k < |pieces| && !IsBlank(pieces[k]) && n == NormalizeTagName(pieces[k])
      {
        if n in NormalizedTagNames(init) {
          var k :| 0 <= k < |init| && !IsBlank(init[k]) && n == NormalizeTagName(init[k]);
          assert pieces[k] == init[k];
        } else {
          assert pieces[|pieces| - 1] == last;
        }
      }
      forall n, k | 0 <= k < |pieces| && !IsBlank(pieces[k]) && n == NormalizeTagName(pieces[k])
        ensures n in NormalizedTagNames(pieces)
      {
        if k < |init| {
          assert init[k] == pieces[k];
        }
      }
    }
  }

  /** The tag names of the posted tag string: none when it is blank. */
  function TagNames(tags: string): seq<string> {
    if IsBlank(tags) then [] else Distinct(NormalizedTagNames(Split(tags, ',')))
  }

  /**
   * The tag names are the trimmed, lower-cased, non-blank pieces between
   * commas, each once: every name is non-empty, lower case, free of
   * surrounding white space and of commas, and comes from a piece, and every
   * non-blank piece gives a name.
   */
  lemma TagNamesWellFormed(tags: string)
    ensures var names := TagNames(tags);
      var pieces := Split(tags, ',');
      && NoDuplicates(names)
      && (forall n :: n in names ==>
            n != [] && IsLower(n) && !IsWhiteSpace(n[0]) && !IsWhiteSpace(n[|n| - 1]) && ',' !in n)
      && (forall n :: n in names <==> exists k :: 0 <= k < |pieces| && !IsBlank(pieces[k]) && n == NormalizeTagName(pieces[k]))
  {
    TagNamesDistinct(tags);
    TagNamesFromPieces(tags);
    TagNamesClean(tags);
  }

  /** No tag name repeats. */
  lemma TagNamesDistinct(tags: string)
    ensures NoDuplicates(TagNames(tags))
  {
    if IsBlank(tags) {
      assert TagNames(tags) == [];
    }
  }

  /** A name is kept exactly when it is the normalised form of a non-blank piece. */
  lemma TagNamesFromPieces(tags: string)
    ensures forall n :: n in TagNames(tags) <==>
      exists k :: 0 <= k < |Split(tags, ',')| && !IsBlank(Split(tags, ',')[k]) && n == NormalizeTagName(Split(tags, ',')[k])
  {
    var pieces := Split(tags, ',');
    if IsBlank(tags) {
      SplitBlank(tags, ',');
      assert TagNames(tags) == [];
    } else {
      assert TagNames(tags) == Distinct(NormalizedTagNames(pieces));
      NormalizedTagNamesExact(pieces);
    }
  }

  /** Every tag name is non-empty, lower case, trimmed and comma-free. */
  lemma TagNamesClean(tags: string)
    ensures forall n :: n in TagNames(tags) ==>
      n != [] && IsLower(n) && !IsWhiteSpace(n[0]) && !IsWhiteSpace(n[|n| - 1]) && ',' !in n
  {
    if !IsBlank(tags) {
      var pieces := Split(tags, ',');
      assert TagNames(tags) == Distinct(NormalizedTagNames(pieces));
      NormalizedTagNamesWellFormed(pieces);
    }
  }

  /** Every kept name of comma-free pieces is non-empty, lower case, trimmed and comma-free. */
  lemma NormalizedTagNamesWellFormed(pieces: seq<string>)
    requires forall k :: 0 <= k < |pieces| ==> ',' !in pieces[k]
    ensures forall n :: n in NormalizedTagNames(pieces) ==>
      n != [] && IsLower(n) && !IsWhiteSpace(n[0]) && !IsWhiteSpace(n[|n| - 1]) && ',' !in n
  {
    NormalizedTagNamesExact(pieces);
    forall n | n in NormalizedTagNames(pieces)
      ensures n != [] && IsLower(n) && !IsWhiteSpace(n[0]) && !IsWhiteSpace(n[|n| - 1]) && ',' !in n
    {
      var k :| 0 <= k < |pieces| && !IsBlank(pieces[k]) && n == NormalizeTagName(pieces[k]);
      NormalizedNameWellFormed(pieces[k]);
    }
  }

  function HasTagName(name: string): Tag -> bool {
    (g: Tag) => g.name == name
  }

  /** `FirstOrDefaultAsync(t => t.Name == name)` on the tag table. */
  function FindTagByName(tags: seq<Tag>, name: string): (r: Option<Tag>)
    ensures r.None? <==> forall g :: g in tags ==> g.name != name
    ensures r.Some? ==> r.value in tags && r.value.name == name
  {
    var i := FindIndex(tags, HasTagName(name));
    if i < 0 then None else Some(tags[i])
  }

  /** The tags a create makes and the links it attaches to the template. */
  datatype TagLinks = TagLinks(made: seq<Tag>, links: seq<TemplateTag>)

  /**
   * The tag loop: for each name, the tag already named so is linked, and
   * otherwise a new tag (its id drawn from `firstId` on) is made and linked.
   * The names are distinct, so a tag made earlier in the loop is never
   * looked for again, and looking in the stored table alone is enough.
   */
  function AttachTags(table: seq<Tag>, templateId: Guid, firstId: Guid, names: seq<string>): (r: TagLinks)
    ensures |r.links| == |names|
    decreases |names|
  {
    if names == [] then TagLinks([], [])
    else
      var prev := AttachTags(table, templateId, firstId, names[..|names| - 1]);
      var name := names[|names| - 1];
      match FindTagByName(table, name)
      case Some(tag) => TagLinks(prev.made, prev.links + [TemplateTag(templateId, tag.id)])
      case None =>
        var tag := Tag(firstId + |prev.made|, name);
        TagLinks(prev.made + [tag], prev.links + [TemplateTag(templateId, tag.id)])
  }

  /** Some stored or made tag has this id and this name. */
  ghost predicate Labels(table: seq<Tag>, made: seq<Tag>, id: Guid, name: string) {
    exists g :: (g in table || g in made) && g.id == id && g.name == name
  }

  /** A tag is made only for a listed name no stored tag has, and the made tags take consecutive fresh ids. */
  lemma {:induction false} AttachTagsMade(table: seq<Tag>, templateId: Guid, firstId: Guid, names: seq<string>)
    ensures var r := AttachTags(table, templateId, firstId, names);
      && (forall i :: 0 <= i < |r.made| ==> r.made[i].id == firstId + i)
      && (forall g :: g in r.made ==> g.name in names && FindTagByName(table, g.name).None?)
    decreases |names|
  {
    if names != [] {
      var init := names[..|names| - 1];
      var prev := AttachTags(table, templateId, firstId, init);
      AttachTagsMade(table, templateId, firstId, init);
      assert forall g :: g in prev.made ==> g.name in names;
    }
  }

  /**
   * The k-th link joins the template to a tag named `names[k]`, stored or
   * made for it.
   */
  lemma {:induction false} AttachTagsLinks(table: seq<Tag>, templateId: Guid, firstId: Guid, names: seq<string>)
    ensures var r := AttachTags(table, templateId, firstId, names);
      forall k :: 0 <= k < |names| ==> r.links[k].templateId == templateId && Labels(table, r.made, r.links[k].tagId, names[k])
    decreases |names|
  {
    if names != [] {
      var init := names[..|names| - 1];
      var name := names[|names| - 1];
      var prev := AttachTags(table, templateId, firstId, init);
      var r := AttachTags(table, templateId, firstId, names);
      AttachTagsLinks(table, templateId, firstId, init);
      forall k | 0 <= k < |init|
        ensures r.links[k].templateId == templateId && Labels(table, r.made, r.links[k].tagId, names[k])
      {
        assert r.links[k] == prev.links[k] && names[k] == init[k];
        var g :| (g in table || g in prev.made) && g.id == prev.links[k].tagId && g.name == init[k];
        assert g in prev.made ==> g in r.made;
      }
      assert Labels(table, r.made, r.links[|init|].tagId, name) by {
        match FindTagByName(table, name)
        case Some(tag) =>
        case None => assert r.made[|prev.made|] in r.made;
      }
    }
  }

  /** A name some stored tag has is linked to the first such stored tag. */
  lemma {:induction false} AttachTagsReuse(table: seq<Tag>, templateId: Guid, firstId: Guid, names: seq<string>)
    ensures var r := AttachTags(table, templateId, firstId, names);
      forall k :: 0 <= k < |names| && FindTagByName(table, names[k]).Some? ==>
        r.links[k].tagId == FindTagByName(table, names[k]).value.id
    decreases |names|
  {
    if names != [] {
      var init := names[..|names| - 1];
      var prev := AttachTags(table, templateId, firstId, init);
      var r := AttachTags(table, templateId, firstId, names);
      AttachTagsReuse(table, templateId, firstId, init);
      forall k | 0 <= k < |init| ensures r.links[k] == prev.links[k] && names[k] == init[k] {
      }
    }
  }

  /** No two tags share an id (the primary key). */
  predicate TagIdsUnique(tags: seq<Tag>) {
    forall g1, g2 :: g1 in tags && g2 in tags && g1.id == g2.id ==> g1 == g2
  }

  /** The tag table's keys are unique and below the next fresh id. */
  predicate TagsWellFormed(db: Db) {
    TagIdsUnique(db.tags) && forall g :: g in db.tags ==> g.id < db.nextGuid
  }

  /** Tags made with fresh, consecutive ids keep the tag table keyed uniquely. */
  lemma MadeTagsKeepIdsUnique(table: seq<Tag>, templateId: Guid, firstId: Guid, names: seq<string>)
    requires TagIdsUnique(table)
    requires forall g :: g in table ==> g.id < firstId
    ensures TagIdsUnique(table + AttachTags(table, templateId, firstId, names).made)
  {
    var made := AttachTags(table, templateId, firstId, names).made;
    var all := table + made;
    AttachTagsMade(table, templateId, firstId, names);
    forall g1, g2 | g1 in all && g2 in all && g1.id == g2.id ensures g1 == g2 {
      if g1 in made && g2 in made {
        var i :| 0 <= i < |made| && made[i] == g1;
        var j :| 0 <= j < |made| && made[j] == g2;
        assert i == j;
      }
    }
  }

  /**
   * With distinct names and fresh ids for the made tags, the tag table stays
   * keyed uniquely and no two links of the template repeat a tag.
   */
  lemma AttachedLinksDistinct(table: seq<Tag>, templateId: Guid, firstId: Guid, names: seq<string>)
    requires NoDuplicates(names) && TagIdsUnique(table)
    requires forall g :: g in table ==> g.id < firstId
    ensures var r := AttachTags(table, templateId, firstId, names);
      TagIdsUnique(table + r.made) && NoDuplicates(r.links)
  {
    var r := AttachTags(table, templateId, firstId, names);
    var all := table + r.made;
    MadeTagsKeepIdsUnique(table, templateId, firstId, names);
    AttachTagsLinks(table, templateId, firstId, names);
    forall k1, k2 | 0 <= k1 < k2 < |r.links| ensures r.links[k1] != r.links[k2] {
      var g1 :| (g1 in table || g1 in r.made) && g1.id == r.links[k1].tagId && g1.name == names[k1];
      var g2 :| (g2 in table || g2 in r.made) && g2.id == r.links[k2].tagId && g2.name == names[k2];
      assert g1 in all && g2 in all;
      assert names[k1] != names[k2];
    }
  }

  // ---------------------------------------------------------------------
  // POST Create: users allowed to view a private template
  // ---------------------------------------------------------------------

  /** The trimmed pieces that are not blank, in order. */
  function TrimmedEmails(pieces: seq<string>): (r: seq<string>)
    ensures forall e :: e in r ==> !IsBlank(e) && exists k :: 0 <= k < |pieces| && e == Trim(pieces[k])
    decreases |pieces|
  {
    if pieces == [] then []
    else
      var rest := TrimmedEmails(pieces[..|pieces| - 1]);
      var e := Trim(pieces[|pieces| - 1]);
      assert forall e' :: e' in rest ==> exists k :: 0 <= k < |pieces| && e' == Trim(pieces[k]) by {
        forall e' | e' in rest ensures exists k :: 0 <= k < |pieces| && e' == Trim(pieces[k]) {
          var k :| 0 <= k < |pieces| - 1 && e' == Trim(pieces[..|pieces| - 1][k]);
          assert pieces[..|pieces| - 1][k] == pieces[k];
        }
      }
      if IsBlank(e) then rest else rest + [e]
  }

  /** The e-mail addresses listed: only for a private template with a non-blank list. */
  function ListedEmails(isPublic: bool, emails: string): (r: seq<string>)
    ensures isPublic || IsBlank(emails) ==> r == []
  {
    if !isPublic && !IsBlank(emails) then TrimmedEmails(Split(emails, ',')) else []
  }

  function HasEmail(email: string): User -> bool {
    (u: User) => ToLower(u.email) == ToLower(email)
  }

  /** `FindByEmailAsync(email)`: the user whose address matches ignoring case. */
  function FindUserByEmail(users: seq<User>, email: string): (r: Option<User>)
    ensures r.None? <==> forall u :: u in users ==> ToLower(u.email) != ToLower(email)
    ensures r.Some? ==> r.value in users && ToLower(r.value.email) == ToLower(email)
  {
    var i := FindIndex(users, HasEmail(email));
    if i < 0 then None else Some(users[i])
  }

  /** Some listed address belongs to the user `id`. */
  predicate ListedUser(users: seq<User>, emails: seq<string>, id: UserId) {
    exists e :: e in emails && FindUserByEmail(users, e).Some? && FindUserByEmail(users, e).value.id == id
  }

  /** The e-mail loop as written: one "View" grant per listed address of a known user, repeats included. */
  function ViewGrantsAsWritten(users: seq<User>, templateId: Guid, emails: seq<string>): seq<TemplateAccess>
    decreases |emails|
  {
    if emails == [] then []
    else
      var rest := ViewGrantsAsWritten(users, templateId, emails[..|emails| - 1]);
      match FindUserByEmail(users, emails[|emails| - 1])
      case None => rest
      case Some(u) => rest + [TemplateAccess(templateId, u.id, ViewAccess)]
  }

  /** As written, every listed address of a known user leaves a grant for that user. */
  lemma {:induction false} ViewGrantsAsWrittenCover(users: seq<User>, templateId: Guid, emails: seq<string>)
    ensures forall e :: e in emails && FindUserByEmail(users, e).Some? ==>
      HasGrantFor(ViewGrantsAsWritten(users, templateId, emails), templateId, FindUserByEmail(users, e).value.id)
    decreases |emails|
  {
    if emails != [] {
      var init := emails[..|emails| - 1];
      var rest := ViewGrantsAsWritten(users, templateId, init);
      var r := ViewGrantsAsWritten(users, templateId, emails);
      ViewGrantsAsWrittenCover(users, templateId, init);
      forall e | e in emails && FindUserByEmail(users, e).Some?
        ensures HasGrantFor(r, templateId, FindUserByEmail(users, e).value.id)
      {
        var id := FindUserByEmail(users, e).value.id;
        if e in init {
          var a :| a in rest && a.templateId == templateId && a.userId == id;
          assert a in r;
        } else {
          assert r[|r| - 1] == TemplateAccess(templateId, id, ViewAccess);
        }
      }
    }
  }

  /** Appending rows never removes a repeated key, and a row repeating the key of an earlier one makes one. */
  lemma RepeatedKeyStays(rest: seq<TemplateAccess>, more: seq<TemplateAccess>, g: TemplateAccess)
    ensures !AccessKeysUnique(rest) ==> !AccessKeysUnique(rest + more)
    ensures HasGrantFor(rest, g.templateId, g.userId) ==> !AccessKeysUnique(rest + [g])
  {
    var r := rest + more;
    if !AccessKeysUnique(rest) {
      var p, q :| 0 <= p < q < |rest| && SameAccessKey(rest[p], rest[q]);
      assert r[p] == rest[p] && r[q] == rest[q];
    }
    if HasGrantFor(rest, g.templateId, g.userId) {
      var a :| a in rest && a.templateId == g.templateId && a.userId == g.userId;
      var p :| 0 <= p < |rest| && rest[p] == a;
      assert (rest + [g])[p] == a && (rest + [g])[|rest|] == g;
    }
  }

  /**
   * As written, an address listed twice (or two addresses of one user)
   * gives two grants with the same key, which the store refuses.
   */
  lemma {:induction false} RepeatedEmailRepeatsKey(users: seq<User>, templateId: Guid, emails: seq<string>, i: nat, j: nat)
    requires i < j < |emails|
    requires FindUserByEmail(users, emails[i]).Some? && FindUserByEmail(users, emails[j]).Some?
    requires FindUserByEmail(users, emails[i]).value.id == FindUserByEmail(users, emails[j]).value.id
    ensures !AccessKeysUnique(ViewGrantsAsWritten(users, templateId, emails))
    decreases |emails|
  {
    var init := emails[..|emails| - 1];
    var rest := ViewGrantsAsWritten(users, templateId, init);
    var u := FindUserByEmail(users, emails[|emails| - 1]);
    var more := if u.Some? then [TemplateAccess(templateId, u.value.id, ViewAccess)] else [];
    assert ViewGrantsAsWritten(users, templateId, emails) == rest + more;
    if j < |emails| - 1 {
      assert init[i] == emails[i] && init[j] == emails[j];
      RepeatedEmailRepeatsKey(users, templateId, init, i, j);
      RepeatedKeyStays(rest, more, TemplateAccess(templateId, "", ViewAccess));
    } else {
      ViewGrantsAsWrittenCover(users, templateId, init);
      assert emails[i] in init;
      RepeatedKeyStays(rest, more, more[0]);
    }
  }

  /** A concrete instance: one user, listed twice. */
  lemma SameAddressTwice()
    ensures var users := [User("u1", "ann@example.com", None)];
      !AccessKeysUnique(ViewGrantsAsWritten(users, 7, ["ann@example.com", "Ann@Example.com"]))
  {
    var users := [User("u1", "ann@example.com", None)];
    var emails := ["ann@example.com", "Ann@Example.com"];
    assert HasEmail(emails[0])(users[0]);
    assert ToLower(emails[1]) == ToLower(emails[0]);
    assert HasEmail(emails[1])(users[0]);
    RepeatedEmailRepeatsKey(users, 7, emails, 0, 1);
  }

  /** The e-mail loop granting each user once: a repeat is skipped. */
  function ViewGrants(users: seq<User>, templateId: Guid, emails: seq<string>): seq<TemplateAccess>
    decreases |emails|
  {
    if emails == [] then []
    else
      var rest := ViewGrants(users, templateId, emails[..|emails| - 1]);
      match FindUserByEmail(users, emails[|emails| - 1])
      case None => rest
      case Some(u) => GrantOnce(rest, TemplateAccess(templateId, u.id, ViewAccess))
  }

  /**
   * Each known listed user gets a "View" grant on the template, unknown
   * addresses are skipped, no other grant is made, and no key repeats.
   */
  lemma {:induction false} ViewGrantsExact(users: seq<User>, templateId: Guid, emails: seq<string>)
    ensures var r := ViewGrants(users, templateId, emails);
      && AccessKeysUnique(r)
      && (forall a :: a in r ==> a.templateId == templateId && a.accessType == ViewAccess && ListedUser(users, emails, a.userId))
      && (forall e :: e in emails && FindUserByEmail(users, e).Some? ==> HasGrantFor(r, templateId, FindUserByEmail(users, e).value.id))
    decreases |emails|
  {
    if emails != [] {
      var init := emails[..|emails| - 1];
      var last := emails[|emails| - 1];
      var rest := ViewGrants(users, templateId, init);
      var r := ViewGrants(users, templateId, emails);
      ViewGrantsExact(users, templateId, init);
      match FindUserByEmail(users, last)
      case None =>
        forall a | a in r ensures ListedUser(users, emails, a.userId) {
          var e :| e in init && FindUserByEmail(users, e).Some? && FindUserByEmail(users, e).value.id == a.userId;
          assert e in emails;
        }
      case Some(u) =>
        var g := TemplateAccess(templateId, u.id, ViewAccess);
        GrantOnceKeepsKeysUnique(rest, g);
        forall a | a in r ensures a.templateId == templateId && a.accessType == ViewAccess && ListedUser(users, emails, a.userId) {
          if a in rest {
            var e :| e in init && FindUserByEmail(users, e).Some? && FindUserByEmail(users, e).value.id == a.userId;
            assert e in emails;
          } else {
            assert last in emails;
          }
        }
        forall e | e in emails && FindUserByEmail(users, e).Some?
          ensures HasGrantFor(r, templateId, FindUserByEmail(users, e).value.id)
        {
          if e in init {
            var a :| a in rest && a.templateId == templateId && a.userId == FindUserByEmail(users, e).value.id;
            assert a in r;
          }
        }
    }
  }

  // ---------------------------------------------------------------------
  // POST Create
  // ---------------------------------------------------------------------

  /**
   * What POST `Create` builds before the e-mail loop, and the tags it makes:
   * the template takes id `db.nextGuid`, its questions the next ids in
   * order, and the made tags the ids after those. It is public exactly when
   * the posted visibility is "public".
   */
  function Draft(db: Db, userId: UserId, input: CreateInput, now: DateTime): (Template, seq<Tag>) {
    var tid := db.nextGuid;
    var attached := AttachTags(db.tags, tid, tid + 1 + |input.questions|, TagNames(input.tags));
    (Template(tid, input.title, input.description, input.topic, userId, input.visibility == PublicVisibility,
              now, now, 0, NewQuestions(tid, tid + 1, input.questions), [], attached.links),
     attached.made)
  }

  /** The store once the ids for the template, its questions and the made tags are drawn. */
  function IdsDrawn(db: Db, input: CreateInput, made: seq<Tag>): Db {
    db.(nextGuid := db.nextGuid + 1 + |input.questions| + |made|)
  }

  /**
   * POST `Create` as written: one "View" grant per listed address (repeats
   * included), then a full grant per administrator (whether or not they were
   * listed), then the save, which an exception ends when two rows share a key.
   */
  function CreateAsWritten(db: Db, userId: UserId, input: CreateInput, now: DateTime, valid: bool): (Db, ActionResult) {
    if !valid then (db, ShowForm)
    else
      var (draft, made) := Draft(db, userId, input, now);
      var drawn := IdsDrawn(db, input, made);
      var t := draft.(allowedUsers := ViewGrantsAsWritten(db.users, draft.id, ListedEmails(draft.isPublic, input.allowedUserEmails)));
      var (db', stored) := TemplateRepository.CreateEffect(drawn, TemplateService.WithAdminGrants(drawn, t));
      if stored then (db'.(tags := db'.tags + made), RedirectToIndex) else (drawn, ServerError)
  }

  /**
   * As written, a private template whose list names one known user twice is
   * not created: the request fails and no template or tag is stored.
   */
  lemma RepeatedEmailFailsCreate(db: Db, userId: UserId, input: CreateInput, now: DateTime, i: nat, j: nat)
    requires input.visibility != PublicVisibility
    requires var emails := ListedEmails(false, input.allowedUserEmails);
      && i < j < |emails|
      && FindUserByEmail(db.users, emails[i]).Some? && FindUserByEmail(db.users, emails[j]).Some?
      && FindUserByEmail(db.users, emails[i]).value.id == FindUserByEmail(db.users, emails[j]).value.id
    ensures var (db', r) := CreateAsWritten(db, userId, input, now, true);
      r == ServerError && db'.templates == db.templates && db'.tags == db.tags
  {
    var (draft, made) := Draft(db, userId, input, now);
    var drawn := IdsDrawn(db, input, made);
    var grants := ViewGrantsAsWritten(db.users, draft.id, ListedEmails(false, input.allowedUserEmails));
    RepeatedEmailRepeatsKey(db.users, draft.id, ListedEmails(false, input.allowedUserEmails), i, j);
    RepeatedKeyStays(grants, TemplateService.FullGrants(draft.id, TemplateService.AdminUsers(drawn)), TemplateAccess(0, "", ""));
  }

  /**
   * As written, a private template whose list names an administrator is not
   * created: the listed administrator's grant and their full grant share a
   * key, so the request fails and nothing is stored.
   */
  lemma ListedAdminFailsCreate(db: Db, userId: UserId, input: CreateInput, now: DateTime, e: string)
    requires input.visibility != PublicVisibility
    requires e in ListedEmails(false, input.allowedUserEmails)
    requires FindUserByEmail(db.users, e).Some? && FindUserByEmail(db.users, e).value.id in db.admins
    ensures var (db', r) := CreateAsWritten(db, userId, input, now, true);
      r == ServerError && db'.templates == db.templates && db'.tags == db.tags
  {
    var (draft, made) := Draft(db, userId, input, now);
    var drawn := IdsDrawn(db, input, made);
    var emails := ListedEmails(false, input.allowedUserEmails);
    var t := draft.(allowedUsers := ViewGrantsAsWritten(db.users, draft.id, emails));
    ViewGrantsAsWrittenCover(db.users, draft.id, emails);
    TemplateService.AdminAlreadyGrantedBreaksCreate(drawn, t, FindUserByEmail(db.users, e).value);
  }

  /** The grants of a created template: each known listed user once, then each administrator without a grant. */
  function GrantsFor(db: Db, templateId: Guid, emails: seq<string>): seq<TemplateAccess> {
    TemplateService.AdminGrantsOnce(ViewGrants(db.users, templateId, emails), templateId, TemplateService.AdminUsers(db))
  }

  /**
   * Every known listed user and every administrator holds a row; each row
   * is a "View" grant for a listed user or a full grant for an
   * administrator; and no key repeats.
   */
  lemma GrantsForExact(db: Db, templateId: Guid, emails: seq<string>)
    ensures var grants := GrantsFor(db, templateId, emails);
      && AccessKeysUnique(grants)
      && (forall e :: e in emails && FindUserByEmail(db.users, e).Some? ==> HasGrantFor(grants, templateId, FindUserByEmail(db.users, e).value.id))
      && (forall u :: u in db.users && u.id in db.admins ==> HasGrantFor(grants, templateId, u.id))
      && (forall a :: a in grants ==>
            && a.templateId == templateId
            && ((a.accessType == ViewAccess && ListedUser(db.users, emails, a.userId))
                || (a.accessType == TemplateService.FullAccess && a.userId in db.admins)))
  {
    var view := ViewGrants(db.users, templateId, emails);
    var admins := TemplateService.AdminUsers(db);
    var grants := GrantsFor(db, templateId, emails);
    ViewGrantsExact(db.users, templateId, emails);
    TemplateService.AdminGrantsOnceExact(view, templateId, admins);
    forall e | e in emails && FindUserByEmail(db.users, e).Some?
      ensures HasGrantFor(grants, templateId, FindUserByEmail(db.users, e).value.id)
    {
      var a :| a in view && a.templateId == templateId && a.userId == FindUserByEmail(db.users, e).value.id;
      var p :| 0 <= p < |view| && view[p] == a;
      assert grants[p] == a;
    }
    forall a | a in grants && a !in view ensures a.userId in db.admins {
      var u :| u in admins && u.id == a.userId;
    }
  }

  /** The template POST `Create` stores: each listed user and each administrator granted once. */
  function CreatedTemplate(db: Db, userId: UserId, input: CreateInput, now: DateTime): Template {
    var draft := Draft(db, userId, input, now).0;
    draft.(allowedUsers := GrantsFor(db, draft.id, ListedEmails(draft.isPublic, input.allowedUserEmails)))
  }

  /** POST `Create`: an invalid model is shown again; otherwise the template is built and stored. */
  function CreateEffect(db: Db, userId: UserId, input: CreateInput, now: DateTime, valid: bool): (Db, ActionResult) {
    if !valid then (db, ShowForm)
    else
      var made := Draft(db, userId, input, now).1;
      var drawn := IdsDrawn(db, input, made);
      var (db', stored) := TemplateRepository.CreateEffect(drawn, CreatedTemplate(db, userId, input, now));
      if stored then (db'.(tags := db'.tags + made), RedirectToIndex) else (drawn, ServerError)
  }

  /** The listed addresses of known users name distinct users, none of them an administrator. */
  predicate ListedDistinctNonAdmins(db: Db, emails: seq<string>) {
    && (forall i, j :: 0 <= i < j < |emails| && FindUserByEmail(db.users, emails[i]).Some? && FindUserByEmail(db.users, emails[j]).Some?
          ==> FindUserByEmail(db.users, emails[i]).value.id != FindUserByEmail(db.users, emails[j]).value.id)
    && (forall e :: e in emails && FindUserByEmail(db.users, e).Some? ==> FindUserByEmail(db.users, e).value.id !in db.admins)
  }

  /** When the listed addresses name distinct users, granting each user once is what the e-mail loop as written does. */
  lemma {:induction false} ViewGrantsAsWrittenAgree(users: seq<User>, templateId: Guid, emails: seq<string>)
    requires forall i, j :: 0 <= i < j < |emails| && FindUserByEmail(users, emails[i]).Some? && FindUserByEmail(users, emails[j]).Some?
               ==> FindUserByEmail(users, emails[i]).value.id != FindUserByEmail(users, emails[j]).value.id
    ensures ViewGrants(users, templateId, emails) == ViewGrantsAsWritten(users, templateId, emails)
    decreases |emails|
  {
    if emails != [] {
      var init := emails[..|emails| - 1];
      var last := emails[|emails| - 1];
      assert forall k :: 0 <= k < |init| ==> init[k] == emails[k];
      ViewGrantsAsWrittenAgree(users, templateId, init);
      match FindUserByEmail(users, last)
      case None =>
      case Some(u) =>
        forall e | e in init && FindUserByEmail(users, e).Some?
          ensures FindUserByEmail(users, e).value.id != u.id
        {
          var k :| 0 <= k < |init| && init[k] == e;
          assert emails[k] == e;
        }
        ViewGrantsOmitUnlisted(users, templateId, init, u.id);
    }
  }

  /** A user none of whose addresses is listed gets no grant. */
  lemma ViewGrantsOmitUnlisted(users: seq<User>, templateId: Guid, emails: seq<string>, id: UserId)
    requires forall e :: e in emails && FindUserByEmail(users, e).Some? ==> FindUserByEmail(users, e).value.id != id
    ensures !HasGrantFor(ViewGrants(users, templateId, emails), templateId, id)
  {
    ViewGrantsExact(users, templateId, emails);
  }

  /**
   * When user ids are unique and the listed addresses name distinct users,
   * none of them an administrator, the corrected POST `Create` does exactly
   * what the code as written does.
   */
  lemma CreateAgreesWithAsWritten(db: Db, userId: UserId, input: CreateInput, now: DateTime, valid: bool)
    requires UserIdsUnique(db.users)
    requires ListedDistinctNonAdmins(db, ListedEmails(input.visibility == PublicVisibility, input.allowedUserEmails))
    ensures CreateEffect(db, userId, input, now, valid) == CreateAsWritten(db, userId, input, now, valid)
  {
    if valid {
      var (draft, made) := Draft(db, userId, input, now);
      var drawn := IdsDrawn(db, input, made);
      var emails := ListedEmails(draft.isPublic, input.allowedUserEmails);
      ViewGrantsAsWrittenAgree(db.users, draft.id, emails);
      var view := ViewGrants(db.users, draft.id, emails);
      ViewGrantsExact(db.users, draft.id, emails);
      var t := draft.(allowedUsers := view);
      forall u | u in drawn.users && u.id in drawn.admins ensures !HasGrantFor(view, draft.id, u.id) {
        forall a | a in view ensures a.userId != u.id {
          var e :| e in emails && FindUserByEmail(db.users, e).Some? && FindUserByEmail(db.users, e).value.id == a.userId;
        }
      }
      TemplateService.WithAdminGrantsOnceAsWritten(drawn, t);
      FilterExt(db.users, (u: User) => u.id in db.admins, (u: User) => u.id in drawn.admins);
      assert TemplateService.AdminUsers(drawn) == TemplateService.AdminUsers(db);
      assert CreatedTemplate(db, userId, input, now) == TemplateService.WithAdminGrants(drawn, t);
    }
  }

  /** No key repeats among the grants of a created template. */
  lemma GrantsForUnique(db: Db, templateId: Guid, emails: seq<string>)
    ensures AccessKeysUnique(GrantsFor(db, templateId, emails))
  {
    ViewGrantsExact(db.users, templateId, emails);
    TemplateService.AdminGrantsOnceExact(ViewGrants(db.users, templateId, emails), templateId, TemplateService.AdminUsers(db));
  }

  /** The tag links of a created template are distinct when the stored tag keys are well formed. */
  lemma CreatedLinksDistinct(db: Db, firstId: Guid, tags: string)
    requires TagsWellFormed(db) && db.nextGuid <= firstId
    ensures NoDuplicates(AttachTags(db.tags, db.nextGuid, firstId, TagNames(tags)).links)
  {
    AttachedLinksDistinct(db.tags, db.nextGuid, firstId, TagNames(tags));
  }

  /** The built template's rows have unique keys, so the store accepts it. */
  lemma CreatedTemplateInsertable(db: Db, userId: UserId, input: CreateInput, now: DateTime)
    requires TagsWellFormed(db)
    ensures TemplateRepository.Insertable(CreatedTemplate(db, userId, input, now))
  {
    var t := CreatedTemplate(db, userId, input, now);
    CreatedLinksDistinct(db, db.nextGuid + 1 + |input.questions|, input.tags);
    GrantsForUnique(db, t.id, ListedEmails(t.isPublic, input.allowedUserEmails));
  }

  /** Tags made with fresh, consecutive ids keep the tag table keyed uniquely and below the next fresh id. */
  lemma MadeTagsFresh(table: seq<Tag>, templateId: Guid, firstId: Guid, names: seq<string>)
    requires TagIdsUnique(table)
    requires forall g :: g in table ==> g.id < firstId
    ensures var made := AttachTags(table, templateId, firstId, names).made;
      && TagIdsUnique(table + made)
      && forall g :: g in table + made ==> g.id < firstId + |made|
  {
    var made := AttachTags(table, templateId, firstId, names).made;
    MadeTagsKeepIdsUnique(table, templateId, firstId, names);
    AttachTagsMade(table, templateId, firstId, names);
    forall g | g in table + made ensures g.id < firstId + |made| {
      if g !in table {
        var i :| 0 <= i < |made| && made[i] == g;
      }
    }
  }

  /**
   * On a store whose tag keys are well formed, a valid create always
   * succeeds: it appends the built template, appends the made tags, draws
   * the ids it used and changes nothing else; the tag keys stay well formed.
   */
  lemma CreateStoresTemplate(db: Db, userId: UserId, input: CreateInput, now: DateTime)
    requires TagsWellFormed(db)
    ensures var (db', r) := CreateEffect(db, userId, input, now, true);
      var made := Draft(db, userId, input, now).1;
      && r == RedirectToIndex
      && db' == db.(templates := db.templates + [CreatedTemplate(db, userId, input, now)],
                    tags := db.tags + made,
                    nextGuid := db.nextGuid + 1 + |input.questions| + |made|)
      && TagsWellFormed(db')
  {
    var made := Draft(db, userId, input, now).1;
    var tid := db.nextGuid;
    var first := tid + 1 + |input.questions|;
    var names := TagNames(input.tags);
    assert made == AttachTags(db.tags, tid, first, names).made;
    CreatedTemplateInsertable(db, userId, input, now);
    MadeTagsFresh(db.tags, tid, first, names);
  }

  /**
   * The created template belongs to the caller, carries the posted title,
   * description and topic, is public exactly when the visibility is
   * "public", starts at version 0, and has the posted questions numbered
   * 0 .. n-1 in the posted order, with the ids drawn after its own.
   */
  lemma CreatedTemplateFields(db: Db, userId: UserId, input: CreateInput, now: DateTime)
    ensures var t := CreatedTemplate(db, userId, input, now);
      && t.id == db.nextGuid && t.userId == userId
      && t.title == input.title && t.description == input.description && t.topic == input.topic
      && (t.isPublic <==> input.visibility == PublicVisibility)
      && t.version == 0 && t.createdDate == now && t.updatedDate == now
      && |t.questions| == |input.questions|
      && (forall i :: 0 <= i < |t.questions| ==>
            && t.questions[i].id == t.id + 1 + i
            && t.questions[i].order == i && t.questions[i].templateId == t.id
            && t.questions[i].title == input.questions[i].title
            && t.questions[i].description == input.questions[i].description
            && t.questions[i].qtype == input.questions[i].qtype
            && t.questions[i].allowEmpty == input.questions[i].allowEmpty)
  {
  }

  /**
   * The created template links each tag name once: the k-th link is to a
   * tag named by the k-th name, the stored tag when one has that name and
   * otherwise a tag made for it; a tag is made only for a name no stored tag
   * has.
   */
  lemma CreatedTemplateTags(db: Db, userId: UserId, input: CreateInput, now: DateTime)
    ensures var t := CreatedTemplate(db, userId, input, now);
      var made := Draft(db, userId, input, now).1;
      var names := TagNames(input.tags);
      && |t.templateTags| == |names|
      && (forall k :: 0 <= k < |names| ==> t.templateTags[k].templateId == t.id && Labels(db.tags, made, t.templateTags[k].tagId, names[k]))
      && (forall k :: 0 <= k < |names| && FindTagByName(db.tags, names[k]).Some? ==>
            t.templateTags[k].tagId == FindTagByName(db.tags, names[k]).value.id)
      && (forall g :: g in made ==> g.name in names && FindTagByName(db.tags, g.name).None?)
  {
    var tid := db.nextGuid;
    var first := tid + 1 + |input.questions|;
    var names := TagNames(input.tags);
    var r := AttachTags(db.tags, tid, first, names);
    assert CreatedTemplate(db, userId, input, now).templateTags == r.links;
    assert Draft(db, userId, input, now).1 == r.made;
    AttachTagsLinks(db.tags, tid, first, names);
    AttachTagsReuse(db.tags, tid, first, names);
    AttachTagsMade(db.tags, tid, first, names);
  }

  /**
   * The created template's grants: those of `GrantsFor` over the listed
   * addresses, and there are none listed for a public template or a blank
   * list.
   */
  lemma CreatedTemplateGrants(db: Db, userId: UserId, input: CreateInput, now: DateTime)
    ensures var t := CreatedTemplate(db, userId, input, now);
      var emails := ListedEmails(t.isPublic, input.allowedUserEmails);
      && t.allowedUsers == GrantsFor(db, t.id, emails)
      && (t.isPublic || IsBlank(input.allowedUserEmails) ==> emails == [])
  {
  }

  /** The question loop: draws an id per posted question and numbers the questions by position. */
  method BuildQuestions(ctx: AppDbContext, tid: Guid, inputs: seq<QuestionInput>) returns (questions: seq<Question>)
    modifies ctx
    ensures questions == NewQuestions(tid, old(ctx.nextGuid), inputs)
    ensures ctx.Tables() == old(ctx.Tables()).(nextGuid := old(ctx.nextGuid) + |inputs|)
  {
    ghost var first := ctx.nextGuid;
    questions := [];
    var k := 0;
    while k < |inputs|
      invariant 0 <= k <= |inputs|
      invariant ctx.Tables() == old(ctx.Tables()).(nextGuid := first + k)
      invariant |questions| == k
      invariant forall i :: 0 <= i < k ==> questions[i] == NewQuestions(tid, first, inputs)[i]
    {
      var qid := ctx.NewGuid();
      var q := inputs[k];
      questions := questions + [Question(qid, tid, q.title, q.description, q.qtype, q.allowEmpty, k)];
      k := k + 1;
    }
  }

  /** The tag loop: reuses a stored tag of the same name, otherwise makes one with a fresh id. */
  method AttachTagsLoop(ctx: AppDbContext, tid: Guid, names: seq<string>) returns (attached: TagLinks)
    modifies ctx
    ensures attached == AttachTags(old(ctx.tags), tid, old(ctx.nextGuid), names)
    ensures ctx.Tables() == old(ctx.Tables()).(nextGuid := old(ctx.nextGuid) + |attached.made|)
  {
    ghost var first := ctx.nextGuid;
    attached := TagLinks([], []);
    var k := 0;
    while k < |names|
      invariant 0 <= k <= |names|
      invariant attached == AttachTags(old(ctx.tags), tid, first, names[..k])
      invariant ctx.Tables() == old(ctx.Tables()).(nextGuid := first + |attached.made|)
    {
      var found := FindTagByName(ctx.tags, names[k]);
      var tag;
      if found.Some? {
        tag := found.value;
      } else {
        var id := ctx.NewGuid();
        tag := Tag(id, names[k]);
        attached := attached.(made := attached.made + [tag]);
      }
      attached := attached.(links := attached.links + [TemplateTag(tid, tag.id)]);
      assert names[..k + 1][..k] == names[..k];
      k := k + 1;
    }
    assert names[..|names|] == names;
  }

  /** The e-mail loop: a "View" grant for each known listed user not granted yet. */
  method ViewGrantsLoop(users: seq<User>, tid: Guid, emails: seq<string>) returns (grants: seq<TemplateAccess>)
    ensures grants == ViewGrants(users, tid, emails)
  {
    grants := [];
    var k := 0;
    while k < |emails|
      invariant 0 <= k <= |emails|
      invariant grants == ViewGrants(users, tid, emails[..k])
    {
      var user := FindUserByEmail(users, emails[k]);
      if user.Some? && !HasGrantFor(grants, tid, user.value.id) {
        grants := grants + [TemplateAccess(tid, user.value.id, ViewAccess)];
      }
      assert emails[..k + 1][..k] == emails[..k];
      k := k + 1;
    }
    assert emails[..|emails|] == emails;
  }

  /** The draft is the template with the given questions and tag links, and the tags those links made. */
  lemma DraftParts(db: Db, userId: UserId, input: CreateInput, now: DateTime, questions: seq<Question>, attached: TagLinks)
    requires questions == NewQuestions(db.nextGuid, db.nextGuid + 1, input.questions)
    requires attached == AttachTags(db.tags, db.nextGuid, db.nextGuid + 1 + |input.questions|, TagNames(input.tags))
    ensures Draft(db, userId, input, now).1 == attached.made
    ensures Draft(db, userId, input, now).0 == Template(db.nextGuid, input.title, input.description, input.topic, userId,
      input.visibility == PublicVisibility, now, now, 0, questions, [], attached.links)
  {
  }

  /** The template `Create` builds before the save, drawing its own id, one per question and one per made tag. */
  method BuildTemplate(ctx: AppDbContext, userId: UserId, input: CreateInput, now: DateTime) returns (template: Template, made: seq<Tag>)
    modifies ctx
    ensures made == Draft(old(ctx.Tables()), userId, input, now).1
    ensures ctx.Tables() == IdsDrawn(old(ctx.Tables()), input, made)
    ensures template == Draft(old(ctx.Tables()), userId, input, now).0.(allowedUsers :=
      ViewGrants(old(ctx.users), old(ctx.nextGuid), ListedEmails(input.visibility == PublicVisibility, input.allowedUserEmails)))
  {
    ghost var db := ctx.Tables();
    var tid := ctx.NewGuid();
    var questions := BuildQuestions(ctx, tid, input.questions);
    var names := TagNames(input.tags);
    var attached := AttachTagsLoop(ctx, tid, names);
    DraftParts(db, userId, input, now, questions, attached);
    var isPublic := input.visibility == PublicVisibility;
    var grants := ViewGrantsLoop(ctx.users, tid, ListedEmails(isPublic, input.allowedUserEmails));
    template := Template(tid, input.title, input.description, input.topic, userId, isPublic,
                         now, now, 0, questions, grants, attached.links);
    made := attached.made;
  }

  /** POST `Create`, drawing ids one at a time as it goes. */
  method Create(ctx: AppDbContext, userId: UserId, input: CreateInput, now: DateTime, valid: bool) returns (r: ActionResult)
    modifies ctx
    ensures (ctx.Tables(), r) == CreateEffect(old(ctx.Tables()), userId, input, now, valid)
  {
    if !valid {
      return ShowForm;
    }
    var template, made := BuildTemplate(ctx, userId, input, now);
    assert TemplateService.WithAdminGrantsOnce(ctx.Tables(), template) == CreatedTemplate(old(ctx.Tables()), userId, input, now);
    var _, stored := TemplateService.CreateTemplateAsync(ctx, template);
    if stored {
      ctx.tags := ctx.tags + made;
      r := RedirectToIndex;
    } else {
      r := ServerError;
    }
  }
}
