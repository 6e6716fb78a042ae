# Forms application: a verified model of its service and controller logic

This project models the core of an ASP.NET MVC / Entity Framework Core forms
application in Dafny, and proves properties of that model. In the application,
users build **templates** (questionnaires with ordered questions, tags, and
per-user access grants), fill them in as **forms**, comment on and like
templates and answers, and search templates. Administrators manage roles,
blocking and deletion of users.

The database context becomes a class, `Data.AppDbContext`:

- It holds one `seq` field per table: templates, forms, comments, likes, tags
  and users.
- It holds the set of users in the Identity "Admin" role.
- It holds a counter that stands for `Guid.NewGuid()`.

A template owns its questions, access rows and tag links, and a form owns its
question snapshots and answers. Each of these is a datatype value inside its
owner's row, because they are deleted together.

Every operation that changes the store is modelled twice:

- **A pure effect function.** It maps the store's value (`Db`) and the inputs
  to the new store and the outcome. The lemmas state the service's promises
  about these functions.
- **A method.** It changes the context's fields in place, step by step as the
  service does, with loops and their invariants. Its `ensures` ties the new
  state to the effect function. The method for POST template `Edit` runs
  with nothing written between its load and its save; what another request
  writes in between is stated about the effect function only.

Queries are functions. The signed-in user, the clock, the outcome of model
validation, whether Identity manages to delete a user, and what another
request wrote between a load and a save are all parameters.

The modules follow the application's layout:

| Module | What it holds |
|---|---|
| `Seqs` | LINQ-like sequence operations and the stable descending sort behind `OrderBy`/`OrderByDescending` |
| `Text` | ASCII lower-casing, `Trim`, `Split`, `Contains` and white-space tests |
| `Entities` | The entities and `Db` |
| `Data` | The context |
| `SearchService` | Relevance search |
| `FormService` | Form creation, queries, submission and deletion |
| `FormsController` | POST `Edit`: the answer-saving action |
| `TemplateRepository` | Create, list, optimistic-concurrency update, cascade delete |
| `TemplateService` | Administrator grants, question reordering, the access check |
| `TemplatesController` | Access checks, POST `Create`, POST `Edit` |
| `SocialService` | Comments and like toggling |
| `AdminService` | Role toggle, block toggle, transactional user deletion |
| `AdminController` | `ManageUser` dispatch and `ToggleAdminRole` |

## Model

| member | source | states |
|---|---|---|
| Entities.Template.GetQuestionTypeCount | Features/Templates/Models/TemplateModel.cs:54-57 | A type's count never exceeds the number of questions, and it is 0 exactly when no question has that type |
| Entities.AddQuestionCount | Features/Templates/Models/TemplateModel.cs:54-57 | Adding a question of type t raises t's count by one and leaves the count of every other type unchanged |
| Entities.CanAddQuestionTypeLimit | Features/Templates/Models/TemplateModel.cs:48-52 | An addition the limit allows (fewer than four questions of that type) never takes the type past four questions |
| Entities.FindTemplate | Features/Templates/Repositories/TemplateRepository.cs:23-28 | Loading a template by id finds nothing exactly when no stored template has that id, and otherwise returns a stored template with that id |
| Entities.FindForm | Features/Forms/Services/FormService.cs:111 | Finding a form by key fails exactly when no stored form has that id, and otherwise returns a stored form with that id |
| Entities.FindUser | Features/Admin/Services/AdminService.cs:53 | `FindByIdAsync` fails exactly when no stored user has the id, and otherwise returns a stored user with that id |
| Entities.GrantOnceKeepsKeysUnique | Data/ApplicationDbContext.cs:115 | Granting once keeps every existing row in place and leaves a row for the key. It adds nothing but the new grant, adds that grant when no row had its key, and never repeats a (TemplateId, UserId) key |
| Data.AppDbContext.NewGuid | Features/Templates/Models/TemplateModel.cs:15 | A new id is the counter's current value, and the call changes nothing but advancing the counter past it |
| SearchService.TermsOf | Features/Search/Services/SearchService.cs:54-60 | A query never yields more terms than it has space-separated tokens |
| SearchService.NormalizeWellFormed | Features/Search/Services/SearchService.cs:56-58 | A token that survives becomes a term of at least two characters, in lower case, with no white space at either end |
| SearchService.TermsWellFormed | Features/Search/Services/SearchService.cs:54-60 | Every term of a query is trimmed, lower case and at least two characters long |
| SearchService.TermsEmptyIff | Features/Search/Services/SearchService.cs:54-60 | A query has no terms exactly when none of its tokens survives the trim and the length filter |
| SearchService.BlankQueryHasNoTerms | Features/Search/Services/SearchService.cs:34-43 | A blank query also has no terms, so the early blank check and the no-terms check agree |
| SearchService.ContainsLowered | Features/Search/Services/SearchService.cs:137-147 | Matching an already lower-cased field while ignoring case is the same as matching the original field |
| SearchService.TitleScoreCases | Features/Search/Services/SearchService.cs:120-129 | The title adds 5 exactly on a case-insensitive exact match, 3 exactly on a substring match that is not exact, and 0 when the term does not occur. The two bonuses are never both given |
| SearchService.TermScoreZeroIff | Features/Search/Services/SearchService.cs:118-148 | A term adds nothing to a template's score exactly when it occurs in none of the title, description, question descriptions, comments and tag names |
| SearchService.ScoreCoversMatchingTerms | Features/Search/Services/SearchService.cs:112-151 | The score is at least the number of terms that match some field of the template |
| SearchService.ScoreOfMatchingTemplate | Features/Search/Services/SearchService.cs:83-151 | A template that passes the all-terms filter scores at least the number of terms |
| SearchService.CalculateRelevanceScore | Features/Search/Services/SearchService.cs:112-151 | The loop's accumulated score is the sum over the terms of each term's contribution |
| SearchService.ScoreTerm | Features/Search/Services/SearchService.cs:120-147 | One pass of the scoring loop adds exactly that term's contribution |
| SearchService.FilterByTerms | Features/Search/Services/SearchService.cs:83-92 | Narrowing the query once per term keeps exactly the templates that match every term, in table order |
| SearchService.KeepRelevant | Features/Search/Services/SearchService.cs:98-104 | Scoring the candidates one at a time keeps exactly those scoring at least 1, in candidate order |
| SearchService.SearchTemplatesAsync | Features/Search/Services/SearchService.cs:30-110 | The service's step-by-step search returns what the search function specifies |
| SearchService.ThresholdKeepsAllCandidates | Features/Search/Services/SearchService.cs:98-104 | The minimum-score filter never drops a candidate that passed the term filter |
| SearchService.SearchMembership | Features/Search/Services/SearchService.cs:34-92 | A template is found exactly when all of the following hold: the query is not blank and has terms, the template is stored, it is public, owned by the requester, shared with them, or they are an administrator, and it matches every term ignoring case |
| SearchService.SearchOrdered | Features/Search/Services/SearchService.cs:98-107 | Every result scores at least `MinRelevanceScore`, and results come in non-increasing score order |
| SearchService.SearchStable | Features/Search/Services/SearchService.cs:105 | Templates with equal scores keep their table order |
| SearchService.SearchNoDuplicates | Features/Search/Services/SearchService.cs:95-107 | The result is a re-ordering of part of the table, so no template appears more often than it is stored, and none twice when the table has no repeats |
| SearchService.ShortTokensFindNothing | Features/Search/Services/SearchService.cs:40-43 | A query whose tokens all trim to fewer than two characters finds nothing |
| FormService.SnapshotsRestore | Features/Forms/Services/FormService.cs:29-37 | A snapshot loses nothing: the template's questions, every field and in order, can be read back from the form's snapshots |
| FormService.CreateFormMissingTemplate | Features/Forms/Services/FormService.cs:21-22 | Creating a form for a missing template fails and stores nothing |
| FormService.CreateFormStoresCopy | Features/Forms/Services/FormService.cs:24-41 | For a stored template, exactly one form is appended. It carries the given template and user, is not submitted, and has no answers. It holds one snapshot per question, copying title, description, type, AllowEmpty and order, with the question id as original id. No other table changes |
| FormService.CreateFormKeepsIds | Features/Forms/Services/FormService.cs:40-41 | Form ids stay unique and drawn from the id source, so a new form's id is new |
| FormService.SnapshotsSurviveTemplateEdits | Features/Forms/Services/FormService.cs:29-41 | Snapshots are copies. After a repository update of any template, or a renumbering of the form's template, the new form is still stored and still reads back the questions as they were at creation |
| FormService.CreateForm | Features/Forms/Services/FormService.cs:19-43 | The method stores the form the effect function describes |
| FormService.GetFormWithAnswersAndSnapshots | Features/Forms/Services/FormService.cs:57-66 | Loading returns nothing exactly when no form has the id, and otherwise a stored form with that id |
| FormService.UserFormsExact | Features/Forms/Services/FormService.cs:74-82 | A user's forms are exactly the stored forms with that user id, each as often as stored, by non-increasing `UpdatedAt`, ties in stored order |
| FormService.GetFormsByTemplate | Features/Forms/Services/FormService.cs:84-91 | A template's forms are exactly the stored forms with that template id |
| FormService.SubmitFormOnlyTouches | Features/Forms/Services/FormService.cs:68-72 | Submitting sets only the form's `UpdatedAt` to now. The submission flag, answers, snapshots, the other forms and the other tables are unchanged |
| FormService.SubmitForm | Features/Forms/Services/FormService.cs:68-72 | The method makes the change the effect function describes |
| FormService.DeleteFormExact | Features/Forms/Services/FormService.cs:109-117 | Deleting an unknown id changes nothing. Deleting a known one removes exactly that one form, with its answers and snapshots. A comment or like stays exactly when it is on none of those answers (the `AnswerId` cascades), and no other table changes. With unique keys no form with that id remains |
| FormService.DeleteFormAsync | Features/Forms/Services/FormService.cs:109-117 | The method makes the change the effect function describes: the form goes, and saving deletes the comments and likes on its answers |
| FormsController.PostedAnswers | Features/Forms/Controllers/FormsController.cs:83-107 | The loop adds at most one answer per snapshot, so never more answers than snapshots |
| FormsController.AnswersFor | Features/Forms/Controllers/FormsController.cs:83-107 | A form never gets more answers than it has snapshots, whatever ids they take |
| FormsController.ProcessingOrderAscending | Features/Forms/Controllers/FormsController.cs:83 | Snapshots are processed in ascending `Order`, each exactly once, with equal orders in stored order |
| FormsController.ProcessingOrderSameSnapshots | Features/Forms/Controllers/FormsController.cs:83 | The loop runs over every stored snapshot and no other |
| FormsController.CheckboxAlwaysAnswered | Features/Forms/Controllers/FormsController.cs:88-96 | A checkbox always gets an answer, "true" exactly when its raw value contains "true" and "false" otherwise |
| FormsController.OtherTypesTakeRawValue | Features/Forms/Controllers/FormsController.cs:85-96 | Any other question gets the raw value of field `Answers[<Order>].Value`, and gets an answer exactly when that value is non-empty or the question allows empty answers |
| FormsController.PostedSound | Features/Forms/Controllers/FormsController.cs:96-107 | Each answer the loop adds belongs to the form and comes from an answered snapshot, with that snapshot's original question id and value |
| FormsController.PostedComplete | Features/Forms/Controllers/FormsController.cs:96-107 | The loop adds an answer for every answered snapshot |
| FormsController.PostedOnePerQuestion | Features/Forms/Controllers/FormsController.cs:96-107 | With one snapshot per question, the loop answers no question twice |
| FormsController.AnswersNumbered | Features/Forms/Controllers/FormsController.cs:98-106 | Giving the new answers their fresh ids changes nothing else: the k-th saved answer is the k-th built one under the k-th id drawn |
| FormsController.AnswersSound | Features/Forms/Controllers/FormsController.cs:96-107 | Every saved answer, under whatever id, belongs to the form and comes from an answered snapshot, with that snapshot's original question id and value |
| FormsController.AnswersComplete | Features/Forms/Controllers/FormsController.cs:96-107 | Every answered snapshot has a saved answer |
| FormsController.AnswersOnePerQuestion | Features/Forms/Controllers/FormsController.cs:96-107 | With one snapshot per question, no question is answered twice among the saved answers |
| FormsController.AnswersMatchSnapshots | Features/Forms/Controllers/FormsController.cs:75-107 | The answers saved are exactly one per answered snapshot, in processing order. None comes from an unanswered snapshot, at most one comes per question, and their ids are fresh and pairwise distinct |
| Entities.CascadeAnswersExact | Data/ApplicationDbContext.cs:48-51 | Removing answers keeps exactly the comments and likes that are on none of them, and changes no other table (the `AnswerId` cascades, lines 48-51 and 101-104) |
| Entities.CascadeFormAnswersExact | Data/ApplicationDbContext.cs:101-104 | Removing the answers of a set of forms keeps exactly the comments and likes on no answer of those forms, and changes no other table |
| Data.AppDbContext.SaveAnswerDeletions | Data/ApplicationDbContext.cs:48-51 | Saving deleted answers removes exactly the comments and likes on them and changes no other table |
| FormsController.EditRejects | Features/Forms/Controllers/FormsController.cs:62-73 | An unknown form is reported as not found, and a form without snapshots as having no questions. In either case, or when a draft fails validation, nothing changes |
| FormsController.EditReplacesAnswers | Features/Forms/Controllers/FormsController.cs:75-135 | A successful save changes only that form. Its old answers are gone, and with them every comment and like on them, while every other comment and like stays. Its new answers are exactly those built from the posted fields, under fresh ids drawn from the counter. Its snapshots are untouched and it is never un-submitted. "submit" marks it submitted and keeps `UpdatedAt`; anything else sets `UpdatedAt` to now |
| FormsController.EditIdempotent | Features/Forms/Controllers/FormsController.cs:75-122 | Saving the same posted fields again succeeds again, with the same answers under new ids and the same submission state |
| FormsController.AnswersForStep | Features/Forms/Controllers/FormsController.cs:83-107 | One more snapshot processed adds its answer, when it gets one, under the next fresh id, and nothing otherwise |
| FormsController.ReadAnswer | Features/Forms/Controllers/FormsController.cs:85-107 | One pass of the loop yields the snapshot's answer exactly when the snapshot is answered, and nothing otherwise |
| FormsController.BuildAnswers | Features/Forms/Controllers/FormsController.cs:83-108 | The answer loop builds exactly the specified answers, numbered from the counter |
| FormsController.SaveForm | Features/Forms/Controllers/FormsController.cs:75-79 | Saving removes the old answers with the comments and likes on them, draws the new answers' ids, writes the form and changes nothing else |
| FormsController.Edit | Features/Forms/Controllers/FormsController.cs:58-139 | The action's new state and outcome are the effect function's |
| TemplateRepository.CreateAddsExactly | Features/Templates/Repositories/TemplateRepository.cs:16-21 | The template is stored exactly when its access rows and tag links have unique keys. It is then appended and nothing else changes; otherwise nothing changes |
| TemplateRepository.CreateTemplateAsync | Features/Templates/Repositories/TemplateRepository.cs:16-21 | The method makes the change the effect function describes |
| TemplateRepository.GetTemplatesByUserId | Features/Templates/Repositories/TemplateRepository.cs:31-37 | A user's templates are exactly the stored templates with that user id |
| TemplateRepository.UpdateKeepsOtherRows | Features/Templates/Repositories/TemplateRepository.cs:43-46 | A successful update keeps the number of rows and every other template, and changes no other table |
| TemplateRepository.UpdateStoresCallerRow | Features/Templates/Repositories/TemplateRepository.cs:43-46 | When the stored version is the caller's, the row afterwards is what the save writes over it: the caller's root columns under a new version, and each child collection the caller's own only where it differs from the one loaded |
| TemplateRepository.UpdateSucceedsIffCurrent | Features/Templates/Repositories/TemplateRepository.cs:39-46 | An update succeeds exactly when the stored row still has the caller's version token. The row then holds the caller's root columns under a different version. A child collection the caller left as loaded keeps the stored one; a changed one is written whole. When nothing else wrote since the load, the row is exactly the caller's template. No other row or table changes |
| TemplateRepository.StaleUpdateChangesNothing | Features/Templates/Repositories/TemplateRepository.cs:48-57 | A failed update changes nothing. A vanished row gives "no template". A row with another version is a conflict that hands back the caller's template with the stored version token |
| TemplateRepository.UpdateTemplateAsync | Features/Templates/Repositories/TemplateRepository.cs:39-59 | The method makes the change and gives the result the effect function describes |
| TemplateRepository.DeleteUnknownTemplate | Features/Templates/Repositories/TemplateRepository.cs:63-75 | Deleting an unknown template changes nothing |
| TemplateRepository.DeleteRemovesEverythingOfTemplate | Features/Templates/Repositories/TemplateRepository.cs:75-88 | The template goes with its questions, access rows and tag links, and so do its forms, its comments and likes, and the comments and likes on its forms' answers. A comment or like stays exactly when it is on neither. Every other template and form stays, and so do the tag, user and role tables |
| TemplateRepository.DeleteTemplateCascades | Features/Templates/Repositories/TemplateRepository.cs:78-82 | A template deletion keeps exactly the comments and likes on neither the template nor an answer of one of its forms |
| TemplateRepository.DeleteTemplateAsync | Features/Templates/Repositories/TemplateRepository.cs:61-90 | The method makes the change the effect function describes, including the comments and likes the save deletes with the removed answers |
| TemplateService.AdminUsers | Features/Templates/Services/TemplateService.cs:34 | The role's users are exactly the stored users in the "Admin" role |
| TemplateService.FullGrantsExact | Features/Templates/Services/TemplateService.cs:36-43 | One "Full" grant on the template per administrator, in order |
| TemplateService.AdminGrantsAdded | Features/Templates/Services/TemplateService.cs:32-45 | As written, the template keeps its grants and gains a "Full" grant for every administrator, whether or not one already has a row |
| TemplateService.AdminAlreadyGrantedBreaksCreate | Features/Templates/Services/TemplateService.cs:36-45 | As written, an administrator who already holds a row on the new template gets a second row with the same key, and the store refuses the template |
| TemplateService.AdminGrantsOnceExact | Features/Templates/Services/TemplateService.cs:36-43 | Granting administrators once keeps the existing rows and leaves every administrator with a row. It gives "Full" access to each administrator that had none, adds nothing else, and keeps keys unique |
| TemplateService.AdminGrantsOnceAdded | Features/Templates/Services/TemplateService.cs:32-45 | Creation changes only the template's grants. Every administrator ends with a row, those without one get "Full" access, no other row is added, and an insertable template stays insertable |
| TemplateService.AdminGrantsOnceAsWritten | Features/Templates/Services/TemplateService.cs:36-43 | Administrators listed once each, none of whom holds a row on the template yet, get exactly the rows the unconditional loop adds |
| TemplateService.WithAdminGrantsOnceAsWritten | Features/Templates/Services/TemplateService.cs:32-45 | When user ids are unique and no administrator holds a row on the template, granting each administrator once gives the same template as the code as written |
| TemplateService.CreateTemplateAsync | Features/Templates/Services/TemplateService.cs:32-45 | The method stores the template with administrators granted once, as the repository's effect function describes |
| TemplateService.ReorderChangesOnlyOrder | Features/Templates/Services/TemplateService.cs:124-127 | A reorder changes only `Order`. Each question's order is the first index of its id in the list, or -1 exactly when the id is not listed |
| TemplateService.ReorderByPermutation | Features/Templates/Services/TemplateService.cs:124-127 | When the list is a permutation of the distinct question ids, the orders become exactly 0..n-1: each in range, no two equal, and the k-th listed question gets k |
| TemplateService.ReorderStored | Features/Templates/Services/TemplateService.cs:116-130 | Reordering an unknown template fails and changes nothing. Otherwise the template is written back with renumbered questions and a new version, and no other template changes |
| TemplateService.ReorderQuestions | Features/Templates/Services/TemplateService.cs:116-130 | The renumbering loop and the write make the change the effect function describes |
| TemplateService.AccessIff | Features/Templates/Services/TemplateService.cs:133-150 | Access is denied when the template or the user is missing, even for a public template. Otherwise it is granted exactly to an administrator, on a public template, to the owner, or to a user with an access row |
| TemplateService.TemplateExistsAfterCreateAndDelete | Features/Templates/Services/TemplateService.cs:153-156 | A template the repository stores exists from then on. A deleted template no longer exists when template ids are unique. A deletion leaves whether any other id exists unchanged |
| TemplatesController.DetailsOutcomes | Features/Templates/Controllers/TemplatesController.cs:53-81 | A missing template is not found. A public one is shown to anyone. A private one sends an anonymous visitor to login, is shown to its owner, an administrator or a granted user, and is forbidden to anyone else |
| TemplatesController.DetailsAgreesWithAccessCheck | Features/Templates/Controllers/TemplatesController.cs:61-78 | For a stored user whose role claim matches the role table, the page is shown exactly when the service's access check grants access |
| TemplatesController.OwnerOrAdminGuard | Features/Templates/Controllers/TemplatesController.cs:174-187 | The check of GET `Edit` and of `Delete`: a missing template is not found, and access is allowed exactly to its owner or an administrator; an access row is not enough |
| TemplatesController.Responses | Features/Templates/Controllers/TemplatesController.cs:295-308 | Responses are shown exactly to the owner or an administrator: the template's title and exactly the forms filled in from it |
| TemplatesController.DeleteOnlyByOwnerOrAdmin | Features/Templates/Controllers/TemplatesController.cs:264-282 | Only the owner or an administrator deletes, and anyone else changes nothing. A deletion leaves no form, comment or like of the template and keeps the tag, user and role tables |
| TemplatesController.DeleteConfirmed | Features/Templates/Controllers/TemplatesController.cs:264-282 | The action makes the change the effect function describes |
| TemplatesController.StrangerReorders | Features/Templates/Controllers/TemplatesController.cs:287-291 | As written, a user who is neither owner nor administrator renumbers another user's template |
| TemplatesController.ReorderOnlyByOwnerOrAdmin | Features/Templates/Controllers/TemplatesController.cs:287-291 | With the owner-or-administrator check, only they renumber, exactly as the service does, and anyone else changes nothing |
| TemplatesController.ReorderQuestions | Features/Templates/Controllers/TemplatesController.cs:287-291 | The action's new state and outcome are the (owner-or-administrator checked) effect function's |
| TemplatesController.StrangerEdits | Features/Templates/Controllers/TemplatesController.cs:214-239 | As written, a user who is neither owner nor administrator overwrites another user's template title |
| TemplatesController.EditCopiesThreeFields | Features/Templates/Controllers/TemplatesController.cs:214-232 | An id mismatch is not found and an invalid model is shown again. Otherwise only the owner or an administrator saves: the loaded template with just title, description and topic replaced, under a new version, with every other template kept. Anyone else changes nothing |
| TemplatesController.EditConcurrentChange | Features/Templates/Controllers/TemplatesController.cs:220-238 | A row changed by another request between load and save becomes a model error, and the store stays as that request left it. A row deleted meanwhile still redirects, and nothing is written. A row saved meanwhile under the same version gets the posted title, description and topic over the loaded root columns, keeps the questions, access rows and tag links the other request stored, and no other row changes |
| TemplatesController.Edit | Features/Templates/Controllers/TemplatesController.cs:214-239 | With nothing written between load and save, the action's new state and outcome are the (owner-or-administrator checked) effect function's |
| TemplatesController.QuestionsNumbered | Features/Templates/Controllers/TemplatesController.cs:109-116 | The i-th posted question becomes a question of the template with order i and the posted fields. The ids are distinct, and reordering by their own id list changes nothing |
| TemplatesController.NormalizedBlank | Features/Templates/Controllers/TemplatesController.cs:122-124 | A trimmed, lower-cased piece is blank exactly when the piece was |
| TemplatesController.NormalizedNameWellFormed | Features/Templates/Controllers/TemplatesController.cs:122-123 | A name from a non-blank piece is non-empty and lower case, has no white space at either end, and has no comma when the piece had none |
| TemplatesController.NormalizedTagNamesExact | Features/Templates/Controllers/TemplatesController.cs:122-124 | A name is kept exactly when it is the normalised form of a non-blank piece |
| TemplatesController.TagNamesWellFormed | Features/Templates/Controllers/TemplatesController.cs:120-125 | Tag names are the trimmed, lower-cased, non-blank comma-separated pieces, each once: no duplicates, no commas, no surrounding white space, and every non-blank piece gives a name |
| TemplatesController.FindTagByName | Features/Templates/Controllers/TemplatesController.cs:130 | Looking a tag up by name fails exactly when no stored tag has that name, and otherwise returns a stored tag with that name |
| TemplatesController.AttachTags | Features/Templates/Controllers/TemplatesController.cs:127-144 | One tag link per name |
| TemplatesController.AttachTagsMade | Features/Templates/Controllers/TemplatesController.cs:130-136 | A tag is made only for a listed name that no stored tag has, and made tags take consecutive ids starting at the first free id |
| TemplatesController.AttachTagsLinks | Features/Templates/Controllers/TemplatesController.cs:139-143 | The k-th link joins the template to a tag named by the k-th name, stored or made for it |
| TemplatesController.AttachTagsReuse | Features/Templates/Controllers/TemplatesController.cs:130-131 | A name a stored tag has is linked to that stored tag, and no new one is made |
| TemplatesController.AttachedLinksDistinct | Features/Templates/Controllers/TemplatesController.cs:125-143 | With distinct names and fresh ids, the tag table stays keyed uniquely and no two links repeat a tag |
| TemplatesController.MadeTagsFresh | Features/Templates/Controllers/TemplatesController.cs:130-136 | Made tags keep the tag ids unique and below the next fresh id |
| TemplatesController.TrimmedEmails | Features/Templates/Controllers/TemplatesController.cs:149-151 | Every listed address is a non-blank, trimmed piece of the posted list |
| TemplatesController.ListedEmails | Features/Templates/Controllers/TemplatesController.cs:147 | A public template or a blank list yields no addresses |
| TemplatesController.FindUserByEmail | Features/Templates/Controllers/TemplatesController.cs:155 | Looking a user up by e-mail fails exactly when no stored address matches ignoring case, and otherwise returns a stored user whose address matches |
| TemplatesController.ViewGrantsAsWrittenCover | Features/Templates/Controllers/TemplatesController.cs:153-164 | As written, every listed address of a known user leaves a grant for that user |
| TemplatesController.RepeatedEmailRepeatsKey | Features/Templates/Controllers/TemplatesController.cs:153-164 | As written, two listed addresses of one user give two rows with the same (TemplateId, UserId) key |
| TemplatesController.SameAddressTwice | Features/Templates/Controllers/TemplatesController.cs:153-164 | A concrete case: one address listed twice, in two spellings, repeats a key |
| TemplatesController.ViewGrantsExact | Features/Templates/Controllers/TemplatesController.cs:147-165 | Granting each user once gives each known listed user a "View" row, skips unknown addresses, makes no other row, and repeats no key |
| TemplatesController.RepeatedEmailFailsCreate | Features/Templates/Controllers/TemplatesController.cs:147-167 | As written, a private template listing one known user twice is not created: the request fails and no template or tag is stored |
| TemplatesController.ListedAdminFailsCreate | Features/Templates/Controllers/TemplatesController.cs:147-167 | As written, a private template whose list names an administrator is not created: the request fails and no template or tag is stored |
| TemplatesController.GrantsForExact | Features/Templates/Controllers/TemplatesController.cs:147-167 | Corrected: Every known listed user and every administrator holds a row. Each row is a "View" grant for a listed user or a "Full" grant for an administrator, and no key repeats |
| TemplatesController.CreatedTemplateInsertable | Features/Templates/Controllers/TemplatesController.cs:97-167 | Corrected: The built template's access rows and tag links have unique keys, so the store accepts it |
| TemplatesController.CreateStoresTemplate | Features/Templates/Controllers/TemplatesController.cs:97-169 | Corrected: On a store with well-formed tag keys, a valid create always succeeds. It appends the built template and the made tags, draws the ids it used, changes nothing else, and keeps the tag keys well formed |
| TemplatesController.CreatedTemplateFields | Features/Templates/Controllers/TemplatesController.cs:102-117 | The template belongs to the caller and carries the posted title, description and topic. It is public exactly when the visibility is "public". Its questions are the posted ones, numbered 0..n-1 in posted order |
| TemplatesController.CreatedTemplateTags | Features/Templates/Controllers/TemplatesController.cs:119-145 | The template links each tag name once, to the stored tag of that name if there is one and otherwise to a tag made for it |
| TemplatesController.CreatedTemplateGrants | Features/Templates/Controllers/TemplatesController.cs:147-165 | Corrected: The template's grants are those for its listed addresses plus the administrators' grants, and no address is listed for a public template or a blank list |
| TemplatesController.ViewGrantsAsWrittenAgree | Features/Templates/Controllers/TemplatesController.cs:153-164 | When the listed addresses name distinct users, the corrected e-mail loop produces exactly the rows of the loop as written |
| TemplatesController.CreateAgreesWithAsWritten | Features/Templates/Controllers/TemplatesController.cs:97-171 | When user ids are unique and the listed addresses name distinct users, none of them an administrator, the corrected create gives exactly the new store and outcome of the code as written |
| TemplatesController.BuildQuestions | Features/Templates/Controllers/TemplatesController.cs:109-116 | The question loop builds the specified questions and draws one id per question |
| TemplatesController.AttachTagsLoop | Features/Templates/Controllers/TemplatesController.cs:127-144 | The tag loop builds the specified links and draws one id per made tag |
| TemplatesController.ViewGrantsLoop | Features/Templates/Controllers/TemplatesController.cs:153-164 | Corrected: the e-mail loop builds the specified grants, each listed user granted once |
| TemplatesController.BuildTemplate | Features/Templates/Controllers/TemplatesController.cs:101-165 | Corrected: the template built before the save is the specified draft with the specified grants (each user once), and only the drawn ids change the store |
| TemplatesController.Create | Features/Templates/Controllers/TemplatesController.cs:97-171 | The action's new state and outcome are the effect function's |
| SocialService.AddCommentAppendsOne | Features/Social/Services/SocialService.cs:20-31 | Exactly one comment is appended, with the given template, user and content and the current time. The template's comments gain just it, and nothing else changes |
| SocialService.AddCommentAsync | Features/Social/Services/SocialService.cs:20-31 | The method makes the change the effect function describes |
| SocialService.AddAnswerCommentReturnsStored | Features/Social/Services/SocialService.cs:83-95 | The returned comment is the one appended on the answer, and it is among the answer's comments afterwards |
| SocialService.AddCommentToAnswerAsync | Features/Social/Services/SocialService.cs:83-95 | The method makes the change and returns the comment the effect function describes |
| SocialService.CommentsExact | Features/Social/Services/SocialService.cs:53-60 | A template's comments are exactly the stored comments on it, each as often as stored, newest first |
| SocialService.AnswerCommentsExact | Features/Social/Services/SocialService.cs:74-81 | An answer's comments are exactly the stored comments on it, each as often as stored, newest first |
| SocialService.GetLikeCount | Features/Social/Services/SocialService.cs:62-66 | The like count is at most the number of likes, and 0 exactly when no like is of the template |
| SocialService.GetLikeCountForAnswer | Features/Social/Services/SocialService.cs:122-125 | The answer's like count is at most the number of likes, and 0 exactly when no like is of the answer |
| SocialService.HasLiked | Features/Social/Services/SocialService.cs:68-72 | True exactly when the user has a like of the template, and then the count is positive |
| SocialService.HasLikedAnswer | Features/Social/Services/SocialService.cs:127-130 | True exactly when the user has a like of the answer, and then the answer's count is positive |
| SocialService.ToggleAdds | Features/Social/Services/SocialService.cs:42-49 | With no like found, the toggle appends exactly the new like, and every count moves by one if it counts it |
| SocialService.ToggleRemoves | Features/Social/Services/SocialService.cs:35-41 | With a like found, the toggle removes exactly the first one, and every count moves down by one if it counted it |
| SocialService.ToggleWellFormed | Features/Social/Services/SocialService.cs:33-51 | In a table without repeated rows, where each like is of a template or of an answer, a toggle flips whether the user likes the item, keeps the table well formed, and a second toggle restores the likes |
| SocialService.ToggleLikeExact | Features/Social/Services/SocialService.cs:33-51 | Without a like, exactly one like is added and the count rises by one. With one, the first found is removed and the count falls by one. The likes of other (item, user) pairs, the other templates' counts and the other tables are unchanged |
| SocialService.ToggleLikeTwice | Features/Social/Services/SocialService.cs:33-51 | In a well-formed likes table, toggling flips "has liked", keeps the table well formed, and toggling twice gives back the same likes |
| SocialService.ToggleLikeAsync | Features/Social/Services/SocialService.cs:33-51 | The method makes the change the effect function describes |
| SocialService.ToggleAnswerLikeReports | Features/Social/Services/SocialService.cs:97-120 | "Has liked" is reported exactly when no like existed before, and the count returned is the answer's count after the toggle, one more or one less. Other pairs' likes are kept, and in a well-formed table the report is whether the user likes the answer now |
| SocialService.ToggleLikeForAnswerAsync | Features/Social/Services/SocialService.cs:97-120 | The method makes the change and returns what the effect function describes |
| AdminService.ToggleAdminExact | Features/Admin/Services/AdminService.cs:51-68 | The toggle succeeds exactly for a stored user, and changes only that user's membership. A non-admin becomes admin. An admin loses the role exactly when another stored user holds it, which is the intended meaning of the guard at line 60 |
| AdminService.ToggleAdminKeepsAnAdmin | Features/Admin/Services/AdminService.cs:56-61 | The toggle never leaves the users without an administrator when they had one |
| AdminService.ToggleAdminAsync | Features/Admin/Services/AdminService.cs:51-68 | The method makes the change the effect function describes |
| AdminService.ToggleBlockFlips | Features/Admin/Services/AdminService.cs:70-81 | The toggle succeeds exactly for a stored user. It clears a blocked user's lockout end and sets anyone else's to the largest date, so before that date it flips "blocked", and it changes only that user's lockout end |
| AdminService.ToggleBlockAsync | Features/Admin/Services/AdminService.cs:70-81 | The method makes the change the effect function describes |
| AdminService.DeleteUserAllOrNothing | Features/Admin/Services/AdminService.cs:100-147 | An unknown user gives "not found" and a deletion Identity refuses fails. In both cases nothing changes, and otherwise the user is deleted |
| AdminService.DeleteUserRemovesEverything | Features/Admin/Services/AdminService.cs:106-141 | After a deletion none of the following remain: the user, their role, their templates with those templates' forms, comments and likes, their own forms, comments, likes and access rows, and any comment or like on an answer of a removed form. Tags stay |
| AdminService.DeleteUserKeepsOthers | Features/Admin/Services/AdminService.cs:106-138 | A deletion keeps every other user and every form that is neither the user's nor on the user's templates. It keeps every comment and like that is not the user's, not on the user's templates and not on an answer of a removed form. Only the user leaves the role |
| AdminService.DeleteUserCascades | Features/Admin/Services/AdminService.cs:106-133 | Of the comments and likes the transaction leaves, a deletion keeps exactly those on no answer of the user's forms or of the forms on the user's templates |
| AdminService.DeleteUserKeepsTemplates | Features/Admin/Services/AdminService.cs:119-125 | Every template the user does not own stays, without the user's access rows |
| AdminService.RemoveTemplateRows | Features/Admin/Services/AdminService.cs:109-119 | One pass of the template loop removes that template and the forms, comments and likes on it |
| AdminService.RemoveOwnTemplates | Features/Admin/Services/AdminService.cs:107-120 | The template loop removes the user's templates one by one, each with what is on it |
| AdminService.RemoveOwnedTemplates | Features/Admin/Services/AdminService.cs:107-120 | After the template loop, exactly the rows keyed by the user's templates are gone |
| AdminService.RemoveDirectRows | Features/Admin/Services/AdminService.cs:123-125 | The user's comments, likes and access rows go, read as the rows carrying the user's id (an assumption stated under Left out) |
| AdminService.RemoveOwnForms | Features/Admin/Services/AdminService.cs:128-133 | The form loop removes the user's forms one by one |
| AdminService.RemoveOwnedForms | Features/Admin/Services/AdminService.cs:128-133 | After the form loop, exactly the user's forms are gone |
| AdminService.RemoveTemplatesAndOwnRows | Features/Admin/Services/AdminService.cs:107-125 | The transaction up to the form loop leaves the specified templates, comments and likes |
| AdminService.RemoveUserRows | Features/Admin/Services/AdminService.cs:106-133 | The transaction's removals leave the store `Transacted` describes: the kept templates, forms, comments and likes, with every other table unchanged |
| AdminService.CommitDeletion | Features/Admin/Services/AdminService.cs:134-139 | Identity's delete removes the user and their role membership, and its save deletes the comments and likes on the removed answers |
| AdminService.Rollback | Features/Admin/Services/AdminService.cs:143-147 | The rollback restores the store as it was when the transaction began |
| AdminService.DeleteUserAsync | Features/Admin/Services/AdminService.cs:83-148 | The method makes the change and gives the outcome the effect function describes |
| AdminController.ManageUserOutcomes | Features/Admin/Controllers/AdminController.cs:28-38 | A non-administrator is forbidden. An administrator is redirected exactly for a known action on a stored user (and, for a deletion, one Identity deletes). An unknown action or user is not found, and a refused deletion is a server error. Nothing changes unless the action redirects |
| AdminController.ManageUser | Features/Admin/Controllers/AdminController.cs:28-39 | The action's new state and outcome are the effect function's |
| AdminController.ToggleAdminRoleFlips | Features/Admin/Controllers/AdminController.cs:42-68 | A non-administrator is forbidden. A call on oneself is refused with the error message. An unknown user is not found. Otherwise exactly that user's membership flips, and nothing else changes |
| AdminController.ToggleAdminRoleKeepsCaller | Features/Admin/Controllers/AdminController.cs:44-49 | An administrator never changes their own membership, so the role is never emptied by their call |
| AdminController.ToggleAdminRoleCanEmptyRole | Features/Admin/Controllers/AdminController.cs:57-65 | There is no last-administrator guard here: a caller whose cookie still carries the role can remove the only stored administrator |
| AdminController.ToggleAdminRole | Features/Admin/Controllers/AdminController.cs:42-68 | The action's new state and outcome are the effect function's |

## Left out

- I/O and plumbing are not modelled. This covers async/await, logging, TempData messages, view models, views and redirects (outcomes are result values). It also covers the SignalR comment hub, the Salesforce integration, the authentication service and application start-up.
- Real transactions and concurrency are not modelled. Each operation runs sequentially. The only interleaving modelled is a write by another request between a load and a save in POST template `Edit`, given as the store at the moment of the save.
- Entity Framework itself is not modelled. That includes change tracking, `Include`, and the order in which the database returns rows (tables are read in stored order). So is the relationship configuration, except the cascades and composite keys the operations depend on.
- Row ids of questions, snapshots, access rows and tag links are not modelled, because no modelled operation looks those rows up by id. Template, form, answer, tag and user ids are modelled; comments and likes refer to answers by answer id.
- Comment and like row ids are not modelled. The re-read of a new comment by its id (SocialService.cs line 94) is modelled as returning the comment just appended.
- Posted field names are modelled by their structure: `Answers[<Order>].Value` is `AnswerField(order)` and any other name is `Named(name)`. The decimal formatting of the order is not modelled; distinct orders name distinct fields, as their decimal forms do.
- Entity Framework change detection is modelled per collection on a template update: a child collection the caller changed is written whole, one left as loaded keeps the stored rows. Per-row change detection and the concurrency errors a child row could raise are not modelled.
- `Guid.NewGuid()` is a counter held with the tables, so fresh ids are distinct by construction.
- Null strings and null collections are not modelled; every string is a value.
- Case folding and white space are ASCII only. `ToLower`, `ToLowerInvariant` and `OrdinalIgnoreCase` become ASCII lower-casing. `EF.Functions.ILike(x, "%term%")` becomes a case-insensitive substring test, which ignores its wildcard characters.
- E-mail normalization is left out: Identity's `FindByEmailAsync` becomes a case-insensitive comparison of the whole address.
- The clock (`DateTime.UtcNow`, `DateTime.Now`) is a parameter given in ticks; time zones are not modelled.
- Model validation (`ModelState.IsValid`, `TryValidateModel`) is a boolean parameter.
- The `tag.Id == Guid.Empty` branch of POST `Create` (TemplatesController.cs line 133) is never taken, because a new tag is given an id when made. A made tag is stored with the template it is linked to.
- In `DeleteUserAsync`, the inner loop over a template's forms is modelled as removing every form with that template id, which is what the loaded collection holds.
- AdminService.RemoveDirectRows assumes that `user.Comments`, `user.Likes` and `user.TemplateAccesses` (ApplicationUser.cs lines 28-30) load the rows whose `UserId` is the user's id. The configuration does not declare this: ApplicationDbContext.cs lines 53-56, 106-110 and 120-123 map those foreign keys with `.WithMany()` and no inverse collection. Entity Framework may then bind the three collections to separate shadow keys and load them empty. In that case nothing is removed at AdminService.cs lines 123-125, and `DeleteAsync` fails on the Restrict keys for a user with a comment, like or access row left on another user's template. The model does not capture that failure; DeleteUserAsync, DeleteUserRemovesEverything and ManageUser rest on the same assumption.
- `ApplicationUser` profile fields (names, picture, language, theme) are not modelled; users carry only an id, an e-mail and a lockout end.
- The entity defaults are constants. Only `Form.IsSubmitted = false` is observable in the modelled operations, because POST `Create` sets `Topic`, `IsPublic` and `AllowEmpty` from the posted model.
- The following members are not part of this model: the administration `Index` action, `GetAllUsersAsync`, `GetFormWithAnswers`, `GetAllFormsAsync`, `UpdateFormAsync`, `GetAllTemplatesAsync`, `GetTemplateDetailsAsync`, and the GET actions of the controllers other than those that hold an access check. Only `IsBlocked`, the blocked test from `GetAllUsersAsync`, is modelled.
- FormsController.Edit: the catch-all exception handler that redirects after any failure is not modelled. Neither is the separate reload of answers in the `View` action.
- FormService.SubmitForm: the source receives the loaded form object; the model names it by id and updates the first stored form with that id.
- AdminService.DeleteUserKeepsOthers and AdminService.DeleteUserKeepsTemplates assume unique form ids and unique template ids respectively, and TemplatesController.CreateAgreesWithAsWritten assumes unique user ids. The tables' primary keys guarantee these; the model's tables do not enforce them.
- TemplateService.CreateTemplateAsync and TemplatesController.Create model the corrected behaviour (each user granted once), and so do the rows marked "Corrected:": TemplatesController.GrantsForExact, TemplatesController.CreatedTemplateInsertable, TemplatesController.CreateStoresTemplate, TemplatesController.CreatedTemplateGrants, TemplatesController.ViewGrantsLoop and TemplatesController.BuildTemplate. As written, a create whose list repeats a user or names an administrator fails. The behaviour as written is modelled beside them (see Findings), and TemplatesController.CreateAgreesWithAsWritten proves that both agree whenever the listed users are distinct and none is an administrator.
- AdminService.ToggleAdminAsync: the guard at AdminService.cs line 60 calls `IsInRoleAsync(...).Result` inside an Entity Framework `AnyAsync` predicate, which the query provider cannot translate. As written, the query throws after `RemoveFromRoleAsync` has already saved the removal, so the sole-administrator re-add never runs. The model gives the guard its intended meaning: another stored user holds the role.

## Findings

| source | as written | input that shows it | evidently intended | confidence | as-written member | corrected member |
|---|---|---|---|---|---|---|
| Features/Templates/Controllers/TemplatesController.cs:214-239 | POST `Edit` saves the posted title, description and topic for any signed-in user | A user who neither owns template T nor is an administrator posts `Edit(T.Id, {Id = T.Id, Title = "x"})` with a valid model: T's title becomes "x" | Only the owner or an administrator may edit, as GET `Edit` checks at lines 184-187 | not executed; high | TemplatesController.StrangerEdits | TemplatesController.EditCopiesThreeFields |
| Features/Templates/Controllers/TemplatesController.cs:287-291 | POST `ReorderQuestions` renumbers the questions of any template for any signed-in user | A user who neither owns T nor is an administrator posts `ReorderQuestions(T.Id, ids)`: T's question orders are rewritten and the answer is Ok | Only the owner or an administrator may change a template, as `Edit` and `Delete` check | not executed; high | TemplatesController.StrangerReorders | TemplatesController.ReorderOnlyByOwnerOrAdmin |
| Features/Templates/Controllers/TemplatesController.cs:153-164 | Each listed address of a known user adds a "View" row, repeats included | A private template with `AllowedUserEmails = "ann@example.com, Ann@Example.com"` for a stored user Ann: two rows with key (T, Ann), which the access table's composite key (Data/ApplicationDbContext.cs line 115) refuses, so the create fails | Each listed user is granted once | not executed; medium (relies on the store refusing a repeated key) | TemplatesController.RepeatedEmailFailsCreate | TemplatesController.ViewGrantsExact |
| Features/Templates/Services/TemplateService.cs:36-43 | A "Full" row is added for every administrator, even one already granted | A private template whose list names an administrator: their "View" row and their "Full" row share the key (T, admin), so the create fails | Every administrator ends with exactly one row on the new template | not executed; medium (relies on the store refusing a repeated key) | TemplatesController.ListedAdminFailsCreate | TemplateService.AdminGrantsOnceAdded |
