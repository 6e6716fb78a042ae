/**
 * Saving a form (the POST `Edit` action of the forms controller): the
 * answers are rebuilt from scratch from the posted fields, one snapshot at a
 * time in ascending `Order`, each new answer under a fresh id; the old
 * answers are removed, and the comments and likes on them go with them. A
 * "submit" action marks the form submitted, anything else saves a draft
 * with a new `UpdatedAt`.
 *
 * The posted form is a map from field names to their raw values (several
 * values under one name arrive joined by commas); a missing field reads as
 * the empty string. Whether model validation passes is a parameter.
 */
module FormsController {
  import opened Seqs
  import opened Text
  import opened Entities
  import opened Data

  const CheckboxType := "Checkbox"
  const SubmitAction := "submit"

  datatype EditOutcome =
    | FormNotFound   // redirect to Index with an error: no such form
    | NoQuestions    // redirect to Index with an error: the form has no snapshots
    | Submitted      // saved and marked submitted; redirect to View
    | Saved          // saved as a draft; redirect to Index
    | Invalid        // validation failed; the view is shown again and nothing is saved

  /**
   * The name of a posted field: `Answers[order].Value` (the field that
   * carries the answer of the question with order `order`), or any other
   * name. Distinct orders name distinct fields, as their decimal forms do.
   */
  datatype FieldName = AnswerField(order: int) | Named(name: string)

  /** The field that names the button pressed. */
  const ActionField := Named("action")

  /** `Request.Form[key].ToString()`. */
  function RawValue(fields: map<FieldName, string>, key: FieldName): string {
    if key in fields then fields[key] else ""
  }

  /** The field that carries the answer of the question with order `order`. */
  function AnswerKey(order: int): FieldName {
    AnswerField(order)
  }

  /** The value saved for snapshot `s`: the raw value, or "true"/"false" for a checkbox. */
  function AnswerValue(fields: map<FieldName, string>, s: QuestionSnapshot): string {
    var raw := RawValue(fields, AnswerKey(s.order));
    if s.qtype == CheckboxType then (if Contains(raw, "true") then "true" else "false") else raw
  }

  /** Whether snapshot `s` gets an answer: its value is non-empty or it may be left empty. */
  predicate Answered(fields: map<FieldName, string>, s: QuestionSnapshot) {
    AnswerValue(fields, s) != "" || s.allowEmpty
  }

  /** The answer saved for snapshot `s`, under the id `id`. */
  function AnswerOf(id: Guid, formId: Guid, fields: map<FieldName, string>, s: QuestionSnapshot): FormAnswer {
    FormAnswer(id, formId, s.originalQuestionId, AnswerValue(fields, s))
  }

  /** `a` is the answer of snapshot `s` on form `formId`, whatever its id. */
  predicate AnswerFor(a: FormAnswer, formId: Guid, fields: map<FieldName, string>, s: QuestionSnapshot) {
    a.formId == formId && a.questionId == s.originalQuestionId && a.value == AnswerValue(fields, s)
  }

  function NegOrder(s: QuestionSnapshot): int {
    -s.order
  }

  /** `QuestionSnapshots.OrderBy(q => q.Order)`: a stable ascending sort. */
  function ProcessingOrder(snapshots: seq<QuestionSnapshot>): seq<QuestionSnapshot> {
    SortByDescending(snapshots, NegOrder)
  }

  /**
   * The answers built from snapshots `ss` taken in the given order, as they
   * are before they get their ids (all of them id 0).
   */
  function PostedAnswers(formId: Guid, fields: map<FieldName, string>, ss: seq<QuestionSnapshot>): (r: seq<FormAnswer>)
    ensures |r| <= |ss|
    decreases |ss|
  {
    if ss == [] then []
    else
      var last := ss[|ss| - 1];
      PostedAnswers(formId, fields, ss[..|ss| - 1])
        + (if Answered(fields, last) then [AnswerOf(0, formId, fields, last)] else [])
  }

  /** `xs` under consecutive ids drawn from `firstId` on. */
  function Numbered(xs: seq<FormAnswer>, firstId: Guid): (r: seq<FormAnswer>)
    ensures |r| == |xs|
  {
    seq(|xs|, k requires 0 <= k < |xs| => xs[k].(id := firstId + k))
  }

  /** The answers built from snapshots `ss` in the given order, each under a fresh id (`Guid.NewGuid()`). */
  function AnswersFor(formId: Guid, fields: map<FieldName, string>, ss: seq<QuestionSnapshot>, firstId: Guid): (r: seq<FormAnswer>)
    ensures |r| <= |ss|
  {
    Numbered(PostedAnswers(formId, fields, ss), firstId)
  }

  /** The ids of `r` are increasing (so distinct), from `lo` on and below `hi`. */
  predicate IdsBetween(r: seq<FormAnswer>, lo: nat, hi: nat) {
    && (forall k :: 0 <= k < |r| ==> lo <= r[k].id < hi)
    && (forall i, j :: 0 <= i < j < |r| ==> r[i].id < r[j].id)
  }

  /**
   * The store once the answers `gone` are removed (with the comments and
   * likes on them) and `n` fresh ids are drawn.
   */
  function WithoutAnswers(db: Db, gone: seq<FormAnswer>, n: nat): Db {
    CascadeAnswers(db, AnswerIds(gone)).(nextGuid := db.nextGuid + n)
  }

  /** The new state and outcome of POST `Edit(id)` at time `now`. */
  function EditEffect(db: Db, id: Guid, fields: map<FieldName, string>, now: DateTime, valid: bool): (Db, EditOutcome) {
    var i := FindIndex(db.forms, HasFormId(id));
    if i < 0 then (db, FormNotFound)
    else
      var form := db.forms[i];
      if form.snapshots == [] then (db, NoQuestions)
      else
        var answers := AnswersFor(form.id, fields, ProcessingOrder(form.snapshots), db.nextGuid);
        var cleared := WithoutAnswers(db, form.answers, |answers|);
        if ActionField in fields && fields[ActionField] == SubmitAction then
          (cleared.(forms := db.forms[i := form.(answers := answers, isSubmitted := true)]), Submitted)
        else if valid then
          (cleared.(forms := db.forms[i := form.(answers := answers, updatedAt := now)]), Saved)
        else (db, Invalid)
  }

  // ---------------------------------------------------------------------
  // The answers
  // ---------------------------------------------------------------------

  /** Snapshots are taken in ascending `Order`, each exactly as often as it is stored; equal orders keep their stored order. */
  lemma ProcessingOrderAscending(snapshots: seq<QuestionSnapshot>)
    ensures var ss := ProcessingOrder(snapshots);
      && multiset(ss) == multiset(snapshots)
      && (forall i, j :: 0 <= i < j < |ss| ==> ss[i].order <= ss[j].order)
      && (forall k :: WithKey(ss, NegOrder, k) == WithKey(snapshots, NegOrder, k))
  {
    SortPermutes(snapshots, NegOrder);
    SortSorted(snapshots, NegOrder);
    forall k ensures WithKey(ProcessingOrder(snapshots), NegOrder, k) == WithKey(snapshots, NegOrder, k) {
      SortStable(snapshots, NegOrder, k);
    }
  }

  /**
   * A checkbox always gets an answer, and that answer is "true" exactly
   * when its raw value contains "true", and "false" otherwise.
   */
  lemma CheckboxAlwaysAnswered(fields: map<FieldName, string>, s: QuestionSnapshot)
    requires s.qtype == CheckboxType
    ensures Answered(fields, s)
    ensures AnswerValue(fields, s) == "true" <==> Contains(RawValue(fields, AnswerKey(s.order)), "true")
    ensures AnswerValue(fields, s) == "true" || AnswerValue(fields, s) == "false"
  {
  }

  /** Any other question is answered with the raw value, when that is non-empty or may be empty. */
  lemma OtherTypesTakeRawValue(fields: map<FieldName, string>, s: QuestionSnapshot)
    requires s.qtype != CheckboxType
    ensures AnswerValue(fields, s) == RawValue(fields, AnswerKey(s.order))
    ensures Answered(fields, s) <==> RawValue(fields, AnswerKey(s.order)) != "" || s.allowEmpty
  {
  }

  /**
   * Every answer belongs to the form and comes from a snapshot that is
   * answered, carrying that snapshot's original question id and value.
   */
  lemma {:induction false} PostedSound(formId: Guid, fields: map<FieldName, string>, ss: seq<QuestionSnapshot>)
    ensures forall a :: a in PostedAnswers(formId, fields, ss) ==>
      exists s :: s in ss && Answered(fields, s) && AnswerFor(a, formId, fields, s)
    decreases |ss|
  {
    if ss != [] {
      var init := ss[..|ss| - 1];
      PostedSound(formId, fields, init);
      forall a | a in PostedAnswers(formId, fields, ss)
        ensures exists s :: s in ss && Answered(fields, s) && AnswerFor(a, formId, fields, s)
      {
        if a in PostedAnswers(formId, fields, init) {
          var s :| s in init && Answered(fields, s) && AnswerFor(a, formId, fields, s);
          assert s in ss;
        } else {
          assert ss[|ss| - 1] in ss;
        }
      }
    }
  }

  /** Every answered snapshot has its answer. */
  lemma {:induction false} PostedComplete(formId: Guid, fields: map<FieldName, string>, ss: seq<QuestionSnapshot>)
    ensures forall s :: s in ss && Answered(fields, s) ==>
      exists a :: a in PostedAnswers(formId, fields, ss) && AnswerFor(a, formId, fields, s)
    decreases |ss|
  {
    if ss != [] {
      var init, last := ss[..|ss| - 1], ss[|ss| - 1];
      var prev := PostedAnswers(formId, fields, init);
      var r := PostedAnswers(formId, fields, ss);
      PostedComplete(formId, fields, init);
      forall s | s in ss && Answered(fields, s)
        ensures exists a :: a in r && AnswerFor(a, formId, fields, s)
      {
        if s == last {
          assert AnswerFor(r[|prev|], formId, fields, s);
        } else {
          assert s in init by {
            var k :| 0 <= k < |ss| && ss[k] == s;
            assert init[k] == s;
          }
          var a :| a in prev && AnswerFor(a, formId, fields, s);
          assert a in r;
        }
      }
    }
  }

  /** Snapshots are keyed by their original question id (a question is snapshotted once per form). */
  predicate KeyedByQuestion(ss: seq<QuestionSnapshot>) {
    forall i, j :: 0 <= i < j < |ss| ==> ss[i].originalQuestionId != ss[j].originalQuestionId
  }

  /** No two answers are for the same question. */
  predicate OneAnswerPerQuestion(r: seq<FormAnswer>) {
    forall i, j :: 0 <= i < j < |r| ==> r[i].questionId != r[j].questionId
  }

  lemma AppendAnswer(prev: seq<FormAnswer>, a: FormAnswer)
    requires OneAnswerPerQuestion(prev)
    requires forall b :: b in prev ==> b.questionId != a.questionId
    ensures OneAnswerPerQuestion(prev + [a])
  {
    var r := prev + [a];
    forall i, j | 0 <= i < j < |r| ensures r[i].questionId != r[j].questionId {
      assert r[i] == prev[i];
      if j < |prev| { assert r[j] == prev[j]; } else { assert prev[i] in prev; }
    }
  }

  /** With one snapshot per question, no question is answered twice. */
  lemma {:induction false} PostedOnePerQuestion(formId: Guid, fields: map<FieldName, string>, ss: seq<QuestionSnapshot>)
    requires KeyedByQuestion(ss)
    ensures OneAnswerPerQuestion(PostedAnswers(formId, fields, ss))
    decreases |ss|
  {
    if ss != [] {
      var init, last := ss[..|ss| - 1], ss[|ss| - 1];
      PostedOnePerQuestion(formId, fields, init);
      var prev := PostedAnswers(formId, fields, init);
      if Answered(fields, last) {
        PostedSound(formId, fields, init);
        forall a | a in prev ensures a.questionId != last.originalQuestionId {
          var s :| s in init && Answered(fields, s) && AnswerFor(a, formId, fields, s);
          var k :| 0 <= k < |init| && init[k] == s;
          assert ss[k] == s;
        }
        AppendAnswer(prev, AnswerOf(0, formId, fields, last));
      }
    }
  }

  /** Reordering snapshots keeps them keyed by question. */
  lemma KeyedByQuestionPermutation(xs: seq<QuestionSnapshot>, ys: seq<QuestionSnapshot>)
    requires multiset(ys) == multiset(xs)
    requires KeyedByQuestion(xs)
    ensures KeyedByQuestion(ys)
  {
    assert NoDuplicates(xs);
    NoDuplicatesPermutation(xs, ys);
    forall i, j | 0 <= i < j < |ys| ensures ys[i].originalQuestionId != ys[j].originalQuestionId {
      assert ys[i] in multiset(xs) && ys[j] in multiset(xs);
      var a :| 0 <= a < |xs| && xs[a] == ys[i];
      var b :| 0 <= b < |xs| && xs[b] == ys[j];
    }
  }

  /** Numbering changes only ids: the `k`-th answer is the `k`-th posted one under id `firstId + k`. */
  lemma AnswersNumbered(formId: Guid, fields: map<FieldName, string>, ss: seq<QuestionSnapshot>, firstId: Guid, k: nat)
    requires k < |PostedAnswers(formId, fields, ss)|
    ensures var xs, r := PostedAnswers(formId, fields, ss), AnswersFor(formId, fields, ss, firstId);
      k < |r| && xs[k] in xs && r[k] in r && r[k] == xs[k].(id := firstId + k)
  {
  }

  /** Every answer comes from an answered snapshot, with its original question id and value. */
  lemma AnswersSound(formId: Guid, fields: map<FieldName, string>, ss: seq<QuestionSnapshot>, firstId: Guid, a: FormAnswer)
    requires a in AnswersFor(formId, fields, ss, firstId)
    ensures exists s :: s in ss && Answered(fields, s) && AnswerFor(a, formId, fields, s)
  {
    var r := AnswersFor(formId, fields, ss, firstId);
    var k :| 0 <= k < |r| && r[k] == a;
    AnswersNumbered(formId, fields, ss, firstId, k);
    PostedSound(formId, fields, ss);
    var s :| s in ss && Answered(fields, s) && AnswerFor(PostedAnswers(formId, fields, ss)[k], formId, fields, s);
    assert AnswerFor(a, formId, fields, s);
  }

  /** Every answered snapshot has its answer. */
  lemma AnswersComplete(formId: Guid, fields: map<FieldName, string>, ss: seq<QuestionSnapshot>, firstId: Guid, s: QuestionSnapshot)
    requires s in ss && Answered(fields, s)
    ensures exists a :: a in AnswersFor(formId, fields, ss, firstId) && AnswerFor(a, formId, fields, s)
  {
    var xs := PostedAnswers(formId, fields, ss);
    PostedComplete(formId, fields, ss);
    var x :| x in xs && AnswerFor(x, formId, fields, s);
    var k :| 0 <= k < |xs| && xs[k] == x;
    AnswersNumbered(formId, fields, ss, firstId, k);
    assert AnswerFor(AnswersFor(formId, fields, ss, firstId)[k], formId, fields, s);
  }

  /** With one snapshot per question, no question is answered twice. */
  lemma AnswersOnePerQuestion(formId: Guid, fields: map<FieldName, string>, ss: seq<QuestionSnapshot>, firstId: Guid)
    requires KeyedByQuestion(ss)
    ensures OneAnswerPerQuestion(AnswersFor(formId, fields, ss, firstId))
  {
    PostedOnePerQuestion(formId, fields, ss);
  }

  /** The answers are taken over every stored snapshot and no other. */
  lemma ProcessingOrderSameSnapshots(snapshots: seq<QuestionSnapshot>)
    ensures |ProcessingOrder(snapshots)| == |snapshots|
    ensures forall s :: s in ProcessingOrder(snapshots) <==> s in snapshots
  {
    var ss := ProcessingOrder(snapshots);
    SortPermutes(snapshots, NegOrder);
    forall s ensures s in ss <==> s in snapshots {
      assert s in ss <==> s in multiset(ss);
      assert s in snapshots <==> s in multiset(snapshots);
    }
  }

  /**
   * The answers a form gets are exactly one per answered snapshot: each
   * answered snapshot has its answer, every answer comes from an answered
   * snapshot, and with one snapshot per question no question is answered
   * twice. Unanswered snapshots (an empty value that may not be empty) get
   * none. The answers take distinct fresh ids, the next `|r|` from `firstId`.
   */
  lemma AnswersMatchSnapshots(formId: Guid, fields: map<FieldName, string>, snapshots: seq<QuestionSnapshot>, firstId: Guid)
    ensures var r := AnswersFor(formId, fields, ProcessingOrder(snapshots), firstId);
      && |r| <= |snapshots|
      && (forall s :: s in snapshots && Answered(fields, s) ==> exists a :: a in r && AnswerFor(a, formId, fields, s))
      && (forall a :: a in r ==> exists s :: s in snapshots && Answered(fields, s) && AnswerFor(a, formId, fields, s))
      && IdsBetween(r, firstId, firstId + |r|)
      && (KeyedByQuestion(snapshots) ==> OneAnswerPerQuestion(r))
  {
    var ss := ProcessingOrder(snapshots);
    var r := AnswersFor(formId, fields, ss, firstId);
    ProcessingOrderSameSnapshots(snapshots);
    forall s | s in snapshots && Answered(fields, s) ensures exists a :: a in r && AnswerFor(a, formId, fields, s) {
      AnswersComplete(formId, fields, ss, firstId, s);
    }
    forall a | a in r ensures exists s :: s in snapshots && Answered(fields, s) && AnswerFor(a, formId, fields, s) {
      AnswersSound(formId, fields, ss, firstId, a);
    }
    if KeyedByQuestion(snapshots) {
      SortPermutes(snapshots, NegOrder);
      KeyedByQuestionPermutation(snapshots, ss);
      AnswersOnePerQuestion(formId, fields, ss, firstId);
    }
  }

  // ---------------------------------------------------------------------
  // The action
  // ---------------------------------------------------------------------

  /**
   * An unknown form or a form without snapshots is reported and nothing
   * changes; an invalid draft changes nothing either.
   */
  lemma EditRejects(db: Db, id: Guid, fields: map<FieldName, string>, now: DateTime, valid: bool)
    ensures var (db', outcome) := EditEffect(db, id, fields, now, valid);
      && (FindForm(db.forms, id).None? <==> outcome == FormNotFound)
      && (outcome == NoQuestions <==> FindForm(db.forms, id).Some? && FindForm(db.forms, id).value.snapshots == [])
      && (outcome in {FormNotFound, NoQuestions, Invalid} ==> db' == db)
  {
  }

  /**
   * A successful edit replaces the first form with that id: its answers are
   * exactly those built from the posted fields, under fresh ids (the old
   * ones are gone, and so are the comments and likes on them), its
   * snapshots are untouched, it is never un-submitted; a submission marks it
   * submitted and keeps `UpdatedAt`, a draft sets `UpdatedAt` to `now`.
   * Every other form, comment and like stays, and no other table changes.
   */
  lemma EditReplacesAnswers(db: Db, id: Guid, fields: map<FieldName, string>, now: DateTime, valid: bool)
    ensures var (db', outcome) := EditEffect(db, id, fields, now, valid);
      var i := FindIndex(db.forms, HasFormId(id));
      outcome in {Submitted, Saved} ==>
        && 0 <= i && db' == db.(forms := db'.forms, comments := db'.comments, likes := db'.likes, nextGuid := db'.nextGuid)
        && |db'.forms| == |db.forms|
        && (forall j :: 0 <= j < |db.forms| && j != i ==> db'.forms[j] == db.forms[j])
        && var old_, new_ := db.forms[i], db'.forms[i];
        && new_.id == id && new_.templateId == old_.templateId && new_.userId == old_.userId
        && new_.createdAt == old_.createdAt
        && new_.snapshots == old_.snapshots
        && new_.answers == AnswersFor(id, fields, ProcessingOrder(old_.snapshots), db.nextGuid)
        && db'.nextGuid == db.nextGuid + |new_.answers|
        && (forall c :: c in db'.comments <==> c in db.comments && forall a :: a in old_.answers ==> c.answerId != Some(a.id))
        && (forall l :: l in db'.likes <==> l in db.likes && forall a :: a in old_.answers ==> l.answerId != Some(a.id))
        && (old_.isSubmitted ==> new_.isSubmitted)
        && (outcome == Submitted <==> ActionField in fields && fields[ActionField] == SubmitAction)
        && (outcome == Submitted ==> new_.isSubmitted && new_.updatedAt == old_.updatedAt)
        && (outcome == Saved ==> new_.isSubmitted == old_.isSubmitted && new_.updatedAt == now)
  {
    var i := FindIndex(db.forms, HasFormId(id));
    if 0 <= i {
      var form := db.forms[i];
      CascadeAnswersExact(db, form.answers);
    }
  }

  /**
   * Saving the same posted fields again gives the same answers under new
   * ids: the answers depend only on the snapshots and the fields, never on
   * earlier answers.
   */
  lemma {:induction false} EditIdempotent(db: Db, id: Guid, fields: map<FieldName, string>, now: DateTime, later: DateTime, valid: bool)
    ensures var (db1, o1) := EditEffect(db, id, fields, now, valid);
      var (db2, o2) := EditEffect(db1, id, fields, later, valid);
      var i := FindIndex(db.forms, HasFormId(id));
      o1 in {Submitted, Saved} ==>
        && (o2 in {Submitted, Saved})
        && FindIndex(db2.forms, HasFormId(id)) == i
        && |db2.forms[i].answers| == |db1.forms[i].answers|
        && (forall k :: 0 <= k < |db1.forms[i].answers| ==>
              db2.forms[i].answers[k] == db1.forms[i].answers[k].(id := db1.nextGuid + k))
        && db2.forms[i].isSubmitted == db1.forms[i].isSubmitted
  {
    var (db1, o1) := EditEffect(db, id, fields, now, valid);
    var i := FindIndex(db.forms, HasFormId(id));
    if o1 in {Submitted, Saved} {
      var form := db.forms[i];
      var posted := PostedAnswers(form.id, fields, ProcessingOrder(form.snapshots));
      var form1 := db1.forms[i];
      assert form1.id == form.id && form1.snapshots == form.snapshots && form1.answers == Numbered(posted, db.nextGuid);
      FindIndexAfterUpdate(db.forms, i, form1, HasFormId(id));
      var (db2, o2) := EditEffect(db1, id, fields, later, valid);
      assert db2.forms[i].answers == Numbered(posted, db1.nextGuid);
      FindIndexAfterUpdate(db1.forms, i, db2.forms[i], HasFormId(id));
      NumberedAgain(posted, db.nextGuid, db1.nextGuid);
    }
  }

  lemma PostedStep(formId: Guid, fields: map<FieldName, string>, ss: seq<QuestionSnapshot>, k: nat)
    requires k < |ss|
    ensures PostedAnswers(formId, fields, ss[..k + 1])
      == PostedAnswers(formId, fields, ss[..k]) + (if Answered(fields, ss[k]) then [AnswerOf(0, formId, fields, ss[k])] else [])
  {
    var t := ss[..k + 1];
    assert t[..|t| - 1] == ss[..k];
    assert t[|t| - 1] == ss[k];
  }

  lemma NumberedAppend(xs: seq<FormAnswer>, x: FormAnswer, firstId: Guid)
    ensures Numbered(xs + [x], firstId) == Numbered(xs, firstId) + [x.(id := firstId + |xs|)]
  {
  }

  /** The same answers numbered from `y` instead of `x`. */
  lemma NumberedAgain(xs: seq<FormAnswer>, x: Guid, y: Guid)
    ensures forall k :: 0 <= k < |xs| ==> Numbered(xs, y)[k] == Numbered(xs, x)[k].(id := y + k)
  {
  }

  /** One more snapshot processed adds its answer, when it gets one, under the next fresh id. */
  lemma AnswersForStep(formId: Guid, fields: map<FieldName, string>, ss: seq<QuestionSnapshot>, firstId: Guid, k: nat)
    requires k < |ss|
    ensures var prev := AnswersFor(formId, fields, ss[..k], firstId);
      AnswersFor(formId, fields, ss[..k + 1], firstId)
        == prev + (if Answered(fields, ss[k]) then [AnswerOf(firstId + |prev|, formId, fields, ss[k])] else [])
  {
    var posted, next := PostedAnswers(formId, fields, ss[..k]), PostedAnswers(formId, fields, ss[..k + 1]);
    var prev := Numbered(posted, firstId);
    assert AnswersFor(formId, fields, ss[..k], firstId) == prev;
    assert AnswersFor(formId, fields, ss[..k + 1], firstId) == Numbered(next, firstId);
    PostedStep(formId, fields, ss, k);
    if Answered(fields, ss[k]) {
      var x := AnswerOf(0, formId, fields, ss[k]);
      assert next == posted + [x];
      NumberedAppend(posted, x, firstId);
      assert x.(id := firstId + |prev|) == AnswerOf(firstId + |prev|, formId, fields, ss[k]);
    } else {
      assert next == posted;
    }
  }

  /**
   * One pass of the answer loop: reads the posted value (a checkbox is
   * "true" or "false") and keeps it, under the id `id`, when it is non-empty
   * or may be empty.
   */
  method ReadAnswer(id: Guid, formId: Guid, fields: map<FieldName, string>, s: QuestionSnapshot) returns (answer: Option<FormAnswer>)
    ensures answer == if Answered(fields, s) then Some(AnswerOf(id, formId, fields, s)) else None
  {
    var value := RawValue(fields, AnswerKey(s.order));
    if s.qtype == CheckboxType {
      value := if Contains(value, "true") then "true" else "false";
    }
    if value != "" || s.allowEmpty {
      answer := Some(FormAnswer(id, formId, s.originalQuestionId, value));
    } else {
      answer := None;
    }
  }

  /** The answer loop of POST `Edit`, over the snapshots in processing order, numbering new answers from `firstId`. */
  method BuildAnswers(formId: Guid, fields: map<FieldName, string>, ordered: seq<QuestionSnapshot>, firstId: Guid)
    returns (answers: seq<FormAnswer>)
    ensures answers == AnswersFor(formId, fields, ordered, firstId)
  {
    answers := [];
    var k := 0;
    while k < |ordered|
      invariant 0 <= k <= |ordered|
      invariant answers == AnswersFor(formId, fields, ordered[..k], firstId)
    {
      var answer := ReadAnswer(firstId + |answers|, formId, fields, ordered[k]);
      AnswersForStep(formId, fields, ordered, firstId, k);
      if answer.Some? {
        answers := answers + [answer.value];
      }
      k := k + 1;
    }
    assert ordered[..|ordered|] == ordered;
  }

  /**
   * Saving the rebuilt form `saved` in place of the one at position `i`: the
   * old answers go, with the comments and likes on them, and the ids the new
   * answers took are drawn.
   */
  method SaveForm(ctx: AppDbContext, i: nat, saved: Form)
    requires i < |ctx.forms|
    modifies ctx
    ensures ctx.Tables() == WithoutAnswers(old(ctx.Tables()), old(ctx.forms[i].answers), |saved.answers|).(forms := old(ctx.forms)[i := saved])
  {
    var gone := AnswerIds(ctx.forms[i].answers);
    ctx.nextGuid := ctx.nextGuid + |saved.answers|;
    ctx.forms := ctx.forms[i := saved];
    ctx.SaveAnswerDeletions(gone);
  }

  /**
   * POST `Edit`: rebuilds the form's answers and saves it, or reports why
   * not. The tables change only when the outcome is `Submitted` or `Saved`;
   * the fresh ids the new answers take are drawn only then.
   */
  method Edit(ctx: AppDbContext, id: Guid, fields: map<FieldName, string>, now: DateTime, valid: bool)
    returns (outcome: EditOutcome)
    modifies ctx
    ensures (ctx.Tables(), outcome) == EditEffect(old(ctx.Tables()), id, fields, now, valid)
  {
    var i := FindIndex(ctx.forms, HasFormId(id));
    if i < 0 {
      return FormNotFound;
    }
    var form := ctx.forms[i];
    if form.snapshots == [] {
      return NoQuestions;
    }
    var answers := BuildAnswers(form.id, fields, ProcessingOrder(form.snapshots), ctx.nextGuid);
    var submit := ActionField in fields && fields[ActionField] == SubmitAction;
    if !submit && !valid {
      return Invalid;
    }
    var saved := if submit then form.(answers := answers, isSubmitted := true) else form.(answers := answers, updatedAt := now);
    SaveForm(ctx, i, saved);
    outcome := if submit then Submitted else Saved;
  }
}
