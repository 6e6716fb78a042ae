/**
 * Relevance search over templates (`SearchService`).
 *
 * A query is cut into lower-case terms; the templates the requester may see
 * are kept when every term occurs, ignoring case, in the title, the
 * description, a tag name, a question description or a comment; each kept
 * template is scored per term and the result is ordered by descending score,
 * ties in table order.
 */
module SearchService {
  import opened Seqs
  import opened Text
  import opened Entities

  const MinSearchTermLength := 2
  const MinRelevanceScore := 1

  // ---------------------------------------------------------------------
  // Query terms
  // ---------------------------------------------------------------------

  /** The term a token becomes: trimmed, then lower-cased. */
  function NormalizeTerm(token: string): string {
    ToLower(Trim(token))
  }

  /** Whether a token survives `RemoveEmptyEntries` and the minimum length. */
  predicate KeepsToken(token: string) {
    token != "" && |NormalizeTerm(token)| >= MinSearchTermLength
  }

  /** The normalised terms of the tokens that survive, in token order, duplicates kept. */
  function TermsOf(tokens: seq<string>): (terms: seq<string>)
    ensures |terms| <= |tokens|
    decreases |tokens|
  {
    if tokens == [] then []
    else
      var rest := TermsOf(tokens[..|tokens| - 1]);
      var last := tokens[|tokens| - 1];
      if KeepsToken(last) then rest + [NormalizeTerm(last)] else rest
  }

  /** `ProcessSearchTerms`: split on ' ' only, then normalise and filter the tokens. */
  function ProcessSearchTerms(query: string): seq<string> {
    TermsOf(Split(query, ' '))
  }

  /** A usable term: at least two characters, lower case, no white space at either end. */
  predicate WellFormedTerm(term: string) {
    |term| >= MinSearchTermLength && IsLower(term)
    && !IsWhiteSpace(term[0]) && !IsWhiteSpace(term[|term| - 1])
  }

  lemma NormalizeWellFormed(token: string)
    requires KeepsToken(token)
    ensures WellFormedTerm(NormalizeTerm(token))
  {
    var t := Trim(token);
    LowerIsLower(t);
    LowerEnds(t);
  }

  /** Every term is well formed. */
  lemma {:induction false} TermsWellFormed(tokens: seq<string>)
    ensures forall k :: 0 <= k < |TermsOf(tokens)| ==> WellFormedTerm(TermsOf(tokens)[k])
    decreases |tokens|
  {
    if tokens != [] {
      var last := tokens[|tokens| - 1];
      TermsWellFormed(tokens[..|tokens| - 1]);
      if KeepsToken(last) {
        NormalizeWellFormed(last);
      }
    }
  }

  /** There are no terms exactly when no token survives. */
  lemma {:induction false} TermsEmptyIff(tokens: seq<string>)
    ensures TermsOf(tokens) == [] <==> forall k :: 0 <= k < |tokens| ==> !KeepsToken(tokens[k])
    decreases |tokens|
  {
    if tokens != [] {
      var init := tokens[..|tokens| - 1];
      TermsEmptyIff(init);
      assert forall k :: 0 <= k < |init| ==> init[k] == tokens[k];
    }
  }

  /** A blank query has no terms, so the early blank check and the term check agree. */
  lemma BlankQueryHasNoTerms(query: string)
    requires IsBlank(query)
    ensures ProcessSearchTerms(query) == []
  {
    var tokens := Split(query, ' ');
    SplitBlank(query, ' ');
    forall k | 0 <= k < |tokens| ensures !KeepsToken(tokens[k]) {
      assert Trim(tokens[k]) == [];
    }
    TermsEmptyIff(tokens);
  }

  // ---------------------------------------------------------------------
  // Matching
  // ---------------------------------------------------------------------

  /**
   * `a.Contains(b, StringComparison.OrdinalIgnoreCase)`, and also
   * `EF.Functions.ILike(a, "%" + b + "%")` for a `b` without wildcards.
   */
  predicate ContainsIgnoreCase(a: string, b: string) {
    Contains(ToLower(a), ToLower(b))
  }

  /** `a.Equals(b, StringComparison.OrdinalIgnoreCase)`. */
  predicate EqualsIgnoreCase(a: string, b: string) {
    ToLower(a) == ToLower(b)
  }

  /** Matching an already lower-cased field is matching the field itself. */
  lemma ContainsLowered(a: string, b: string)
    ensures ContainsIgnoreCase(ToLower(a), b) == ContainsIgnoreCase(a, b)
  {
    LowerIdempotent(a);
  }

  /** The comments attached to template `t`. */
  function CommentsOf(db: Db, t: Template): seq<Comment> {
    Filter(db.comments, (c: Comment) => c.templateId == Some(t.id))
  }

  /** The tag with id `id`, if there is one (the first such row). */
  function FindTag(tags: seq<Tag>, id: Guid): Option<Tag> {
    if tags == [] then None
    else if tags[0].id == id then Some(tags[0])
    else FindTag(tags[1..], id)
  }

  /** The tags linked to a template, one per link whose tag exists. */
  function LinkedTags(tags: seq<Tag>, links: seq<TemplateTag>): seq<Tag>
    decreases |links|
  {
    if links == [] then []
    else
      var rest := LinkedTags(tags, links[..|links| - 1]);
      match FindTag(tags, links[|links| - 1].tagId)
      case Some(g) => rest + [g]
      case None => rest
  }

  function TagsOf(db: Db, t: Template): seq<Tag> {
    LinkedTags(db.tags, t.templateTags)
  }

  /** The per-term condition of the query: the term occurs in some searchable field. */
  predicate MatchesTerm(db: Db, t: Template, term: string) {
    ContainsIgnoreCase(t.title, term)
    || ContainsIgnoreCase(t.description, term)
    || (exists g :: g in TagsOf(db, t) && ContainsIgnoreCase(g.name, term))
    || (exists q :: q in t.questions && ContainsIgnoreCase(q.description, term))
    || (exists c :: c in CommentsOf(db, t) && ContainsIgnoreCase(c.content, term))
  }

  predicate MatchesAll(db: Db, t: Template, terms: seq<string>) {
    forall k :: 0 <= k < |terms| ==> MatchesTerm(db, t, terms[k])
  }

  function MatchesAllTerms(db: Db, terms: seq<string>): Template -> bool {
    (t: Template) => MatchesAll(db, t, terms)
  }

  /** The visibility condition: public, owned, shared with the requester, or the requester is an admin. */
  predicate Visible(db: Db, t: Template, userId: UserId) {
    t.isPublic
    || t.userId == userId
    || (exists a :: a in t.allowedUsers && a.userId == userId)
    || IsAdmin(db, userId)
  }

  function VisibleTo(db: Db, userId: UserId): Template -> bool {
    (t: Template) => Visible(db, t, userId)
  }

  // ---------------------------------------------------------------------
  // Scoring
  // ---------------------------------------------------------------------

  /** The title's share of a term's score: 5 for an exact match, otherwise 3 for a substring match. */
  function TitleScore(titleLower: string, term: string): nat {
    if EqualsIgnoreCase(titleLower, term) then 5
    else if ContainsIgnoreCase(titleLower, term) then 3
    else 0
  }

  function DescriptionScore(descriptionLower: string, term: string): nat {
    if ContainsIgnoreCase(descriptionLower, term) then 2 else 0
  }

  function QuestionHits(t: Template, term: string): nat {
    Count(t.questions, (q: Question) => ContainsIgnoreCase(ToLower(q.description), term))
  }

  function CommentHits(db: Db, t: Template, term: string): nat {
    Count(CommentsOf(db, t), (c: Comment) => ContainsIgnoreCase(ToLower(c.content), term))
  }

  function TagHits(db: Db, t: Template, term: string): nat {
    Count(TagsOf(db, t), (g: Tag) => ContainsIgnoreCase(ToLower(g.name), term))
  }

  /** One term's contribution to a template's score. */
  function TermScore(db: Db, t: Template, term: string): nat {
    TitleScore(ToLower(t.title), term) + DescriptionScore(ToLower(t.description), term)
    + QuestionHits(t, term) + CommentHits(db, t, term) + TagHits(db, t, term)
  }

  /** The relevance score: the sum of the terms' contributions. */
  function Score(db: Db, t: Template, terms: seq<string>): nat
    decreases |terms|
  {
    if terms == [] then 0
    else Score(db, t, terms[..|terms| - 1]) + TermScore(db, t, terms[|terms| - 1])
  }

  function RelevanceOf(db: Db, terms: seq<string>): Template -> int {
    (t: Template) => Score(db, t, terms)
  }

  function IsRelevant(db: Db, terms: seq<string>): Template -> bool {
    (t: Template) => Score(db, t, terms) >= MinRelevanceScore
  }

  /** The title adds 5 on an exact match and otherwise 3 on a substring match, never both. */
  lemma TitleScoreCases(title: string, term: string)
    ensures TitleScore(ToLower(title), term) == 5 <==> EqualsIgnoreCase(title, term)
    ensures TitleScore(ToLower(title), term) == 3 <==> ContainsIgnoreCase(title, term) && !EqualsIgnoreCase(title, term)
    ensures TitleScore(ToLower(title), term) == 0 <==> !ContainsIgnoreCase(title, term)
  {
    LowerIdempotent(title);
    if EqualsIgnoreCase(title, term) {
      ContainsSelf(ToLower(title));
    }
  }

  /** A term scores nothing exactly when it matches no searchable field. */
  lemma TermScoreZeroIff(db: Db, t: Template, term: string)
    ensures TermScore(db, t, term) == 0 <==> !MatchesTerm(db, t, term)
  {
    TitleScoreCases(t.title, term);
    ContainsLowered(t.description, term);
    var pq := (q: Question) => ContainsIgnoreCase(ToLower(q.description), term);
    var pc := (c: Comment) => ContainsIgnoreCase(ToLower(c.content), term);
    var pg := (g: Tag) => ContainsIgnoreCase(ToLower(g.name), term);
    forall q | q in t.questions ensures pq(q) == ContainsIgnoreCase(q.description, term) {
      ContainsLowered(q.description, term);
    }
    forall c | c in CommentsOf(db, t) ensures pc(c) == ContainsIgnoreCase(c.content, term) {
      ContainsLowered(c.content, term);
    }
    forall g | g in TagsOf(db, t) ensures pg(g) == ContainsIgnoreCase(g.name, term) {
      ContainsLowered(g.name, term);
    }
  }

  /** Every term that matches some field adds at least 1, so the score bounds the number of matching terms. */
  lemma {:induction false} ScoreCoversMatchingTerms(db: Db, t: Template, terms: seq<string>)
    ensures Score(db, t, terms) >= Count(terms, (term: string) => MatchesTerm(db, t, term))
    decreases |terms|
  {
    if terms != [] {
      var last := terms[|terms| - 1];
      ScoreCoversMatchingTerms(db, t, terms[..|terms| - 1]);
      TermScoreZeroIff(db, t, last);
    }
  }

  /** A template that matches every term scores at least the number of terms. */
  lemma ScoreOfMatchingTemplate(db: Db, t: Template, terms: seq<string>)
    requires MatchesAll(db, t, terms)
    ensures Score(db, t, terms) >= |terms|
  {
    ScoreCoversMatchingTerms(db, t, terms);
    CountAll(terms, (term: string) => MatchesTerm(db, t, term));
  }

  lemma ScoreStep(db: Db, t: Template, terms: seq<string>, i: nat)
    requires i < |terms|
    ensures Score(db, t, terms[..i + 1]) == Score(db, t, terms[..i]) + TermScore(db, t, terms[i])
  {
    assert terms[..i + 1][..i] == terms[..i];
  }

  /** Loop form of the score: one pass over the terms accumulating `score`. */
  method CalculateRelevanceScore(db: Db, t: Template, terms: seq<string>) returns (score: int)
    ensures score == Score(db, t, terms)
  {
    score := 0;
    var titleLower := ToLower(t.title);
    var descriptionLower := ToLower(t.description);
    for i := 0 to |terms|
      invariant score == Score(db, t, terms[..i])
    {
      var points := ScoreTerm(db, t, titleLower, descriptionLower, terms[i]);
      score := score + points;
      ScoreStep(db, t, terms, i);
    }
    assert terms[..|terms|] == terms;
  }

  /** The body of the scoring loop for one term. */
  method ScoreTerm(db: Db, t: Template, titleLower: string, descriptionLower: string, term: string)
    returns (points: int)
    requires titleLower == ToLower(t.title) && descriptionLower == ToLower(t.description)
    ensures points == TermScore(db, t, term)
  {
    points := 0;
    if EqualsIgnoreCase(titleLower, term) {
      points := points + 5;
    } else if ContainsIgnoreCase(titleLower, term) {
      points := points + 3;
    }
    if ContainsIgnoreCase(descriptionLower, term) {
      points := points + 2;
    }
    points := points + QuestionHits(t, term);
    points := points + CommentHits(db, t, term);
    points := points + TagHits(db, t, term);
  }

  // ---------------------------------------------------------------------
  // The search
  // ---------------------------------------------------------------------

  /** The visible templates that match every term, in table order. */
  function Candidates(db: Db, terms: seq<string>, userId: UserId): seq<Template> {
    Filter(Filter(db.templates, VisibleTo(db, userId)), MatchesAllTerms(db, terms))
  }

  /** Keep the templates scoring at least the minimum, highest score first, ties in candidate order. */
  function Rank(db: Db, candidates: seq<Template>, terms: seq<string>): seq<Template> {
    SortByDescending(Filter(candidates, IsRelevant(db, terms)), RelevanceOf(db, terms))
  }

  /** `SearchTemplatesAsync(query, userId)`. */
  function SearchTemplates(db: Db, query: string, userId: UserId): seq<Template> {
    if IsBlank(query) then []
    else
      var terms := ProcessSearchTerms(query);
      if terms == [] then [] else Rank(db, Candidates(db, terms, userId), terms)
  }

  /** Narrowing by one more term is narrowing by all terms so far plus that one. */
  lemma NarrowByTerm(db: Db, visible: seq<Template>, terms: seq<string>, i: nat)
    requires i < |terms|
    ensures Filter(Filter(visible, MatchesAllTerms(db, terms[..i])), (t: Template) => MatchesTerm(db, t, terms[i]))
         == Filter(visible, MatchesAllTerms(db, terms[..i + 1]))
  {
    var before := MatchesAllTerms(db, terms[..i]);
    var after := MatchesAllTerms(db, terms[..i + 1]);
    var step := (t: Template) => MatchesTerm(db, t, terms[i]);
    assert terms[..i + 1] == terms[..i] + [terms[i]];
    forall t: Template ensures after(t) == (before(t) && step(t)) {
    }
    FilterFilter(visible, before, step, after);
  }

  /** The query narrowed once per term, as the source rebinds its query in a loop. */
  method FilterByTerms(db: Db, visible: seq<Template>, terms: seq<string>) returns (r: seq<Template>)
    ensures r == Filter(visible, MatchesAllTerms(db, terms))
  {
    r := visible;
    FilterAll(visible, MatchesAllTerms(db, []));
    for i := 0 to |terms|
      invariant r == Filter(visible, MatchesAllTerms(db, terms[..i]))
    {
      NarrowByTerm(db, visible, terms, i);
      r := Filter(r, (t: Template) => MatchesTerm(db, t, terms[i]));
    }
    assert terms[..|terms|] == terms;
  }

  /** The candidates that reach the minimum score, scored one at a time. */
  method KeepRelevant(db: Db, candidates: seq<Template>, terms: seq<string>) returns (kept: seq<Template>)
    ensures kept == Filter(candidates, IsRelevant(db, terms))
  {
    kept := [];
    for i := 0 to |candidates|
      invariant kept == Filter(candidates[..i], IsRelevant(db, terms))
    {
      var score := CalculateRelevanceScore(db, candidates[i], terms);
      assert candidates[..i + 1][..i] == candidates[..i];
      if score >= MinRelevanceScore {
        kept := kept + [candidates[i]];
      }
    }
    assert candidates[..|candidates|] == candidates;
  }

  /** The search as the service runs it: filter per term, score each candidate, then sort. */
  method SearchTemplatesAsync(db: Db, query: string, userId: UserId) returns (result: seq<Template>)
    ensures result == SearchTemplates(db, query, userId)
  {
    if IsBlank(query) {
      return [];
    }
    var terms := ProcessSearchTerms(query);
    if terms == [] {
      return [];
    }
    var visible := Filter(db.templates, VisibleTo(db, userId));
    var candidates := FilterByTerms(db, visible, terms);
    var kept := KeepRelevant(db, candidates, terms);
    result := SortByDescending(kept, RelevanceOf(db, terms));
  }

  // ---------------------------------------------------------------------
  // Properties of the result
  // ---------------------------------------------------------------------

  /** The score threshold never removes a candidate: each scores at least its number of terms. */
  lemma ThresholdKeepsAllCandidates(db: Db, terms: seq<string>, userId: UserId)
    requires terms != []
    ensures Filter(Candidates(db, terms, userId), IsRelevant(db, terms)) == Candidates(db, terms, userId)
  {
    var cands := Candidates(db, terms, userId);
    forall t | t in cands ensures IsRelevant(db, terms)(t) {
      ScoreOfMatchingTemplate(db, t, terms);
    }
    FilterAll(cands, IsRelevant(db, terms));
  }

  /**
   * A template is found exactly when the query has terms, the template is in
   * the table, the requester may see it and it matches every term.
   */
  lemma SearchMembership(db: Db, query: string, userId: UserId, t: Template)
    ensures t in SearchTemplates(db, query, userId) <==>
      !IsBlank(query) && ProcessSearchTerms(query) != []
      && t in db.templates && Visible(db, t, userId) && MatchesAll(db, t, ProcessSearchTerms(query))
  {
    if !IsBlank(query) && ProcessSearchTerms(query) != [] {
      var terms := ProcessSearchTerms(query);
      var cands := Candidates(db, terms, userId);
      ThresholdKeepsAllCandidates(db, terms, userId);
      var r := SortByDescending(cands, RelevanceOf(db, terms));
      assert SearchTemplates(db, query, userId) == r;
      SortPermutes(cands, RelevanceOf(db, terms));
      assert t in r <==> t in multiset(r);
      assert t in cands <==> t in multiset(cands);
      assert t in cands <==> t in db.templates && Visible(db, t, userId) && MatchesAll(db, t, terms);
    }
  }

  /** Every result scores at least the minimum and the results come in non-increasing score order. */
  lemma SearchOrdered(db: Db, query: string, userId: UserId)
    ensures var r := SearchTemplates(db, query, userId);
      && (forall i :: 0 <= i < |r| ==> Score(db, r[i], ProcessSearchTerms(query)) >= MinRelevanceScore)
      && (forall i, j :: 0 <= i < j < |r| ==> Score(db, r[i], ProcessSearchTerms(query)) >= Score(db, r[j], ProcessSearchTerms(query)))
  {
    var terms := ProcessSearchTerms(query);
    if !IsBlank(query) && terms != [] {
      var kept := Filter(Candidates(db, terms, userId), IsRelevant(db, terms));
      SortSorted(kept, RelevanceOf(db, terms));
      SortPermutes(kept, RelevanceOf(db, terms));
      var r := SortByDescending(kept, RelevanceOf(db, terms));
      forall i | 0 <= i < |r| ensures Score(db, r[i], terms) >= MinRelevanceScore {
        assert r[i] in multiset(r);
        assert r[i] in kept;
      }
    }
  }

  /** Templates with equal scores keep their table order (the sort is stable). */
  lemma SearchStable(db: Db, query: string, userId: UserId, k: int)
    requires !IsBlank(query) && ProcessSearchTerms(query) != []
    ensures var terms := ProcessSearchTerms(query);
      WithKey(SearchTemplates(db, query, userId), RelevanceOf(db, terms), k)
      == WithKey(Candidates(db, terms, userId), RelevanceOf(db, terms), k)
  {
    var terms := ProcessSearchTerms(query);
    ThresholdKeepsAllCandidates(db, terms, userId);
    SortStable(Candidates(db, terms, userId), RelevanceOf(db, terms), k);
  }

  /** The result is a re-ordering of part of the table, so a table without repeats gives a result without repeats. */
  lemma SearchNoDuplicates(db: Db, query: string, userId: UserId)
    ensures multiset(SearchTemplates(db, query, userId)) <= multiset(db.templates)
    ensures NoDuplicates(db.templates) ==> NoDuplicates(SearchTemplates(db, query, userId))
  {
    var r := SearchTemplates(db, query, userId);
    var terms := ProcessSearchTerms(query);
    if !IsBlank(query) && terms != [] {
      var visible := Filter(db.templates, VisibleTo(db, userId));
      var cands := Filter(visible, MatchesAllTerms(db, terms));
      var kept := Filter(cands, IsRelevant(db, terms));
      SortPermutes(kept, RelevanceOf(db, terms));
      FilterSubMultiset(db.templates, VisibleTo(db, userId));
      FilterSubMultiset(visible, MatchesAllTerms(db, terms));
      FilterSubMultiset(cands, IsRelevant(db, terms));
    }
    if NoDuplicates(db.templates) {
      NoDuplicatesPermutation(db.templates, r);
    }
  }

  /** A query whose tokens all trim to fewer than two characters finds nothing. */
  lemma ShortTokensFindNothing(db: Db, query: string, userId: UserId)
    requires forall k :: 0 <= k < |Split(query, ' ')| ==> |Trim(Split(query, ' ')[k])| < MinSearchTermLength
    ensures SearchTemplates(db, query, userId) == []
  {
    TermsEmptyIff(Split(query, ' '));
  }
}
