/**
 * The social service: comments on templates and on answers, and likes of
 * templates and of answers. A like is toggled: the first like of the
 * (template or answer, user) pair is removed when there is one, and a new
 * like is added otherwise.
 */
module SocialService {
  import opened Seqs
  import opened Entities
  import opened Data

  // ---------------------------------------------------------------------
  // Comments
  // ---------------------------------------------------------------------

  function CommentOnTemplate(templateId: Guid): Comment -> bool {
    (c: Comment) => c.templateId == Some(templateId)
  }

  function CommentOnAnswer(answerId: Guid): Comment -> bool {
    (c: Comment) => c.answerId == Some(answerId)
  }

  function CreatedAtKey(c: Comment): int {
    c.createdAt
  }

  /** `AddCommentAsync`: one new comment on the template, written at `now`. */
  function AddCommentEffect(db: Db, templateId: Guid, userId: UserId, content: string, now: DateTime): Db {
    db.(comments := db.comments + [Comment(content, now, Some(templateId), None, userId)])
  }

  /**
   * Adding a comment appends exactly one comment, carrying the template,
   * user and content given, and changes nothing else; the template's
   * comments then include it and are otherwise the ones it had.
   */
  lemma AddCommentAppendsOne(db: Db, templateId: Guid, userId: UserId, content: string, now: DateTime)
    ensures var db' := AddCommentEffect(db, templateId, userId, content, now);
      var c := db'.comments[|db'.comments| - 1];
      && |db'.comments| == |db.comments| + 1
      && db'.comments[..|db.comments|] == db.comments
      && c.templateId == Some(templateId) && c.answerId.None?
      && c.userId == userId && c.content == content && c.createdAt == now
      && db' == db.(comments := db'.comments)
      && (forall x :: x in GetComments(db', templateId) <==> x in GetComments(db, templateId) || x == c)
  {
    var db' := AddCommentEffect(db, templateId, userId, content, now);
    CommentsExact(db, templateId);
    CommentsExact(db', templateId);
    assert db'.comments[..|db.comments|] == db.comments;
  }

  method AddCommentAsync(ctx: AppDbContext, templateId: Guid, userId: UserId, content: string, now: DateTime)
    modifies ctx
    ensures ctx.Tables() == AddCommentEffect(old(ctx.Tables()), templateId, userId, content, now)
  {
    ctx.comments := ctx.comments + [Comment(content, now, Some(templateId), None, userId)];
  }

  /**
   * `AddCommentToAnswerAsync`: one new comment on the answer, written at
   * `now`; the stored comment is returned.
   */
  function AddAnswerCommentEffect(db: Db, answerId: Guid, userId: UserId, content: string, now: DateTime): (Db, Comment) {
    var c := Comment(content, now, None, Some(answerId), userId);
    (db.(comments := db.comments + [c]), c)
  }

  /** The returned comment is the one appended, and it is among the answer's comments afterwards. */
  lemma AddAnswerCommentReturnsStored(db: Db, answerId: Guid, userId: UserId, content: string, now: DateTime)
    ensures var (db', c) := AddAnswerCommentEffect(db, answerId, userId, content, now);
      && db'.comments == db.comments + [c]
      && db' == db.(comments := db'.comments)
      && c.answerId == Some(answerId) && c.templateId.None?
      && c.userId == userId && c.content == content && c.createdAt == now
      && c in GetCommentsForAnswer(db', answerId)
  {
    var (db', c) := AddAnswerCommentEffect(db, answerId, userId, content, now);
    AnswerCommentsExact(db', answerId);
  }

  method AddCommentToAnswerAsync(ctx: AppDbContext, answerId: Guid, userId: UserId, content: string, now: DateTime)
    returns (c: Comment)
    modifies ctx
    ensures (ctx.Tables(), c) == AddAnswerCommentEffect(old(ctx.Tables()), answerId, userId, content, now)
  {
    c := Comment(content, now, None, Some(answerId), userId);
    ctx.comments := ctx.comments + [c];
  }

  /** `GetCommentsAsync`: the template's comments, newest first. */
  function GetComments(db: Db, templateId: Guid): seq<Comment> {
    SortByDescending(Filter(db.comments, CommentOnTemplate(templateId)), CreatedAtKey)
  }

  /** `GetCommentsForAnswerAsync`: the answer's comments, newest first. */
  function GetCommentsForAnswer(db: Db, answerId: Guid): seq<Comment> {
    SortByDescending(Filter(db.comments, CommentOnAnswer(answerId)), CreatedAtKey)
  }

  /**
   * Sorting the comments a filter selects by `CreatedAt`, newest first: the
   * result holds exactly those comments, each as often as stored, ordered by
   * non-increasing `CreatedAt`, with comments written at the same time in
   * stored order.
   */
  lemma NewestFirst(comments: seq<Comment>, p: Comment -> bool)
    ensures var r := SortByDescending(Filter(comments, p), CreatedAtKey);
      && (forall c :: c in r <==> c in comments && p(c))
      && multiset(r) == multiset(Filter(comments, p))
      && (forall i, j :: 0 <= i < j < |r| ==> r[i].createdAt >= r[j].createdAt)
      && (forall t :: WithKey(r, CreatedAtKey, t) == WithKey(Filter(comments, p), CreatedAtKey, t))
  {
    var selected := Filter(comments, p);
    var r := SortByDescending(selected, CreatedAtKey);
    SortPermutes(selected, CreatedAtKey);
    SortSorted(selected, CreatedAtKey);
    forall c ensures c in r <==> c in selected {
      assert c in r <==> c in multiset(r);
      assert c in selected <==> c in multiset(selected);
    }
    forall t ensures WithKey(r, CreatedAtKey, t) == WithKey(selected, CreatedAtKey, t) {
      SortStable(selected, CreatedAtKey, t);
    }
  }

  /**
   * The template's comments are exactly the stored comments on it, newest
   * first, ties in stored order.
   */
  lemma CommentsExact(db: Db, templateId: Guid)
    ensures var r := GetComments(db, templateId);
      && (forall c :: c in r <==> c in db.comments && c.templateId == Some(templateId))
      && multiset(r) == multiset(Filter(db.comments, CommentOnTemplate(templateId)))
      && (forall i, j :: 0 <= i < j < |r| ==> r[i].createdAt >= r[j].createdAt)
  {
    NewestFirst(db.comments, CommentOnTemplate(templateId));
  }

  /** The answer's comments are exactly the stored comments on it, newest first. */
  lemma AnswerCommentsExact(db: Db, answerId: Guid)
    ensures var r := GetCommentsForAnswer(db, answerId);
      && (forall c :: c in r <==> c in db.comments && c.answerId == Some(answerId))
      && multiset(r) == multiset(Filter(db.comments, CommentOnAnswer(answerId)))
      && (forall i, j :: 0 <= i < j < |r| ==> r[i].createdAt >= r[j].createdAt)
  {
    NewestFirst(db.comments, CommentOnAnswer(answerId));
  }

  // ---------------------------------------------------------------------
  // Likes
  // ---------------------------------------------------------------------

  /** The like a user gives a template, and the one they give an answer. */
  function TemplateLike(templateId: Guid, userId: UserId): Like {
    Like(Some(templateId), None, userId)
  }

  function AnswerLike(answerId: Guid, userId: UserId): Like {
    Like(None, Some(answerId), userId)
  }

  function LikesTemplate(templateId: Guid): Like -> bool {
    (l: Like) => l.templateId == Some(templateId)
  }

  function LikesAnswer(answerId: Guid): Like -> bool {
    (l: Like) => l.answerId == Some(answerId)
  }

  function TemplateLikeBy(templateId: Guid, userId: UserId): Like -> bool {
    (l: Like) => l.templateId == Some(templateId) && l.userId == userId
  }

  function AnswerLikeBy(answerId: Guid, userId: UserId): Like -> bool {
    (l: Like) => l.answerId == Some(answerId) && l.userId == userId
  }

  /** `GetLikeCountAsync`: how many likes the template has. */
  function GetLikeCount(db: Db, templateId: Guid): (n: nat)
    ensures n <= |db.likes|
    ensures n == 0 <==> forall l :: l in db.likes ==> l.templateId != Some(templateId)
  {
    Count(db.likes, LikesTemplate(templateId))
  }

  /** `GetLikeCountForAnswerAsync`: how many likes the answer has. */
  function GetLikeCountForAnswer(db: Db, answerId: Guid): (n: nat)
    ensures n <= |db.likes|
    ensures n == 0 <==> forall l :: l in db.likes ==> l.answerId != Some(answerId)
  {
    Count(db.likes, LikesAnswer(answerId))
  }

  /** `HasLikedAsync`: whether the user has a like of the template. */
  function HasLiked(db: Db, templateId: Guid, userId: UserId): (r: bool)
    ensures r <==> exists l :: l in db.likes && l.templateId == Some(templateId) && l.userId == userId
    ensures r ==> GetLikeCount(db, templateId) > 0
  {
    FindIndex(db.likes, TemplateLikeBy(templateId, userId)) >= 0
  }

  /** `HasLikedAnswerAsync`: whether the user has a like of the answer. */
  function HasLikedAnswer(db: Db, answerId: Guid, userId: UserId): (r: bool)
    ensures r <==> exists l :: l in db.likes && l.answerId == Some(answerId) && l.userId == userId
    ensures r ==> GetLikeCountForAnswer(db, answerId) > 0
  {
    FindIndex(db.likes, AnswerLikeBy(answerId, userId)) >= 0
  }

  /** Removes the first like `mine` selects, or adds `like` when there is none. */
  function Toggle(likes: seq<Like>, mine: Like -> bool, like: Like): seq<Like> {
    var i := FindIndex(likes, mine);
    if i < 0 then likes + [like] else RemoveAt(likes, i)
  }

  /**
   * A toggle that finds no selected like adds exactly `like`: every count
   * goes up by one if it counts `like`, and every like that is not selected
   * is kept as often as it was stored.
   */
  lemma ToggleAdds(likes: seq<Like>, mine: Like -> bool, like: Like, counted: Like -> bool)
    requires mine(like)
    requires FindIndex(likes, mine) < 0
    ensures var r := Toggle(likes, mine, like);
      && r == likes + [like]
      && Count(r, counted) == Count(likes, counted) + (if counted(like) then 1 else 0)
      && forall l :: !mine(l) ==> multiset(r)[l] == multiset(likes)[l]
  {
    var r := Toggle(likes, mine, like);
    assert r == likes + [like];
    assert multiset(r) == multiset(likes) + multiset{like};
    CountAppend(likes, [like], counted);
    CountSingleton(like, counted);
  }

  /**
   * A toggle that finds a selected like removes exactly the first one: every
   * count goes down by one if it counts that like, and every like that is
   * not selected is kept as often as it was stored.
   */
  lemma ToggleRemoves(likes: seq<Like>, mine: Like -> bool, like: Like, counted: Like -> bool)
    requires 0 <= FindIndex(likes, mine)
    ensures var r := Toggle(likes, mine, like);
      var i := FindIndex(likes, mine);
      && |r| == |likes| - 1
      && multiset(r) == multiset(likes) - multiset{likes[i]}
      && Count(r, counted) == Count(likes, counted) - (if counted(likes[i]) then 1 else 0)
      && forall l :: !mine(l) ==> multiset(r)[l] == multiset(likes)[l]
  {
    var i := FindIndex(likes, mine);
    var r := Toggle(likes, mine, like);
    assert r == RemoveAt(likes, i);
    assert multiset(r) == multiset(likes) - multiset{likes[i]};
    CountRemoveAt(likes, i, counted);
  }

  /**
   * The likes table is well formed when no row is stored twice and every
   * like is of a template or of an answer, not both and not neither.
   */
  predicate LikesWellFormed(likes: seq<Like>) {
    && NoDuplicates(likes)
    && forall l :: l in likes ==> (l.templateId.Some? <==> l.answerId.None?)
  }

  /**
   * In a well-formed table a user has at most one like of a template: it is
   * the row `like` itself. Toggling then flips whether the user likes it,
   * keeps the table well formed, and toggling again restores the table's
   * contents.
   */
  lemma ToggleWellFormed(likes: seq<Like>, mine: Like -> bool, like: Like)
    requires LikesWellFormed(likes)
    requires mine(like) && (like.templateId.Some? <==> like.answerId.None?)
    requires forall l :: l in likes && mine(l) ==> l == like
    ensures var r := Toggle(likes, mine, like);
      && LikesWellFormed(r)
      && ((exists l :: l in r && mine(l)) <==> !(exists l :: l in likes && mine(l)))
      && multiset(Toggle(r, mine, like)) == multiset(likes)
  {
    if FindIndex(likes, mine) < 0 {
      ToggleAddsThenRemoves(likes, mine, like);
    } else {
      ToggleRemovesThenAdds(likes, mine, like);
    }
  }

  lemma ToggleAddsThenRemoves(likes: seq<Like>, mine: Like -> bool, like: Like)
    requires LikesWellFormed(likes)
    requires mine(like) && (like.templateId.Some? <==> like.answerId.None?)
    requires FindIndex(likes, mine) < 0
    ensures var r := Toggle(likes, mine, like);
      && LikesWellFormed(r)
      && (exists l :: l in r && mine(l))
      && Toggle(r, mine, like) == likes
  {
    var r := likes + [like];
    assert Toggle(likes, mine, like) == r;
    assert like !in likes;
    NoDuplicatesAppend(likes, like);
    FindIndexAppend(likes, mine, like);
    assert RemoveAt(r, |likes|) == likes;
  }

  /** Removing a row keeps the table well formed. */
  lemma RemoveAtWellFormed(likes: seq<Like>, i: nat)
    requires LikesWellFormed(likes) && i < |likes|
    ensures LikesWellFormed(RemoveAt(likes, i))
  {
    var r := RemoveAt(likes, i);
    NoDuplicatesPermutation(likes, r);
    forall l | l in r ensures l.templateId.Some? <==> l.answerId.None? {
      assert l in multiset(r);
    }
  }

  lemma ToggleRemovesThenAdds(likes: seq<Like>, mine: Like -> bool, like: Like)
    requires LikesWellFormed(likes)
    requires mine(like)
    requires forall l :: l in likes && mine(l) ==> l == like
    requires 0 <= FindIndex(likes, mine)
    ensures var r := Toggle(likes, mine, like);
      && LikesWellFormed(r)
      && !(exists l :: l in r && mine(l))
      && multiset(Toggle(r, mine, like)) == multiset(likes)
  {
    var i := FindIndex(likes, mine);
    var r := RemoveAt(likes, i);
    assert Toggle(likes, mine, like) == r;
    RemoveAtWellFormed(likes, i);
    RemoveOnlyMatch(likes, i, mine);
    assert FindIndex(r, mine) == -1;
    assert Toggle(r, mine, like) == r + [like];
    assert likes[i] == like;
    assert multiset(r + [like]) == multiset(likes) by {
      assert like in multiset(likes);
    }
  }

  /** `ToggleLikeAsync`: the user's like of the template is added or removed. */
  function ToggleLikeEffect(db: Db, templateId: Guid, userId: UserId): Db {
    db.(likes := Toggle(db.likes, TemplateLikeBy(templateId, userId), TemplateLike(templateId, userId)))
  }

  /**
   * Toggling a like of a template: with no like of the user, exactly one
   * like is added; otherwise the first one found is removed and no other.
   * The template's like count moves by one accordingly, the likes of every
   * other (template or answer, user) pair are kept and no other table
   * changes.
   */
  lemma ToggleLikeExact(db: Db, templateId: Guid, userId: UserId)
    ensures var db' := ToggleLikeEffect(db, templateId, userId);
      var i := FindIndex(db.likes, TemplateLikeBy(templateId, userId));
      && db' == db.(likes := db'.likes)
      && (!HasLiked(db, templateId, userId) ==>
            && db'.likes == db.likes + [TemplateLike(templateId, userId)]
            && GetLikeCount(db', templateId) == GetLikeCount(db, templateId) + 1)
      && (HasLiked(db, templateId, userId) ==>
            && 0 <= i && db.likes[i].templateId == Some(templateId) && db.likes[i].userId == userId
            && (forall j :: 0 <= j < i ==> !(db.likes[j].templateId == Some(templateId) && db.likes[j].userId == userId))
            && multiset(db'.likes) == multiset(db.likes) - multiset{db.likes[i]}
            && GetLikeCount(db', templateId) == GetLikeCount(db, templateId) - 1)
      && (forall l: Like :: !(l.templateId == Some(templateId) && l.userId == userId) ==> multiset(db'.likes)[l] == multiset(db.likes)[l])
      && (forall t :: t != templateId ==> GetLikeCount(db', t) == GetLikeCount(db, t))
  {
    var mine, like := TemplateLikeBy(templateId, userId), TemplateLike(templateId, userId);
    var db' := ToggleLikeEffect(db, templateId, userId);
    if HasLiked(db, templateId, userId) {
      ToggleRemoves(db.likes, mine, like, LikesTemplate(templateId));
      forall t | t != templateId ensures GetLikeCount(db', t) == GetLikeCount(db, t) {
        ToggleRemoves(db.likes, mine, like, LikesTemplate(t));
      }
    } else {
      ToggleAdds(db.likes, mine, like, LikesTemplate(templateId));
      forall t | t != templateId ensures GetLikeCount(db', t) == GetLikeCount(db, t) {
        ToggleAdds(db.likes, mine, like, LikesTemplate(t));
      }
    }
  }

  /**
   * In a well-formed likes table, toggling a like of a template flips
   * whether the user likes it and keeps the table well formed, and toggling
   * twice gives back the same likes.
   */
  lemma ToggleLikeTwice(db: Db, templateId: Guid, userId: UserId)
    requires LikesWellFormed(db.likes)
    ensures var db' := ToggleLikeEffect(db, templateId, userId);
      && LikesWellFormed(db'.likes)
      && (HasLiked(db', templateId, userId) <==> !HasLiked(db, templateId, userId))
      && multiset(ToggleLikeEffect(db', templateId, userId).likes) == multiset(db.likes)
  {
    ToggleWellFormed(db.likes, TemplateLikeBy(templateId, userId), TemplateLike(templateId, userId));
  }

  method ToggleLikeAsync(ctx: AppDbContext, templateId: Guid, userId: UserId)
    modifies ctx
    ensures ctx.Tables() == ToggleLikeEffect(old(ctx.Tables()), templateId, userId)
  {
    var existing := FindIndex(ctx.likes, TemplateLikeBy(templateId, userId));
    if existing >= 0 {
      ctx.likes := RemoveAt(ctx.likes, existing);
    } else {
      ctx.likes := ctx.likes + [TemplateLike(templateId, userId)];
    }
  }

  /**
   * `ToggleLikeForAnswerAsync`: the user's like of the answer is added or
   * removed; the answer's like count afterwards is returned, with whether a
   * like was added.
   */
  function ToggleAnswerLikeEffect(db: Db, answerId: Guid, userId: UserId): (Db, int, bool) {
    var db' := db.(likes := Toggle(db.likes, AnswerLikeBy(answerId, userId), AnswerLike(answerId, userId)));
    (db', GetLikeCountForAnswer(db', answerId), !HasLikedAnswer(db, answerId, userId))
  }

  /**
   * Toggling a like of an answer adds one like when the user had none and
   * otherwise removes the first one found; the count returned is the
   * answer's count after the toggle, one more or one less than before, and
   * "has liked" is reported exactly when no like existed before. In a
   * well-formed table that report is whether the user likes the answer now.
   */
  lemma ToggleAnswerLikeReports(db: Db, answerId: Guid, userId: UserId)
    ensures var (db', likeCount, hasLiked) := ToggleAnswerLikeEffect(db, answerId, userId);
      && db' == db.(likes := db'.likes)
      && (hasLiked <==> !HasLikedAnswer(db, answerId, userId))
      && (hasLiked ==> db'.likes == db.likes + [AnswerLike(answerId, userId)])
      && likeCount == GetLikeCountForAnswer(db', answerId)
      && likeCount == GetLikeCountForAnswer(db, answerId) + (if hasLiked then 1 else -1)
      && (forall l: Like :: !(l.answerId == Some(answerId) && l.userId == userId) ==> multiset(db'.likes)[l] == multiset(db.likes)[l])
      && (LikesWellFormed(db.likes) ==>
            && LikesWellFormed(db'.likes)
            && (hasLiked <==> HasLikedAnswer(db', answerId, userId)))
  {
    var mine, like := AnswerLikeBy(answerId, userId), AnswerLike(answerId, userId);
    if HasLikedAnswer(db, answerId, userId) {
      ToggleRemoves(db.likes, mine, like, LikesAnswer(answerId));
    } else {
      ToggleAdds(db.likes, mine, like, LikesAnswer(answerId));
    }
    if LikesWellFormed(db.likes) {
      ToggleWellFormed(db.likes, mine, like);
    }
  }

  method ToggleLikeForAnswerAsync(ctx: AppDbContext, answerId: Guid, userId: UserId)
    returns (likeCount: int, hasLiked: bool)
    modifies ctx
    ensures (ctx.Tables(), likeCount, hasLiked) == ToggleAnswerLikeEffect(old(ctx.Tables()), answerId, userId)
  {
    var existing := FindIndex(ctx.likes, AnswerLikeBy(answerId, userId));
    if existing >= 0 {
      ctx.likes := RemoveAt(ctx.likes, existing);
    } else {
      ctx.likes := ctx.likes + [AnswerLike(answerId, userId)];
    }
    likeCount := Count(ctx.likes, LikesAnswer(answerId));
    hasLiked := existing < 0;
  }
}
