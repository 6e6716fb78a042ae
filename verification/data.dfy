/**
 * The application's database context: one table per entity set, the
 * members of the Identity "Admin" role, and the source of fresh ids.
 * Services change the tables in place; `Tables()` is the value view their
 * contracts are stated against.
 */
module Data {
  import opened Seqs
  import opened Entities

  class AppDbContext {
    var templates: seq<Template>
    var forms: seq<Form>
    var comments: seq<Comment>
    var likes: seq<Like>
    var tags: seq<Tag>
    var users: seq<User>
    var admins: set<UserId>
    var nextGuid: Guid

    /** A context over the given store. */
    constructor (db: Db)
      ensures Tables() == db
    {
      templates := db.templates;
      forms := db.forms;
      comments := db.comments;
      likes := db.likes;
      tags := db.tags;
      users := db.users;
      admins := db.admins;
      nextGuid := db.nextGuid;
    }

    /** The current contents of every table. */
    function Tables(): Db
      reads this
    {
      Db(templates, forms, comments, likes, tags, users, admins, nextGuid)
    }

    /** `Guid.NewGuid()`: an id never handed out before. */
    method NewGuid() returns (id: Guid)
      modifies this
      ensures id == old(nextGuid)
      ensures Tables() == old(Tables()).(nextGuid := id + 1)
    {
      id := nextGuid;
      nextGuid := nextGuid + 1;
    }

    /**
     * Saving the deletion of the answers with keys `gone`: the store deletes
     * the comments and likes on them (the cascades on `AnswerId`).
     */
    method SaveAnswerDeletions(gone: set<Option<Guid>>)
      modifies this
      ensures Tables() == CascadeAnswers(old(Tables()), gone)
    {
      comments := Without(comments, CommentAnswer, gone);
      likes := Without(likes, LikeAnswer, gone);
    }
  }
}
