/**
 * The Next.js application's Prisma database: the `user`, `comment` and
 * `post` tables used by the comments route, the user service and the post
 * sync. The Prisma schema file is not part of this model; the rules kept here
 * are the ones the code relies on: users keyed by their Supabase id, comment
 * ids unique, every comment pointing at an existing user (the route upserts
 * the user before creating a comment so that the required relation holds),
 * and posts keyed by their Sanity document id (the `where: { sanityId }` of
 * every upsert).
 */
module PrismaStore {
  import opened Wrappers

  /** A timestamp; the clock is a parameter. */
  type Instant = int

  datatype Role = USER | ADMIN

  datatype DbUser = DbUser(id: string, email: string, username: string, name: Option<string>,
                           bio: Option<string>, profileImage: Option<string>, role: Role)

  datatype DbComment = DbComment(id: string, content: string, postId: string, userId: string, createdAt: Instant)

  datatype DbPost = DbPost(sanityId: string, title: string, slug: string, publishedAt: Option<string>)

  predicate UniqueCommentIds(comments: seq<DbComment>) {
    forall i, j | 0 <= i < j < |comments| :: comments[i].id != comments[j].id
  }

  predicate CommentsHaveUsers(comments: seq<DbComment>, users: map<string, DbUser>) {
    forall i | 0 <= i < |comments| :: comments[i].userId in users
  }

  predicate UsersKeyed(users: map<string, DbUser>) {
    forall id | id in users :: users[id].id == id
  }

  predicate PostsKeyed(posts: map<string, DbPost>) {
    forall id | id in posts :: posts[id].sanityId == id
  }

  /** Is some comment stored under `id`? */
  predicate HasComment(comments: seq<DbComment>, id: string) {
    exists i | 0 <= i < |comments| :: comments[i].id == id
  }

  /** The position of the comment stored under `id` (`findUnique({ where: { id } })`). */
  function IndexOf(comments: seq<DbComment>, id: string): (r: Option<nat>)
    ensures r.Some? <==> HasComment(comments, id)
    ensures r.Some? ==> r.value < |comments| && comments[r.value].id == id
    ensures r.Some? ==> forall j | 0 <= j < r.value :: comments[j].id != id
  {
    if comments == [] then None
    else if comments[0].id == id then Some(0)
    else
      match IndexOf(comments[1..], id)
      case None => None
      case Some(k) => Some(k + 1)
  }

  /** The comments `keep` accepts, in their order. */
  function Filter(comments: seq<DbComment>, keep: DbComment -> bool): (r: seq<DbComment>)
    ensures forall c :: c in r <==> c in comments && keep(c)
    ensures UniqueCommentIds(comments) ==> UniqueCommentIds(r)
  {
    if comments == [] then []
    else
      var rest := Filter(comments[1..], keep);
      if !keep(comments[0]) then rest
      else
        assert UniqueCommentIds(comments) ==> forall c | c in rest :: c.id != comments[0].id by {
          if UniqueCommentIds(comments) {
            forall c | c in rest ensures c.id != comments[0].id {
              var k :| 0 <= k < |comments[1..]| && comments[1..][k] == c;
              assert comments[k + 1] == c;
            }
          }
        }
        UniqueCons(comments[0], rest);
        [comments[0]] + rest
  }

  /** Putting a comment in front of comments with other ids keeps ids unique. */
  lemma UniqueCons(head: DbComment, tail: seq<DbComment>)
    ensures UniqueCommentIds(tail) && (forall c | c in tail :: c.id != head.id) ==> UniqueCommentIds([head] + tail)
  {
    if UniqueCommentIds(tail) && (forall c | c in tail :: c.id != head.id) {
      var r := [head] + tail;
      forall i, j | 0 <= i < j < |r| ensures r[i].id != r[j].id {
        if i == 0 {
          assert r[j] in tail;
        } else {
          assert r[i] == tail[i - 1] && r[j] == tail[j - 1];
        }
      }
    }
  }

  /** A filter every comment passes keeps the list as it is. */
  lemma {:induction false} FilterAll(comments: seq<DbComment>, keep: DbComment -> bool)
    requires forall c | c in comments :: keep(c)
    ensures Filter(comments, keep) == comments
  {
    if comments != [] {
      FilterAll(comments[1..], keep);
      assert [comments[0]] + comments[1..] == comments;
    }
  }

  /** The comments not written by `userId`: what a cascading delete of that user leaves. */
  function WithoutUser(comments: seq<DbComment>, userId: string): (r: seq<DbComment>)
    ensures forall c :: c in r <==> c in comments && c.userId != userId
    ensures UniqueCommentIds(comments) ==> UniqueCommentIds(r)
  {
    Filter(comments, (c: DbComment) => c.userId != userId)
  }

  class Db {
    var users: map<string, DbUser>
    var comments: seq<DbComment>
    var posts: map<string, DbPost>

    ghost predicate Valid()
      reads this
    {
      && UsersKeyed(users)
      && UniqueCommentIds(comments)
      && CommentsHaveUsers(comments, users)
      && PostsKeyed(posts)
    }

    constructor ()
      ensures Valid()
      ensures users == map[] && comments == [] && posts == map[]
    {
      users := map[];
      comments := [];
      posts := map[];
    }
  }
}
