/**
 * The engagement store of the .NET API: the four tables of `DataContext`
 * (Users, Comments, Likes, Views), the entity records they hold, the DTOs the
 * handlers return, and the key, unique-index and cascade rules of
 * `OnModelCreating`, which become the invariant `DataContext.Valid()`.
 *
 * Every table is a map from the row's primary key to the row. The Entity
 * Framework change tracker is reduced to `pending`, the number of changes not
 * yet written by `SaveChanges`.
 */
module EngagementStore {
  import opened Wrappers

  /** A `Guid`, as an opaque identity. */
  type Guid = int

  /** A `DateTime` read from `DateTime.UtcNow`; the clock is always a parameter. */
  type Instant = int

  datatype User = User(id: Guid, email: string, username: string, passwordHash: string,
                       profileImage: Option<string>, createdAt: Instant)

  datatype Comment = Comment(id: Guid, content: string, createdAt: Instant, updatedAt: Option<Instant>,
                             postSlug: string, userId: Guid)

  datatype Like = Like(id: Guid, createdAt: Instant, postSlug: string, userId: Guid)

  datatype View = View(id: Guid, postSlug: string, userId: Guid, createdAt: Instant, lastViewAt: Instant)

  datatype CommentDto = CommentDto(id: Guid, content: string, createdAt: Instant, userName: string,
                                   userImage: Option<string>)

  datatype PostStatsDto = PostStatsDto(postSlug: string, likes: int, views: int, isLikedByUser: bool)

  /** How a request ends: the handler's `Result`, a command refused by model
      validation before the handler runs (HTTP 400), or an exception the
      handler does not catch, such as a constraint violation raised by
      `SaveChangesAsync` (HTTP 500; the database rolls the save back). */
  datatype Outcome<T> = Done(result: Result<T>) | Invalid(errors: seq<string>) | Thrown(error: string)

  /** A (PostSlug, UserId) pair: the composite key of the Like and View unique indexes. */
  type Pair = (string, Guid)

  // ---- primary keys (HasKey) ----

  predicate UsersKeyed(users: map<Guid, User>) { forall id | id in users :: users[id].id == id }
  predicate CommentsKeyed(comments: map<Guid, Comment>) { forall id | id in comments :: comments[id].id == id }
  predicate LikesKeyed(likes: map<Guid, Like>) { forall id | id in likes :: likes[id].id == id }
  predicate ViewsKeyed(views: map<Guid, View>) { forall id | id in views :: views[id].id == id }

  // ---- unique indexes (HasIndex(...).IsUnique()) ----

  predicate UniqueEmails(users: map<Guid, User>) {
    forall a, b | a in users && b in users && users[a].email == users[b].email :: a == b
  }

  predicate UniqueUsernames(users: map<Guid, User>) {
    forall a, b | a in users && b in users && users[a].username == users[b].username :: a == b
  }

  predicate UniqueLikePairs(likes: map<Guid, Like>) {
    forall a, b | a in likes && b in likes && likes[a].postSlug == likes[b].postSlug
                  && likes[a].userId == likes[b].userId :: a == b
  }

  predicate UniqueViewPairs(views: map<Guid, View>) {
    forall a, b | a in views && b in views && views[a].postSlug == views[b].postSlug
                  && views[a].userId == views[b].userId :: a == b
  }

  // ---- foreign keys (HasOne(...).WithMany(...).HasForeignKey(UserId)) ----

  predicate CommentsReferenceUsers(comments: map<Guid, Comment>, users: map<Guid, User>) {
    forall id | id in comments :: comments[id].userId in users
  }

  predicate LikesReferenceUsers(likes: map<Guid, Like>, users: map<Guid, User>) {
    forall id | id in likes :: likes[id].userId in users
  }

  predicate ViewsReferenceUsers(views: map<Guid, View>, users: map<Guid, User>) {
    forall id | id in views :: views[id].userId in users
  }

  /** Every rule `OnModelCreating` declares. The PostSlug index on Comments is
      not unique, so it constrains nothing. */
  predicate Constraints(users: map<Guid, User>, comments: map<Guid, Comment>,
                        likes: map<Guid, Like>, views: map<Guid, View>)
  {
    && UsersKeyed(users) && CommentsKeyed(comments) && LikesKeyed(likes) && ViewsKeyed(views)
    && UniqueEmails(users) && UniqueUsernames(users)
    && UniqueLikePairs(likes) && UniqueViewPairs(views)
    && CommentsReferenceUsers(comments, users)
    && LikesReferenceUsers(likes, users)
    && ViewsReferenceUsers(views, users)
  }

  // ---- queries ----

  /** The ids of the Like rows of one post. */
  function LikesOf(likes: map<Guid, Like>, slug: string): set<Guid> {
    set id | id in likes && likes[id].postSlug == slug
  }

  /** The ids of the View rows of one post. */
  function ViewsOf(views: map<Guid, View>, slug: string): set<Guid> {
    set id | id in views && views[id].postSlug == slug
  }

  /** Some Like row has this (slug, user) pair. */
  predicate LikedBy(likes: map<Guid, Like>, slug: string, user: Guid) {
    exists id | id in likes :: likes[id].postSlug == slug && likes[id].userId == user
  }

  /** Some View row has this (slug, user) pair. */
  predicate ViewedBy(views: map<Guid, View>, slug: string, user: Guid) {
    exists id | id in views :: views[id].postSlug == slug && views[id].userId == user
  }

  /** The (slug, user) pairs that are liked: the like state of every post for every user. */
  function LikePairs(likes: map<Guid, Like>): set<Pair> {
    set id | id in likes :: (likes[id].postSlug, likes[id].userId)
  }

  /** The (slug, user) pairs that have a view row. */
  function ViewPairs(views: map<Guid, View>): set<Pair> {
    set id | id in views :: (views[id].postSlug, views[id].userId)
  }

  /** Some user has this username. */
  predicate HasUsername(users: map<Guid, User>, username: string) {
    exists id | id in users :: users[id].username == username
  }

  /** Some user has this email. */
  predicate HasEmail(users: map<Guid, User>, email: string) {
    exists id | id in users :: users[id].email == email
  }

  // ---- what the unique indexes and foreign keys imply ----

  /** A map that sends distinct elements of `s` to distinct elements of `t` shows |s| <= |t|. */
  lemma {:induction false} InjectionBound<A, B>(s: set<A>, t: set<B>, f: A -> B)
    requires forall x | x in s :: f(x) in t
    requires forall x, y | x in s && y in s && f(x) == f(y) :: x == y
    ensures |s| <= |t|
    decreases |s|
  {
    if s != {} {
      var x :| x in s;
      assert forall y | y in s - {x} :: f(y) in t - {f(x)};
      InjectionBound(s - {x}, t - {f(x)}, f);
    }
  }

  /** Because each user likes a post at most once and every like belongs to a
      user, a post never has more likes than there are users. */
  lemma LikesAtMostUsers(likes: map<Guid, Like>, users: map<Guid, User>, slug: string)
    requires UniqueLikePairs(likes) && LikesReferenceUsers(likes, users)
    ensures |LikesOf(likes, slug)| <= |users|
  {
    var owner := (id: Guid) => if id in likes then likes[id].userId else 0;
    var s := LikesOf(likes, slug);
    assert forall x | x in s :: owner(x) == likes[x].userId && owner(x) in users.Keys;
    forall x, y | x in s && y in s && owner(x) == owner(y) ensures x == y {
      assert likes[x].postSlug == slug == likes[y].postSlug;
    }
    InjectionBound(s, users.Keys, owner);
  }

  /** Because each user has at most one view row per post and every view belongs
      to a user, a post's view count is a count of distinct users. */
  lemma ViewsAtMostUsers(views: map<Guid, View>, users: map<Guid, User>, slug: string)
    requires UniqueViewPairs(views) && ViewsReferenceUsers(views, users)
    ensures |ViewsOf(views, slug)| <= |users|
  {
    var owner := (id: Guid) => if id in views then views[id].userId else 0;
    var s := ViewsOf(views, slug);
    assert forall x | x in s :: owner(x) == views[x].userId && owner(x) in users.Keys;
    forall x, y | x in s && y in s && owner(x) == owner(y) ensures x == y {
      assert views[x].postSlug == slug == views[y].postSlug;
    }
    InjectionBound(s, users.Keys, owner);
  }

  /** Comments carry only a non-unique index on PostSlug: any number of comments
      may share a post, even from the same user. */
  lemma CommentsMayShareSlug(users: map<Guid, User>, u: User, c1: Comment, c2: Comment)
    requires users == map[u.id := u]
    requires c1.id != c2.id && c1.postSlug == c2.postSlug && c1.userId == u.id == c2.userId
    ensures Constraints(users, map[c1.id := c1, c2.id := c2], map[], map[])
  {
  }

  /** Removing the Like row of a pair keeps every constraint, removes exactly
      that pair from the like state and that row from its post's likes. */
  lemma LikeRemoved(users: map<Guid, User>, comments: map<Guid, Comment>, likes: map<Guid, Like>,
                    views: map<Guid, View>, id: Guid)
    requires Constraints(users, comments, likes, views) && id in likes
    ensures Constraints(users, comments, likes - {id}, views)
    ensures LikePairs(likes - {id}) == LikePairs(likes) - {(likes[id].postSlug, likes[id].userId)}
    ensures !LikedBy(likes - {id}, likes[id].postSlug, likes[id].userId)
    ensures forall slug :: LikesOf(likes - {id}, slug) == LikesOf(likes, slug) - {id}
  {
    var p := (likes[id].postSlug, likes[id].userId);
    forall q | q in LikePairs(likes) - {p} ensures q in LikePairs(likes - {id}) {
      var k :| k in likes && (likes[k].postSlug, likes[k].userId) == q;
      assert k != id && k in likes - {id};
      assert (likes - {id})[k] == likes[k];
    }
  }

  /** Adding a Like row under a fresh id, for an existing user and a pair not yet
      liked, keeps every constraint, adds exactly its pair to the like state and
      its id to its own post's likes. */
  lemma LikeAdded(users: map<Guid, User>, comments: map<Guid, Comment>, likes: map<Guid, Like>,
                  views: map<Guid, View>, like: Like)
    requires Constraints(users, comments, likes, views)
    requires like.id !in likes && like.userId in users && !LikedBy(likes, like.postSlug, like.userId)
    ensures Constraints(users, comments, likes[like.id := like], views)
    ensures LikePairs(likes[like.id := like]) == LikePairs(likes) + {(like.postSlug, like.userId)}
    ensures LikedBy(likes[like.id := like], like.postSlug, like.userId)
    ensures forall slug :: LikesOf(likes[like.id := like], slug) ==
                           LikesOf(likes, slug) + (if slug == like.postSlug then {like.id} else {})
  {
    var after := likes[like.id := like];
    forall q | q in LikePairs(likes) ensures q in LikePairs(after) {
      var k :| k in likes && (likes[k].postSlug, likes[k].userId) == q;
      assert k in after && after[k] == likes[k];
    }
    assert like.id in after && after[like.id] == like;
  }

  /** Setting `LastViewAt` on an existing View row keeps every constraint, the
      view pairs and every post's views; only that row's `lastViewAt` changes. */
  lemma ViewTouched(users: map<Guid, User>, comments: map<Guid, Comment>, likes: map<Guid, Like>,
                    views: map<Guid, View>, id: Guid, at: Instant)
    requires Constraints(users, comments, likes, views) && id in views
    ensures var after := views[id := views[id].(lastViewAt := at)];
      && Constraints(users, comments, likes, after)
      && ViewPairs(after) == ViewPairs(views)
      && forall slug :: ViewsOf(after, slug) == ViewsOf(views, slug)
  {
    var after := views[id := views[id].(lastViewAt := at)];
    forall q | q in ViewPairs(views) ensures q in ViewPairs(after) {
      var k :| k in views && (views[k].postSlug, views[k].userId) == q;
      assert k in after && after[k].postSlug == views[k].postSlug && after[k].userId == views[k].userId;
    }
  }

  /** Adding a View row under a fresh id, for an existing user without a view of
      that post, keeps every constraint, adds exactly its pair to the view pairs
      and its id to its own post's views. */
  lemma ViewAdded(users: map<Guid, User>, comments: map<Guid, Comment>, likes: map<Guid, Like>,
                  views: map<Guid, View>, view: View)
    requires Constraints(users, comments, likes, views)
    requires view.id !in views && view.userId in users && !ViewedBy(views, view.postSlug, view.userId)
    ensures Constraints(users, comments, likes, views[view.id := view])
    ensures ViewPairs(views[view.id := view]) == ViewPairs(views) + {(view.postSlug, view.userId)}
    ensures forall slug :: ViewsOf(views[view.id := view], slug) ==
                           ViewsOf(views, slug) + (if slug == view.postSlug then {view.id} else {})
  {
    var after := views[view.id := view];
    forall q | q in ViewPairs(views) ensures q in ViewPairs(after) {
      var k :| k in views && (views[k].postSlug, views[k].userId) == q;
      assert k in after && after[k] == views[k];
    }
    assert view.id in after && after[view.id] == view;
  }

  /** Adding a user under a fresh id, with an email and a username no user has,
      keeps every constraint. */
  lemma UserAdded(users: map<Guid, User>, comments: map<Guid, Comment>, likes: map<Guid, Like>,
                  views: map<Guid, View>, user: User)
    requires Constraints(users, comments, likes, views)
    requires user.id !in users && !HasEmail(users, user.email) && !HasUsername(users, user.username)
    ensures Constraints(users[user.id := user], comments, likes, views)
  {
  }

  /** Adding a comment under a fresh id, by an existing user, keeps every constraint. */
  lemma CommentAdded(users: map<Guid, User>, comments: map<Guid, Comment>, likes: map<Guid, Like>,
                     views: map<Guid, View>, comment: Comment)
    requires Constraints(users, comments, likes, views)
    requires comment.id !in comments && comment.userId in users
    ensures Constraints(users, comments[comment.id := comment], likes, views)
  {
  }

  // ---- the database context ----

  class DataContext {
    var users: map<Guid, User>
    var comments: map<Guid, Comment>
    var likes: map<Guid, Like>
    var views: map<Guid, View>
    /** Changes tracked since the last SaveChanges. */
    var pending: nat

    /** The state between requests: every constraint holds and nothing is left unsaved. */
    ghost predicate Valid()
      reads this
    {
      pending == 0 && Constraints(users, comments, likes, views)
    }

    constructor ()
      ensures Valid()
      ensures users == map[] && comments == map[] && likes == map[] && views == map[]
    {
      users, comments, likes, views, pending := map[], map[], map[], map[], 0;
    }

    /** `Users.Add(user)`. */
    method AddUser(user: User)
      requires user.id !in users
      modifies this
      ensures users == old(users)[user.id := user] && pending == old(pending) + 1
      ensures comments == old(comments) && likes == old(likes) && views == old(views)
    {
      users := users[user.id := user];
      pending := pending + 1;
    }

    /** `Comments.Add(comment)`. */
    method AddComment(comment: Comment)
      requires comment.id !in comments
      modifies this
      ensures comments == old(comments)[comment.id := comment] && pending == old(pending) + 1
      ensures users == old(users) && likes == old(likes) && views == old(views)
    {
      comments := comments[comment.id := comment];
      pending := pending + 1;
    }

    /** `Likes.Add(like)`. */
    method AddLike(like: Like)
      requires like.id !in likes
      modifies this
      ensures likes == old(likes)[like.id := like] && pending == old(pending) + 1
      ensures users == old(users) && comments == old(comments) && views == old(views)
    {
      likes := likes[like.id := like];
      pending := pending + 1;
    }

    /** `Likes.Remove(like)`. */
    method RemoveLike(id: Guid)
      requires id in likes
      modifies this
      ensures likes == old(likes) - {id} && pending == old(pending) + 1
      ensures users == old(users) && comments == old(comments) && views == old(views)
    {
      likes := likes - {id};
      pending := pending + 1;
    }

    /** `Views.Add(view)`. */
    method AddView(view: View)
      requires view.id !in views
      modifies this
      ensures views == old(views)[view.id := view] && pending == old(pending) + 1
      ensures users == old(users) && comments == old(comments) && likes == old(likes)
    {
      views := views[view.id := view];
      pending := pending + 1;
    }

    /** Assigning `LastViewAt` on a tracked View; the tracker records a change
        only when the value differs. */
    method SetLastViewAt(id: Guid, at: Instant)
      requires id in views
      modifies this
      ensures views == old(views)[id := old(views)[id].(lastViewAt := at)]
      ensures pending == old(pending) + (if old(views)[id].lastViewAt == at then 0 else 1)
      ensures users == old(users) && comments == old(comments) && likes == old(likes)
    {
      var changed := views[id].lastViewAt != at;
      views := views[id := views[id].(lastViewAt := at)];
      if changed {
        pending := pending + 1;
      }
    }

    /** `SaveChangesAsync`: reports how many tracked changes it wrote. */
    method SaveChanges() returns (written: nat)
      modifies this
      ensures written == old(pending) && pending == 0
      ensures users == old(users) && comments == old(comments) && likes == old(likes) && views == old(views)
    {
      written := pending;
      pending := 0;
    }

    /** Deleting a user row: the `DeleteBehavior.Cascade` of the three foreign
        keys removes that user's comments, likes and views, and nothing else. */
    method DeleteUser(id: Guid)
      requires Valid() && id in users
      modifies this
      ensures Valid()
      ensures users == old(users) - {id}
      ensures comments == map c | c in old(comments) && old(comments)[c].userId != id :: old(comments)[c]
      ensures likes == map l | l in old(likes) && old(likes)[l].userId != id :: old(likes)[l]
      ensures views == map v | v in old(views) && old(views)[v].userId != id :: old(views)[v]
    {
      users := users - {id};
      comments := map c | c in comments && comments[c].userId != id :: comments[c];
      likes := map l | l in likes && likes[l].userId != id :: likes[l];
      views := map v | v in views && views[v].userId != id :: views[v];
    }
  }
}
