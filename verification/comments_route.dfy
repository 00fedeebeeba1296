/**
 * `GET`, `POST`, `PUT` and `DELETE` of `/api/comments` in the Next.js
 * application: status-code decisions over the Prisma comment table, the
 * owner-only edit and delete, and the lazily upserted author row.
 *
 * The Supabase session is a parameter (`None` when there is none); a request
 * body is a parameter that either parsed (`Normal`) or made `request.json()`
 * throw (`Abrupt`). Id and clock values Prisma generates are parameters.
 */
module CommentsRoute {
  import opened Wrappers
  import opened Strings
  import opened PrismaStore

  /** `user_metadata` fields the route reads; a missing key is `None`. */
  datatype Metadata = Metadata(username: Option<string>, preferredUsername: Option<string>,
                               fullName: Option<string>, name: Option<string>,
                               avatarUrl: Option<string>, picture: Option<string>)

  /** The session's Supabase user. */
  datatype SupaUser = SupaUser(id: string, email: Option<string>, metadata: Option<Metadata>)

  /** The user fields selected alongside each comment. */
  datatype Author = Author(username: string, profileImage: Option<string>, name: Option<string>)

  datatype CommentView = CommentView(comment: DbComment, user: Author)

  datatype Body =
    | ErrorBody(error: string)
    | CommentList(items: seq<CommentView>)
    | OneComment(item: CommentView)
    | Deleted

  datatype Reply = Reply(status: int, body: Body)

  datatype PostBody = PostBody(content: Option<string>, postId: Option<string>)
  datatype PutBody = PutBody(id: Option<string>, content: Option<string>)

  /** `session?.user?.id` is truthy. */
  predicate Authenticated(session: Option<SupaUser>) {
    session.Some? && session.value.id != ""
  }

  /** JavaScript `a || b` on two optional strings, read as an optional string:
      the first truthy one, or nothing. */
  function Either(a: Option<string>, b: Option<string>): (r: Option<string>)
    ensures Truthy(r) <==> Truthy(a) || Truthy(b)
    ensures Truthy(a) ==> r == a
    ensures !Truthy(a) && Truthy(b) ==> r == b
  {
    if Truthy(a) then a else if Truthy(b) then b else None
  }

  /** The username of a lazily created author: the metadata username, else the
      preferred username, else the part of the email before "@", else "user_"
      and the first 8 characters of the id. Truthiness decides, so "" counts
      as missing for the first two and for the email. */
  function FallbackUsername(u: SupaUser): (r: string)
    ensures u.metadata.Some? && Truthy(u.metadata.value.username) ==> r == u.metadata.value.username.value
    ensures u.metadata.Some? && !Truthy(u.metadata.value.username) && Truthy(u.metadata.value.preferredUsername) ==>
      r == u.metadata.value.preferredUsername.value
    ensures (u.metadata.None? || !Truthy(Either(u.metadata.value.username, u.metadata.value.preferredUsername)))
            && Truthy(u.email) ==>
      && StartsWith(u.email.value, r) && '@' !in r
      && (|r| < |u.email.value| ==> u.email.value[|r|] == '@')
    ensures (u.metadata.None? || !Truthy(Either(u.metadata.value.username, u.metadata.value.preferredUsername)))
            && !Truthy(u.email) ==>
      && StartsWith(r, "user_") && |r| == 5 + (if |u.id| < 8 then |u.id| else 8)
      && StartsWith(u.id, r[5..])
  {
    var fromMetadata := if u.metadata.Some? then Either(u.metadata.value.username, u.metadata.value.preferredUsername) else None;
    if Truthy(fromMetadata) then fromMetadata.value
    else if Truthy(u.email) then BeforeFirst(u.email.value, '@')
    else "user_" + u.id[..if |u.id| < 8 then |u.id| else 8]
  }

  /** Without usable metadata, an email's local part becomes the username. */
  lemma FallbackIsLocalPart(id: string, local: string, domain: string, metadata: Option<Metadata>)
    requires local != [] && '@' !in local
    requires metadata.None? || !Truthy(Either(metadata.value.username, metadata.value.preferredUsername))
    ensures FallbackUsername(SupaUser(id, Some(local + "@" + domain), metadata)) == local
  {
    BeforeFirstOfJoin(local, '@', domain);
  }

  /** The row `upsert` creates for a session user with no row yet. The schema's
      default role is taken to be USER. The contract lists the fields one by
      one; what they mean is carried by `FallbackUsername`, `Either` and `Truthy`. */
  function NewUser(u: SupaUser): (r: DbUser)
    ensures r.id == u.id && r.username == FallbackUsername(u) && r.bio.None? && r.role == USER
    ensures u.email.Some? ==> r.email == u.email.value
    ensures u.email.None? ==> r.email == u.id + "@placeholder.local"
    ensures u.metadata.None? ==> r.name.None? && r.profileImage.None?
    ensures u.metadata.Some? ==> r.name == Either(u.metadata.value.fullName, u.metadata.value.name)
    ensures u.metadata.Some? ==> r.profileImage == Either(u.metadata.value.avatarUrl, u.metadata.value.picture)
  {
    DbUser(u.id, if u.email.Some? then u.email.value else u.id + "@placeholder.local", FallbackUsername(u),
           if u.metadata.Some? then Either(u.metadata.value.fullName, u.metadata.value.name) else None,
           None,
           if u.metadata.Some? then Either(u.metadata.value.avatarUrl, u.metadata.value.picture) else None,
           USER)
  }

  /** `user.upsert` with an empty `update`: the row is created when absent, and
      no existing row changes. */
  function UpsertUser(users: map<string, DbUser>, u: SupaUser): (r: map<string, DbUser>)
    ensures r.Keys == users.Keys + {u.id}
    ensures forall id | id in users :: r[id] == users[id]
    ensures u.id !in users ==> r[u.id] == NewUser(u)
  {
    if u.id in users then users else users[u.id := NewUser(u)]
  }

  function AuthorOf(user: DbUser): Author {
    Author(user.username, user.profileImage, user.name)
  }

  predicate SortedByCreatedDesc(cs: seq<DbComment>) {
    forall i, j | 0 <= i < j < |cs| :: cs[i].createdAt >= cs[j].createdAt
  }

  /** Insertion of one comment into a newest-first list. */
  function Insert(x: DbComment, s: seq<DbComment>): (r: seq<DbComment>)
    requires SortedByCreatedDesc(s)
    ensures SortedByCreatedDesc(r)
    ensures |r| == |s| + 1
    ensures forall c :: c in r <==> c == x || c in s
    ensures multiset(r) == multiset(s) + multiset{x}
    ensures UniqueCommentIds(s) && (forall c | c in s :: c.id != x.id) ==> UniqueCommentIds(r)
  {
    if s == [] || x.createdAt >= s[0].createdAt then
      UniqueCons(x, s);
      InsertAfterHead(x, s);
      [x] + s
    else
      var rest := Insert(x, s[1..]);
      InsertBehindHead(x, s, rest);
      Uncons(s);
      [s[0]] + rest
  }

  /** A list's multiset is its head's plus its tail's. */
  lemma Uncons(s: seq<DbComment>)
    requires s != []
    ensures multiset(s) == multiset{s[0]} + multiset(s[1..])
  {
    assert s == [s[0]] + s[1..];
  }

  /** The recursive case of `Insert`: an older comment goes behind the head. */
  lemma InsertBehindHead(x: DbComment, s: seq<DbComment>, rest: seq<DbComment>)
    requires s != [] && x.createdAt < s[0].createdAt && SortedByCreatedDesc(s)
    requires SortedByCreatedDesc(rest)
    requires forall c :: c in rest <==> c == x || c in s[1..]
    requires UniqueCommentIds(s[1..]) && (forall c | c in s[1..] :: c.id != x.id) ==> UniqueCommentIds(rest)
    ensures SortedByCreatedDesc([s[0]] + rest)
    ensures forall c :: c in [s[0]] + rest <==> c == x || c in s
    ensures UniqueCommentIds(s) && (forall c | c in s :: c.id != x.id) ==> UniqueCommentIds([s[0]] + rest)
  {
    assert s == [s[0]] + s[1..];
    forall c | c in rest ensures c.createdAt <= s[0].createdAt {
      if c != x {
        var k :| 0 <= k < |s[1..]| && s[1..][k] == c;
        assert s[k + 1] == c;
      }
    }
    InsertAfterHead(s[0], rest);
    if UniqueCommentIds(s) && (forall c | c in s :: c.id != x.id) {
      assert UniqueCommentIds(s[1..]) by {
        forall i, j | 0 <= i < j < |s[1..]| ensures s[1..][i].id != s[1..][j].id {
          assert s[1..][i] == s[i + 1] && s[1..][j] == s[j + 1];
        }
      }
      forall c | c in rest ensures c.id != s[0].id {
        if c != x {
          var k :| 0 <= k < |s[1..]| && s[1..][k] == c;
          assert s[k + 1] == c;
        }
      }
      UniqueCons(s[0], rest);
    }
  }

  /** A head no older than everything behind it keeps a sorted list sorted. */
  lemma InsertAfterHead(head: DbComment, rest: seq<DbComment>)
    requires SortedByCreatedDesc(rest)
    requires forall c | c in rest :: c.createdAt <= head.createdAt
    ensures SortedByCreatedDesc([head] + rest)
  {
    var r := [head] + rest;
    forall i, j | 0 <= i < j < |r| ensures r[i].createdAt >= r[j].createdAt {
      if i == 0 {
        assert r[j] in rest;
      } else {
        assert r[i] == rest[i - 1] && r[j] == rest[j - 1];
      }
    }
  }

  /** `orderBy: { createdAt: "desc" }`: the same comments, newest first. */
  function SortByCreatedDesc(cs: seq<DbComment>): (r: seq<DbComment>)
    ensures SortedByCreatedDesc(r)
    ensures |r| == |cs|
    ensures forall c :: c in r <==> c in cs
    ensures multiset(r) == multiset(cs)
    ensures UniqueCommentIds(cs) ==> UniqueCommentIds(r)
  {
    if cs == [] then []
    else
      var rest := SortByCreatedDesc(cs[1..]);
      Uncons(cs);
      TailFacts(cs, rest);
      Insert(cs[0], rest)
  }

  /** What the recursive case of the sort knows about the sorted tail. */
  lemma TailFacts(cs: seq<DbComment>, rest: seq<DbComment>)
    requires cs != [] && forall c :: c in rest <==> c in cs[1..]
    ensures UniqueCommentIds(cs) ==> UniqueCommentIds(cs[1..]) && forall c | c in rest :: c.id != cs[0].id
    ensures forall c :: c in rest <==> c in cs && (c != cs[0] || cs[0] in cs[1..])
  {
    if UniqueCommentIds(cs) {
      forall c | c in rest ensures c.id != cs[0].id {
        var k :| 0 <= k < |cs[1..]| && cs[1..][k] == c;
        assert cs[k + 1] == c;
      }
      forall i, j | 0 <= i < j < |cs[1..]| ensures cs[1..][i].id != cs[1..][j].id {
        assert cs[1..][i] == cs[i + 1] && cs[1..][j] == cs[j + 1];
      }
    }
    assert cs == [cs[0]] + cs[1..];
  }

  /** `include: { user: { select: ... } }`: each comment with its author's fields. */
  function Join(cs: seq<DbComment>, users: map<string, DbUser>): (r: seq<CommentView>)
    requires forall c | c in cs :: c.userId in users
    ensures |r| == |cs|
    ensures forall i | 0 <= i < |cs| :: r[i] == CommentView(cs[i], AuthorOf(users[cs[i].userId]))
  {
    if cs == [] then [] else [CommentView(cs[0], AuthorOf(users[cs[0].userId]))] + Join(cs[1..], users)
  }

  /** The comments on `postId`, newest first, each with its author. */
  function Listing(comments: seq<DbComment>, users: map<string, DbUser>, postId: string): (items: seq<CommentView>)
    requires UniqueCommentIds(comments) && CommentsHaveUsers(comments, users)
    ensures forall i | 0 <= i < |items| ::
      && items[i].comment in comments && items[i].comment.postId == postId
      && items[i].comment.userId in users
      && items[i].user == AuthorOf(users[items[i].comment.userId])
    ensures forall c | c in comments && c.postId == postId :: exists i | 0 <= i < |items| :: items[i].comment == c
    ensures forall i, j | 0 <= i < j < |items| :: items[i].comment.id != items[j].comment.id
    ensures forall i, j | 0 <= i < j < |items| :: items[i].comment.createdAt >= items[j].comment.createdAt
  {
    var onPost := Filter(comments, (c: DbComment) => c.postId == postId);
    var sorted := SortByCreatedDesc(onPost);
    ListingFacts(comments, users, postId, onPost, sorted);
    Join(sorted, users)
  }

  /** The listing's promises, from what the filter and the sort promise. */
  lemma ListingFacts(comments: seq<DbComment>, users: map<string, DbUser>, postId: string,
                     onPost: seq<DbComment>, sorted: seq<DbComment>)
    requires CommentsHaveUsers(comments, users)
    requires forall c :: c in onPost <==> c in comments && c.postId == postId
    requires forall c :: c in sorted <==> c in onPost
    requires UniqueCommentIds(sorted) && SortedByCreatedDesc(sorted)
    ensures forall c | c in sorted :: c.userId in users
    ensures forall c | c in comments && c.postId == postId :: exists i | 0 <= i < |sorted| :: sorted[i] == c
    ensures var items := Join(sorted, users);
      && (forall i | 0 <= i < |items| ::
            && items[i].comment in comments && items[i].comment.postId == postId
            && items[i].comment.userId in users
            && items[i].user == AuthorOf(users[items[i].comment.userId]))
      && (forall c | c in comments && c.postId == postId :: exists i | 0 <= i < |items| :: items[i].comment == c)
      && (forall i, j | 0 <= i < j < |items| :: items[i].comment.id != items[j].comment.id)
      && (forall i, j | 0 <= i < j < |items| :: items[i].comment.createdAt >= items[j].comment.createdAt)
  {
    forall c | c in sorted ensures c.userId in users {
      var k :| 0 <= k < |comments| && comments[k] == c;
    }
    var items := Join(sorted, users);
    forall c | c in comments && c.postId == postId ensures exists i | 0 <= i < |items| :: items[i].comment == c {
      var i :| 0 <= i < |sorted| && sorted[i] == c;
      assert items[i].comment == c;
    }
  }

  /** `GET /api/comments?postId=…`. */
  function Get(db: Db, postId: Option<string>): (r: Reply)
    reads db
    requires db.Valid()
    ensures !Truthy(postId) ==> r == Reply(400, ErrorBody("Post ID is required"))
    // exactly the post's comments, each once, newest first, with their authors
    ensures Truthy(postId) ==> r == Reply(200, CommentList(Listing(db.comments, db.users, postId.value)))
  {
    if !Truthy(postId) then Reply(400, ErrorBody("Post ID is required"))
    else Reply(200, CommentList(Listing(db.comments, db.users, postId.value)))
  }

  /** `POST /api/comments`. */
  method Post(db: Db, session: Option<SupaUser>, body: Completion<PostBody>, newId: string, now: Instant)
    returns (r: Reply)
    requires db.Valid() && !HasComment(db.comments, newId)
    modifies db
    ensures db.Valid() && db.posts == old(db.posts)
    ensures !Authenticated(session) ==> r == Reply(401, ErrorBody("Unauthorized")) && unchanged(db)
    ensures Authenticated(session) && body.Abrupt? ==>
      r == Reply(500, ErrorBody("Failed to create comment")) && unchanged(db)
    ensures Authenticated(session) && body.Normal? && !(Truthy(body.value.content) && Truthy(body.value.postId)) ==>
      r == Reply(400, ErrorBody("Content and postId are required")) && unchanged(db)
    ensures Authenticated(session) && body.Normal? && Truthy(body.value.content) && Truthy(body.value.postId) ==>
      var comment := DbComment(newId, body.value.content.value, body.value.postId.value, session.value.id, now);
      && db.users == UpsertUser(old(db.users), session.value)
      && db.comments == old(db.comments) + [comment]
      && r == Reply(200, OneComment(CommentView(comment, AuthorOf(db.users[session.value.id]))))
  {
    if !Authenticated(session) {
      return Reply(401, ErrorBody("Unauthorized"));
    }
    if body.Abrupt? {
      return Reply(500, ErrorBody("Failed to create comment"));
    }
    var content, postId := body.value.content, body.value.postId;
    if !Truthy(content) || !Truthy(postId) {
      return Reply(400, ErrorBody("Content and postId are required"));
    }
    var u := session.value;
    db.users := UpsertUser(db.users, u);
    var comment := DbComment(newId, content.value, postId.value, u.id, now);
    assert forall c | c in db.comments :: c.id != newId;
    UniqueSnoc(db.comments, comment);
    db.comments := db.comments + [comment];
    r := Reply(200, OneComment(CommentView(comment, AuthorOf(db.users[u.id]))));
  }

  /** Appending a comment under an id not yet used keeps ids unique. */
  lemma UniqueSnoc(cs: seq<DbComment>, c: DbComment)
    requires UniqueCommentIds(cs) && forall d | d in cs :: d.id != c.id
    ensures UniqueCommentIds(cs + [c])
  {
    var r := cs + [c];
    forall i, j | 0 <= i < j < |r| ensures r[i].id != r[j].id {
      if j == |cs| {
        assert r[i] in cs;
      } else {
        assert r[i] == cs[i] && r[j] == cs[j];
      }
    }
  }

  /** `PUT /api/comments`: only the owner may change a comment, and only its content. */
  method Put(db: Db, session: Option<SupaUser>, body: Completion<PutBody>) returns (r: Reply)
    requires db.Valid()
    modifies db
    ensures db.Valid() && db.users == old(db.users) && db.posts == old(db.posts)
    ensures !Authenticated(session) ==> r == Reply(401, ErrorBody("Unauthorized")) && unchanged(db)
    ensures Authenticated(session) && body.Abrupt? ==>
      r == Reply(500, ErrorBody("Failed to update comment")) && unchanged(db)
    ensures Authenticated(session) && body.Normal? && !(Truthy(body.value.id) && Truthy(body.value.content)) ==>
      r == Reply(400, ErrorBody("Comment ID and content are required")) && unchanged(db)
    ensures Authenticated(session) && body.Normal? && Truthy(body.value.id) && Truthy(body.value.content) ==>
      var i := IndexOf(old(db.comments), body.value.id.value);
      && (i.None? ==> r == Reply(404, ErrorBody("Comment not found")) && unchanged(db))
      && (i.Some? && old(db.comments)[i.value].userId != session.value.id ==>
            r == Reply(403, ErrorBody("Not authorized to edit this comment")) && unchanged(db))
      && (i.Some? && old(db.comments)[i.value].userId == session.value.id ==>
            && db.comments == old(db.comments)[i.value := old(db.comments)[i.value].(content := body.value.content.value)]
            && db.comments[i.value].userId in db.users
            && r == Reply(200, OneComment(CommentView(db.comments[i.value], AuthorOf(db.users[db.comments[i.value].userId])))))
  {
    if !Authenticated(session) {
      return Reply(401, ErrorBody("Unauthorized"));
    }
    if body.Abrupt? {
      return Reply(500, ErrorBody("Failed to update comment"));
    }
    var id, content := body.value.id, body.value.content;
    if !Truthy(id) || !Truthy(content) {
      return Reply(400, ErrorBody("Comment ID and content are required"));
    }
    var i := IndexOf(db.comments, id.value);
    if i.None? {
      return Reply(404, ErrorBody("Comment not found"));
    }
    var comment := db.comments[i.value];
    if comment.userId != session.value.id {
      return Reply(403, ErrorBody("Not authorized to edit this comment"));
    }
    var updated := comment.(content := content.value);
    db.comments := db.comments[i.value := updated];
    assert db.comments[i.value].userId in db.users;
    r := Reply(200, OneComment(CommentView(updated, AuthorOf(db.users[updated.userId]))));
  }

  /** `DELETE /api/comments?id=…`: only the owner may delete, and only that comment goes. */
  method Delete(db: Db, session: Option<SupaUser>, id: Option<string>) returns (r: Reply)
    requires db.Valid()
    modifies db
    ensures db.Valid() && db.users == old(db.users) && db.posts == old(db.posts)
    ensures !Authenticated(session) ==> r == Reply(401, ErrorBody("Unauthorized")) && unchanged(db)
    ensures Authenticated(session) && !Truthy(id) ==>
      r == Reply(400, ErrorBody("Comment ID is required")) && unchanged(db)
    ensures Authenticated(session) && Truthy(id) ==>
      var i := IndexOf(old(db.comments), id.value);
      && (i.None? ==> r == Reply(404, ErrorBody("Comment not found")) && unchanged(db))
      && (i.Some? && old(db.comments)[i.value].userId != session.value.id ==>
            r == Reply(403, ErrorBody("Not authorized to delete this comment")) && unchanged(db))
      && (i.Some? && old(db.comments)[i.value].userId == session.value.id ==>
            && r == Reply(200, Deleted)
            && db.comments == old(db.comments)[..i.value] + old(db.comments)[i.value + 1..]
            && (forall c :: c in db.comments <==> c in old(db.comments) && c.id != id.value))
  {
    if !Authenticated(session) {
      return Reply(401, ErrorBody("Unauthorized"));
    }
    if !Truthy(id) {
      return Reply(400, ErrorBody("Comment ID is required"));
    }
    var i := IndexOf(db.comments, id.value);
    if i.None? {
      return Reply(404, ErrorBody("Comment not found"));
    }
    if db.comments[i.value].userId != session.value.id {
      return Reply(403, ErrorBody("Not authorized to delete this comment"));
    }
    RemovedAt(db.comments, i.value);
    db.comments := db.comments[..i.value] + db.comments[i.value + 1..];
    r := Reply(200, Deleted);
  }

  /** Cutting position `k` out of a list with unique ids removes exactly the
      comment with that position's id. */
  lemma RemovedAt(cs: seq<DbComment>, k: nat)
    requires UniqueCommentIds(cs) && k < |cs|
    ensures var r := cs[..k] + cs[k + 1..];
      && UniqueCommentIds(r)
      && (forall c :: c in r <==> c in cs && c.id != cs[k].id)
  {
    var r := cs[..k] + cs[k + 1..];
    assert forall i | 0 <= i < |r| :: r[i] == (if i < k then cs[i] else cs[i + 1]);
    forall c ensures c in r <==> c in cs && c.id != cs[k].id {
      if c in cs && c.id != cs[k].id {
        var j :| 0 <= j < |cs| && cs[j] == c;
        assert j != k;
        if j < k { assert r[j] == c; } else { assert r[j - 1] == c; }
      }
    }
  }
}
