/**
 * `syncAllPosts` and `syncPostFromSanity` of `lib/services/postSync.ts`:
 * Sanity post documents are upserted into the Prisma `post` table, keyed by
 * their Sanity id. The CMS queries are parameters: `syncAllPosts` receives
 * what its query returned, `syncPostFromSanity` a lookup by id. Both may
 * throw; the services log and rethrow.
 */
module PostSync {
  import opened Wrappers
  import opened Strings
  import opened PrismaStore

  /** A post document as the GROQ projection returns it; `slug` is `slug.current`. */
  datatype SanityDoc = SanityDoc(id: string, title: Option<string>, slug: Option<string>, publishedAt: Option<string>)

  /** The row written for a document with a slug, on create and on update alike.
      The contract lists the fields one by one; `Truthy` carries JavaScript's
      reading of `||` on the title and the published date. */
  function Row(doc: SanityDoc): (r: DbPost)
    requires doc.slug.Some?
    ensures r.sanityId == doc.id && r.slug == doc.slug.value
    ensures r.title == if Truthy(doc.title) then doc.title.value else "Untitled Post"
    ensures r.title != ""
    ensures r.publishedAt.Some? <==> Truthy(doc.publishedAt)
    ensures r.publishedAt.Some? ==> r.publishedAt == doc.publishedAt
  {
    DbPost(doc.id, if Truthy(doc.title) then doc.title.value else "Untitled Post", doc.slug.value,
           if Truthy(doc.publishedAt) then doc.publishedAt else None)
  }

  /** `post.upsert({ where: { sanityId } })`: at most one row per Sanity id. */
  function Upsert(posts: map<string, DbPost>, doc: SanityDoc): (r: map<string, DbPost>)
    requires doc.slug.Some?
    ensures r.Keys == posts.Keys + {doc.id}
    ensures r[doc.id] == Row(doc)
    ensures forall id | id in posts && id != doc.id :: r[id] == posts[id]
    ensures PostsKeyed(posts) ==> PostsKeyed(r)
  {
    posts[doc.id := Row(doc)]
  }

  /** Syncing the same document twice writes nothing new the second time. */
  lemma UpsertIdempotent(posts: map<string, DbPost>, doc: SanityDoc)
    requires doc.slug.Some?
    ensures Upsert(Upsert(posts, doc), doc) == Upsert(posts, doc)
  {
  }

  /** The Sanity ids of `docs`. */
  function Ids(docs: seq<SanityDoc>): (r: set<string>)
    ensures forall i | 0 <= i < |docs| :: docs[i].id in r
    ensures forall id | id in r :: id in (set d | d in docs :: d.id)
  {
    if docs == [] then {} else Ids(docs[..|docs| - 1]) + {docs[|docs| - 1].id}
  }

  /** The documents synced in order. */
  function UpsertAll(posts: map<string, DbPost>, docs: seq<SanityDoc>): (r: map<string, DbPost>)
    requires forall i | 0 <= i < |docs| :: docs[i].slug.Some?
    ensures PostsKeyed(posts) ==> PostsKeyed(r)
    decreases |docs|
  {
    if docs == [] then posts
    else Upsert(UpsertAll(posts, docs[..|docs| - 1]), docs[|docs| - 1])
  }

  /** After a sync every document's id has a row, and rows of other ids stay as they were. */
  lemma {:induction false} UpsertAllKeys(posts: map<string, DbPost>, docs: seq<SanityDoc>)
    requires forall i | 0 <= i < |docs| :: docs[i].slug.Some?
    ensures UpsertAll(posts, docs).Keys == posts.Keys + Ids(docs)
    ensures forall id | id in posts && id !in Ids(docs) :: UpsertAll(posts, docs)[id] == posts[id]
    decreases |docs|
  {
    if docs != [] {
      UpsertAllKeys(posts, docs[..|docs| - 1]);
    }
  }

  /** The row of a document no later document shares an id with is that document's row. */
  lemma {:induction false} UpsertAllLastWins(posts: map<string, DbPost>, docs: seq<SanityDoc>, i: nat)
    requires forall j | 0 <= j < |docs| :: docs[j].slug.Some?
    requires i < |docs| && forall j | i < j < |docs| :: docs[j].id != docs[i].id
    ensures docs[i].id in UpsertAll(posts, docs) && UpsertAll(posts, docs)[docs[i].id] == Row(docs[i])
    decreases |docs|
  {
    var init := docs[..|docs| - 1];
    if i < |docs| - 1 {
      assert init[i] == docs[i];
      assert forall j | i < j < |init| :: init[j] == docs[j];
      UpsertAllLastWins(posts, init, i);
    }
  }

  /** The first position whose document has no slug, or the length when all have one. */
  function FirstMissingSlug(docs: seq<SanityDoc>): (k: nat)
    ensures k <= |docs|
    ensures forall i | 0 <= i < k :: docs[i].slug.Some?
    ensures k < |docs| ==> docs[k].slug.None?
  {
    if docs == [] || docs[0].slug.None? then 0 else 1 + FirstMissingSlug(docs[1..])
  }

  /** Reading `post.slug.current` on a document without a slug throws. */
  const NoSlugError := "Cannot read properties of undefined (reading 'current')"

  /** `syncAllPosts`. The query only returns documents with a slug, so the
      no-slug throw is unreachable through it; the model still keeps it. */
  method SyncAllPosts(db: Db, fetched: Completion<seq<SanityDoc>>) returns (o: Completion<seq<DbPost>>)
    requires db.Valid()
    modifies db
    ensures db.Valid() && db.users == old(db.users) && db.comments == old(db.comments)
    ensures fetched.Abrupt? ==> o == Abrupt(fetched.error) && db.posts == old(db.posts)
    ensures fetched.Normal? ==>
      var docs := fetched.value;
      var k := FirstMissingSlug(docs);
      // rows written before a throw stay written
      && db.posts == UpsertAll(old(db.posts), docs[..k])
      // one result per fetched post, in fetch order
      && (k == |docs| ==> o == Normal(Rows(docs)))
      && (k < |docs| ==> o == Abrupt(NoSlugError))
  {
    if fetched.Abrupt? {
      return Abrupt(fetched.error);
    }
    o := SyncDocs(db, fetched.value);
  }

  /** The rows written for `docs`, in order. */
  function Rows(docs: seq<SanityDoc>): (r: seq<DbPost>)
    requires forall i | 0 <= i < |docs| :: docs[i].slug.Some?
    ensures |r| == |docs| && forall i | 0 <= i < |docs| :: r[i] == Row(docs[i])
  {
    if docs == [] then [] else Rows(docs[..|docs| - 1]) + [Row(docs[|docs| - 1])]
  }

  /** The first missing slug is where every earlier document has one and this one has none. */
  lemma FirstMissingSlugAt(docs: seq<SanityDoc>, i: nat)
    requires i <= |docs| && forall j | 0 <= j < i :: docs[j].slug.Some?
    requires i == |docs| || docs[i].slug.None?
    ensures FirstMissingSlug(docs) == i
  {
  }

  /** One more document with a slug extends both the table and the results by its row. */
  lemma SyncDocsStep(initial: map<string, DbPost>, docs: seq<SanityDoc>, i: nat)
    requires i < |docs| && forall j | 0 <= j <= i :: docs[j].slug.Some?
    ensures UpsertAll(initial, docs[..i + 1]) == Upsert(UpsertAll(initial, docs[..i]), docs[i])
    ensures Rows(docs[..i + 1]) == Rows(docs[..i]) + [Row(docs[i])]
  {
    var prefix := docs[..i + 1];
    assert prefix[..i] == docs[..i] && prefix[i] == docs[i];
  }

  /** The loop of `syncAllPosts` over the fetched documents. */
  method SyncDocs(db: Db, docs: seq<SanityDoc>) returns (o: Completion<seq<DbPost>>)
    requires db.Valid()
    modifies db
    ensures db.Valid() && db.users == old(db.users) && db.comments == old(db.comments)
    ensures db.posts == UpsertAll(old(db.posts), docs[..FirstMissingSlug(docs)])
    ensures FirstMissingSlug(docs) == |docs| ==> o == Normal(Rows(docs))
    ensures FirstMissingSlug(docs) < |docs| ==> o == Abrupt(NoSlugError)
  {
    ghost var initial := db.posts;
    var results: seq<DbPost> := [];
    var i := 0;
    while i < |docs| && docs[i].slug.Some?
      invariant 0 <= i <= |docs|
      invariant forall j | 0 <= j < i :: docs[j].slug.Some?
      invariant db.posts == UpsertAll(initial, docs[..i]) && PostsKeyed(db.posts)
      invariant results == Rows(docs[..i])
      invariant db.users == old(db.users) && db.comments == old(db.comments)
    {
      SyncDocsStep(initial, docs, i);
      db.posts := Upsert(db.posts, docs[i]);
      results := results + [Row(docs[i])];
      i := i + 1;
    }
    FirstMissingSlugAt(docs, i);
    if i < |docs| {
      // `post.slug.current` on the first document without a slug
      return Abrupt(NoSlugError);
    }
    assert docs[..i] == docs;
    o := Normal(results);
  }

  /** One sync of a looked-up document: its result and the table after it. */
  function SyncStep(posts: map<string, DbPost>, fetched: Completion<Option<SanityDoc>>): (r: (Completion<Option<DbPost>>, map<string, DbPost>))
    // a failed lookup is rethrown; a missing post gives null; neither writes
    ensures fetched.Abrupt? ==> r == (Abrupt(fetched.error), posts)
    ensures fetched == Normal(None) ==> r == (Normal(None), posts)
    ensures fetched.Normal? && fetched.value.Some? && fetched.value.value.slug.None? ==>
      r == (Abrupt(NoSlugError), posts)
    // a found post with a slug is upserted and returned
    ensures fetched.Normal? && fetched.value.Some? && fetched.value.value.slug.Some? ==>
      && r.0 == Normal(Some(Row(fetched.value.value)))
      && r.1 == Upsert(posts, fetched.value.value)
    ensures PostsKeyed(posts) ==> PostsKeyed(r.1)
  {
    match fetched
    case Abrupt(e) => (Abrupt(e), posts)
    case Normal(None) => (Normal(None), posts)
    case Normal(Some(doc)) =>
      if doc.slug.None? then (Abrupt(NoSlugError), posts)
      else (Normal(Some(Row(doc))), Upsert(posts, doc))
  }

  /** `syncPostFromSanity`: `fetch` is the CMS lookup of one post by id. */
  method SyncPostFromSanity(db: Db, sanityId: string, fetch: string -> Completion<Option<SanityDoc>>)
    returns (o: Completion<Option<DbPost>>)
    requires db.Valid()
    modifies db
    ensures db.Valid() && db.users == old(db.users) && db.comments == old(db.comments)
    ensures (o, db.posts) == SyncStep(old(db.posts), fetch(sanityId))
  {
    var fetched := fetch(sanityId);
    if fetched.Abrupt? {
      return Abrupt(fetched.error);
    }
    if fetched.value.None? {
      return Normal(None);
    }
    var doc := fetched.value.value;
    if doc.slug.None? {
      return Abrupt(NoSlugError);
    }
    db.posts := Upsert(db.posts, doc);
    o := Normal(Some(Row(doc)));
  }
}
