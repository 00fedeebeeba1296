/**
 * `POST /api/webhooks/sanity`: Sanity announces changed document ids, and
 * each id is synced with `syncPostFromSanity` unless the operation is a
 * delete. The CMS lookup that sync performs is the parameter `fetch`.
 */
module SanityWebhook {
  import opened Wrappers
  import opened PrismaStore
  import opened PostSync

  /** `body.ids`: falsy or absent, truthy but not an array, or an array of ids. */
  datatype IdsField = IdsMissing | IdsNotArray | Ids(list: seq<string>)

  datatype WebhookBody = WebhookBody(ids: IdsField, operation: Option<string>)

  datatype Entry = Entry(id: string, operation: Option<string>, status: string)

  datatype WebhookReply = WebhookReply(status: int, success: bool, message: string, results: seq<Entry>,
                                       error: Option<string>)

  const Delete: Option<string> := Some("delete")

  /** Syncing this lookup throws. */
  predicate Throws(fetched: Completion<Option<SanityDoc>>) {
    fetched.Abrupt? || (fetched.value.Some? && fetched.value.value.slug.None?)
  }

  /** The message of the error such a sync throws. */
  function ThrowMessage(fetched: Completion<Option<SanityDoc>>): string
    requires Throws(fetched)
  {
    if fetched.Abrupt? then fetched.error else NoSlugError
  }

  /** Syncing this lookup returns a row (a non-null result). */
  predicate Found(fetched: Completion<Option<SanityDoc>>) {
    fetched.Normal? && fetched.value.Some? && fetched.value.value.slug.Some?
  }

  /** The first id whose sync throws, or the number of ids when none does. */
  function FirstThrow(ids: seq<string>, fetch: string -> Completion<Option<SanityDoc>>): (k: nat)
    ensures k <= |ids|
    ensures forall i | 0 <= i < k :: !Throws(fetch(ids[i]))
    ensures k < |ids| ==> Throws(fetch(ids[k]))
  {
    if ids == [] || Throws(fetch(ids[0])) then 0 else 1 + FirstThrow(ids[1..], fetch)
  }

  lemma FirstThrowAt(ids: seq<string>, fetch: string -> Completion<Option<SanityDoc>>, i: nat)
    requires i <= |ids| && forall j | 0 <= j < i :: !Throws(fetch(ids[j]))
    requires i == |ids| || Throws(fetch(ids[i]))
    ensures FirstThrow(ids, fetch) == i
  {
  }

  /** The post table after syncing `ids` in order. */
  function PostsAfter(posts: map<string, DbPost>, ids: seq<string>, fetch: string -> Completion<Option<SanityDoc>>):
    (r: map<string, DbPost>)
    ensures PostsKeyed(posts) ==> PostsKeyed(r)
    decreases |ids|
  {
    if ids == [] then posts
    else SyncStep(PostsAfter(posts, ids[..|ids| - 1], fetch), fetch(ids[|ids| - 1])).1
  }

  /** The entries of ids synced without a throw. */
  function Synced(ids: seq<string>, operation: Option<string>, fetch: string -> Completion<Option<SanityDoc>>):
    (r: seq<Entry>)
    ensures |r| == |ids|
    ensures forall i | 0 <= i < |ids| ::
      r[i] == Entry(ids[i], operation, if Found(fetch(ids[i])) then "processed" else "failed")
  {
    if ids == [] then []
    else Synced(ids[..|ids| - 1], operation, fetch)
         + [Entry(ids[|ids| - 1], operation, if Found(fetch(ids[|ids| - 1])) then "processed" else "failed")]
  }

  /** The entries of a delete notification. */
  function Ignored(ids: seq<string>): (r: seq<Entry>)
    ensures |r| == |ids|
    ensures forall i | 0 <= i < |ids| :: r[i] == Entry(ids[i], Delete, "ignored")
  {
    if ids == [] then [] else Ignored(ids[..|ids| - 1]) + [Entry(ids[|ids| - 1], Delete, "ignored")]
  }

  lemma SyncedStep(posts: map<string, DbPost>, ids: seq<string>, operation: Option<string>,
                   fetch: string -> Completion<Option<SanityDoc>>, i: nat)
    requires i < |ids|
    ensures PostsAfter(posts, ids[..i + 1], fetch) == SyncStep(PostsAfter(posts, ids[..i], fetch), fetch(ids[i])).1
    ensures Synced(ids[..i + 1], operation, fetch)
         == Synced(ids[..i], operation, fetch) + [Entry(ids[i], operation, if Found(fetch(ids[i])) then "processed" else "failed")]
  {
    var prefix := ids[..i + 1];
    assert prefix[..i] == ids[..i] && prefix[i] == ids[i];
  }

  /** A sync throws exactly when `Throws` says so, and then writes nothing; otherwise
      it returns a row exactly when `Found` says so. */
  lemma StepOutcome(posts: map<string, DbPost>, fetched: Completion<Option<SanityDoc>>)
    ensures SyncStep(posts, fetched).0.Abrupt? <==> Throws(fetched)
    ensures Throws(fetched) ==> SyncStep(posts, fetched) == (Abrupt(ThrowMessage(fetched)), posts)
    ensures !Throws(fetched) ==> (SyncStep(posts, fetched).0.value.Some? <==> Found(fetched))
  {
  }

  const Rejected := WebhookReply(400, false, "Invalid webhook payload", [], None)

  function Failed(error: string): WebhookReply {
    WebhookReply(500, false, "Webhook processing failed", [], Some(error))
  }

  /** The route. `calls` counts the calls to `syncPostFromSanity`. */
  method Post(db: Db, body: Completion<WebhookBody>, fetch: string -> Completion<Option<SanityDoc>>)
    returns (reply: WebhookReply, calls: nat)
    requires db.Valid()
    modifies db
    ensures db.Valid() && db.users == old(db.users) && db.comments == old(db.comments)
    // an unreadable body or a payload without an id array: nothing is synced
    ensures body.Abrupt? ==> reply == Failed(body.error) && calls == 0 && db.posts == old(db.posts)
    ensures body.Normal? && !body.value.ids.Ids? ==> reply == Rejected && calls == 0 && db.posts == old(db.posts)
    // a delete is acknowledged id by id and never synced
    ensures body.Normal? && body.value.ids.Ids? && body.value.operation == Delete ==>
      && reply == WebhookReply(200, true, "", Ignored(body.value.ids.list), None)
      && calls == 0 && db.posts == old(db.posts)
    // anything else syncs the ids in order, up to and including the first that throws
    ensures body.Normal? && body.value.ids.Ids? && body.value.operation != Delete ==>
      var ids := body.value.ids.list;
      var k := FirstThrow(ids, fetch);
      && db.posts == PostsAfter(old(db.posts), ids[..k], fetch)
      && calls == (if k < |ids| then k + 1 else k)
      && (k == |ids| ==> reply == WebhookReply(200, true, "", Synced(ids, body.value.operation, fetch), None))
      && (k < |ids| ==> reply == Failed(ThrowMessage(fetch(ids[k]))))
  {
    if body.Abrupt? {
      return Failed(body.error), 0;
    }
    if !body.value.ids.Ids? {
      return Rejected, 0;
    }
    var results;
    results, calls := ProcessIds(db, body.value.ids.list, body.value.operation, fetch);
    reply := if results.Normal? then WebhookReply(200, true, "", results.value, None) else Failed(results.error);
  }

  /** The loop over `body.ids`: an entry per id, or the first sync error. The
      operation is the same on every turn, so the two branches of the loop body
      are taken as two loops. */
  method ProcessIds(db: Db, ids: seq<string>, operation: Option<string>, fetch: string -> Completion<Option<SanityDoc>>)
    returns (results: Completion<seq<Entry>>, calls: nat)
    requires db.Valid()
    modifies db
    ensures db.Valid() && db.users == old(db.users) && db.comments == old(db.comments)
    ensures operation == Delete ==> results == Normal(Ignored(ids)) && calls == 0 && db.posts == old(db.posts)
    ensures operation != Delete ==>
      var k := FirstThrow(ids, fetch);
      && db.posts == PostsAfter(old(db.posts), ids[..k], fetch)
      && calls == (if k < |ids| then k + 1 else k)
      && (k == |ids| ==> results == Normal(Synced(ids, operation, fetch)))
      && (k < |ids| ==> results == Abrupt(ThrowMessage(fetch(ids[k]))))
  {
    if operation == Delete {
      var entries := IgnoreAll(ids);
      return Normal(entries), 0;
    }
    results, calls := SyncIds(db, ids, operation, fetch);
  }

  /** A delete notification: one "ignored" entry per id. */
  method IgnoreAll(ids: seq<string>) returns (entries: seq<Entry>)
    ensures entries == Ignored(ids)
  {
    entries := [];
    var i := 0;
    while i < |ids|
      invariant 0 <= i <= |ids|
      invariant entries == Ignored(ids[..i])
    {
      IgnoredStep(ids, i);
      entries := entries + [Entry(ids[i], Delete, "ignored")];
      i := i + 1;
    }
    assert ids[..i] == ids;
  }

  lemma IgnoredStep(ids: seq<string>, i: nat)
    requires i < |ids|
    ensures Ignored(ids[..i + 1]) == Ignored(ids[..i]) + [Entry(ids[i], Delete, "ignored")]
  {
    var prefix := ids[..i + 1];
    assert prefix[..i] == ids[..i] && prefix[i] == ids[i];
  }

  /** Any other operation: each id is synced in turn until one throws. */
  method SyncIds(db: Db, ids: seq<string>, operation: Option<string>, fetch: string -> Completion<Option<SanityDoc>>)
    returns (results: Completion<seq<Entry>>, calls: nat)
    requires db.Valid()
    modifies db
    ensures db.Valid() && db.users == old(db.users) && db.comments == old(db.comments)
    ensures db.posts == PostsAfter(old(db.posts), ids[..FirstThrow(ids, fetch)], fetch)
    ensures calls == (if FirstThrow(ids, fetch) < |ids| then FirstThrow(ids, fetch) + 1 else FirstThrow(ids, fetch))
    ensures FirstThrow(ids, fetch) == |ids| ==> results == Normal(Synced(ids, operation, fetch))
    ensures FirstThrow(ids, fetch) < |ids| ==>
      results == Abrupt(ThrowMessage(fetch(ids[FirstThrow(ids, fetch)])))
  {
    calls := 0;
    ghost var initial := db.posts;
    var entries: seq<Entry> := [];
    var i := 0;
    while i < |ids|
      invariant 0 <= i <= |ids| && calls == i
      invariant FirstThrow(ids, fetch) >= i
      invariant db.posts == PostsAfter(initial, ids[..i], fetch) && PostsKeyed(db.posts)
      invariant entries == Synced(ids[..i], operation, fetch)
      invariant db.users == old(db.users) && db.comments == old(db.comments)
    {
      SyncedStep(initial, ids, operation, fetch, i);
      StepOutcome(db.posts, fetch(ids[i]));
      var o := SyncPostFromSanity(db, ids[i], fetch);
      calls := calls + 1;
      if o.Abrupt? {
        FirstThrowAt(ids, fetch, i);
        return Abrupt(o.error), calls;
      }
      entries := entries + [Entry(ids[i], operation, if o.value.Some? then "processed" else "failed")];
      i := i + 1;
    }
    FirstThrowAt(ids, fetch, i);
    assert ids[..i] == ids;
    results := Normal(entries);
  }
}
