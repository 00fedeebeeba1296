/**
 * `RecordView.Handler.Handle` (`POST {postSlug}/view`). As written it has no
 * time window: every call by a known user writes `LastViewAt = now`, and the
 * result is always `Success(Unit)`, with no count and no "counted" flag.
 */
module RecordView {
  import opened Wrappers
  import opened EngagementStore

  method Handle(ctx: DataContext, postSlug: string, userId: Option<Guid>, newId: Guid, now: Instant)
    returns (o: Outcome<()>)
    requires ctx.Valid() && newId !in ctx.views
    modifies ctx
    ensures ctx.Valid()
    ensures ctx.users == old(ctx.users) && ctx.comments == old(ctx.comments) && ctx.likes == old(ctx.likes)
    // anonymous visitors: success, nothing tracked
    ensures userId.None? ==> o == Done(Success(())) && ctx.views == old(ctx.views)
    // a repeat view: only that row's LastViewAt moves to now, whatever it was
    ensures userId.Some? && old(ViewedBy(ctx.views, postSlug, userId.value)) ==>
      && o == Done(Success(()))
      && exists id | id in old(ctx.views) ::
           && old(ctx.views)[id].postSlug == postSlug && old(ctx.views)[id].userId == userId.value
           && ctx.views == old(ctx.views)[id := old(ctx.views)[id].(lastViewAt := now)]
    // a first view: exactly one row, created and last seen now
    ensures userId.Some? && !old(ViewedBy(ctx.views, postSlug, userId.value)) && userId.value in ctx.users ==>
      && o == Done(Success(()))
      && ctx.views == old(ctx.views)[newId := View(newId, postSlug, userId.value, now, now)]
    // a token whose user row is gone: the insert breaks the foreign key and the save throws
    ensures userId.Some? && !old(ViewedBy(ctx.views, postSlug, userId.value)) && userId.value !in ctx.users ==>
      o.Thrown? && ctx.views == old(ctx.views)
    // the post's view count grows by one on a user's first view only; others never move
    ensures |ViewsOf(ctx.views, postSlug)| ==
      old(|ViewsOf(ctx.views, postSlug)|)
        + (if o.Done? && userId.Some? && !old(ViewedBy(ctx.views, postSlug, userId.value)) then 1 else 0)
    ensures forall slug | slug != postSlug :: ViewsOf(ctx.views, slug) == old(ViewsOf(ctx.views, slug))
    ensures o.Done? && userId.Some? ==> ViewPairs(ctx.views) == old(ViewPairs(ctx.views)) + {(postSlug, userId.value)}
  {
    if userId.None? {
      // anonymous views are accepted and not tracked
      return Done(Success(()));
    }
    var user := userId.value;
    if ViewedBy(ctx.views, postSlug, user) {
      var id :| id in ctx.views && ctx.views[id].postSlug == postSlug && ctx.views[id].userId == user;
      ViewTouched(ctx.users, ctx.comments, ctx.likes, ctx.views, id, now);
      assert (postSlug, user) in ViewPairs(ctx.views);
      ctx.SetLastViewAt(id, now);
    } else {
      if user !in ctx.users {
        // Views.Add succeeds; SaveChangesAsync then fails the foreign key and rolls back.
        return Thrown("FOREIGN KEY constraint failed");
      }
      var view := View(newId, postSlug, user, now, now);
      ViewAdded(ctx.users, ctx.comments, ctx.likes, ctx.views, view);
      ctx.AddView(view);
    }
    // the number of rows written is ignored
    var _ := ctx.SaveChanges();
    o := Done(Success(()));
  }

  /** Without a time window, a known user's views of a post keep only the time of
      the latest call: after two calls the row was created at the first and last
      seen at the second, and the post counts that user once. */
  method ViewTwice(ctx: DataContext, postSlug: string, user: Guid, id1: Guid, id2: Guid, t1: Instant, t2: Instant)
    returns (o1: Outcome<()>, o2: Outcome<()>)
    requires ctx.Valid() && id1 !in ctx.views && id2 !in ctx.views && id1 != id2
    requires user in ctx.users && !ViewedBy(ctx.views, postSlug, user)
    modifies ctx
    ensures o1 == Done(Success(())) && o2 == Done(Success(()))
    ensures ctx.views == old(ctx.views)[id1 := View(id1, postSlug, user, t1, t2)]
    ensures |ViewsOf(ctx.views, postSlug)| == old(|ViewsOf(ctx.views, postSlug)|) + 1
  {
    o1 := Handle(ctx, postSlug, Some(user), id1, t1);
    assert ctx.views[id1].postSlug == postSlug && ctx.views[id1].userId == user;
    o2 := Handle(ctx, postSlug, Some(user), id2, t2);
  }
}
