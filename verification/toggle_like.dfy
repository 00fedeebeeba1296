/**
 * `ToggleLike.Handler.Handle` and the two routes that dispatch it
 * (`POST` and `DELETE` on `{postSlug}/like` in `PostsController`).
 */
module ToggleLike {
  import opened Wrappers
  import opened EngagementStore

  /** The like state after one toggle of pair `p`: present pairs go, absent pairs come. */
  function Toggle(pairs: set<Pair>, p: Pair): (r: set<Pair>)
    ensures p in r <==> p !in pairs
    ensures r - {p} == pairs - {p}
  {
    if p in pairs then pairs - {p} else pairs + {p}
  }

  /** Toggling the same pair twice restores the like state. */
  lemma ToggleTwice(pairs: set<Pair>, p: Pair)
    ensures Toggle(Toggle(pairs, p), p) == pairs
  {
  }

  /** The handler. `userId` is what `IUserAccessor.GetUserId()` resolved, `newId`
      the `Guid.NewGuid()` of a new row, `now` the `DateTime.UtcNow` it is stamped with. */
  method Handle(ctx: DataContext, postSlug: string, userId: Option<Guid>, newId: Guid, now: Instant)
    returns (o: Outcome<()>)
    requires ctx.Valid() && newId !in ctx.likes
    modifies ctx
    ensures ctx.Valid()
    ensures ctx.users == old(ctx.users) && ctx.comments == old(ctx.comments) && ctx.views == old(ctx.views)
    // no identity: refused, nothing written
    ensures userId.None? ==> o == Done(Failure("User not authenticated")) && ctx.likes == old(ctx.likes)
    // an existing like for the pair is removed
    ensures userId.Some? && old(LikedBy(ctx.likes, postSlug, userId.value)) ==>
      && o == Done(Success(()))
      && exists id | id in old(ctx.likes) ::
           && old(ctx.likes)[id].postSlug == postSlug && old(ctx.likes)[id].userId == userId.value
           && ctx.likes == old(ctx.likes) - {id}
    // otherwise exactly one like for the pair is added
    ensures userId.Some? && !old(LikedBy(ctx.likes, postSlug, userId.value)) && userId.value in ctx.users ==>
      && o == Done(Success(()))
      && ctx.likes == old(ctx.likes)[newId := Like(newId, now, postSlug, userId.value)]
    // a token whose user row is gone: the insert breaks the foreign key and the save throws
    ensures userId.Some? && !old(LikedBy(ctx.likes, postSlug, userId.value)) && userId.value !in ctx.users ==>
      o.Thrown? && ctx.likes == old(ctx.likes)
    // on success: the pair flips, the post's count moves by one, no other post moves
    ensures o == Done(Success(())) ==>
      && LikePairs(ctx.likes) == Toggle(old(LikePairs(ctx.likes)), (postSlug, userId.value))
      && LikedBy(ctx.likes, postSlug, userId.value) == !old(LikedBy(ctx.likes, postSlug, userId.value))
      && |LikesOf(ctx.likes, postSlug)| ==
           old(|LikesOf(ctx.likes, postSlug)|) + (if old(LikedBy(ctx.likes, postSlug, userId.value)) then -1 else 1)
    ensures forall slug | slug != postSlug :: LikesOf(ctx.likes, slug) == old(LikesOf(ctx.likes, slug))
  {
    if userId.None? {
      return Done(Failure("User not authenticated"));
    }
    var user := userId.value;
    if LikedBy(ctx.likes, postSlug, user) {
      var id :| id in ctx.likes && ctx.likes[id].postSlug == postSlug && ctx.likes[id].userId == user;
      LikeRemoved(ctx.users, ctx.comments, ctx.likes, ctx.views, id);
      ctx.RemoveLike(id);
    } else {
      if user !in ctx.users {
        // Likes.Add succeeds; SaveChangesAsync then fails the foreign key and rolls back.
        return Thrown("FOREIGN KEY constraint failed");
      }
      var like := Like(newId, now, postSlug, user);
      LikeAdded(ctx.users, ctx.comments, ctx.likes, ctx.views, like);
      ctx.AddLike(like);
    }
    var written := ctx.SaveChanges();
    o := if written > 0 then Done(Success(())) else Done(Failure("Failed to toggle like"));
  }

  /** The two HTTP verbs on `{postSlug}/like`. */
  datatype Verb = Post | Delete

  /** `PostsController.ToggleLike` and `PostsController.Unlike`: both verbs send
      the same toggle command, so DELETE on a post the user has not liked adds a like. */
  method Route(ctx: DataContext, verb: Verb, postSlug: string, userId: Option<Guid>, newId: Guid, now: Instant)
    returns (o: Outcome<()>)
    requires ctx.Valid() && newId !in ctx.likes
    modifies ctx
    ensures ctx.Valid()
    ensures ctx.users == old(ctx.users) && ctx.comments == old(ctx.comments) && ctx.views == old(ctx.views)
    // whatever the verb: no identity is refused, nothing written
    ensures userId.None? ==> o == Done(Failure("User not authenticated")) && ctx.likes == old(ctx.likes)
    // whatever the verb: an existing user's like of the post flips
    ensures userId.Some? && userId.value in old(ctx.users) ==>
      && o == Done(Success(()))
      && LikePairs(ctx.likes) == Toggle(old(LikePairs(ctx.likes)), (postSlug, userId.value))
      && LikedBy(ctx.likes, postSlug, userId.value) == !old(LikedBy(ctx.likes, postSlug, userId.value))
    ensures o == Done(Success(())) ==>
      && userId.Some?
      && LikePairs(ctx.likes) == Toggle(old(LikePairs(ctx.likes)), (postSlug, userId.value))
    ensures forall slug | slug != postSlug :: LikesOf(ctx.likes, slug) == old(LikesOf(ctx.likes, slug))
    // the two surprising cases
    ensures verb == Delete && userId.Some? && userId.value in old(ctx.users)
            && !old(LikedBy(ctx.likes, postSlug, userId.value)) ==>
      o == Done(Success(())) && LikedBy(ctx.likes, postSlug, userId.value)
    ensures verb == Post && userId.Some? && old(LikedBy(ctx.likes, postSlug, userId.value)) ==>
      o == Done(Success(())) && !LikedBy(ctx.likes, postSlug, userId.value)
  {
    o := Handle(ctx, postSlug, userId, newId, now);
  }

  /** Two toggles of the same pair in a row leave the like state as it was. */
  method ToggleTwiceRestores(ctx: DataContext, postSlug: string, user: Guid, id1: Guid, id2: Guid,
                             now1: Instant, now2: Instant)
    returns (o1: Outcome<()>, o2: Outcome<()>)
    requires ctx.Valid() && id1 !in ctx.likes && id2 !in ctx.likes && id1 != id2
    requires user in ctx.users
    modifies ctx
    ensures o1 == Done(Success(())) && o2 == Done(Success(()))
    ensures LikePairs(ctx.likes) == old(LikePairs(ctx.likes))
    ensures |LikesOf(ctx.likes, postSlug)| == old(|LikesOf(ctx.likes, postSlug)|)
  {
    o1 := Handle(ctx, postSlug, Some(user), id1, now1);
    o2 := Handle(ctx, postSlug, Some(user), id2, now2);
    ToggleTwice(old(LikePairs(ctx.likes)), (postSlug, user));
  }
}
