/**
 * `GetStats.Handler.Handle` (`GET {postSlug}/stats`): a read-only query that
 * counts a post's likes and views and says whether the caller likes it.
 */
module GetStats {
  import opened Wrappers
  import opened EngagementStore

  /** The query reads the store and changes nothing; it always succeeds. */
  function Handle(ctx: DataContext, postSlug: string, userId: Option<Guid>): (r: Result<PostStatsDto>)
    reads ctx
    ensures r.Success? && r.value.postSlug == postSlug
    ensures r.value.likes == |set id | id in ctx.likes && ctx.likes[id].postSlug == postSlug|
    ensures r.value.views == |set id | id in ctx.views && ctx.views[id].postSlug == postSlug|
    ensures r.value.isLikedByUser <==>
      userId.Some? && exists id | id in ctx.likes :: ctx.likes[id].postSlug == postSlug && ctx.likes[id].userId == userId.value
  {
    var likes := |LikesOf(ctx.likes, postSlug)|;
    var views := |ViewsOf(ctx.views, postSlug)|;
    var isLikedByUser := userId.Some? && LikedBy(ctx.likes, postSlug, userId.value);
    Success(PostStatsDto(postSlug, likes, views, isLikedByUser))
  }

  /** What the store's rules promise about the numbers: both counts are counts
      of distinct users, so neither exceeds the number of users, and a caller who
      likes the post is among its likes. Anonymous callers never like a post. */
  lemma StatsBounds(ctx: DataContext, postSlug: string, userId: Option<Guid>)
    requires ctx.Valid()
    ensures var stats := Handle(ctx, postSlug, userId).value;
      && 0 <= stats.likes <= |ctx.users|
      && 0 <= stats.views <= |ctx.users|
      && (stats.isLikedByUser ==> stats.likes >= 1 && userId.value in ctx.users)
      && (userId.None? ==> !stats.isLikedByUser)
  {
    LikesAtMostUsers(ctx.likes, ctx.users, postSlug);
    ViewsAtMostUsers(ctx.views, ctx.users, postSlug);
    if userId.Some? && LikedBy(ctx.likes, postSlug, userId.value) {
      var id :| id in ctx.likes && ctx.likes[id].postSlug == postSlug && ctx.likes[id].userId == userId.value;
      assert id in LikesOf(ctx.likes, postSlug);
    }
  }
}
