/**
 * `Create.CommandValidator` and `Create.Handler.Handle` (`POST /comments`),
 * with the `Comment` to `CommentDto` mapping of `MappingProfiles`.
 *
 * Validation is automatic: the validator runs on the bound command before
 * the handler, and a failing command never reaches it. The author is the
 * authenticated user when the id resolves to a user row, and otherwise the one
 * shared user named "anonymous", created on first use. A non-blank
 * `AuthorName` replaces the author's username in the response only.
 */
module CreateComment {
  import opened Wrappers
  import opened Strings
  import opened EngagementStore

  datatype Command = Command(postSlug: string, content: string, authorName: Option<string>)

  const AnonymousUsername := "anonymous"
  const AnonymousEmail := "anonymous@blog.local"

  const SlugRequired := "'Post Slug' must not be empty."
  const ContentRequired := "'Content' must not be empty."

  /** The message of `MaximumLength(1000)` for content of `n` characters. */
  function ContentTooLong(n: nat): (m: string)
    ensures |m| > 0 && m[0] == 'T'
  {
    var lead := "The length of 'Content' must be ";
    assert |lead| > 0 && lead[0] == 'T';
    var m := lead + "1000 characters or fewer. " + "You entered " + Decimal(n) + " characters.";
    assert m[0] == lead[0];
    m
  }

  /** The three messages differ from one another. */
  lemma MessagesDiffer(n: nat)
    ensures SlugRequired != ContentRequired
    ensures SlugRequired != ContentTooLong(n) && ContentRequired != ContentTooLong(n)
  {
    assert SlugRequired[1] == 'P' && ContentRequired[1] == 'C';
    assert SlugRequired[0] == '\'' && ContentRequired[0] == '\'';
  }

  /** `CommandValidator`: NotEmpty on PostSlug, NotEmpty and MaximumLength(1000)
      on Content. FluentValidation's NotEmpty refuses "" and all-white-space
      strings; MaximumLength counts the UTF-16 length of the untrimmed text.
      Every failing rule adds its default message. */
  function Validate(cmd: Command): (errors: seq<string>)
    ensures errors == [] <==> !IsBlank(cmd.postSlug) && !IsBlank(cmd.content) && Utf16Length(cmd.content) <= 1000
    ensures |errors| <= 3
  {
    (if IsBlank(cmd.postSlug) then [SlugRequired] else [])
    + (if IsBlank(cmd.content) then [ContentRequired] else [])
    + (if Utf16Length(cmd.content) > 1000 then [ContentTooLong(Utf16Length(cmd.content))] else [])
  }

  /** Each failing rule contributes its own message, and only a failing rule
      does; a blank slug is reported first. */
  lemma ValidateMessages(cmd: Command)
    ensures SlugRequired in Validate(cmd) <==> IsBlank(cmd.postSlug)
    ensures ContentRequired in Validate(cmd) <==> IsBlank(cmd.content)
    ensures ContentTooLong(Utf16Length(cmd.content)) in Validate(cmd) <==> Utf16Length(cmd.content) > 1000
    ensures IsBlank(cmd.postSlug) ==> Validate(cmd)[0] == SlugRequired
  {
    MessagesOf(IsBlank(cmd.postSlug), IsBlank(cmd.content), Utf16Length(cmd.content));
  }

  /** The same, for the outcome of each rule taken as given. */
  lemma MessagesOf(slugBlank: bool, contentBlank: bool, n: nat)
    ensures var errors := (if slugBlank then [SlugRequired] else [])
                          + (if contentBlank then [ContentRequired] else [])
                          + (if n > 1000 then [ContentTooLong(n)] else []);
      && (SlugRequired in errors <==> slugBlank)
      && (ContentRequired in errors <==> contentBlank)
      && (ContentTooLong(n) in errors <==> n > 1000)
      && (slugBlank ==> errors[0] == SlugRequired)
  {
    MessagesDiffer(n);
  }

  /** The content bound sits at exactly 1000 characters (for text of characters
      up to U+FFFF, each one UTF-16 unit). */
  lemma ContentLengthBoundary(postSlug: string, content: string, authorName: Option<string>)
    requires !IsBlank(postSlug) && !IsBlank(content)
    requires forall i | 0 <= i < |content| :: content[i] as int <= 0xFFFF
    ensures Validate(Command(postSlug, content, authorName)) == [] <==> |content| <= 1000
  {
  }

  /** The display name of the response: the author's username, unless the
      command names a non-blank author, whose name, trimmed, replaces it. */
  function DisplayName(authorName: Option<string>, username: string): (r: string)
    ensures IsNullOrWhiteSpace(authorName) ==> r == username
    ensures !IsNullOrWhiteSpace(authorName) ==>
      && r != [] && !IsWhiteSpace(r[0]) && !IsWhiteSpace(r[|r| - 1])
      && exists a, b | 0 <= a <= b <= |authorName.value| ::
           r == authorName.value[a..b] && IsBlank(authorName.value[..a]) && IsBlank(authorName.value[b..])
  {
    if IsNullOrWhiteSpace(authorName) then username else Trim(authorName.value)
  }

  /** The caller's id resolves to an existing user row. */
  predicate Resolves(userId: Option<Guid>, users: map<Guid, User>) {
    userId.Some? && userId.value in users
  }

  method Handle(ctx: DataContext, cmd: Command, userId: Option<Guid>, newUserId: Guid, newCommentId: Guid,
                now: Instant)
    returns (o: Outcome<CommentDto>)
    requires ctx.Valid() && newUserId !in ctx.users && newCommentId !in ctx.comments
    modifies ctx
    ensures ctx.Valid()
    ensures ctx.likes == old(ctx.likes) && ctx.views == old(ctx.views)
    // refused by validation: nothing touched
    ensures Validate(cmd) != [] ==>
      o == Invalid(Validate(cmd)) && ctx.users == old(ctx.users) && ctx.comments == old(ctx.comments)
    // an authenticated author
    ensures Validate(cmd) == [] && Resolves(userId, old(ctx.users)) ==>
      && ctx.users == old(ctx.users)
      && ctx.comments == old(ctx.comments)[newCommentId :=
           Comment(newCommentId, cmd.content, now, None, cmd.postSlug, userId.value)]
      && o == Done(Success(CommentDto(newCommentId, cmd.content, now,
                DisplayName(cmd.authorName, ctx.users[userId.value].username), ctx.users[userId.value].profileImage)))
    // no author: the existing anonymous user
    ensures Validate(cmd) == [] && !Resolves(userId, old(ctx.users)) && old(HasUsername(ctx.users, AnonymousUsername)) ==>
      && ctx.users == old(ctx.users)
      && exists id | id in ctx.users && ctx.users[id].username == AnonymousUsername ::
           && ctx.comments == old(ctx.comments)[newCommentId :=
                Comment(newCommentId, cmd.content, now, None, cmd.postSlug, id)]
           && o == Done(Success(CommentDto(newCommentId, cmd.content, now,
                     DisplayName(cmd.authorName, AnonymousUsername), ctx.users[id].profileImage)))
    // no author and no anonymous user yet: it is created first
    ensures Validate(cmd) == [] && !Resolves(userId, old(ctx.users)) && !old(HasUsername(ctx.users, AnonymousUsername))
            && !old(HasEmail(ctx.users, AnonymousEmail)) ==>
      && ctx.users == old(ctx.users)[newUserId := User(newUserId, AnonymousEmail, AnonymousUsername, "", None, now)]
      && ctx.comments == old(ctx.comments)[newCommentId :=
           Comment(newCommentId, cmd.content, now, None, cmd.postSlug, newUserId)]
      && o == Done(Success(CommentDto(newCommentId, cmd.content, now, DisplayName(cmd.authorName, AnonymousUsername), None)))
    // creating it would clash with a user already holding its email: the save throws
    ensures Validate(cmd) == [] && !Resolves(userId, old(ctx.users)) && !old(HasUsername(ctx.users, AnonymousUsername))
            && old(HasEmail(ctx.users, AnonymousEmail)) ==>
      o.Thrown? && ctx.users == old(ctx.users) && ctx.comments == old(ctx.comments)
  {
    var errors := Validate(cmd);
    if errors != [] {
      return Invalid(errors);
    }
    var authorId: Guid;
    if userId.Some? && userId.value in ctx.users {
      authorId := userId.value;
    } else {
      if HasUsername(ctx.users, AnonymousUsername) {
        authorId :| authorId in ctx.users && ctx.users[authorId].username == AnonymousUsername;
      } else {
        if HasEmail(ctx.users, AnonymousEmail) {
          // Users.Add succeeds; SaveChangesAsync then fails the unique index on Email.
          return Thrown("UNIQUE constraint failed: Users.Email");
        }
        var anonymous := User(newUserId, AnonymousEmail, AnonymousUsername, "", None, now);
        UserAdded(ctx.users, ctx.comments, ctx.likes, ctx.views, anonymous);
        ctx.AddUser(anonymous);
        var _ := ctx.SaveChanges();
        authorId := newUserId;
      }
    }
    var author := ctx.users[authorId];
    var comment := Comment(newCommentId, cmd.content, now, None, cmd.postSlug, authorId);
    CommentAdded(ctx.users, ctx.comments, ctx.likes, ctx.views, comment);
    ctx.AddComment(comment);
    var written := ctx.SaveChanges();
    var dto := CommentDto(comment.id, comment.content, comment.createdAt,
                          DisplayName(cmd.authorName, author.username), author.profileImage);
    o := if written > 0 then Done(Success(dto)) else Done(Failure("Failed to create comment"));
  }

  /** Two anonymous comments in a row both succeed, are stored under one shared
      author, and each response shows its own command's author name. */
  method TwoAnonymousComments(ctx: DataContext, cmd1: Command, cmd2: Command, userIds: (Guid, Guid),
                              commentIds: (Guid, Guid), now1: Instant, now2: Instant)
    returns (o1: Outcome<CommentDto>, o2: Outcome<CommentDto>)
    requires ctx.Valid() && Validate(cmd1) == [] && Validate(cmd2) == []
    requires userIds.0 !in ctx.users && userIds.1 !in ctx.users && userIds.0 != userIds.1
    requires commentIds.0 !in ctx.comments && commentIds.1 !in ctx.comments && commentIds.0 != commentIds.1
    requires HasUsername(ctx.users, AnonymousUsername) || !HasEmail(ctx.users, AnonymousEmail)
    modifies ctx
    ensures o1.Done? && o1.result.Success? && o2.Done? && o2.result.Success?
    ensures commentIds.0 in ctx.comments && commentIds.1 in ctx.comments
    ensures ctx.comments[commentIds.0].userId == ctx.comments[commentIds.1].userId
    ensures ctx.comments[commentIds.0].userId in ctx.users
    ensures ctx.users[ctx.comments[commentIds.0].userId].username == AnonymousUsername
    ensures o1.result.value.userName == DisplayName(cmd1.authorName, AnonymousUsername)
    ensures o2.result.value.userName == DisplayName(cmd2.authorName, AnonymousUsername)
  {
    o1 := Handle(ctx, cmd1, None, userIds.0, commentIds.0, now1);
    ghost var anon := ctx.comments[commentIds.0].userId;
    assert anon in ctx.users && ctx.users[anon].username == AnonymousUsername;
    assert HasUsername(ctx.users, AnonymousUsername);
    o2 := Handle(ctx, cmd2, None, userIds.1, commentIds.1, now2);
    assert anon in ctx.users && ctx.comments[commentIds.0].userId == anon;
    assert ctx.comments[commentIds.1].userId == anon;
  }
}
