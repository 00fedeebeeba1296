# Blog engagement and content services, modelled in Dafny

This project models the core of a blog system made of two applications.

**The ASP.NET Core engagement API.**
- An Entity Framework `DataContext` holds four tables: users, comments, likes and views. It enforces keys, unique indexes and cascading foreign keys.
- MediatR handlers change those tables:
  - `ToggleLike` flips a user's like on a post. The POST and DELETE routes on `{postSlug}/like` both send it.
  - `RecordView` inserts a view or moves its last-view time.
  - `GetStats` counts a post's likes and views and says whether the caller likes it.
  - `Comments.Create` validates the command and resolves the author. The author is the caller, or one shared `anonymous` user created on first use. A non-blank author name may replace the author's name in the response.

**The Next.js front end's server-side pieces.**
- The `/api/comments` route: GET, POST, PUT and DELETE over a Prisma comment table, with owner-only edit and delete and a lazily upserted author.
- The zod schemas for sign-up, sign-in, profile and password reset, plus the reset page's link check.
- The pagination window.
- Choosing a post's image field and building its URL.
- Syncing Sanity posts into the `post` table, keyed by Sanity id, and the Sanity webhook that triggers the sync.
- The user service: profile update with the identity fields stripped, profile-image upload, and user deletion.

**How the two sides are modelled.**
- The .NET store is the class `EngagementStore.DataContext`. Its tables are `map` fields keyed by id. `Valid()` holds every rule of `OnModelCreating`.
- The handlers are methods over that class. Each one calls a lemma showing that its single change keeps the rules. A `pending` counter stands for the change tracker, and `SaveChanges` reports it.
- The Prisma database is the class `PrismaStore.Db`. It has users keyed by id, comments as a sequence in insertion order, and posts keyed by Sanity id.
- These become parameters:
  - the clock and freshly generated ids;
  - the caller's identity;
  - the CMS lookups;
  - the image URL builder;
  - Supabase Storage;
  - the zod email check.
- A request body that fails to parse is an `Abrupt` completion. A rejected save is a `Thrown` outcome with the database unchanged.

**Where the code and its description disagree, the model follows the code:**
- `RecordView` has no time window and no "counted" flag. Every call by a known user sets `LastViewAt`, and the result is always `Success(Unit)` unless the save throws (api/Application/Posts/RecordView.cs:37-57).
- `Create` computes a default author name "Anonymous" and never uses it (api/Application/Comments/Create.cs:57-59).
  - The response shows the trimmed `AuthorName` only when it is non-blank. Otherwise it shows the author's username, which is "anonymous" for the shared user.
  - The override also applies to authenticated authors.
- FluentValidation's `NotEmpty` refuses strings that are only white space. `MaximumLength(1000)` counts the UTF-16 length of the untrimmed content.
- `getPostImageUrl` has a branch for image objects with an asset reference and a fallback branch. Both call the builder the same way, so the model has one builder path. A string never has `_type == "image"`, so checking the string case first changes nothing.
- `uploadProfileImage` ignores the null that `updateUserProfile` returns for a missing user. It returns the public URL anyway.

## Model

| member | source | states |
|---|---|---|
| EngagementStore.LikesAtMostUsers | api/Persistence/DataContext.cs:43-48 | with one like per (post, user) and every like owned by an existing user, a post has no more likes than there are users |
| EngagementStore.ViewsAtMostUsers | api/Persistence/DataContext.cs:55-60 | with one view per (post, user) and every view owned by an existing user, a post's view count is at most the number of users |
| EngagementStore.CommentsMayShareSlug | api/Persistence/DataContext.cs:30-31 | the PostSlug index is not unique: two comments by one user on one post satisfy every rule |
| EngagementStore.LikeRemoved | api/Application/Posts/ToggleLike.cs:37-41 | removing a like row keeps every rule, removes exactly its (post, user) pair and that row from its post's likes, and leaves the pair unliked |
| EngagementStore.LikeAdded | api/Application/Posts/ToggleLike.cs:42-53 | adding a fresh like for an existing user and an unliked pair keeps every rule, adds exactly that pair, and adds the row only to its own post's likes |
| EngagementStore.ViewTouched | api/Application/Posts/RecordView.cs:37-41 | moving one view's LastViewAt keeps every rule, every view pair and every post's views |
| EngagementStore.ViewAdded | api/Application/Posts/RecordView.cs:42-53 | adding a fresh view for an existing user with no view of that post keeps every rule and adds exactly that pair, and the row only to that post's views |
| EngagementStore.UserAdded | api/Persistence/DataContext.cs:22-24 | a user with a fresh id, an unused email and an unused username can be added without breaking any rule |
| EngagementStore.CommentAdded | api/Persistence/DataContext.cs:30-35 | a comment with a fresh id by an existing user can be added without breaking any rule |
| EngagementStore.DataContext.constructor | api/Persistence/DataContext.cs:8-13 | an empty context satisfies every rule |
| EngagementStore.DataContext.AddUser | api/Application/Comments/Create.cs:75 | `Users.Add` tracks one change and adds exactly that row |
| EngagementStore.DataContext.AddComment | api/Application/Comments/Create.cs:90 | `Comments.Add` tracks one change and adds exactly that row |
| EngagementStore.DataContext.AddLike | api/Application/Posts/ToggleLike.cs:52 | `Likes.Add` tracks one change and adds exactly that row |
| EngagementStore.DataContext.RemoveLike | api/Application/Posts/ToggleLike.cs:40 | `Likes.Remove` tracks one change and removes exactly that row |
| EngagementStore.DataContext.AddView | api/Application/Posts/RecordView.cs:53 | `Views.Add` tracks one change and adds exactly that row |
| EngagementStore.DataContext.SetLastViewAt | api/Application/Posts/RecordView.cs:40 | assigning LastViewAt changes only that field of that row, and is tracked only when the value differs |
| EngagementStore.DataContext.SaveChanges | api/Application/Posts/ToggleLike.cs:55 | saving reports the number of tracked changes and clears them, leaving every table as it is |
| EngagementStore.DataContext.DeleteUser | api/Persistence/DataContext.cs:32-60 | deleting a user cascades: exactly that user's comments, likes and views go, every other row stays, and every rule still holds |
| ToggleLike.Toggle | api/Application/Posts/ToggleLike.cs:37-53 | one toggle flips the membership of its own pair and no other |
| ToggleLike.ToggleTwice | api/Application/Posts/ToggleLike.cs:37-53 | toggling a pair twice restores the like state |
| ToggleLike.Handle | api/Application/Posts/ToggleLike.cs:30-59 | no identity fails with "User not authenticated" and writes nothing; an existing like of the pair is removed; otherwise exactly one like is added; a user id without a user row makes the save throw; on success the pair flips, the post's count moves by exactly one, and no other post's likes change |
| ToggleLike.Route | api/API/Controllers/PostsController.cs:16-26 | both verbs toggle, with the same contract: no identity fails with "User not authenticated" and writes nothing; an existing user's like of the post flips and the call succeeds; users, comments, views and other posts' likes never change; in particular DELETE on a post the user has not liked adds a like, and POST on a liked post removes it |
| ToggleLike.ToggleTwiceRestores | api/Application/Posts/ToggleLike.cs:37-59 | two toggles in a row both succeed and leave the like pairs and the post's like count as they were |
| RecordView.Handle | api/Application/Posts/RecordView.cs:30-57 | an anonymous caller gets Success and nothing is tracked; a repeat view moves only that row's LastViewAt to now; a first view adds one row created and last seen now; the post's count grows by one only on a first view; other posts are untouched; the result is always Success(Unit) unless the save throws |
| RecordView.ViewTwice | api/Application/Posts/RecordView.cs:37-53 | with no time window, two views by one user leave one row, created at the first call and last seen at the second, counted once |
| GetStats.Handle | api/Application/Posts/GetStats.cs:29-46 | always Success; echoes the slug; the counts are the numbers of like and view rows of the slug; isLikedByUser holds exactly when an identity is given and a like of (slug, user) exists |
| GetStats.StatsBounds | api/Application/Posts/GetStats.cs:31-38 | on a valid store both counts lie between 0 and the number of users; a caller who likes the post is an existing user and makes the like count at least one; anonymous callers never like |
| CreateComment.Validate | api/Application/Comments/Create.cs:25-26 | a command passes exactly when its slug and content are not blank and the content has at most 1000 UTF-16 units; at most three messages |
| CreateComment.ValidateMessages | api/Application/Comments/Create.cs:25-26 | each failing rule contributes its own message and only a failing rule does; a blank slug is reported first |
| CreateComment.ContentLengthBoundary | api/Application/Comments/Create.cs:26 | for text within the Basic Multilingual Plane, 1000 characters pass and 1001 fail |
| CreateComment.DisplayName | api/Application/Comments/Create.cs:96-99 | a blank or missing author name keeps the username; otherwise the name is trimmed, so it is a slice with only white space around it and neither end is white space |
| CreateComment.Handle | api/Application/Comments/Create.cs:43-101 | an invalid command returns its messages and changes nothing; a resolving caller is the author; otherwise the existing "anonymous" user is the author, or is created first with email anonymous@blog.local; if that email is taken the save throws and nothing changes; the stored content is untrimmed; the response carries the display name |
| CreateComment.TwoAnonymousComments | api/Application/Comments/Create.cs:61-77 | two anonymous comments in a row share one author, whose username is "anonymous" |
| Strings.Trim | api/Application/Comments/Create.cs:99 | `string.Trim`: a slice of the input with only white space cut from both ends; empty exactly when the input is blank |
| Strings.Utf16Length | api/Application/Comments/Create.cs:26 | the UTF-16 length lies between the character count and twice it, and equals the character count for text within the Basic Multilingual Plane |
| Strings.BeforeFirst | nextjs-blog/src/app/api/comments/route.ts:70 | `split('@')[0]`: the longest prefix holding no separator, followed by the separator when shorter than the input |
| Strings.AfterLast | nextjs-blog/src/lib/services/userService.ts:54 | `split('.').pop()`: the longest suffix holding no separator, preceded by the separator when shorter than the input |
| PrismaStore.IndexOf | nextjs-blog/src/app/api/comments/route.ts:132-135 | `findUnique` by id: a position exactly when a comment with that id exists, and then the first one with it |
| PrismaStore.WithoutUser | nextjs-blog/src/lib/services/userService.ts:85 | what a cascading user delete leaves: exactly the comments of other users, ids still unique |
| CommentsRoute.Either | nextjs-blog/src/app/api/comments/route.ts:69 | JavaScript `a \|\| b` on optional strings: the first truthy operand, and truthy exactly when one of them is |
| CommentsRoute.FallbackUsername | nextjs-blog/src/app/api/comments/route.ts:68-70 | the metadata username, else the preferred username, else the email's text before the first "@", else "user_" and the id's first 8 characters |
| CommentsRoute.FallbackIsLocalPart | nextjs-blog/src/app/api/comments/route.ts:70 | without usable metadata, a user with email local@domain gets username local |
| CommentsRoute.NewUser | nextjs-blog/src/app/api/comments/route.ts:75-81 | the created row: the session id, the email or id@placeholder.local, the fallback username, name and picture from the first truthy metadata key, no bio |
| CommentsRoute.UpsertUser | nextjs-blog/src/app/api/comments/route.ts:72-82 | the session user gets a row; an existing row never changes |
| CommentsRoute.SortByCreatedDesc | nextjs-blog/src/app/api/comments/route.ts:27-29 | a permutation of the comments (equal multisets), newest first, ids still unique |
| CommentsRoute.Join | nextjs-blog/src/app/api/comments/route.ts:17-26 | each comment paired with its author's username, image and name |
| CommentsRoute.Listing | nextjs-blog/src/app/api/comments/route.ts:16-30 | exactly the comments of the post, each once, newest first, each with its author's fields |
| CommentsRoute.Get | nextjs-blog/src/app/api/comments/route.ts:7-32 | no truthy postId gives 400 "Post ID is required"; otherwise 200 with the listing of that post |
| CommentsRoute.Post | nextjs-blog/src/app/api/comments/route.ts:42-108 | no session gives 401 and a body that fails to parse gives 500, both changing nothing; missing content or postId gives 400; otherwise the author row is upserted and exactly one comment by the session user is appended and returned with its author |
| CommentsRoute.Put | nextjs-blog/src/app/api/comments/route.ts:112-169 | 401, 500, 400, 404 and 403 change nothing; the owner's edit changes only that comment's content and returns it with its author |
| CommentsRoute.Delete | nextjs-blog/src/app/api/comments/route.ts:173-214 | 401, 400, 404 and 403 change nothing; the owner's delete removes exactly the comment with that id |
| CommentsRoute.RemovedAt | nextjs-blog/src/app/api/comments/route.ts:210-212 | cutting one position out of uniquely keyed comments removes exactly the comment with that id |
| AuthValidation.EmailIssues | nextjs-blog/src/lib/validations/auth.ts:4 | no issue exactly when the email check accepts |
| AuthValidation.UsernameIssues | nextjs-blog/src/lib/validations/auth.ts:5-11 | no issue exactly when the username has 3 to 20 characters, all ASCII letters, digits or underscores; every issue is on "username"; too short and too long are each reported |
| AuthValidation.PasswordIssues | nextjs-blog/src/lib/validations/auth.ts:12-14 | no issue exactly when the password reaches the minimum length |
| AuthValidation.SignUpIssues | nextjs-blog/src/lib/validations/auth.ts:3-15 | sign-up passes exactly when the email is valid, the username follows its rules and the password has at least 8 characters |
| AuthValidation.SignInIssues | nextjs-blog/src/lib/validations/auth.ts:17-20 | sign-in passes exactly when the email is valid and the password is not empty |
| AuthValidation.ProfileIssues | nextjs-blog/src/lib/validations/auth.ts:22-36 | a profile passes exactly when the username follows the sign-up rules and the bio is absent, null or at most 160 characters; the name is never checked |
| AuthValidation.SignUpImpliesSignIn | nextjs-blog/src/lib/validations/auth.ts:3-20 | an accepted sign-up's email and password always pass sign-in |
| AuthValidation.SameUsernameRule | nextjs-blog/src/lib/validations/auth.ts:5-29 | profile and sign-up accept exactly the same usernames |
| AuthValidation.PasswordRulesDiffer | nextjs-blog/src/lib/validations/auth.ts:12-19 | a seven-character password passes sign-in and fails sign-up |
| ResetPassword.ResetIssues | nextjs-blog/src/app/auth/reset-password/page.tsx:30-42 | the form passes exactly when the password has at least 8 characters and equals the confirmation; each short field and a mismatch are each reported, the mismatch on confirmPassword |
| ResetPassword.ResetPasswordPage.constructor | nextjs-blog/src/app/auth/reset-password/page.tsx:45-48 | the page starts not submitting, without error or success, and with the link not yet valid |
| ResetPassword.ResetPasswordPage.CheckSession | nextjs-blog/src/app/auth/reset-password/page.tsx:61-72 | the link is valid exactly when the lookup returns a session and no error; an invalid link sets the expired-link message |
| ResetPassword.ResetPasswordPage.Submit | nextjs-blog/src/app/auth/reset-password/page.tsx:77-103 | the update is sent exactly when the form passes and the link is valid; success schedules the sign-in redirect; a failure shows its message or "Failed to reset password"; after a sent update submitting is false again; an unsent one changes nothing |
| ResetPassword.ExpiredLinkNeverUpdates | nextjs-blog/src/app/auth/reset-password/page.tsx:64-78 | after a session lookup that errors or finds no session, no submit sends an update, whatever the form and the answer |
| Pagination.Range | nextjs-blog/src/components/Pagination.tsx:10 | lo..hi ascending by one, and empty when hi < lo |
| Pagination.Slice | nextjs-blog/src/components/Pagination.tsx:17 | `slice` with clamped bounds: the sub-sequence when the bounds are in order and in range, empty when they cross |
| Pagination.VisiblePages | nextjs-blog/src/components/Pagination.tsx:10-18 | at most five consecutive ascending pages within 1..totalPages; all pages when there are at most five; otherwise exactly the pages from start = max(1, current-2) to min(total, start+4), also for a current page past the end, which is not clamped; a current page within range is shown, with at least two others when there are more than five pages |
| Pagination.LastPageWindow | nextjs-blog/src/components/Pagination.tsx:15-17 | on page 10 of 10 the window is 8, 9, 10 |
| Pagination.NextToLastPageWindow | nextjs-blog/src/components/Pagination.tsx:15-17 | on page 9 of 10 the window is 7 to 10 |
| Pagination.FirstPageWindow | nextjs-blog/src/components/Pagination.tsx:15-17 | on page 1 of 10 the window is 1 to 5 |
| Pagination.PastLastPageWindow | nextjs-blog/src/components/Pagination.tsx:15-17 | on page 11 of 10 the window is 9, 10: the page number is not clamped |
| Pagination.Previous | nextjs-blog/src/components/Pagination.tsx:24-25 | disabled exactly on page 1; asks for the page before |
| Pagination.Next | nextjs-blog/src/components/Pagination.tsx:42-43 | disabled exactly on the last page; asks for the page after |
| SanityImage.UrlFor | nextjs-blog/src/lib/sanity/image.ts:13-19 | a builder exactly when project, dataset and source are all truthy |
| SanityImage.OrDefault | nextjs-blog/src/lib/sanity/image.ts:31-32 | a missing or zero size takes the default |
| SanityImage.FirstTruthy | nextjs-blog/src/lib/sanity/image.ts:43-49 | the first truthy field in the given order, or nothing when none is truthy |
| SanityImage.GetPostImageUrl | nextjs-blog/src/lib/sanity/image.ts:27-79 | null when no image field is truthy; an "http" string as it is; otherwise the builder's URL at the requested or default size, or null when the project or dataset is unset or the builder throws |
| PostSync.Row | nextjs-blog/src/lib/services/postSync.ts:24-36 | the written row: the document's id and slug, its title or "Untitled Post", and publishedAt only when truthy |
| PostSync.Upsert | nextjs-blog/src/lib/services/postSync.ts:24-37 | one row per Sanity id: the document's row is written under its id and every other row stays |
| PostSync.UpsertIdempotent | nextjs-blog/src/lib/services/postSync.ts:69-82 | syncing the same document twice leaves what one sync leaves |
| PostSync.UpsertAll | nextjs-blog/src/lib/services/postSync.ts:23-40 | a run of upserts keeps the table keyed by Sanity id |
| PostSync.UpsertAllKeys | nextjs-blog/src/lib/services/postSync.ts:23-40 | after a run, the ids with rows are the old ones plus the documents' ids, and rows of other ids are untouched |
| PostSync.UpsertAllLastWins | nextjs-blog/src/lib/services/postSync.ts:23-40 | a document no later document shares an id with leaves its own row |
| PostSync.Rows | nextjs-blog/src/lib/services/postSync.ts:20-42 | one result per document, in order |
| PostSync.SyncDocs | nextjs-blog/src/lib/services/postSync.ts:20-42 | the loop writes the documents in order up to the first without a slug, which throws; with no throw it returns one row per document |
| PostSync.SyncAllPosts | nextjs-blog/src/lib/services/postSync.ts:6-47 | a failed fetch is rethrown with nothing written; otherwise as the loop, with rows written before a throw staying written |
| PostSync.SyncStep | nextjs-blog/src/lib/services/postSync.ts:50-87 | a failed lookup is rethrown and a missing post gives null, both writing nothing; a post without a slug throws; a post with one is upserted and its row returned |
| PostSync.SyncPostFromSanity | nextjs-blog/src/lib/services/postSync.ts:50-87 | the result and the new post table are those of one sync step, and users and comments are untouched |
| SanityWebhook.FirstThrow | nextjs-blog/src/app/api/webhooks/sanity/route.ts:19-31 | the first id whose sync throws, every earlier one syncing without a throw |
| SanityWebhook.PostsAfter | nextjs-blog/src/app/api/webhooks/sanity/route.ts:19-31 | syncing ids in order keeps the post table keyed by Sanity id |
| SanityWebhook.Synced | nextjs-blog/src/app/api/webhooks/sanity/route.ts:23-30 | one entry per id, in order, "processed" exactly when the sync returned a row and "failed" otherwise |
| SanityWebhook.Ignored | nextjs-blog/src/app/api/webhooks/sanity/route.ts:20-22 | one "ignored" delete entry per id, in order |
| SanityWebhook.Post | nextjs-blog/src/app/api/webhooks/sanity/route.ts:4-45 | an unreadable body gives 500 and a missing or non-array ids gives 400, both without a sync; a delete lists every id as ignored without a sync; otherwise ids are synced in order up to and including the first that throws, giving the entries or 500 with that error |
| SanityWebhook.ProcessIds | nextjs-blog/src/app/api/webhooks/sanity/route.ts:19-32 | the loop over the ids: ignored entries for a delete, synced entries or the first error otherwise |
| SanityWebhook.IgnoreAll | nextjs-blog/src/app/api/webhooks/sanity/route.ts:19-22 | a delete yields one ignored entry per id |
| SanityWebhook.SyncIds | nextjs-blog/src/app/api/webhooks/sanity/route.ts:19-31 | one sync call per id up to and including the first that throws; the table is the one after syncing the ids before it |
| UserService.StripProtected | nextjs-blog/src/lib/services/userService.ts:34-37 | the patch without id and email, every other key kept |
| UserService.StrippedUpdateKeepsIdentity | nextjs-blog/src/lib/services/userService.ts:34-42 | an update through the service never changes id or email, and an update with only those keys changes nothing |
| UserService.ImagePatchSetsImage | nextjs-blog/src/lib/services/userService.ts:73-75 | a patch holding only the image URL changes that field alone |
| UserService.GetUserProfile | nextjs-blog/src/lib/services/userService.ts:16-27 | the user's row, or null when there is none |
| UserService.UpdateUserProfile | nextjs-blog/src/lib/services/userService.ts:29-47 | a missing user gives null and changes nothing; otherwise only that user's row changes, to the stripped patch applied, with id and email kept |
| UserService.FileName | nextjs-blog/src/lib/services/userService.ts:54-55 | the name starts with the user id, "-", the timestamp and "." |
| UserService.FileNameKeepsExtension | nextjs-blog/src/lib/services/userService.ts:54-55 | the stored name's text after its last "." is the original name's |
| UserService.FilePath | nextjs-blog/src/lib/services/userService.ts:56 | the path is "profile-images/" followed by the file name |
| UserService.UploadProfileImage | nextjs-blog/src/lib/services/userService.ts:49-80 | a failed upload or an empty public URL gives null and changes nothing; otherwise the URL is returned and an existing user's image becomes that URL |
| UserService.DeleteUser | nextjs-blog/src/lib/services/userService.ts:82-91 | true exactly when the user exists and the schema cascades or the user has no comments; then the user and, by the cascade, exactly that user's comments go |

## Left out

- Concurrency: the handlers run one at a time. Two racing toggles or first views of the same pair are not modelled. In the code, the unique index would reject the second insert.
- The Entity Framework change tracker is a counter. Entity identity, navigation properties and transactions are not modelled beyond "a rejected save writes nothing".
- `IUserAccessor` claim parsing (api/API/Services/UserAccessor.cs is not part of this model). The identity is an optional id.
- `DateTime.UtcNow`, `Date.now()`, `Guid.NewGuid()` and Prisma's generated ids become parameters. Fresh ids are assumed unused.
- The Prisma schema file is not part of this model.
  - The default role of a new user is taken to be USER.
  - Whether deleting a user cascades to comments is the parameter `cascades`.
  - Unique constraints on the Next.js users' username and email are not modelled, so a clashing upsert is not modelled either.
  - Timestamps and the surrogate post id are not modelled.
- GET `/api/comments` failure path: a failed query answers `{ error }` with status 200, because no status is given (nextjs-blog/src/app/api/comments/route.ts:33-37). Database reads are not modelled as failing, so this reply is not modelled either.
- CommentsRoute.SortByCreatedDesc: comments with equal timestamps come out in an order the database does not promise. The model fixes one, and only the newest-first order is stated.
- Request parsing: a body field is either a string or missing. Non-string JSON values in `content`, `postId` or `id`, and non-string elements of the webhook's `ids`, are not modelled.
- zod's "Required" and type errors for missing or non-string fields are not modelled. The forms hold strings.
- AuthValidation.EmailIssues: zod's email check is the parameter `isEmail`, not its regular expression.
- Date parsing in the post sync (`new Date(publishedAt)`) is not modelled. The row keeps the string.
- `updateUserProfile`'s `createdAt` and `updatedAt` keys and Prisma's rejection of unknown keys are not modelled. A patch holds the user columns only.
- Sizes are integers: NaN, fractions and negative sizes in `getPostImageUrl` and the pagination props are not modelled.
- Rendering, toasts, the 3-second redirect timer (recorded as the pending redirect) and every other UI component are not modelled.
- Likes and views on the Next.js side, and the logging calls, are not modelled.
