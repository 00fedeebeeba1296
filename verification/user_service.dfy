/**
 * `lib/services/userService.ts`: profile lookup, profile update with the
 * identity fields stripped, profile-image upload, and user deletion. Supabase
 * Storage is a parameter (`upload` says whether storing a path succeeds,
 * `publicUrlOf` gives its public URL) and so is the clock (`Date.now()`).
 */
module UserService {
  import opened Wrappers
  import opened Strings
  import opened PrismaStore

  /** `Partial<UserProfile>`: `None` is an absent key; for nullable fields
      `Some(None)` is an explicit `null`. */
  datatype Patch = Patch(id: Option<string>, email: Option<string>, username: Option<string>,
                         bio: Option<Option<string>>, profileImage: Option<Option<string>>,
                         name: Option<Option<string>>, role: Option<Role>)

  /** `{ ...data }` with `id` and `email` deleted. */
  function StripProtected(data: Patch): (r: Patch)
    ensures r.id.None? && r.email.None?
    ensures r.(id := data.id, email := data.email) == data
  {
    data.(id := None, email := None)
  }

  /** `user.update({ data })`: every key present in the patch is written. */
  function Apply(user: DbUser, p: Patch): (r: DbUser)
    ensures r.id == if p.id.Some? then p.id.value else user.id
    ensures r.email == if p.email.Some? then p.email.value else user.email
    ensures r.username == if p.username.Some? then p.username.value else user.username
    ensures r.bio == if p.bio.Some? then p.bio.value else user.bio
    ensures r.profileImage == if p.profileImage.Some? then p.profileImage.value else user.profileImage
    ensures r.name == if p.name.Some? then p.name.value else user.name
    ensures r.role == if p.role.Some? then p.role.value else user.role
  {
    DbUser(if p.id.Some? then p.id.value else user.id,
           if p.email.Some? then p.email.value else user.email,
           if p.username.Some? then p.username.value else user.username,
           if p.name.Some? then p.name.value else user.name,
           if p.bio.Some? then p.bio.value else user.bio,
           if p.profileImage.Some? then p.profileImage.value else user.profileImage,
           if p.role.Some? then p.role.value else user.role)
  }

  /** Whatever the input holds, an update through the service keeps the
      user's id and email, and an empty patch changes nothing. */
  lemma StrippedUpdateKeepsIdentity(user: DbUser, data: Patch)
    ensures Apply(user, StripProtected(data)).id == user.id
    ensures Apply(user, StripProtected(data)).email == user.email
    ensures data.(id := None, email := None) == Patch(None, None, None, None, None, None, None) ==>
      Apply(user, StripProtected(data)) == user
  {
  }

  /** `{ profileImage: url }`. */
  function ImagePatch(url: string): Patch {
    Patch(None, None, None, None, Some(Some(url)), None, None)
  }

  /** Sending only a new image through the service changes that field alone. */
  lemma ImagePatchSetsImage(user: DbUser, url: string)
    ensures Apply(user, StripProtected(ImagePatch(url))) == user.(profileImage := Some(url))
  {
  }

  /** `getUserProfile`: the row, or null when there is none. */
  function GetUserProfile(db: Db, userId: string): (r: Option<DbUser>)
    reads db
    requires db.Valid()
    ensures r.Some? <==> userId in db.users
    ensures r.Some? ==> r.value.id == userId && r.value == db.users[userId]
  {
    if userId in db.users then Some(db.users[userId]) else None
  }

  /** `updateUserProfile`. Updating a missing row throws in Prisma; the service returns null. */
  method UpdateUserProfile(db: Db, userId: string, data: Patch) returns (r: Option<DbUser>)
    requires db.Valid()
    modifies db
    ensures db.Valid() && db.comments == old(db.comments) && db.posts == old(db.posts)
    ensures userId !in old(db.users) ==> r.None? && db.users == old(db.users)
    ensures userId in old(db.users) ==>
      && r == Some(Apply(old(db.users)[userId], StripProtected(data)))
      && r.value.id == userId && r.value.email == old(db.users)[userId].email
      && db.users == old(db.users)[userId := r.value]
  {
    if userId !in db.users {
      return None;
    }
    var updateData := StripProtected(data);
    var updated := Apply(db.users[userId], updateData);
    db.users := db.users[userId := updated];
    r := Some(updated);
  }

  /** `${userId}-${Date.now()}.${fileExt}`, where `fileExt` is the text after
      the last "." of the original name (all of it when there is no "."). */
  function FileName(userId: string, originalName: string, now: nat): (r: string)
    ensures StartsWith(r, userId + "-" + Decimal(now) + ".")
  {
    userId + "-" + Decimal(now) + "." + AfterLast(originalName, '.')
  }

  /** The stored file keeps the original extension: its own text after the last
      "." is the original name's. */
  lemma FileNameKeepsExtension(userId: string, originalName: string, now: nat)
    ensures AfterLast(FileName(userId, originalName, now), '.') == AfterLast(originalName, '.')
  {
    var ext := AfterLast(originalName, '.');
    assert FileName(userId, originalName, now) == (userId + "-" + Decimal(now)) + ['.'] + ext;
    AfterLastOfJoin(userId + "-" + Decimal(now), '.', ext);
  }

  function FilePath(userId: string, originalName: string, now: nat): (r: string)
    ensures StartsWith(r, "profile-images/")
    ensures r[|"profile-images/"|..] == FileName(userId, originalName, now)
  {
    "profile-images/" + FileName(userId, originalName, now)
  }

  /** `uploadProfileImage`. The profile update's own null result is ignored, so
      the URL is returned even when no user row took it. */
  method UploadProfileImage(db: Db, userId: string, originalName: string, now: nat,
                            upload: string -> bool, publicUrlOf: string -> string)
    returns (r: Option<string>)
    requires db.Valid()
    modifies db
    ensures db.Valid() && db.comments == old(db.comments) && db.posts == old(db.posts)
    ensures var path := FilePath(userId, originalName, now);
      && (!upload(path) || publicUrlOf(path) == "" ==> r.None? && db.users == old(db.users))
      && (upload(path) && publicUrlOf(path) != "" ==>
            && r == Some(publicUrlOf(path))
            && (userId in old(db.users) ==>
                  db.users == old(db.users)[userId := old(db.users)[userId].(profileImage := Some(publicUrlOf(path)))])
            && (userId !in old(db.users) ==> db.users == old(db.users)))
  {
    var path := FilePath(userId, originalName, now);
    if !upload(path) {
      return None;
    }
    var url := publicUrlOf(path);
    if url == "" {
      return None;
    }
    if userId in db.users {
      ImagePatchSetsImage(db.users[userId], url);
    }
    var _ := UpdateUserProfile(db, userId, ImagePatch(url));
    r := Some(url);
  }

  /** `deleteUser`. Whether the schema cascades a user's comments is not known
      here, so it is the parameter `cascades`; without a cascade, a user with
      comments cannot be deleted (the foreign key refuses it) and the service
      returns false. */
  method DeleteUser(db: Db, userId: string, cascades: bool) returns (ok: bool)
    requires db.Valid()
    modifies db
    ensures db.Valid() && db.posts == old(db.posts)
    ensures ok <==> userId in old(db.users) && (cascades || forall c | c in old(db.comments) :: c.userId != userId)
    ensures !ok ==> db.users == old(db.users) && db.comments == old(db.comments)
    ensures ok ==>
      && db.users == old(db.users) - {userId}
      && (forall c :: c in db.comments <==> c in old(db.comments) && c.userId != userId)
  {
    if userId !in db.users {
      return false;
    }
    if !cascades && exists c | c in db.comments :: c.userId == userId {
      return false;
    }
    var remaining := WithoutUser(db.comments, userId);
    assert forall c | c in remaining :: c.userId in db.users - {userId} by {
      forall c | c in remaining ensures c.userId in db.users - {userId} {
        var k :| 0 <= k < |db.comments| && db.comments[k] == c;
      }
    }
    if !cascades {
      assert remaining == db.comments by {
        FilterKeepsAll(db.comments, userId);
      }
    }
    db.users := db.users - {userId};
    db.comments := remaining;
    ok := true;
  }

  lemma FilterKeepsAll(comments: seq<DbComment>, userId: string)
    requires forall c | c in comments :: c.userId != userId
    ensures WithoutUser(comments, userId) == comments
  {
    FilterAll(comments, (c: DbComment) => c.userId != userId);
  }
}
