/** The user-profile usecase: profile reads, name updates, soft deletes and
    paged listing over the user directory. Every user it hands back has its
    password hash cleared. */
module Users {
  import opened Wrappers
  import opened Domain
  import UserStore

  const MaxPageSize: int := 100
  const DefaultPageSize: int := 10

  /** The page ListUsers asks for: at least 1; an in-range page is kept. */
  function ClampPage(page: int): (p: int)
    ensures p >= 1
    ensures page >= 1 ==> p == page
    ensures page < 1 ==> p == 1
  {
    if page < 1 then 1 else page
  }

  /** The page size ListUsers asks for: within 1..100; anything outside
      becomes the default 10, anything inside is kept. */
  function ClampLimit(limit: int): (l: int)
    ensures 1 <= l <= MaxPageSize
    ensures 1 <= limit <= MaxPageSize ==> l == limit
    ensures !(1 <= limit <= MaxPageSize) ==> l == DefaultPageSize
  {
    if limit < 1 || limit > MaxPageSize then DefaultPageSize else limit
  }

  /** The user as handed back: the stored record without its password hash. */
  function Cleared(u: User): (c: User)
  {
    u.(password := "")
  }

  class UserUsecase {
    const directory: UserStore.Directory

    ghost predicate Valid()
      reads this, directory
    {
      directory.Valid()
    }

    constructor (directory: UserStore.Directory)
      ensures this.directory == directory
    {
      this.directory := directory;
    }

    method GetProfile(userId: string) returns (r: Result<User, Error>)
      ensures r.Success? <==> directory.IsLive(userId)
      ensures r.Success? ==> r.value == Cleared(directory.users[userId]) && r.value.password == ""
      ensures r.Failure? ==> r.error == UserNotFound
    {
      var user := directory.FindByID(userId);
      if user.None? {
        return Failure(UserNotFound);
      }
      var found := user.value.(password := "");
      return Success(found);
    }

    /** UpdateProfile: an empty name keeps the stored one; the email is
        never touched. */
    method UpdateProfile(userId: string, name: string, now: int) returns (r: Result<User, Error>)
      requires Valid()
      modifies directory
      ensures Valid()
      ensures !old(directory.IsLive(userId)) ==>
        r == Failure(UserNotFound) && directory.users == old(directory.users)
      ensures old(directory.IsLive(userId)) ==>
        var stored := old(directory.users[userId]);
        var renamed := stored.(name := if name == "" then stored.name else name, updatedAt := now);
        && r == Success(Cleared(renamed))
        && directory.users == old(directory.users)[userId := renamed]
        && r.value.email == stored.email && r.value.password == ""
    {
      var found := directory.FindByID(userId);
      if found.None? {
        return Failure(UserNotFound);
      }
      var user := found.value;
      if name != "" {
        user := user.(name := name);
      }
      user := directory.Update(user, now);
      user := user.(password := "");
      return Success(user);
    }

    /** DeleteProfile: an existence check, then a soft delete of that id. */
    method DeleteProfile(userId: string, now: int) returns (r: Outcome<Error>)
      requires Valid()
      modifies directory
      ensures Valid()
      ensures !old(directory.IsLive(userId)) ==>
        r == Fail(UserNotFound) && directory.users == old(directory.users)
      ensures old(directory.IsLive(userId)) ==>
        && r == Pass
        && directory.users == old(directory.users)[userId := old(directory.users[userId]).(deletedAt := Some(now))]
    {
      var found := directory.FindByID(userId);
      if found.None? {
        return Fail(UserNotFound);
      }
      directory.SoftDelete(userId, now);
      return Pass;
    }

    /** ListUsers: the store is asked with the clamped page and size; every
        user it returns comes back, in order, with the password cleared. */
    method ListUsers(page: int, limit: int, nameFilter: string, emailFilter: string)
      returns (r: Result<UserStore.Listing, Error>)
      ensures match directory.List(UserStore.Query(ClampPage(page), ClampLimit(limit), nameFilter, emailFilter))
        case Failure(e) => r == Failure(e)
        case Success(listing) =>
          && r.Success? && r.value.total == listing.total
          && |r.value.users| == |listing.users|
          && forall i :: 0 <= i < |listing.users| ==> r.value.users[i] == Cleared(listing.users[i])
    {
      var p, l := page, limit;
      if p < 1 {
        p := 1;
      }
      if l < 1 || l > MaxPageSize {
        l := DefaultPageSize;
      }
      var answer := directory.List(UserStore.Query(p, l, nameFilter, emailFilter));
      if answer.Failure? {
        return Failure(answer.error);
      }
      var users := answer.value.users;
      var i := 0;
      while i < |users|
        invariant 0 <= i <= |users| && |users| == |answer.value.users|
        invariant forall j :: 0 <= j < i ==> users[j] == Cleared(answer.value.users[j])
        invariant forall j :: i <= j < |users| ==> users[j] == answer.value.users[j]
      {
        users := users[i := users[i].(password := "")];
        i := i + 1;
      }
      return Success(UserStore.Listing(users, answer.value.total));
    }
  }
}
