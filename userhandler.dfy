/** The users service's gRPC handler: which id each call acts on, who may
    act on it, and how usecase results become responses and status codes.
    Timestamps are passed through as integers. */
module UserDelivery {
  import opened Wrappers
  import opened Domain
  import opened Rpc
  import UserStore
  import Users

  /** pb.User: the fields a response shows (never the password). */
  datatype PbUser = PbUser(id: string, email: string, name: string, createdAt: int, updatedAt: int)

  datatype ListUsersRequest = ListUsersRequest(page: int32, limit: int32, nameFilter: string, emailFilter: string)
  datatype ListUsersResponse = ListUsersResponse(users: seq<PbUser>, total: int32, page: int32, limit: int32)
  datatype UpdateProfileResponse = UpdateProfileResponse(success: bool, message: string, user: PbUser)
  datatype DeleteProfileResponse = DeleteProfileResponse(success: bool, message: string)

  function ToPb(u: User): (pb: PbUser)
  {
    PbUser(u.id, u.email, u.name, u.createdAt, u.updatedAt)
  }

  /** GetProfile's target: the requested id when one is given, otherwise
      the caller's own id. No ownership check is made. */
  function ProfileTarget(ctx: Context, requested: string): (r: Result<string, Status>)
    ensures r.Success? <==> requested != "" || UserIdKey in ctx.values
    ensures r.Success? ==> r.value == (if requested != "" then requested else ctx.values[UserIdKey])
    ensures r.Failure? ==> r.error == Status(InvalidArgument, "user ID required")
  {
    if requested != "" then Success(requested)
    else
      match Value(ctx, UserIdKey)
      case Some(own) => Success(own)
      case None => Failure(Status(InvalidArgument, "user ID required"))
  }

  /** UpdateProfile's and DeleteProfile's target: always the caller's own
      id, and only when the request names no other user. */
  function OwnTarget(ctx: Context, requested: string, action: string): (r: Result<string, Status>)
    ensures r.Success? <==> UserIdKey in ctx.values && (requested == "" || requested == ctx.values[UserIdKey])
    ensures r.Success? ==> r.value == ctx.values[UserIdKey]
    ensures UserIdKey !in ctx.values ==> r == Failure(Status(Unauthenticated, "authentication required"))
    ensures UserIdKey in ctx.values && requested != "" && requested != ctx.values[UserIdKey] ==>
      r == Failure(Status(PermissionDenied, "can only " + action + " own profile"))
  {
    match Value(ctx, UserIdKey)
    case None => Failure(Status(Unauthenticated, "authentication required"))
    case Some(own) =>
      if requested != "" && requested != own then
        Failure(Status(PermissionDenied, "can only " + action + " own profile"))
      else Success(own)
  }

  class UserHandler {
    const usecase: Users.UserUsecase

    ghost predicate Valid()
      reads this, usecase, usecase.directory
    {
      usecase.Valid()
    }

    constructor (usecase: Users.UserUsecase)
      ensures this.usecase == usecase
    {
      this.usecase := usecase;
    }

    /** ListUsers: one response user per usecase user, in order; the page
        and limit of the request are echoed, not the clamped ones. */
    method ListUsers(ctx: Context, req: ListUsersRequest) returns (r: Result<ListUsersResponse, Status>)
      ensures match usecase.directory.List(UserStore.Query(
                Users.ClampPage(req.page as int), Users.ClampLimit(req.limit as int), req.nameFilter, req.emailFilter))
        case Failure(e) => r == Failure(Status(Internal, e.Message()))
        case Success(listing) =>
          && r.Success?
          && r.value.page == req.page && r.value.limit == req.limit
          && r.value.total == WrapInt32(listing.total)
          && |r.value.users| == |listing.users|
          && forall i :: 0 <= i < |listing.users| ==> r.value.users[i] == ToPb(listing.users[i])
    {
      var answer := usecase.ListUsers(req.page as int, req.limit as int, req.nameFilter, req.emailFilter);
      if answer.Failure? {
        return Failure(Status(Internal, answer.error.Message()));
      }
      var users := answer.value.users;
      var pbUsers := new PbUser[|users|];
      for i := 0 to |users|
        invariant forall j :: 0 <= j < i ==> pbUsers[j] == ToPb(users[j])
      {
        pbUsers[i] := ToPb(users[i]);
      }
      return Success(ListUsersResponse(pbUsers[..], WrapInt32(answer.value.total), req.page, req.limit));
    }

    method GetProfile(ctx: Context, requested: string) returns (r: Result<PbUser, Status>)
      ensures match ProfileTarget(ctx, requested)
        case Failure(status) => r == Failure(status)
        case Success(id) =>
          if usecase.directory.IsLive(id) then r == Success(ToPb(usecase.directory.users[id]))
          else r == Failure(Status(NotFound, UserNotFound.Message()))
    {
      var target := ProfileTarget(ctx, requested);
      if target.Failure? {
        return Failure(target.error);
      }
      var user := usecase.GetProfile(target.value);
      if user.Failure? {
        return Failure(Status(NotFound, user.error.Message()));
      }
      return Success(ToPb(user.value));
    }

    method UpdateProfile(ctx: Context, requested: string, name: string, now: int)
      returns (r: Result<UpdateProfileResponse, Status>)
      requires Valid()
      modifies usecase.directory
      ensures Valid()
      ensures OwnTarget(ctx, requested, "update").Failure? ==>
        r == Failure(OwnTarget(ctx, requested, "update").error)
        && usecase.directory.users == old(usecase.directory.users)
      ensures OwnTarget(ctx, requested, "update").Success? ==>
        var id := OwnTarget(ctx, requested, "update").value;
        if !old(usecase.directory.IsLive(id)) then
          r == Failure(Status(InvalidArgument, UserNotFound.Message()))
          && usecase.directory.users == old(usecase.directory.users)
        else
          && r.Success? && usecase.directory.IsLive(id)
          && r.value == UpdateProfileResponse(true, "Profile updated successfully", ToPb(usecase.directory.users[id]))
          && usecase.directory.users.Keys == old(usecase.directory.users).Keys
          && forall other :: other in old(usecase.directory.users) && other != id ==>
               usecase.directory.users[other] == old(usecase.directory.users)[other]
    {
      var target := OwnTarget(ctx, requested, "update");
      if target.Failure? {
        return Failure(target.error);
      }
      var user := usecase.UpdateProfile(target.value, name, now);
      if user.Failure? {
        return Failure(Status(InvalidArgument, user.error.Message()));
      }
      return Success(UpdateProfileResponse(true, "Profile updated successfully", ToPb(user.value)));
    }

    method DeleteProfile(ctx: Context, requested: string, now: int)
      returns (r: Result<DeleteProfileResponse, Status>)
      requires Valid()
      modifies usecase.directory
      ensures Valid()
      ensures OwnTarget(ctx, requested, "delete").Failure? ==>
        r == Failure(OwnTarget(ctx, requested, "delete").error)
        && usecase.directory.users == old(usecase.directory.users)
      ensures OwnTarget(ctx, requested, "delete").Success? ==>
        var id := OwnTarget(ctx, requested, "delete").value;
        if !old(usecase.directory.IsLive(id)) then
          r == Failure(Status(Internal, UserNotFound.Message()))
          && usecase.directory.users == old(usecase.directory.users)
        else
          && r == Success(DeleteProfileResponse(true, "Profile deleted successfully"))
          && usecase.directory.users == old(usecase.directory.users)[id := old(usecase.directory.users[id]).(deletedAt := Some(now))]
    {
      var target := OwnTarget(ctx, requested, "delete");
      if target.Failure? {
        return Failure(target.error);
      }
      var outcome := usecase.DeleteProfile(target.value, now);
      if outcome.Fail? {
        return Failure(Status(Internal, outcome.error.Message()));
      }
      return Success(DeleteProfileResponse(true, "Profile deleted successfully"));
    }
  }
}
