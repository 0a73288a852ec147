/** The users collection as the usecases see it: documents by id, a unique
    email index over every document (soft-deleted ones included), lookups
    that skip soft-deleted users, and a listing query whose filtering and
    ordering are the database's own concern while its paging is modelled. */
module UserStore {
  import opened Wrappers
  import opened Domain
  import Bson

  /** The arguments of a List call. */
  datatype Query = Query(page: int, limit: int, nameFilter: string, emailFilter: string)

  /** One page of users and the number of matching documents. */
  datatype Listing = Listing(users: seq<User>, total: int)

  /** Some document, live or soft-deleted, holds `email`. */
  predicate EmailTaken(users: map<string, User>, email: string)
  {
    exists id :: id in users && users[id].email == email
  }

  /** Each document is stored under its own id, and no two share an email
      (the unique index on `email`). */
  ghost predicate Indexed(users: map<string, User>)
  {
    && (forall id :: id in users ==> users[id].id == id)
    && (forall a, b :: a in users && b in users && users[a].email == users[b].email ==> a == b)
  }

  function Abs(x: int): (a: nat)
    ensures a == x || a == -x
  {
    if x < 0 then -x else x
  }

  /** What a find with this skip and limit returns from the matching
      documents: skip the first `skip`, then at most |limit| of them, all of
      them when the limit is 0. */
  function Page(matched: seq<User>, skip: nat, limit: int): (page: seq<User>)
    ensures forall i :: 0 <= i < |page| ==> skip + i < |matched| && page[i] == matched[skip + i]
    ensures limit != 0 ==> |page| <= Abs(limit)
    ensures skip + |page| == |matched| || (limit != 0 && |page| == Abs(limit)) || (skip > |matched| && page == [])
  {
    if skip >= |matched| then []
    else
      var rest := matched[skip..];
      if limit == 0 || Abs(limit) >= |rest| then rest else rest[..Abs(limit)]
  }

  /** Two consecutive pages of one size hold the same documents, in the same
      order, as one page of twice the size. */
  lemma {:induction false} ConsecutivePages(matched: seq<User>, page: int, limit: int)
    requires page >= 1 && limit >= 1
    ensures Page(matched, (page - 1) * limit, limit) + Page(matched, page * limit, limit)
         == Page(matched, (page - 1) * limit, 2 * limit)
  {
    var skip := (page - 1) * limit;
    assert page * limit == skip + limit;
    var a, b, c := Page(matched, skip, limit), Page(matched, skip + limit, limit), Page(matched, skip, 2 * limit);
    if skip + limit < |matched| {
      assert |a| == limit;
    }
    assert |a + b| == |c|;
    forall i | 0 <= i < |c|
      ensures (a + b)[i] == c[i]
    {
      if i < |a| {
      } else {
        assert b[i - |a|] == matched[skip + limit + i - |a|];
      }
    }
  }

  class Directory {
    var users: map<string, User>
    /** The database's answer to the filters of a List query (the live
        users whose name and email match the case-insensitive patterns),
        in its sort order (newest `created_at` first); or the error of the
        count or the find. */
    const matching: (map<string, User>, Query) -> Result<seq<User>, Error>

    ghost predicate Valid()
      reads this
    {
      Indexed(users)
    }

    /** NewUserRepository over the documents already in the collection. */
    constructor (users: map<string, User>, matching: (map<string, User>, Query) -> Result<seq<User>, Error>)
      requires Indexed(users)
      ensures Valid() && this.users == users && this.matching == matching
    {
      this.users := users;
      this.matching := matching;
    }

    /** The `deleted_at: nil` filter on the document with this id. */
    predicate IsLive(id: string)
      reads this
    {
      id in users && Bson.MatchesNil(Bson.DeletedAtField(users[id].deletedAt))
    }

    /** FindByID: the live user with this id. */
    function FindByID(id: string): (r: Option<User>)
      reads this
      ensures r.Some? <==> IsLive(id)
      ensures r.Some? ==> r.value == users[id]
    {
      if IsLive(id) then Some(users[id]) else None
    }

    /** Some live user has this email. */
    ghost predicate HasLiveEmail(email: string)
      reads this
    {
      exists id :: IsLive(id) && users[id].email == email
    }

    /** The live user with this email; the unique index makes it unique. */
    ghost function LiveByEmail(email: string): (r: Option<User>)
      requires Valid()
      reads this
      ensures r.Some? <==> HasLiveEmail(email)
      ensures r.Some? ==> IsLive(r.value.id) && users[r.value.id] == r.value && r.value.email == email
    {
      if HasLiveEmail(email) then
        var id :| IsLive(id) && users[id].email == email;
        Some(users[id])
      else None
    }

    /** FindByEmail: a lookup filtered on the email and on live users. */
    method FindByEmail(email: string) returns (r: Option<User>)
      requires Valid()
      ensures r == LiveByEmail(email)
    {
      if id :| id in users && IsLive(id) && users[id].email == email {
        r := Some(users[id]);
      } else {
        r := None;
      }
    }

    /** Create: insert the document under the id the driver generates,
        stamping both times; a duplicate id or email breaks a unique index. */
    method Create(user: User, newId: string, now: int) returns (r: Result<User, Error>)
      requires Valid()
      modifies this
      ensures Valid()
      ensures r.Success? <==> newId !in old(users) && !EmailTaken(old(users), user.email)
      ensures r.Success? ==>
        && r.value == user.(id := newId, createdAt := now, updatedAt := now)
        && users == old(users)[newId := r.value]
      ensures r.Failure? ==> r.error == DuplicateKey && users == old(users)
    {
      if newId in users || exists id | id in users :: users[id].email == user.email {
        return Failure(DuplicateKey);
      }
      var created := user.(id := newId, createdAt := now, updatedAt := now);
      users := users[newId := created];
      return Success(created);
    }

    /** Update: stamp `updatedAt` on the given user and write its name and
        that time to the document with its id, if there is one. */
    method Update(user: User, now: int) returns (updated: User)
      requires Valid()
      modifies this
      ensures Valid()
      ensures updated == user.(updatedAt := now)
      ensures user.id in old(users) ==>
        users == old(users)[user.id := old(users)[user.id].(name := user.name, updatedAt := now)]
      ensures user.id !in old(users) ==> users == old(users)
    {
      updated := user.(updatedAt := now);
      if user.id in users {
        users := users[user.id := users[user.id].(name := user.name, updatedAt := now)];
      }
    }

    /** SoftDelete: set the deletion marker of the document with this id. */
    method SoftDelete(id: string, now: int)
      requires Valid()
      modifies this
      ensures Valid()
      ensures id in old(users) ==> users == old(users)[id := old(users)[id].(deletedAt := Some(now))]
      ensures id !in old(users) ==> users == old(users)
    {
      if id in users {
        users := users[id := users[id].(deletedAt := Some(now))];
      }
    }

    /** List: count the matching documents, then fetch the requested page
        of them. A negative skip is refused by the server. */
    function List(q: Query): (r: Result<Listing, Error>)
      reads this
      ensures matching(users, q).Failure? ==> r == Failure(matching(users, q).error)
      ensures matching(users, q).Success? && (q.page - 1) * q.limit < 0 ==> r.Failure?
      ensures matching(users, q).Success? && (q.page - 1) * q.limit >= 0 ==>
        var matched := matching(users, q).value;
        && r.Success? && r.value.total == |matched|
        && r.value.users == Page(matched, (q.page - 1) * q.limit, q.limit)
    {
      match matching(users, q)
      case Failure(e) => Failure(e)
      case Success(matched) =>
        var skip := (q.page - 1) * q.limit;
        if skip < 0 then Failure(StoreError(NegativeSkip))
        else Success(Listing(Page(matched, skip, q.limit), |matched|))
    }
  }

  /** The server's refusal of a negative skip. */
  const NegativeSkip: string := "skip must be non-negative"
}
