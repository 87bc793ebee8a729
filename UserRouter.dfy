/**
  The user routes, mounted under `/api/user`.  None of them needs a session
  and none of them writes: each is a function of the user collection.
 */
module UserRouter {

  import opened Wrappers
  import opened ObjectIds
  import opened Records
  import opened Http

  const InvalidIdMessage: string := "Invalid user ID format"
  const UserNotFoundMessage: string := "User not found"

  /** `GET /list`: every user, in store order, projected to `_id first_name last_name`. */
  function ListUsers(users: seq<User>): (r: Response<seq<UserSummary>>)
    ensures r.Ok? && |r.body| == |users|
    ensures forall i :: 0 <= i < |users| ==>
      r.body[i].id == users[i].id &&
      r.body[i].first_name == users[i].first_name &&
      r.body[i].last_name == users[i].last_name
  {
    Ok(seq(|users|, i requires 0 <= i < |users| => Summary(users[i])))
  }

  /**
    `GET /:id`: a malformed id is refused before any lookup; a well-formed id
    that names no user is also a 400, with its own message; otherwise the
    detail projection of that user.
   */
  function GetUser(users: seq<User>, idParam: string): (r: Response<UserDetail>)
    ensures !MatchesObjectIdPattern(idParam) <==> r == BadRequest(InvalidIdMessage)
    ensures r == BadRequest(UserNotFoundMessage) <==>
      MatchesObjectIdPattern(idParam) && forall u :: u in users ==> u.id != Cast(idParam).value
    ensures r.Ok? <==> MatchesObjectIdPattern(idParam) && exists u :: u in users && u.id == Cast(idParam).value
    ensures r.Ok? ==> exists u :: u in users && u.id == Cast(idParam).value && r.body == Detail(u)
    ensures r.Ok? || r.BadRequest?
  {
    if !MatchesObjectIdPattern(idParam) then BadRequest(InvalidIdMessage)
    else
      match FindUser(users, Cast(idParam).value)
      case None => BadRequest(UserNotFoundMessage)
      case Some(u) => Ok(Detail(u))
  }

  /** `GET /`: every user record, unprojected, in store order. */
  function AllUsers(users: seq<User>): (r: Response<seq<User>>)
    ensures r.Ok? && r.body == users
  {
    Ok(users)
  }

  /**
    Every id the sidebar lists opens that same user's details, whose name
    agrees with the sidebar entry (ids stored in canonical form, unique).
   */
  lemma ListedUsersResolve(users: seq<User>, i: nat)
    requires UniqueUserIds(users)
    requires CanonicalUserIds(users)
    requires i < |users|
    ensures GetUser(users, ListUsers(users).body[i].id) == Ok(Detail(users[i]))
    ensures GetUser(users, ListUsers(users).body[i].id).body.first_name == ListUsers(users).body[i].first_name
  {
    var id := ListUsers(users).body[i].id;
    CastCanonical(id);
    FindUserFindsStored(users, users[i]);
  }

}
