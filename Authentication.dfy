/**
  The `isAuthenticated` middleware.  A request carries a server-side session
  (or none), and a session may hold a logged-in user (or none).  The guard
  reads only that and changes nothing; when it denies, the route handler
  behind it never runs.
 */
module Authentication {

  import opened Wrappers
  import opened ObjectIds

  /** The user object the login route stores in the session; only its `_id` is read here. */
  datatype SessionUser = SessionUser(id: Id)

  datatype Session = Session(user: Option<SessionUser>)

  /** Either `next()` is called for the session's user, or the response is sent here. */
  datatype Decision = Next(userId: Id) | Deny(status: int, message: string)

  function IsAuthenticated(session: Option<Session>): (d: Decision)
    ensures d.Next? <==> session.Some? && session.value.user.Some?
    ensures d.Next? ==> d.userId == session.value.user.value.id
    ensures d.Deny? ==> d.status == 401 && d.message == "Unauthorized"
  {
    if session.Some? && session.value.user.Some? then Next(session.value.user.value.id)
    else Deny(401, "Unauthorized")
  }

}
