/**
  The three stored entities and the projections the routes send back.
  Records are kept in store (insertion) order, the order in which an
  unsorted MongoDB find returns them.
 */
module Records {

  import opened Wrappers
  import opened ObjectIds

  /** A user profile.  `otherFields` stands for whatever else the user schema holds (login data, version key). */
  datatype User = User(
    id: Id,
    first_name: string,
    last_name: string,
    location: string,
    description: string,
    occupation: string,
    otherFields: map<string, string>)

  /** A photo; `date_time` is its creation time in epoch milliseconds. */
  datatype Photo = Photo(id: Id, file_name: string, date_time: int, user_id: Id)

  /** A comment: its text, when it was posted, its author `user` and the photo it belongs to. */
  datatype Comment = Comment(id: Id, comment: string, date_time: int, user: Id, photo_id: Id)

  /** `_id first_name last_name`: the sidebar projection and what `populate` fills in for a user reference. */
  datatype UserSummary = UserSummary(id: Id, first_name: string, last_name: string)

  /** `_id first_name last_name location description occupation`: the detail projection. */
  datatype UserDetail = UserDetail(
    id: Id,
    first_name: string,
    last_name: string,
    location: string,
    description: string,
    occupation: string)

  function Summary(u: User): UserSummary {
    UserSummary(u.id, u.first_name, u.last_name)
  }

  function Detail(u: User): UserDetail {
    UserDetail(u.id, u.first_name, u.last_name, u.location, u.description, u.occupation)
  }

  predicate UniqueUserIds(users: seq<User>) {
    forall i, j :: 0 <= i < j < |users| ==> users[i].id != users[j].id
  }

  /** `User.findById`: the first stored user with the given id, if any. */
  function FindUser(users: seq<User>, id: Id): (r: Option<User>)
    ensures r.Some? ==> r.value in users && r.value.id == id
    ensures r.None? <==> forall u :: u in users ==> u.id != id
  {
    if users == [] then None
    else if users[0].id == id then Some(users[0])
    else FindUser(users[1..], id)
  }

  /** Every stored user id is in canonical form, as MongoDB writes object ids. */
  predicate CanonicalUserIds(users: seq<User>) {
    forall u :: u in users ==> IsCanonical(u.id)
  }

  /** With unique ids, looking a stored user up by its own id finds that very user. */
  lemma FindUserFindsStored(users: seq<User>, u: User)
    requires UniqueUserIds(users)
    requires u in users
    ensures FindUser(users, u.id) == Some(u)
  {
    // The lookup hits some stored user with that id; unique ids leave only u.
    var found := FindUser(users, u.id).value;
    var i :| 0 <= i < |users| && users[i] == u;
    var j :| 0 <= j < |users| && users[j] == found;
    assert i == j;
  }

  /** `populate(ref, 'first_name last_name')`: the summary of the referenced user, or null when there is none. */
  function PopulateUser(users: seq<User>, id: Id): (r: Option<UserSummary>)
    ensures r.Some? <==> exists u :: u in users && u.id == id
    ensures r.Some? ==> r.value.id == id && exists u :: u in users && Summary(u) == r.value
  {
    match FindUser(users, id)
    case None => None
    case Some(u) => Some(Summary(u))
  }

}
