/**
  The MongoDB queries the photo routes issue, over in-memory collections:
  `find` by a field (store order kept), `sort({ date_time: 1 })`, `findOne`
  and `deleteOne` by a filter, and `populate` of user references.
 */
module Queries {

  import opened Wrappers
  import opened ObjectIds
  import opened Records

  // ---- find ----

  /** `Photo.find({ user_id })`. */
  function PhotosOf(photos: seq<Photo>, uid: Id): (r: seq<Photo>)
    ensures forall p :: p in r ==> p.user_id == uid
    ensures forall p :: multiset(r)[p] == if p.user_id == uid then multiset(photos)[p] else 0
  {
    if photos == [] then []
    else
      assert photos == [photos[0]] + photos[1..];
      (if photos[0].user_id == uid then [photos[0]] else []) + PhotosOf(photos[1..], uid)
  }

  /** `Comment.find({ photo_id })`. */
  function CommentsOn(comments: seq<Comment>, pid: Id): (r: seq<Comment>)
    ensures forall c :: c in r ==> c.photo_id == pid
    ensures forall c :: multiset(r)[c] == if c.photo_id == pid then multiset(comments)[c] else 0
  {
    if comments == [] then []
    else
      assert comments == [comments[0]] + comments[1..];
      (if comments[0].photo_id == pid then [comments[0]] else []) + CommentsOn(comments[1..], pid)
  }

  // ---- sort({ date_time: 1 }) ----

  predicate SortedByDate(ps: seq<Photo>) {
    forall i, j :: 0 <= i < j < |ps| ==> ps[i].date_time <= ps[j].date_time
  }

  function InsertByDate(p: Photo, ps: seq<Photo>): (r: seq<Photo>)
    requires SortedByDate(ps)
    ensures |r| == |ps| + 1
    ensures r[0] == p || (ps != [] && r[0] == ps[0])
    ensures SortedByDate(r)
    ensures multiset(r) == multiset(ps) + multiset{p}
  {
    if ps == [] || p.date_time <= ps[0].date_time then [p] + ps
    else
      assert ps == [ps[0]] + ps[1..];
      [ps[0]] + InsertByDate(p, ps[1..])
  }

  /** The database's ascending sort on `date_time`; the order among equal times is not promised. */
  function SortByDate(ps: seq<Photo>): (r: seq<Photo>)
    ensures SortedByDate(r)
    ensures multiset(r) == multiset(ps)
  {
    if ps == [] then []
    else
      assert ps == [ps[0]] + ps[1..];
      InsertByDate(ps[0], SortByDate(ps[1..]))
  }

  // ---- findOne / deleteOne ----

  /** The first record a filter matches, as `findOne` and `deleteOne` pick it. */
  function FirstMatch<T>(s: seq<T>, matches: T -> bool): (r: Option<nat>)
    ensures r.Some? ==> r.value < |s| && matches(s[r.value])
    ensures r.Some? ==> forall j :: 0 <= j < r.value ==> !matches(s[j])
    ensures r.None? <==> forall j :: 0 <= j < |s| ==> !matches(s[j])
  {
    if s == [] then None
    else if matches(s[0]) then Some(0)
    else match FirstMatch(s[1..], matches)
      case None => None
      case Some(k) => Some(k + 1)
  }

  /** `findOne({ _id: pid })`, also the photo `deleteOne({ _id: pid })` removes. */
  function PhotoWithId(photos: seq<Photo>, pid: Id): Option<nat> {
    FirstMatch(photos, (p: Photo) => p.id == pid)
  }

  /** `findOne({ _id: pid, user_id: uid })`: the photo exists AND is owned by `uid`. */
  function OwnedPhoto(photos: seq<Photo>, pid: Id, uid: Id): Option<nat> {
    FirstMatch(photos, (p: Photo) => p.id == pid && p.user_id == uid)
  }

  /** `findOne({ _id: cid })`, also the comment `deleteOne({ _id: cid })` removes. */
  function CommentWithId(comments: seq<Comment>, cid: Id): Option<nat> {
    FirstMatch(comments, (c: Comment) => c.id == cid)
  }

  /** `findOne({ _id: cid, user: uid })`: the comment exists AND was written by `uid`. */
  function OwnedComment(comments: seq<Comment>, cid: Id, uid: Id): Option<nat> {
    FirstMatch(comments, (c: Comment) => c.id == cid && c.user == uid)
  }

  predicate UniquePhotoIds(photos: seq<Photo>) {
    forall i, j :: 0 <= i < j < |photos| ==> photos[i].id != photos[j].id
  }

  predicate UniqueCommentIds(comments: seq<Comment>) {
    forall i, j :: 0 <= i < j < |comments| ==> comments[i].id != comments[j].id
  }

  /** Every id a stored photo holds, its own and its owner's, is in canonical form. */
  predicate CanonicalPhotoIds(photos: seq<Photo>) {
    forall p :: p in photos ==> IsCanonical(p.id) && IsCanonical(p.user_id)
  }

  /** Every id a stored comment holds, its own, its author's and its photo's, is in canonical form. */
  predicate CanonicalCommentIds(comments: seq<Comment>) {
    forall c :: c in comments ==> IsCanonical(c.id) && IsCanonical(c.user) && IsCanonical(c.photo_id)
  }

  /**
    The owner of a stored photo, addressing it by its own id, finds it: the
    id casts to itself and the owner-filtered lookup lands on that record.
   */
  lemma OwnerFindsOwnPhoto(photos: seq<Photo>, k: nat)
    requires UniquePhotoIds(photos) && k < |photos| && IsCanonical(photos[k].id)
    ensures Cast(photos[k].id) == Some(photos[k].id)
    ensures OwnedPhoto(photos, Cast(photos[k].id).value, photos[k].user_id) == Some(k)
    ensures PhotoWithId(photos, Cast(photos[k].id).value) == Some(k)
  {
    CastCanonical(photos[k].id);
    var pid, uid := photos[k].id, photos[k].user_id;
    assert ((p: Photo) => p.id == pid && p.user_id == uid)(photos[k]);
    assert ((p: Photo) => p.id == pid)(photos[k]);
  }

  /** The author of a stored comment, addressing it by its own id, finds it. */
  lemma AuthorFindsOwnComment(comments: seq<Comment>, k: nat)
    requires UniqueCommentIds(comments) && k < |comments| && IsCanonical(comments[k].id)
    ensures Cast(comments[k].id) == Some(comments[k].id)
    ensures OwnedComment(comments, Cast(comments[k].id).value, comments[k].user) == Some(k)
    ensures CommentWithId(comments, Cast(comments[k].id).value) == Some(k)
  {
    CastCanonical(comments[k].id);
    var cid, uid := comments[k].id, comments[k].user;
    assert ((c: Comment) => c.id == cid && c.user == uid)(comments[k]);
    assert ((c: Comment) => c.id == cid)(comments[k]);
  }

  /**
    The owner-filtered lookup misses exactly when the photo is missing or
    belongs to someone else: the two cases cannot be told apart from it.
    When it hits, it finds the photo `deleteOne` removes.
   */
  lemma OwnedPhotoMissingOrForeign(photos: seq<Photo>, pid: Id, uid: Id)
    requires UniquePhotoIds(photos)
    ensures OwnedPhoto(photos, pid, uid).None? <==>
      PhotoWithId(photos, pid).None? || photos[PhotoWithId(photos, pid).value].user_id != uid
    ensures OwnedPhoto(photos, pid, uid).Some? ==> OwnedPhoto(photos, pid, uid) == PhotoWithId(photos, pid)
  {
  }

  /** The same for comments and their authors. */
  lemma OwnedCommentMissingOrForeign(comments: seq<Comment>, cid: Id, uid: Id)
    requires UniqueCommentIds(comments)
    ensures OwnedComment(comments, cid, uid).None? <==>
      CommentWithId(comments, cid).None? || comments[CommentWithId(comments, cid).value].user != uid
    ensures OwnedComment(comments, cid, uid).Some? ==> OwnedComment(comments, cid, uid) == CommentWithId(comments, cid)
  {
  }

  /** The collection once the record at `k` is deleted, the others keeping their order. */
  function RemoveAt<T>(s: seq<T>, k: nat): (r: seq<T>)
    requires k < |s|
    ensures |r| == |s| - 1
    ensures forall i :: 0 <= i < k ==> r[i] == s[i]
    ensures forall i :: k <= i < |r| ==> r[i] == s[i + 1]
  {
    s[..k] + s[k + 1..]
  }

  /** Deleting one record of a collection with unique ids removes that id and keeps every other record. */
  lemma RemovePhotoKeepsOthers(photos: seq<Photo>, k: nat)
    requires k < |photos| && UniquePhotoIds(photos)
    ensures UniquePhotoIds(RemoveAt(photos, k))
    ensures forall p :: p in RemoveAt(photos, k) <==> p in photos && p.id != photos[k].id
    ensures multiset(RemoveAt(photos, k)) == multiset(photos) - multiset{photos[k]}
    ensures CanonicalPhotoIds(photos) ==> CanonicalPhotoIds(RemoveAt(photos, k))
  {
    var r := RemoveAt(photos, k);
    assert photos == photos[..k] + [photos[k]] + photos[k + 1..];
    forall p | p in photos && p.id != photos[k].id ensures p in r {
      var i :| 0 <= i < |photos| && photos[i] == p;
      if i < k { assert r[i] == p; } else { assert r[i - 1] == p; }
    }
  }

  /** Deleting one comment removes that id and keeps every other comment. */
  lemma RemoveCommentKeepsOthers(comments: seq<Comment>, k: nat)
    requires k < |comments| && UniqueCommentIds(comments)
    ensures UniqueCommentIds(RemoveAt(comments, k))
    ensures forall c :: c in RemoveAt(comments, k) <==> c in comments && c.id != comments[k].id
    ensures multiset(RemoveAt(comments, k)) == multiset(comments) - multiset{comments[k]}
    ensures CanonicalCommentIds(comments) ==> CanonicalCommentIds(RemoveAt(comments, k))
  {
    var r := RemoveAt(comments, k);
    assert comments == comments[..k] + [comments[k]] + comments[k + 1..];
    forall c | c in comments && c.id != comments[k].id ensures c in r {
      var i :| 0 <= i < |comments| && comments[i] == c;
      if i < k { assert r[i] == c; } else { assert r[i - 1] == c; }
    }
  }

  // ---- populate ----

  /** A comment as the routes send it: `user` populated with the author's summary, or null. */
  datatype PopulatedComment = PopulatedComment(
    id: Id,
    comment: string,
    date_time: int,
    user: Option<UserSummary>,
    photo_id: Id)

  /** `populate('user', 'first_name last_name')` on one comment. */
  function PopulateComment(users: seq<User>, c: Comment): (r: PopulatedComment)
    ensures r.id == c.id && r.comment == c.comment && r.date_time == c.date_time && r.photo_id == c.photo_id
    ensures r.user.Some? <==> exists u :: u in users && u.id == c.user
    ensures r.user.Some? ==> r.user.value.id == c.user
    ensures r.user == PopulateUser(users, c.user)
  {
    PopulatedComment(c.id, c.comment, c.date_time, PopulateUser(users, c.user), c.photo_id)
  }

  function PopulateAll(users: seq<User>, cs: seq<Comment>): (r: seq<PopulatedComment>)
    ensures |r| == |cs|
    ensures forall i :: 0 <= i < |cs| ==> r[i] == PopulateComment(users, cs[i])
  {
    seq(|cs|, i requires 0 <= i < |cs| => PopulateComment(users, cs[i]))
  }

}
