/**
  The photo routes, mounted under `/api/photo`.  Every route runs behind
  `isAuthenticated`; the store is the three MongoDB collections, updated in
  place by the handlers.  Each handler runs to completion before the next.
 */
module PhotoRouter {

  import opened Wrappers
  import opened ObjectIds
  import opened Records
  import opened Http
  import opened Authentication
  import opened CommentText
  import opened Upload
  import opened Queries

  const UserNotFoundMessage: string := "User not found"
  const GalleryErrorMessage: string := "Error fetching user photos"
  const PhotoNotFoundMessage: string := "Photo not found or you do not have permission to delete it"
  const PhotoDeletedMessage: string := "Photo deleted successfully"
  const DeletePhotoErrorMessage: string := "Error deleting photo"
  const EmptyCommentMessage: string := "Comment cannot be empty"
  const PostCommentErrorMessage: string := "Error posting comment"
  const CommentEditNotFoundMessage: string := "Comment not found or you do not have permission to edit it"
  const EditCommentErrorMessage: string := "Error updating comment"
  const CommentDeleteNotFoundMessage: string := "Comment not found or you do not have permission to delete it"
  const CommentDeletedMessage: string := "Comment deleted successfully"
  const DeleteCommentErrorMessage: string := "Error deleting comment"
  const NoFileMessage: string := "No photo file was uploaded"

  /** One gallery entry: the photo, its `user_id` populated, and its comment thread attached. */
  datatype GalleryPhoto = GalleryPhoto(photo: Photo, owner: Option<UserSummary>, comments: seq<PopulatedComment>)

  /** The `photo` part of the upload's 201 body. */
  datatype UploadedPhoto = UploadedPhoto(id: Id, file_name: string, date_time: int)

  function PhotosIn(gallery: seq<GalleryPhoto>): (ps: seq<Photo>)
    ensures |ps| == |gallery|
    ensures forall i :: 0 <= i < |gallery| ==> ps[i] == gallery[i].photo
  {
    seq(|gallery|, i requires 0 <= i < |gallery| => gallery[i].photo)
  }

  /** The loop body's work for one photo: populate its owner, attach its comments. */
  function Entry(users: seq<User>, comments: seq<Comment>, p: Photo): GalleryPhoto {
    GalleryPhoto(p, PopulateUser(users, p.user_id), PopulateAll(users, CommentsOn(comments, p.id)))
  }

  /** The loop's output after it has handled the photos `ps`, in order. */
  function Entries(users: seq<User>, comments: seq<Comment>, ps: seq<Photo>): (g: seq<GalleryPhoto>)
    ensures |g| == |ps|
    ensures forall k :: 0 <= k < |ps| ==> g[k] == Entry(users, comments, ps[k])
  {
    if ps == [] then [] else Entries(users, comments, ps[..|ps| - 1]) + [Entry(users, comments, ps[|ps| - 1])]
  }

  /** The photos of the entries are the photos they were built from, in order. */
  lemma EntriesKeepPhotos(users: seq<User>, comments: seq<Comment>, ps: seq<Photo>)
    ensures PhotosIn(Entries(users, comments, ps)) == ps
  {
  }

  /** The sorted gallery query answers exactly the user's stored photos, oldest first. */
  lemma SortedPhotosBelong(photos: seq<Photo>, uid: Id, found: seq<Photo>)
    requires found == SortByDate(PhotosOf(photos, uid))
    ensures SortedByDate(found) && multiset(found) == multiset(PhotosOf(photos, uid))
    ensures forall i :: 0 <= i < |found| ==> found[i] in photos && found[i].user_id == uid
  {
    forall i | 0 <= i < |found| ensures found[i] in photos && found[i].user_id == uid {
      assert found[i] in multiset(PhotosOf(photos, uid));
    }
  }

  /** Entries built in the order of the sorted query answer meet the gallery's contract. */
  lemma GalleryMeetsContract(users: seq<User>, photos: seq<Photo>, comments: seq<Comment>, uid: Id, found: seq<Photo>)
    requires found == SortByDate(PhotosOf(photos, uid))
    ensures var gallery := Entries(users, comments, found);
      && SortedByDate(PhotosIn(gallery))
      && multiset(PhotosIn(gallery)) == multiset(PhotosOf(photos, uid))
      && forall i :: 0 <= i < |gallery| ==>
        && gallery[i].photo in photos
        && gallery[i].photo.user_id == uid
        && gallery[i].owner == PopulateUser(users, uid)
        && gallery[i].comments == PopulateAll(users, CommentsOn(comments, gallery[i].photo.id))
  {
    var gallery := Entries(users, comments, found);
    EntriesKeepPhotos(users, comments, found);
    SortedPhotosBelong(photos, uid, found);
    forall i | 0 <= i < |gallery|
      ensures gallery[i].photo == found[i] && gallery[i].owner == PopulateUser(users, uid)
    {
      assert gallery[i] == Entry(users, comments, found[i]);
    }
  }

  /** Every comment text in `cs` would pass the handlers' emptiness check. */
  predicate TextsValid(cs: seq<Comment>) {
    forall c :: c in cs ==> !IsEmptyComment(Some(c.comment))
  }

  /** Appending a comment with a fresh id and an accepted text keeps ids unique and canonical and texts valid. */
  lemma AppendComment(cs: seq<Comment>, c: Comment)
    requires UniqueCommentIds(cs) && forall x :: x in cs ==> x.id != c.id
    ensures UniqueCommentIds(cs + [c])
    ensures CanonicalCommentIds(cs) && IsCanonical(c.id) && IsCanonical(c.user) && IsCanonical(c.photo_id) ==>
      CanonicalCommentIds(cs + [c])
    ensures TextsValid(cs) && !IsEmptyComment(Some(c.comment)) ==> TextsValid(cs + [c])
  {
  }

  /** Replacing one comment's text by an accepted one keeps ids unique and canonical and texts valid. */
  lemma ReplaceText(cs: seq<Comment>, k: nat, text: string)
    requires k < |cs| && UniqueCommentIds(cs)
    ensures UniqueCommentIds(cs[k := cs[k].(comment := text)])
    ensures CanonicalCommentIds(cs) ==> CanonicalCommentIds(cs[k := cs[k].(comment := text)])
    ensures TextsValid(cs) && !IsEmptyComment(Some(text)) ==> TextsValid(cs[k := cs[k].(comment := text)])
  {
  }

  /**
    The session's user id, when there is one, is a stored user's object id
    in canonical form: the login route copies it from the user record.
   */
  predicate SessionIdCanonical(session: Option<Session>) {
    IsAuthenticated(session).Next? ==> IsCanonical(IsAuthenticated(session).userId)
  }

  class Store {
    var users: seq<User>
    var photos: seq<Photo>
    var comments: seq<Comment>

    /**
      Object ids are unique within each collection, and every id the store
      holds is in the canonical form MongoDB writes.
     */
    predicate Valid()
      reads this
    {
      && UniqueUserIds(users) && CanonicalUserIds(users)
      && UniquePhotoIds(photos) && CanonicalPhotoIds(photos)
      && UniqueCommentIds(comments) && CanonicalCommentIds(comments)
    }

    /** Every stored comment text would pass the handlers' emptiness check. */
    predicate CommentTextsValid()
      reads this
    {
      TextsValid(comments)
    }

    constructor (users: seq<User>, photos: seq<Photo>, comments: seq<Comment>)
      requires UniqueUserIds(users) && CanonicalUserIds(users)
      requires UniquePhotoIds(photos) && CanonicalPhotoIds(photos)
      requires UniqueCommentIds(comments) && CanonicalCommentIds(comments)
      ensures Valid()
      ensures this.users == users && this.photos == photos && this.comments == comments
    {
      this.users := users;
      this.photos := photos;
      this.comments := comments;
    }

    /**
      `GET /:id`: the user's photos, oldest first, each with its owner
      populated and with exactly the comments stored against it.  An id that
      does not cast is a 500; a user that does not exist is a 404 and no
      photo is read.
     */
    method GetPhotosOfUser(session: Option<Session>, userIdParam: string) returns (r: Response<seq<GalleryPhoto>>)
      ensures IsAuthenticated(session).Deny? ==> r == Unauthorized("Unauthorized")
      ensures IsAuthenticated(session).Next? && Cast(userIdParam).None? ==> r == ServerError(GalleryErrorMessage)
      ensures IsAuthenticated(session).Next? && Cast(userIdParam).Some? && FindUser(users, Cast(userIdParam).value).None? ==>
        r == NotFound(UserNotFoundMessage, Some(userIdParam))
      ensures r.Ok? <==>
        IsAuthenticated(session).Next? && Cast(userIdParam).Some? && FindUser(users, Cast(userIdParam).value).Some?
      ensures r.Ok? ==>
        var uid := Cast(userIdParam).value;
        && SortedByDate(PhotosIn(r.body))
        && multiset(PhotosIn(r.body)) == multiset(PhotosOf(photos, uid))
        && forall i :: 0 <= i < |r.body| ==>
          && r.body[i].photo in photos
          && r.body[i].photo.user_id == uid
          && r.body[i].owner == PopulateUser(users, uid)
          && r.body[i].comments == PopulateAll(users, CommentsOn(comments, r.body[i].photo.id))
    {
      var decision := IsAuthenticated(session);
      if decision.Deny? {
        return Unauthorized(decision.message);
      }
      var cast := Cast(userIdParam);
      if cast.None? {
        return ServerError(GalleryErrorMessage);
      }
      var uid := cast.value;
      if FindUser(users, uid).None? {
        return NotFound(UserNotFoundMessage, Some(userIdParam));
      }
      var found := SortByDate(PhotosOf(photos, uid));
      var gallery := AttachComments(found);
      GalleryMeetsContract(users, photos, comments, uid, found);
      return Ok(gallery);
    }

    /**
      The handler's `for` loop: each photo of the query answer, in order,
      gets its owner populated and its comment thread attached.
     */
    method AttachComments(found: seq<Photo>) returns (gallery: seq<GalleryPhoto>)
      ensures |gallery| == |found|
      ensures forall k :: 0 <= k < |found| ==>
        && gallery[k].photo == found[k]
        && gallery[k].owner == PopulateUser(users, found[k].user_id)
        && gallery[k].comments == PopulateAll(users, CommentsOn(comments, found[k].id))
      ensures gallery == Entries(users, comments, found)
    {
      gallery := [];
      var i := 0;
      while i < |found|
        invariant 0 <= i <= |found|
        invariant gallery == Entries(users, comments, found[..i])
      {
        var p := found[i];
        var thread := PopulateAll(users, CommentsOn(comments, p.id));
        gallery := gallery + [GalleryPhoto(p, PopulateUser(users, p.user_id), thread)];
        assert found[..i + 1][..i] == found[..i];
        i := i + 1;
      }
      assert found[..i] == found;
    }

    /**
      `DELETE /:photo_id`: only the owner may delete, and a photo that is
      missing and one that belongs to someone else get the same 404.  A
      delete removes that one photo and leaves its comments in place.
     */
    method DeletePhoto(session: Option<Session>, photoIdParam: string) returns (r: Response<string>)
      requires Valid() && SessionIdCanonical(session)
      modifies this
      ensures Valid()
      ensures users == old(users) && comments == old(comments)
      ensures IsAuthenticated(session).Deny? ==> r == Unauthorized("Unauthorized") && photos == old(photos)
      ensures IsAuthenticated(session).Next? && Cast(photoIdParam).None? ==>
        r == ServerError(DeletePhotoErrorMessage) && photos == old(photos)
      ensures IsAuthenticated(session).Next? && Cast(photoIdParam).Some? ==>
        var uid, pid := IsAuthenticated(session).userId, Cast(photoIdParam).value;
        match OwnedPhoto(old(photos), pid, uid)
        case None => r == NotFound(PhotoNotFoundMessage, None) && photos == old(photos)
        case Some(k) =>
          && r == Ok(PhotoDeletedMessage)
          && photos == RemoveAt(old(photos), k)
          && forall p :: p in photos <==> p in old(photos) && p.id != pid
      ensures (IsAuthenticated(session).Next? && PhotoWithId(old(photos), photoIdParam).Some? &&
        old(photos)[PhotoWithId(old(photos), photoIdParam).value].user_id == IsAuthenticated(session).userId) ==>
        r == Ok(PhotoDeletedMessage)
    {
      var decision := IsAuthenticated(session);
      if decision.Deny? {
        return Unauthorized(decision.message);
      }
      var cast := Cast(photoIdParam);
      if PhotoWithId(photos, photoIdParam).Some? {
        OwnerFindsOwnPhoto(photos, PhotoWithId(photos, photoIdParam).value);
      }
      if cast.None? {
        return ServerError(DeletePhotoErrorMessage);
      }
      var uid, pid := decision.userId, cast.value;
      if OwnedPhoto(photos, pid, uid).None? {
        return NotFound(PhotoNotFoundMessage, None);
      }
      OwnedPhotoMissingOrForeign(photos, pid, uid);
      var k := PhotoWithId(photos, pid).value;
      RemovePhotoKeepsOthers(photos, k);
      photos := RemoveAt(photos, k);
      return Ok(PhotoDeletedMessage);
    }

    /**
      `POST /commentsOfPhoto/:photo_id`: an empty or blank text is refused
      before anything is written; otherwise one comment is appended whose
      author is the session's user and whose photo is the route parameter,
      holding the text exactly as sent.  The photo's existence is not checked.
     */
    method PostComment(session: Option<Session>, photoIdParam: string, text: Option<string>, freshId: Id, now: int)
      returns (r: Response<PopulatedComment>)
      requires Valid() && SessionIdCanonical(session)
      requires IsCanonical(freshId) && forall c :: c in comments ==> c.id != freshId
      modifies this
      ensures Valid()
      ensures users == old(users) && photos == old(photos)
      ensures old(CommentTextsValid()) ==> CommentTextsValid()
      ensures IsAuthenticated(session).Deny? ==> r == Unauthorized("Unauthorized") && comments == old(comments)
      ensures IsAuthenticated(session).Next? && IsEmptyComment(text) ==>
        r == BadRequest(EmptyCommentMessage) && comments == old(comments)
      ensures IsAuthenticated(session).Next? && !IsEmptyComment(text) && Cast(photoIdParam).None? ==>
        r == ServerError(PostCommentErrorMessage) && comments == old(comments)
      ensures r.Ok? <==> IsAuthenticated(session).Next? && !IsEmptyComment(text) && Cast(photoIdParam).Some?
      ensures r.Ok? ==>
        var c := Comment(freshId, text.value, now, IsAuthenticated(session).userId, Cast(photoIdParam).value);
        comments == old(comments) + [c] && r.body == PopulateComment(users, c)
    {
      var decision := IsAuthenticated(session);
      if decision.Deny? {
        return Unauthorized(decision.message);
      }
      if IsEmptyComment(text) {
        return BadRequest(EmptyCommentMessage);
      }
      var cast := Cast(photoIdParam);
      if cast.None? {
        return ServerError(PostCommentErrorMessage);
      }
      var c := Comment(freshId, text.value, now, decision.userId, cast.value);
      AppendComment(comments, c);
      comments := comments + [c];
      return Ok(PopulateComment(users, c));
    }

    /**
      `PUT /comment/:comment_id`: the text is validated before the lookup;
      only the author may edit, with one 404 for missing and foreign
      comments; an edit replaces the text and nothing else.
     */
    method EditComment(session: Option<Session>, commentIdParam: string, text: Option<string>)
      returns (r: Response<PopulatedComment>)
      requires Valid() && SessionIdCanonical(session)
      modifies this
      ensures Valid()
      ensures users == old(users) && photos == old(photos)
      ensures old(CommentTextsValid()) ==> CommentTextsValid()
      ensures IsAuthenticated(session).Deny? ==> r == Unauthorized("Unauthorized") && comments == old(comments)
      ensures IsAuthenticated(session).Next? && IsEmptyComment(text) ==>
        r == BadRequest(EmptyCommentMessage) && comments == old(comments)
      ensures IsAuthenticated(session).Next? && !IsEmptyComment(text) && Cast(commentIdParam).None? ==>
        r == ServerError(EditCommentErrorMessage) && comments == old(comments)
      ensures IsAuthenticated(session).Next? && !IsEmptyComment(text) && Cast(commentIdParam).Some? ==>
        var uid, cid := IsAuthenticated(session).userId, Cast(commentIdParam).value;
        match OwnedComment(old(comments), cid, uid)
        case None => r == NotFound(CommentEditNotFoundMessage, None) && comments == old(comments)
        case Some(k) =>
          && comments == old(comments)[k := old(comments)[k].(comment := text.value)]
          && r == Ok(PopulateComment(users, comments[k]))
      ensures (IsAuthenticated(session).Next? && !IsEmptyComment(text) && CommentWithId(old(comments), commentIdParam).Some? &&
        old(comments)[CommentWithId(old(comments), commentIdParam).value].user == IsAuthenticated(session).userId) ==>
        r.Ok?
    {
      var decision := IsAuthenticated(session);
      if decision.Deny? {
        return Unauthorized(decision.message);
      }
      if IsEmptyComment(text) {
        return BadRequest(EmptyCommentMessage);
      }
      var cast := Cast(commentIdParam);
      if CommentWithId(comments, commentIdParam).Some? {
        AuthorFindsOwnComment(comments, CommentWithId(comments, commentIdParam).value);
      }
      if cast.None? {
        return ServerError(EditCommentErrorMessage);
      }
      var uid, cid := decision.userId, cast.value;
      var found := OwnedComment(comments, cid, uid);
      if found.None? {
        return NotFound(CommentEditNotFoundMessage, None);
      }
      var k := found.value;
      SaveCommentText(k, text.value);
      return Ok(PopulateComment(users, comments[k]));
    }

    /** `comment.comment = text; comment.save()`: the stored comment at `k` gets the new text. */
    method SaveCommentText(k: nat, text: string)
      requires Valid() && k < |comments|
      modifies this
      ensures Valid()
      ensures users == old(users) && photos == old(photos)
      ensures comments == old(comments)[k := old(comments)[k].(comment := text)]
      ensures old(CommentTextsValid()) && !IsEmptyComment(Some(text)) ==> CommentTextsValid()
    {
      ReplaceText(comments, k, text);
      comments := comments[k := comments[k].(comment := text)];
    }

    /**
      `DELETE /comment/:comment_id`: only the author may delete, with one 404
      for missing and foreign comments; a delete removes that one comment.
     */
    method DeleteComment(session: Option<Session>, commentIdParam: string) returns (r: Response<string>)
      requires Valid() && SessionIdCanonical(session)
      modifies this
      ensures Valid()
      ensures users == old(users) && photos == old(photos)
      ensures old(CommentTextsValid()) ==> CommentTextsValid()
      ensures IsAuthenticated(session).Deny? ==> r == Unauthorized("Unauthorized") && comments == old(comments)
      ensures IsAuthenticated(session).Next? && Cast(commentIdParam).None? ==>
        r == ServerError(DeleteCommentErrorMessage) && comments == old(comments)
      ensures IsAuthenticated(session).Next? && Cast(commentIdParam).Some? ==>
        var uid, cid := IsAuthenticated(session).userId, Cast(commentIdParam).value;
        match OwnedComment(old(comments), cid, uid)
        case None => r == NotFound(CommentDeleteNotFoundMessage, None) && comments == old(comments)
        case Some(k) =>
          && r == Ok(CommentDeletedMessage)
          && comments == RemoveAt(old(comments), k)
          && forall c :: c in comments <==> c in old(comments) && c.id != cid
      ensures (IsAuthenticated(session).Next? && CommentWithId(old(comments), commentIdParam).Some? &&
        old(comments)[CommentWithId(old(comments), commentIdParam).value].user == IsAuthenticated(session).userId) ==>
        r == Ok(CommentDeletedMessage)
    {
      var decision := IsAuthenticated(session);
      if decision.Deny? {
        return Unauthorized(decision.message);
      }
      var cast := Cast(commentIdParam);
      if CommentWithId(comments, commentIdParam).Some? {
        AuthorFindsOwnComment(comments, CommentWithId(comments, commentIdParam).value);
      }
      if cast.None? {
        return ServerError(DeleteCommentErrorMessage);
      }
      var uid, cid := decision.userId, cast.value;
      if OwnedComment(comments, cid, uid).None? {
        return NotFound(CommentDeleteNotFoundMessage, None);
      }
      OwnedCommentMissingOrForeign(comments, cid, uid);
      var k := CommentWithId(comments, cid).value;
      RemoveCommentKeepsOthers(comments, k);
      comments := RemoveAt(comments, k);
      return Ok(CommentDeletedMessage);
    }

    /**
      `POST /new` with multer's `upload.single('photo')` in front: no file,
      or only a part with an empty file name, is a 400; a file multer
      refuses goes to Express's error handler (500); an admitted file
      becomes one new photo owned by the session's user, stored under its
      generated name.
     */
    method UploadPhoto(session: Option<Session>, file: Option<FilePart>, millis: nat, rand: nat, freshId: Id, now: int)
      returns (r: Response<UploadedPhoto>)
      requires Valid() && SessionIdCanonical(session)
      requires IsCanonical(freshId) && forall p :: p in photos ==> p.id != freshId
      modifies this
      ensures Valid()
      ensures users == old(users) && comments == old(comments)
      ensures IsAuthenticated(session).Deny? ==> r == Unauthorized("Unauthorized")
      ensures IsAuthenticated(session).Next? && Received(file).None? ==> r == BadRequest(NoFileMessage)
      ensures IsAuthenticated(session).Next? && Received(file).Some? && Admit(file.value, millis, rand).Rejected? ==>
        r == ServerError(Admit(file.value, millis, rand).reason.Message())
      ensures r.Created? <==>
        IsAuthenticated(session).Next? && Received(file).Some? && Admit(file.value, millis, rand).Admitted?
      ensures r.Created? ==>
        var name := StoredName(millis, rand, file.value.originalname);
        && photos == old(photos) + [Photo(freshId, name, now, IsAuthenticated(session).userId)]
        && r.body == UploadedPhoto(freshId, name, now)
      ensures !r.Created? ==> photos == old(photos)
    {
      var decision := IsAuthenticated(session);
      if decision.Deny? {
        return Unauthorized(decision.message);
      }
      if Received(file).None? {
        return BadRequest(NoFileMessage);
      }
      var admission := Admit(file.value, millis, rand);
      if admission.Rejected? {
        return ServerError(admission.reason.Message());
      }
      var p := Photo(freshId, admission.filename, now, decision.userId);
      assert UniquePhotoIds(photos + [p]);
      photos := photos + [p];
      return Created(UploadedPhoto(p.id, p.file_name, p.date_time));
    }
  }

}
