# Photo-sharing API: content-access layer

A Dafny model of the part of the photo-sharing backend that decides who may
read and change what: the `isAuthenticated` session guard, the user routes
(`/api/user`) and the photo routes (`/api/photo`): the per-user gallery with
its comment threads, photo deletion, posting, editing and deleting comments,
and photo upload admission.

The MongoDB collections become an in-memory store, a class `Store` with three
fields: `users`, `photos` and `comments`, each a sequence in insertion order.
The photo handlers are methods on it that update those fields in place and
return a `Response`: `Ok` (200), `Created` (201), `BadRequest` (400),
`Unauthorized` (401), `NotFound` (404) or `ServerError` (500). The user routes
only read, so they are functions of the user sequence. None of them can change
the user store. Mongoose queries are functions over those sequences: the photo
and comment queries (`find`, `sort`, `findOne`, `deleteOne` and the comment
`populate`) are in module `Queries`; `User.findById` (`Records.FindUser`) and
the populate of a user reference (`Records.PopulateUser`) are in module
`Records`. Fresh object ids, `new Date()`, `Date.now()` and `Math.random()`
are method parameters.

The store's invariant (`Store.Valid`) holds what MongoDB guarantees about the
data: ids are unique within each collection, and every id the store holds,
including the owner, author and photo references, is in the canonical
lower-case hex form in which object ids are written. The session's user id
and every fresh id are required to be in that form too.

Modules, leaves first:

- `Wrappers` holds `Option`.
- `Http` holds the response taxonomy.
- `ObjectIds` holds the `^[0-9a-fA-F]{24}$` check and the cast of a route parameter to an id.
- `Records` holds users, photos, comments, their projections and `User.findById`.
- `Authentication` holds the middleware.
- `CommentText` holds JavaScript's `trim` and the empty-comment check.
- `Upload` holds the file filter, the size limit, the file-name generator and `path.extname`.
- `Queries` holds the in-memory queries.
- `UserRouter` and `PhotoRouter` hold the route handlers.

Behaviour of the code worth noting:

- A file that multer refuses reaches Express's default error handler, which answers 500. The route's own 400 is only for a request with no file. Three refusals of a single file take this path: a type outside the whitelist, a file over 5 MiB, and a file sent in a field other than `photo`.
- multer skips a file part with an empty file name, as a browser sends for an empty file input. Such a request gets the route's 400, like one with no file.
- `GET /api/user/:id` answers 400, not 404, for a well-formed id with no user.
- Posting a comment answers 200, not 201. It does not check that the photo exists.
- `populate` of an author with no user record yields `null` (`None`). There is no "Unknown User" placeholder and no batched join. Comments come back in store order.
- Deleting a photo leaves its comments in the store.
- A route id that is not 24 hex digits makes the Mongoose cast throw, so the gallery and the mutation routes answer 500 for it.

## Model

| member | source | states |
|---|---|---|
| Authentication.IsAuthenticated | middleware/authentication.js:1-6 | the request proceeds, for the session's user id, exactly when a session with a user is present; otherwise the answer is 401 "Unauthorized" |
| ObjectIds.MatchesHexRunIff | routes/UserRouter.js:30 | the anchored pattern `[0-9a-fA-F]{24}` accepts exactly the 24-character strings of hex digits |
| ObjectIds.Cast | routes/PhotoRouter.js:15 | a route id casts exactly when it matches the 24-hex pattern; the id it names is canonical and equals it up to the case of its letters |
| ObjectIds.CastCanonical | routes/UserRouter.js:36 | a stored (canonical) id casts to itself, so lookups by a stored id find it |
| Records.FindUser | routes/UserRouter.js:36 | `findById` returns a stored user with that id, and misses exactly when no stored user has it |
| Records.FindUserFindsStored | routes/UserRouter.js:36-45 | with unique ids, looking up a stored user's id returns that very user |
| Records.PopulateUser | routes/PhotoRouter.js:28 | populating a user reference yields a summary of a stored user with that id, or null exactly when there is none |
| UserRouter.ListUsers | routes/UserRouter.js:10-13 | one entry per stored user, in store order, carrying that user's `_id`, `first_name` and `last_name` |
| UserRouter.GetUser | routes/UserRouter.js:27-45 | a malformed id gives 400 "Invalid user ID format" before any lookup; a well-formed id with no user gives 400 "User not found"; otherwise 200 with the detail projection of the user with that id; never 404 |
| UserRouter.AllUsers | routes/UserRouter.js:58-61 | every stored record, unprojected, in store order |
| UserRouter.ListedUsersResolve | routes/UserRouter.js:10-45 | every id the sidebar list shows opens, in the detail route, the same user, with the same name |
| CommentText.TrimEmptyIffBlank | routes/PhotoRouter.js:72 | `trim()` yields "" exactly when every character is JavaScript white space or a line terminator |
| CommentText.IsEmptyCommentIff | routes/PhotoRouter.js:72-76 | a comment text is refused exactly when it is missing or consists only of white space |
| Upload.Admit | routes/PhotoRouter.js:181-195 | a file is admitted exactly when it arrives in field `photo`, its type is whitelisted and its size is at most 5·1024·1024 bytes; the type is checked before the size; an admitted file's name starts with the clock digits and ends with the original extension |
| Upload.Received | routes/PhotoRouter.js:198-204 | a file part reaches the route exactly when one was sent and its file name is not empty; the part is passed on unchanged |
| Upload.FileFilterIff | routes/PhotoRouter.js:182-183 | the whitelist is exactly `image/jpeg`, `image/png`, `image/gif`, `image/jpg` |
| Upload.ParseDecimalRoundTrip | routes/PhotoRouter.js:174 | the decimal rendering of the clock and random values reads back as the same number |
| Upload.DecimalInjective | routes/PhotoRouter.js:174 | different numbers render to different digit strings |
| Upload.Extname | routes/PhotoRouter.js:175 | the extension is empty or a '.' followed by characters that are neither '.' nor '/' |
| Upload.ExtnameOfFileName | routes/PhotoRouter.js:175 | a plain file name `stem.x` has the extension `.x`, so `photo.png` is stored under a name ending in `.png` |
| Upload.StoredNameInjective | routes/PhotoRouter.js:174-176 | two generated names are equal only if they come from the same millisecond, the same random integer and the same extension |
| Queries.PhotosOf | routes/PhotoRouter.js:23 | the photo query returns only photos of that user, and each of them as often as it is stored |
| Queries.CommentsOn | routes/PhotoRouter.js:27 | the comment query returns exactly the stored comments whose `photo_id` is that photo, each as often as stored |
| Queries.SortByDate | routes/PhotoRouter.js:25 | the result is ascending by `date_time` and is a permutation of its input |
| Queries.OwnedPhotoMissingOrForeign | routes/PhotoRouter.js:47-53 | the owner-filtered lookup misses exactly when the photo is missing or belongs to someone else; when it hits, it finds the photo `deleteOne` removes |
| Queries.OwnedCommentMissingOrForeign | routes/PhotoRouter.js:114-119 | the author-filtered lookup misses exactly when the comment is missing or written by someone else; when it hits, it finds the comment `deleteOne` removes |
| Queries.OwnerFindsOwnPhoto | routes/PhotoRouter.js:46-53 | the owner of a stored photo, addressing it by its own (canonical) id, gets past the cast and the owner-filtered lookup, which lands on that very record, the one `deleteOne` removes |
| Queries.AuthorFindsOwnComment | routes/PhotoRouter.js:105-119 | the author of a stored comment, addressing it by its own id, gets past the cast and the author-filtered lookup, which lands on that very record |
| Queries.RemovePhotoKeepsOthers | routes/PhotoRouter.js:53 | deleting one photo removes that id and keeps every other photo and unique ids |
| Queries.RemoveCommentKeepsOthers | routes/PhotoRouter.js:147 | deleting one comment removes that id and keeps every other comment and unique ids |
| Queries.PopulateComment | routes/PhotoRouter.js:28 | a populated comment keeps its id, text, date and photo; its author is exactly what populating the author reference yields: the `_id`, `first_name` and `last_name` of the stored user with the author's id, or null exactly when that user does not exist |
| PhotoRouter.GalleryMeetsContract | routes/PhotoRouter.js:23-31 | entries built in the order of the sorted query are sorted by date, are a permutation of the user's photos, belong to that user, carry the owner's summary and exactly that photo's comments |
| PhotoRouter.Store.AttachComments | routes/PhotoRouter.js:26-31 | the loop yields one entry per photo of the query answer, in the same order, each with its owner populated and exactly the comments stored against that photo, populated |
| PhotoRouter.AppendComment | routes/PhotoRouter.js:72-86 | appending a comment with a fresh id keeps ids unique, and with an accepted text keeps every stored text non-blank |
| PhotoRouter.ReplaceText | routes/PhotoRouter.js:108-122 | replacing one comment's text keeps ids unique, and with an accepted text keeps every stored text non-blank |
| PhotoRouter.Store.GetPhotosOfUser | routes/PhotoRouter.js:13-42 | 401 without a session; 500 for an id that does not cast; 404 "User not found" with the id when no user has it; otherwise 200 with the user's stored photos, ascending by date, each with owner populated and exactly its stored comments, populated |
| PhotoRouter.Store.DeletePhoto | routes/PhotoRouter.js:44-64 | 401 without a session; 500 for an id that does not cast; the same 404 message and an unchanged store when the photo is missing or not the session user's; otherwise 200, and exactly that photo is gone, others in order, all comments kept; the owner deleting a stored photo by its own id always reaches this 200; ids stay unique and canonical |
| PhotoRouter.Store.PostComment | routes/PhotoRouter.js:67-100 | 401 without a session; 400 "Comment cannot be empty" for a missing or blank text, with nothing written; 500 for a photo id that does not cast; otherwise exactly one comment is appended, with author = session user, photo = route id and the text untrimmed, and answered populated; stored texts stay non-blank |
| PhotoRouter.Store.EditComment | routes/PhotoRouter.js:103-135 | 401 without a session; the text is checked before the id and the lookup; the same 404 and an unchanged store when the comment is missing or not the session user's; otherwise only that comment's text changes (author, photo, date kept) and it is answered populated; the author editing a stored comment by its own id with an accepted text always reaches this branch |
| PhotoRouter.Store.SaveCommentText | routes/PhotoRouter.js:120-121 | saving an edited comment replaces that comment's text and changes nothing else in the store; ids stay unique and canonical, and with an accepted text every stored text stays non-blank |
| PhotoRouter.SortedPhotosBelong | routes/PhotoRouter.js:23-25 | the sorted gallery query answers the user's stored photos, ascending by date, as a permutation, each stored and owned by that user |
| PhotoRouter.Store.DeleteComment | routes/PhotoRouter.js:138-158 | 401 without a session; 500 for an id that does not cast; the same 404 and an unchanged store when the comment is missing or not the session user's; otherwise exactly that comment is removed; the author deleting a stored comment by its own id always reaches this 200 |
| PhotoRouter.Store.UploadPhoto | routes/PhotoRouter.js:198-233 | 401 without a session, before any upload handling; 400 when no file was sent or its file name is empty; 500 with multer's message for a refused file; otherwise 201, and exactly one photo is appended, owned by the session user, stored under the generated name, dated now; nothing else changes |

## Left out

- Express wiring, CORS, the session cookie, the database connection and `listen` (index.js) are framework setup. `index.js` is not part of this model.
- Failures of the database itself (the `catch` branches reached by I/O errors) are not modelled. The in-memory store cannot fail. The only 500s modelled are those the code raises on its own inputs: an id that does not cast, and a file multer refuses.
- The file write, the creation of the images directory and the removal of a partial file are left out. The model covers only admission and the generated name. A file left behind when the photo record cannot be saved (an orphan) is outside the model too.
- The clock, the random number and new object ids are parameters. Uniqueness of generated names across uploads is a probabilistic claim and is not proved. `Upload.StoredNameInjective` proves instead that equal names imply equal clock and random values.
- Concurrent requests interleaving at `await` points are not modelled. Each handler runs atomically.
- The 12-character string form that Mongoose also accepts as an object id is not modelled. Such a string is treated as not castable.
- A comment body field that is present but not a string (a number, an object) is not modelled. The field is either missing or a string.
- Every photo handler that reads the session's user id (deleting a photo, posting, editing and deleting a comment, uploading) requires it to be in canonical form, as the login route copies it from a user record. A session id the database would cast differently, or refuse to cast, is therefore outside the model. The login route is not part of this model, and the model does not require the id to name a stored user.
- A request with several file parts is not modelled. multer refuses a second file in field `photo` with "Unexpected field" (a 500), and stops at the first refusal among several parts. The model takes at most one file part per request.
- The `comments: []` array stored with each new photo is left out. The gallery replaces it with the queried thread, and nothing else reads it.
- Express's error page for a refused upload is reduced to its status and multer's error message.
- `path.extname` is modelled for POSIX paths only: the last segment after trailing slashes are dropped.
- Dates are epoch milliseconds (`int`). Their JSON rendering is not modelled.
- Queries.SortByDate: photos with equal `date_time` may come back in any order, as with the database's sort. The model breaks such ties one fixed way, and its contract promises only order and permutation.
- Queries.PhotosOf: the contract does not state that store order is kept, though the definition keeps it, because MongoDB's unsorted `find` (routes/PhotoRouter.js:23) promises no order.
- Queries.CommentsOn: the contract does not state that store order is kept, though the definition keeps it, because MongoDB's unsorted `find` (routes/PhotoRouter.js:27) promises no order.
- Upload.Admit: `Math.round(Math.random() * 1E9)` stays within 0 to 1000000000. The model accepts any natural number as the random value.
