# Backend-V core in Dafny

A model of the request handlers of the Backend-V video platform, an
Express/Mongoose service. The database is an in-memory value. The Like and
Subscription collections are sequences in natural order: `findOne` finds the
first match, `deleteOne` removes it and `create` appends. Playlists, comments,
videos and users are maps from document id to document. The id a new document
receives is a parameter. Each handler is a pure function from the collection
and the request fields to a `Result`. That result is either the reply (with
the collection afterwards) or what the handler throws.

What a handler can throw (`ApiErrors.Failure`):

- an `ApiError` with its status code and message;
- a `TypeError` from reading a property of `undefined` or `null`;
- a `CastError` when a string that is not an ObjectId reaches a query;
- a `BsonError` when the `ObjectId` constructor is handed such a string;
- a schema `ValidationError`;
- a unique-index `DuplicateKey` error;
- a `LibraryError`, the plain `Error` a library rejects with.

`asyncHandler` forwards every rejection to Express. The client sees the
`ApiError` status, or 500 for anything else.

Request fields are `Option<string>`, with `None` for `undefined`. `!x` holds
for `None` and for `""` (`Js.Truthy`). `trim()` removes exactly the
ECMAScript white-space and line-terminator characters. `toLowerCase()` is
modelled on ASCII letters. `isValidObjectId` accepts 24 hexadecimal digits.
The authenticated caller's id is a well-formed ObjectId (`Js.ObjectId`).

bcrypt and jsonwebtoken are records of functions (`Users.Bcrypt`,
`Users.Jwt`). The one property the code relies on is stated as a predicate,
and lemmas that need it take it as a precondition:

- `BcryptSound`: bcrypt reads only the first 72 bytes of a password's
  UTF-8 encoding (`Users.BcryptKey`), and a hash matches exactly the
  passwords that agree with its plaintext on those bytes;
- `JwtSound`: a token verified before it expires gives back the payload it
  was signed with, plus at most the `iat` and `exp` claims `sign` adds.

bcrypt's random salt, the upload service (`Registration.Upload`'s `cloud`, a
function from local path to URL) and the result of the thumbnail upload are
parameters.

Modules, one per source concern:

- `Js`: `trim`, `toLowerCase`, truthiness, ObjectId syntax.
- `ApiErrors`: the `ApiError` record and the failure/result types.
- `Collection`: find-then-delete-or-create toggles and the `$match`/`$group` count, over a sequence.
- `Likes`: the like controller.
- `Subscriptions`: the subscription controller.
- `Playlists`: the playlist controller.
- `Comments`: the comment controller.
- `PublicId`: `extractPublicId`, the regular expression of the video controller.
- `Videos`: the rest of the video controller.
- `Users`: the User schema, its setters and hooks, the password check and the token claims.
- `Registration`: `registerUser`.

Several defects are modelled as written. Where the evidently intended
behaviour is clear, a corrected member sits beside the as-written one (see
"## Findings"). In these places the code departs from the usual REST
conventions, and the model follows the code:

- A unique-index violation surfaces as a 500, not a 409 conflict.
- A schema validation failure surfaces as a 500, not a 400.
- `getVideoById` answers 400, not 404, for a missing video.
- `getLikedVideos`' unreachable branch is a 400 "No liked videos found!", not a 404.

## Model

| member | source | states |
|---|---|---|
| ApiErrors.NewApiError | src/utils/ApiErrors.js:2-20 | Construction fails (ReferenceError on the undeclared `stack`) exactly when a truthy `statck` is passed. Otherwise the record carries the given status code; the message or "An unknown error occurred!"; the errors or `[]`; `success` false; `data` null |
| ApiErrors.FailShape | src/utils/ApiErrors.js:9-13 | Every explicitly thrown error carries its own code and message, `success` false, no data and an empty error list. The client sees its code when that code is 4xx or 5xx |
| ApiErrors.StatusOf | src/utils/asyncHandler.js:1-6 | A forwarded `ApiError` answers with its status code when that code is between 400 and 599, as Express's final handler requires. Any other code, and every other thrown error, answers 500 |
| Collection.Toggle | src/controllers/like.controller.js:16-31 | find-then-delete-or-create removes iff some document matches. It removes the first matching document, the one `findOne` returns (count of matches down by one, the rest kept as a multiset). Otherwise it appends exactly the new document |
| Collection.ToggleFlipsCount | src/controllers/like.controller.js:16-31 | With at most one match, a toggle moves the number of matches between 0 and 1 |
| Collection.ToggleLeavesOthers | src/controllers/like.controller.js:16-31 | A toggle leaves the documents of any filter disjoint from the toggled key unchanged, in order |
| Likes.NewLike | src/controllers/like.controller.js:28-31 | The created like records the caller and the target under the kind's own field, and no other target |
| Likes.ToggleLike | src/controllers/like.controller.js:7-39 | A malformed target id is a cast error. An existing (caller, target) like is removed, the first match in natural order: null data, "Unliked successfully!", match count down by one. Otherwise exactly the new like is appended and returned with "Like successful!". The same holds for comment and tweet likes |
| Likes.MissingTargetPassesGuard | src/controllers/like.controller.js:12-14 | The 400 guard needs both ids missing, and the caller id never is. A missing target gets through and toggles the caller's first like with no field of that kind, which can be a comment or tweet like; an empty target fails the cast |
| Likes.MissingTargetUnlikesOtherKind | src/controllers/like.controller.js:16-26 | A video (comment, tweet) toggle without a target id unlikes the caller's like of another kind: the filter on an undefined field matches it |
| Likes.AtMostOneLikePerKey | src/controllers/like.controller.js:16-31 | For a toggle that carries a target id: in a well-formed collection its (user, kind, target) key matches at most one like |
| Likes.ToggleLikeKeepsWellFormed | src/controllers/like.controller.js:16-37 | Every toggle keeps each like single-targeted and each key unique |
| Likes.ToggleLikeTwice | src/controllers/like.controller.js:16-37 | Two toggles of one key restore the collection. From absence it is exactly restored; from presence it holds the same likes as a multiset |
| Likes.ToggleLikeIsolation | src/controllers/like.controller.js:50-71 | For a toggle that carries a target id: it leaves every other (user, kind, target) key's likes unchanged, so a video like never touches a comment or tweet like |
| Likes.GetLikedVideos | src/controllers/like.controller.js:107-125 | Always succeeds. Returns every like the caller made, of every kind, and only those, each exactly as often as it is stored |
| Subscriptions.ToggleKeyed | src/controllers/subscription.controller.js:14-40 | The guard 400s iff both keys are missing or empty; a malformed channel id is a cast error. An existing (subscriber, channel) edge is deleted, the first in natural order as `findOne` picks it, with null data and "Unsubscribed successfully!". Otherwise exactly that edge is appended and returned with "Subscription successful!" |
| Subscriptions.ToggleSubscription | src/controllers/subscription.controller.js:9-42 | As written: 400 "Give channel and user info!" iff the channel id is missing or empty; a malformed one is a cast error. Otherwise the toggle works on the subscriber-less edge of the channel |
| Subscriptions.ToggleSubscriptionByCaller | src/controllers/subscription.controller.js:11-40 | Keyed on the caller's id, the 400 guard never fires; only a malformed channel id fails, with a cast error. Otherwise the toggle works on the (caller, channel) edge |
| Subscriptions.ToggleSubscriptionIgnoresCaller | src/controllers/subscription.controller.js:9-16 | As written, the result does not depend on the caller. The 400 fires iff the channel id is missing or empty, and every created subscription has no subscriber |
| Subscriptions.ToggleKeyedKeepsDistinct | src/controllers/subscription.controller.js:18-34 | A toggle keeps the edges duplicate-free and moves the key's edge count between 0 and 1 |
| Subscriptions.ToggleKeyedTwice | src/controllers/subscription.controller.js:18-40 | Two toggles of one key restore the edges: exactly from absence, as a multiset from presence |
| Subscriptions.ToggleSubscriptionTwice | src/controllers/subscription.controller.js:11-40 | As written, ANY two callers toggling the same channel in a row restore the edges exactly (when no subscriber-less edge existed) |
| Subscriptions.ToggleByCallerIsolation | src/controllers/subscription.controller.js:18-34 | Keyed on the caller's id, a toggle leaves every other (subscriber, channel) pair's edges unchanged |
| Subscriptions.GetUserChannelSubscribers | src/controllers/subscription.controller.js:45-69 | The total is the number of edges with that channel, `{totalSubscribers: 0}` when none match. A missing channel id matches nothing; a malformed one makes the `ObjectId` constructor throw |
| Subscriptions.ToggleMovesChannelCount | src/controllers/subscription.controller.js:18-65 | A toggle that creates an edge raises the channel's count by one; one that deletes lowers it by one |
| Subscriptions.GetSubscribedChannels | src/controllers/subscription.controller.js:73-104 | 400 iff the subscriber id is missing or empty; a malformed one makes the `ObjectId` constructor throw. Otherwise one group holding the count, or an empty array when the count is zero (no zero default) |
| Subscriptions.SubscribedChannelsAlwaysEmpty | src/controllers/subscription.controller.js:31-34 | The as-written toggle never records a subscriber, so on a collection it built every user's subscribed-channels query is empty |
| Playlists.CreatePlaylist | src/controllers/playlist.controller.js:8-41 | 400 for a missing or blank title, then for a missing or blank description, then when the same owner already has the trimmed title. Otherwise it stores the trimmed title and description, the owner and no videos under the new id, and changes nothing else |
| Playlists.FindPlaylist | src/controllers/playlist.controller.js:57-67 | 400 "Playlist Id is required!" iff the id is missing or empty; 400 "Invalid Playlist Id!" iff it is malformed; 404 iff no such playlist |
| Playlists.GetPlaylistById | src/controllers/playlist.controller.js:54-68 | Fails exactly as the lookup does; otherwise returns the stored playlist |
| Playlists.CheckIds | src/controllers/playlist.controller.js:74-85 | The four id checks, each error exactly when the earlier checks pass and this one fails |
| Playlists.AddVideoToPlaylist | src/controllers/playlist.controller.js:71-101 | Id errors first; then 404 iff the playlist is missing; then 400 iff the video is already listed. Otherwise the video is appended at the end, and no other playlist changes |
| Playlists.Pull | src/controllers/playlist.controller.js:132 | `pull(v)` leaves no `v` and keeps every other listed video |
| Playlists.RemoveVideoFromPlaylist | src/controllers/playlist.controller.js:105-135 | Id errors first; then 404 iff the playlist is missing; then 400 iff the video is not listed. Otherwise the video is pulled, and no other playlist changes |
| Playlists.PullIsRemoveAt | src/controllers/playlist.controller.js:132 | In a duplicate-free list, pulling a listed video removes exactly its one position |
| Playlists.RemoveVideoExactlyOne | src/controllers/playlist.controller.js:126-133 | When the playlist's list is duplicate-free, a successful remove takes out exactly one entry and keeps the order of the others |
| Playlists.AddThenRemove | src/controllers/playlist.controller.js:93-133 | Adding a video and then removing it restores the whole collection |
| Playlists.AddKeepsValid | src/controllers/playlist.controller.js:93-99 | A successful add keeps every video list duplicate-free and every owner's titles unique |
| Playlists.RemoveKeepsValid | src/controllers/playlist.controller.js:126-133 | A successful remove keeps the collection valid |
| Playlists.CreateKeepsValid | src/controllers/playlist.controller.js:21-35 | Create keeps titles trimmed and unique per owner |
| Playlists.DeletePlaylist | src/controllers/playlist.controller.js:139-155 | Fails exactly as the lookup does; otherwise removes exactly the named playlist and no other |
| Playlists.DeleteKeepsValid | src/controllers/playlist.controller.js:149-155 | Delete keeps the collection valid |
| Playlists.UpdatePlaylist | src/controllers/playlist.controller.js:158-184 | Id errors first; 400 iff name or description is missing or blank; 404 iff the playlist is missing; 400 "Choose different " iff both trimmed values equal the current ones. Otherwise both fields are replaced by the trimmed values, and no other playlist changes |
| Playlists.UpdateKeepsTidy | src/controllers/playlist.controller.js:177-183 | Update stores the trimmed title and leaves the video list alone, so every playlist keeps a trimmed title and a duplicate-free list |
| Playlists.UpdateIgnoresTitleClash | src/controllers/playlist.controller.js:177-183 | Update does not check the new title against the owner's other playlists: renaming onto one breaks per-owner title uniqueness |
| Comments.GetVideoComments | src/controllers/comment.controller.js:7-33 | 400 iff the video id is missing or empty; a malformed id makes the `ObjectId` constructor throw. Otherwise at most one group whose total is the number of the video's comments, empty when there are none (the 404 is unreachable) |
| Comments.AddComment | src/controllers/comment.controller.js:37-60 | 400 for a missing video id, then for a missing or empty text; a malformed video id fails validation. Otherwise it stores exactly (text, video, caller) under the new id, and nothing else changes |
| Comments.FindComment | src/controllers/comment.controller.js:76-79 | A malformed id is a cast error; 404 iff no such comment |
| Comments.UpdateComment | src/controllers/comment.controller.js:63-84 | 400 for a missing id. A TypeError when the text is undefined; 400 when it is blank; then the lookup errors. Otherwise only `content` changes, to the untrimmed text |
| Comments.DeleteComment | src/controllers/comment.controller.js:88-105 | 400 for a missing id, then the lookup errors; otherwise removes exactly that comment |
| Comments.AddThenDelete | src/controllers/comment.controller.js:50-100 | Deleting a just-added comment restores the collection |
| Comments.AddCounts | src/controllers/comment.controller.js:16-54 | Adding a comment raises its video's count by one and no other video's |
| Comments.DeleteCounts | src/controllers/comment.controller.js:16-100 | Deleting a comment lowers its own video's count by one and no other |
| Comments.UpdateKeepsCounts | src/controllers/comment.controller.js:81-82 | An update never moves a comment to another video |
| PublicId.VersionLen | src/controllers/video.controller.js:10 | The optional `v\d+/` group is found when present, at its only possible length |
| PublicId.Tail | src/controllers/video.controller.js:10 | `(.+)\.\w+$` matches a rest exactly when it has a dot with a non-empty capture before it and word characters after it. It captures up to the last such dot |
| PublicId.ExtractBuiltUrl | src/controllers/video.controller.js:9-11 | For a URL `<prefix>upload/v<digits>/<id>.<ext>`, the public id is `id` |
| PublicId.ExtractExampleNested | src/controllers/video.controller.js:9-11 | `…upload/v12/a/b.jpg` gives `a/b` |
| PublicId.ExtractExampleDotted | src/controllers/video.controller.js:10 | `…upload/v12/a.b.jpg` gives `a.b`: only the last extension is dropped |
| PublicId.VersionGroupBacktracks | src/controllers/video.controller.js:10 | When nothing follows the version segment, the match backtracks and the segment becomes the capture |
| PublicId.ExtractPublicId | src/controllers/video.controller.js:9-11 | A public id is only ever the capture after some `upload/` in the URL; a URL with no `upload/` has none |
| PublicId.NoUploadNoId | src/controllers/video.controller.js:10 | A URL without `upload/` anywhere does not match, so the caller's `[1]` throws |
| PublicId.ForeignUrlNoId | src/controllers/video.controller.js:9-11 | A URL of another host, `https://example.com/a.jpg`, has no public id |
| Videos.FindById | src/controllers/video.controller.js:69 | `findById` gives null for a missing or unknown id and a cast error for a malformed one |
| Videos.GetVideoById | src/controllers/video.controller.js:61-75 | 400 "Enter video Id" iff the id is missing or empty; 400 "Video not found!" (not 404) for an unknown id. Otherwise returns the stored video |
| Videos.UpdateVideo | src/controllers/video.controller.js:79-105 | 400 iff the id is missing or empty; then 400 iff neither title nor description is truthy; then a cast error for a malformed id and 400 "Video not found!" for an unknown one. On success both fields are assigned as sent, and nothing else changes |
| Videos.UpdateErasesOmittedField | src/controllers/video.controller.js:97-98 | An update that sends only a new title erases the description |
| Videos.TogglePublishStatus | src/controllers/video.controller.js:191-202 | A missing id is a 400 and a malformed one a cast error from the lookup that runs first; an unknown id throws on the null video. Succeeds iff the video exists, and then it is published whatever it was, and nothing else changes |
| Videos.PublishIsIdempotent | src/controllers/video.controller.js:199-200 | A second call changes nothing |
| Videos.PublishNeverUnpublishes | src/controllers/video.controller.js:199 | No published video is ever unpublished |
| Videos.TogglePublishStatusFlip | src/controllers/video.controller.js:191-202 | The toggle the name promises: the flag of the named video is negated and nothing else changes |
| Videos.FlipTwiceRestores | src/controllers/video.controller.js:199 | Flipping twice restores the collection |
| Videos.UpdateVideoThumbnail | src/controllers/video.controller.js:108-146 | 400 for a missing id, then for a missing file; a cast error for a malformed id. A TypeError for an unknown video or a stored URL with no public id; 400 when the upload fails. Otherwise only the thumbnail changes, to the new URL |
| Videos.UpdateVideoThumbnailChecked | src/controllers/video.controller.js:122-126 | With the re-check testing the video, an unknown id is a 400. For a known video it behaves exactly as written |
| Videos.ThumbnailCheckDiffers | src/controllers/video.controller.js:122-128 | For an unknown well-formed id the written handler answers 500 and the checked one 400 |
| Js.TrimLowerCommute | src/models/user.models.js:13-14 | Trimming and lower-casing commute, so the order of the two setters does not matter |
| Users.Canonical | src/models/user.models.js:9-23 | The `trim` and `lowercase` setters of `username` and `email` give the lower-cased trimmed value, whichever runs first |
| Users.ApplySetters | src/models/user.models.js:9-29 | `username` and `email` are stored trimmed and lower-cased, `fullName` trimmed only, the other fields as given |
| Users.ApplySettersIdempotent | src/models/user.models.js:9-29 | The setters are idempotent and leave no upper-case letter in `username` |
| Users.Validate | src/models/user.models.js:11-48 | Validation passes iff username, email, fullName, avatar and password are all set and non-empty, and returns the document unchanged. Every failure is a validation error, and a missing username is reported on `username` |
| Users.HashIfModified | src/models/user.models.js:58-62 | An unmodified password is left as it is; a modified one is replaced by its hash at cost 10 |
| Users.Save | src/models/user.models.js:9-62 | A save succeeds iff the document is complete and no other user holds its username or email (those are rejected by the unique index, username first). It stores the hooked document under its id and changes no other user |
| Users.SaveKeepsUnique | src/models/user.models.js:12-20 | Every save keeps usernames and emails unique across the collection |
| Users.IsPasswordCorrect | src/models/user.models.js:66-68 | The check is bcrypt's compare of the candidate against the stored hash. With no hash stored, bcrypt rejects with a plain `Error` |
| Users.PasswordRoundTrip | src/models/user.models.js:58-68 | After a save that set password p, checking q succeeds iff q and p agree on the first 72 bytes of their UTF-8 encodings |
| Users.TruncatedPasswordAccepted | src/models/user.models.js:58-68 | When the saved password is at least 72 bytes long, any text appended to it is accepted as well |
| Users.UnmodifiedPasswordKept | src/models/user.models.js:58-59 | A save that did not modify the password keeps the stored one |
| Users.AccessClaims | src/models/user.models.js:70-83 | The access payload has `_id`, `email` and `username` (when set), and never a `fullname` |
| Users.IntendedAccessClaims | src/models/user.models.js:70-76 | Reading `fullName`, the `fullname` claim is present iff the user has a full name. It carries that name, and the other claims are unchanged |
| Users.GenerateAccessToken | src/models/user.models.js:70-83 | The access token verifies with its secret, to a payload whose `_id` is the user's id and which has no `fullname` |
| Users.RefreshClaims | src/models/user.models.js:85-94 | The refresh payload is `_id` and nothing else |
| Users.GenerateRefreshToken | src/models/user.models.js:85-94 | The refresh token verifies with its secret, to a payload holding the user's id and at most the time claims |
| Users.TokensRoundTrip | src/models/user.models.js:70-94 | Verifying the access token gives back the id, email and username, no full name, and nothing else but the time claims `iat` and `exp`. Verifying the refresh token gives back the id and at most the time claims |
| Registration.RegisterUser | src/controllers/user.controller.js:19-32 | As written, registration always fails. It answers 400 iff some field is present but blank, and 409 otherwise |
| Registration.MissingFieldsConflict | src/controllers/user.controller.js:22-32 | A body with every field missing passes the blank check and gets 409 |
| Registration.ExistingUser | src/controllers/user.controller.js:26-28 | The awaited lookup finds no one iff no stored user has the body's normalised username or email |
| Registration.FirstPath | src/controllers/user.controller.js:34-35 | `req.files?.f[0]?.path` is undefined without `req.files` or with an empty list. It throws when the field is absent, and otherwise is the first path |
| Registration.Paths | src/controllers/user.controller.js:34-35 | Without `req.files` both paths are undefined; with it, a TypeError unless both fields are present, and then each path is its list's first, undefined for an empty list |
| Registration.Upload | src/utils/cloudinary.js:12-27 | The upload helper returns null for a falsy path, and otherwise what the service returns |
| Registration.NewUser | src/controllers/user.controller.js:48-55 | The created document has the canonical username and email, the trimmed full name, the avatar URL, the cover URL (or "" without a cover upload), the plaintext password and no refresh token |
| Registration.CreateUser | src/controllers/user.controller.js:48-63 | A missing username throws at `toLowerCase`; failures are never `ApiError`s. On success exactly one user is added with its setters applied and its password hashed, and the reply is that user without password or refresh token |
| Registration.UploadAndCreate | src/controllers/user.controller.js:34-63 | Path errors propagate. 400 "Avatar is required" iff there is no avatar path; 400 "Failed to upload avatar" iff its upload fails. Success means the user was created from the uploaded URL |
| Registration.RegisterUserAwaited | src/controllers/user.controller.js:8-65 | With the lookup awaited: 400 iff a field is blank; then 409 iff a user already has the normalised email or username. Otherwise upload and create; success stores exactly the new user, with the uploaded cover URL or "", and replies without secrets |
| Registration.AwaitedNeverDuplicate | src/controllers/user.controller.js:26-55 | Once the awaited lookup finds no match, the unique indexes never reject the new user |
| Registration.AwaitedKeepsUnique | src/controllers/user.controller.js:48-55 | Registration keeps usernames and emails unique |
| Registration.AwaitedPasswordChecks | src/controllers/user.controller.js:48-55 | After registration, `isPasswordCorrect` accepts exactly the passwords that agree with the registered one on bcrypt's 72-byte key |
| Registration.AwaitedTwiceConflicts | src/controllers/user.controller.js:26-32 | Sending the same registration again gets 409 |
| Registration.AwaitedRegistersFreshUser | src/controllers/user.controller.js:26-32 | A complete body with an uploaded avatar, on an empty collection: the awaited handler creates the user, and the written one answers 409 |

## Left out

- `publishAVideo`, `deleteVideo`: uploads and media-host deletions are network I/O. `deleteVideo` also never deletes the database record and names an undefined `delthumbnail`.
- `getAllVideos`: an empty stub that never answers.
- `getUserPlaylists`: answers only the 400 "User Id is required!" for a missing user id, and otherwise never answers.
- Login, logout, token refresh and the auth gate: the route table imports them, but they are not in the controller.
- Token expiry and secrets: these come from the environment and the clock. The JWT options are left out and secrets are parameters.
- The media host's `destroy` call in `updateVideoThumbnail`: a resolved result is only logged.
- `populate("videos")` in `getPlaylistById`: the reply holds video ids, not video documents.
- Timestamps, `watchHistory`, the `duration` field and `console.log` calls: no handler logic depends on them.
- Concurrency: interleaved find-then-create requests are not modelled; each handler runs atomically.
- Unicode: `toLowerCase` is modelled on ASCII letters only.
- ObjectId: the 12-character string form of `isValidObjectId` is left out, as is hexadecimal case normalisation.
- Registration.RegisterUserAwaited: the lookup applies the schema setters to the filter values, as Mongoose's query casting does; the written handler never reaches this step.
- Users.Validate: the contract pins only the `username` path; the paths of the later fields follow schema order in the body but are not stated.
- Users.Save: Mongoose reports every failing path in one ValidationError; the model names the first one in schema order. For a clash on both username and email, the model reports the username index.
- Users.BcryptSound: bcrypt's hash and compare are parameters; their agreement on the 72-byte key is assumed as a precondition, not proved. Hash collisions, and the C library's stop at a NUL byte, are not modelled.
- Users.JwtSound: signature checking is assumed as a precondition, not proved. Tokens are read before they expire; an expired token's rejection depends on the clock and is not modelled.
- A rejected `destroy` call in `updateVideoThumbnail` (src/controllers/video.controller.js:133): it would answer 500 before the upload; the model treats the call as succeeding.
- `page` and `limit` of `getVideoComments`: read but unused by the source.
- Express wiring (`app.js`, routes, CORS, cookies) and the tweet schema: no behaviour.

## Findings

| source | as written | input that shows it | evidently intended | confidence | as-written member | corrected member |
|---|---|---|---|---|---|---|
| src/controllers/subscription.controller.js:12 | `const {userId} = req.user._id` destructures a property the id does not have, so the subscriber key is undefined | any caller toggling any well-formed channel id: the edge is stored without a subscriber, and every caller shares it | `const userId = req.user._id` | high; not executed | Subscriptions.ToggleSubscriptionIgnoresCaller | Subscriptions.ToggleByCallerIsolation |
| src/controllers/user.controller.js:26-32 | `User.findOne(...)` is not awaited; the pending query is always truthy | a complete body with an avatar, on an empty collection, gets 409 | `await User.findOne(...)` | high; not executed | Registration.RegisterUser | Registration.AwaitedRegistersFreshUser |
| src/models/user.models.js:75 | `fullname: this.fullname` reads a path the schema does not have | any user with a full name: the access token has no `fullname` claim | `fullname: this.fullName` | high; not executed | Users.AccessClaims | Users.IntendedAccessClaims |
| src/controllers/video.controller.js:199 | `togglePublishStatus` assigns `true` | a published video stays published after the "toggle" | `video.isPublished = !video.isPublished` | medium; not executed | Videos.PublishNeverUnpublishes | Videos.FlipTwiceRestores |
| src/controllers/video.controller.js:124 | the second check re-tests `videoId` instead of `video` | an unknown well-formed id: `video.thumbnail` throws, 500 | `if(!video)` | high; not executed | Videos.ThumbnailCheckDiffers | Videos.UpdateVideoThumbnailChecked |
