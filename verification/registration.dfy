/** `registerUser`: the body check, the existing-user lookup, the multipart
    file paths, the two uploads, `User.create` and the projection sent back.
    The upload service is a function from a local path to the uploaded URL,
    `None` when the upload throws. */
module Registration {
  import opened Js
  import opened ApiErrors
  import opened Users

  /** The fields `registerUser` destructures from `req.body`. */
  datatype Body = Body(fullName: Field, email: Field, username: Field, password: Field)

  /** `req.files` as multer leaves it: per field, the list of stored paths;
      `None` for a field with no upload. */
  datatype FileFields = FileFields(avatar: Option<seq<string>>, coverImage: Option<seq<string>>)

  /** The user sent back: every field except `password` and `refreshToken`. */
  datatype PublicUser = PublicUser(id: Id, username: Field, email: Field, fullName: Field, avatar: Field, coverImage: Field)

  function Public(id: Id, u: User): PublicUser {
    PublicUser(id, u.username, u.email, u.fullName, u.avatar, u.coverImage)
  }

  /** A successful registration: the user collection afterwards and the reply. */
  datatype Registered = Registered(users: Users, created: PublicUser)

  /** `[fullName, email, username, password].some(f => f?.trim() === "")`. */
  predicate AnyBlank(body: Body) {
    PresentButBlank(body.fullName) || PresentButBlank(body.email) ||
    PresentButBlank(body.username) || PresentButBlank(body.password)
  }

  /** `registerUser` as written. `User.findOne(...)` is not awaited, so
      `existedUser` is a Query object, always truthy: every request that
      passes the blank-field check ends in 409 and nothing is created. */
  function RegisterUser(users: Users, body: Body): (r: Result<Registered>)
    ensures r.Err?
    ensures IsApiError(r, 400, "All fields are required") <==> AnyBlank(body)
    ensures IsApiError(r, 409, "User already exists") <==> !AnyBlank(body)
  {
    if AnyBlank(body) then Fail(400, "All fields are required")
    else Fail(409, "User already exists")
  }

  /** A body with every field missing passes the blank check and conflicts. */
  lemma MissingFieldsConflict(users: Users)
    ensures IsApiError(RegisterUser(users, Body(None, None, None, None)), 409, "User already exists")
  {
  }

  /** `req.files?.<field>[0]?.path`: no `req.files` gives `undefined`; a
      missing field throws when indexed; an empty list gives `undefined`. */
  function FirstPath(files: Option<FileFields>, list: Option<seq<string>>): (r: Result<Field>)
    requires files.None? ==> list.None?
    ensures files.None? ==> r == Ok(None)
    ensures files.Some? && list.None? ==> r.Err? && r.failure.TypeError?
    ensures files.Some? && list.Some? ==> r.Ok? && (r.value.Some? <==> list.value != [])
    ensures r.Ok? && r.value.Some? ==> r.value.value == list.value[0]
  {
    if files.None? then Ok(None)
    else if list.None? then Err(TypeError("Cannot read properties of undefined (reading '0')"))
    else if list.value == [] then Ok(None)
    else Ok(Some(list.value[0]))
  }

  /** `uploadOnCloudinary(path)`: `null` for a falsy path, otherwise what the
      service returns. */
  function Upload(cloud: string -> Option<string>, path: Field): (url: Option<string>)
    ensures !Truthy(path) ==> url.None?
    ensures Truthy(path) ==> url == cloud(path.value)
  {
    if !Truthy(path) then None else cloud(path.value)
  }

  /** `$or: [{email}, {username}]`, with the schema setters applied to the
      filter values as Mongoose does when it casts a query. It finds a user
      exactly when the unique indexes would reject the new document. */
  predicate ExistingUser(users: Users, body: Body)
    ensures !ExistingUser(users, body) ==>
              forall id :: !UsernameTaken(users, id, CanonicalField(body.username))
                           && !EmailTaken(users, id, CanonicalField(body.email))
    ensures ExistingUser(users, body) ==>
              forall id :: id !in users ==>
                UsernameTaken(users, id, CanonicalField(body.username)) || EmailTaken(users, id, CanonicalField(body.email))
  {
    exists k :: k in users &&
      (users[k].email == CanonicalField(body.email) || users[k].username == CanonicalField(body.username))
  }

  /** Lower-casing before the setters changes nothing they would not do anyway. */
  lemma CanonicalLower(s: string)
    ensures Canonical(ToLower(s)) == Canonical(s)
  {
    ToLowerIdempotent(s);
  }

  /** `coverImage?.url || ""`: the cover URL, or "" when there is none. */
  function CoverUrl(cover: Option<string>): string {
    if cover.Some? then cover.value else ""
  }

  /** The document `User.create` builds from the request. */
  function NewUser(body: Body, avatarUrl: string, coverUrl: Option<string>): (u: User)
    requires body.username.Some?
    ensures u.username == CanonicalField(body.username)
    ensures u.email == CanonicalField(body.email)
    ensures u.fullName == TrimField(body.fullName)
    ensures u.avatar == Some(avatarUrl)
    ensures coverUrl.Some? ==> u.coverImage == coverUrl
    ensures coverUrl.None? ==> u.coverImage == Some("")
    ensures u.password == body.password && u.refreshToken.None?
  {
    CanonicalLower(body.username.value);
    ApplySetters(User(
      Some(ToLower(body.username.value)),
      body.email,
      body.fullName,
      Some(avatarUrl),
      Some(if coverUrl.Some? && coverUrl.value != "" then coverUrl.value else ""),
      body.password,
      None))
  }

  /** The paths of the two uploads, in the order the handler reads them:
      both undefined without `req.files`; a TypeError when `req.files` lacks
      either field; otherwise each field's first path, if it has one. */
  function Paths(files: Option<FileFields>): (r: Result<(Field, Field)>)
    ensures files.None? ==> r == Ok((None, None))
    ensures r.Ok? <==> files.None? || (files.value.avatar.Some? && files.value.coverImage.Some?)
    ensures r.Err? ==> r.failure.TypeError?
    ensures r.Ok? && files.Some? ==>
              && (r.value.0.Some? <==> files.value.avatar.value != [])
              && (r.value.0.Some? ==> r.value.0.value == files.value.avatar.value[0])
              && (r.value.1.Some? <==> files.value.coverImage.value != [])
              && (r.value.1.Some? ==> r.value.1.value == files.value.coverImage.value[0])
  {
    var avatar :- FirstPath(files, if files.Some? then files.value.avatar else None);
    var cover :- FirstPath(files, if files.Some? then files.value.coverImage else None);
    Ok((avatar, cover))
  }

  /** What a registration leaves behind: exactly one new user, stored with its
      setters applied and its password hashed, every other user untouched, and
      a reply that is that user without password or refresh token. */
  ghost predicate Created(users: Users, b: Bcrypt, salt: string, body: Body, newId: Id, cover: string, out: Registered) {
    && body.username.Some? && body.email.Some? && body.fullName.Some? && body.password.Some?
    && out.users.Keys == users.Keys + {newId}
    && (forall k :: k in users ==> out.users[k] == users[k])
    && out.users[newId].username == Some(ToLower(Trim(body.username.value)))
    && out.users[newId].email == Some(ToLower(Trim(body.email.value)))
    && out.users[newId].fullName == Some(Trim(body.fullName.value))
    && out.users[newId].password == Some(b.hash(body.password.value, SaltRounds, salt))
    && out.users[newId].coverImage == Some(cover)
    && out.users[newId].refreshToken.None?
    && out.created == Public(newId, out.users[newId])
  }

  /** Creating the user: `User.create` with the lower-cased username and the cover
      URL or "", then the projection. `username.toLowerCase()` throws on a
      missing username before anything is written. */
  function CreateUser(users: Users, b: Bcrypt, salt: string, body: Body,
                      avatarUrl: string, coverUrl: Option<string>, newId: Id): (r: Result<Registered>)
    requires newId !in users
    ensures body.username.None? ==> r == Err(TypeError("username.toLowerCase"))
    ensures r.Err? ==> !r.failure.Thrown?
    ensures body.username.Some? ==>
              (r.Err? <==> Save(users, b, salt, newId, NewUser(body, avatarUrl, coverUrl), true).Err?)
    ensures r.Ok? ==> Created(users, b, salt, body, newId, CoverUrl(coverUrl), r.value)
                      && r.value.users[newId].avatar == Some(avatarUrl)
  {
    if body.username.None? then Err(TypeError("username.toLowerCase"))
    else
      var doc := NewUser(body, avatarUrl, coverUrl);
      var saved :- Save(users, b, salt, newId, doc, true);
      Ok(Registered(saved, Public(newId, saved[newId])))
  }

  /** Uploading, then creating: the file paths, the uploads and the creation. */
  function UploadAndCreate(users: Users, b: Bcrypt, salt: string, cloud: string -> Option<string>,
                           body: Body, files: Option<FileFields>, newId: Id): (r: Result<Registered>)
    requires newId !in users
    ensures Paths(files).Err? ==> r == Paths(files).PropagateFailure()
    ensures r.Err? && r.failure.Thrown? ==>
              IsApiError(r, 400, "Avatar is required") || IsApiError(r, 400, "Failed to upload avatar")
    ensures Paths(files).Ok? ==> (IsApiError(r, 400, "Avatar is required") <==> !Truthy(Paths(files).value.0))
    ensures Paths(files).Ok? && Truthy(Paths(files).value.0) ==>
              (IsApiError(r, 400, "Failed to upload avatar") <==> cloud(Paths(files).value.0.value).None?)
    ensures r.Ok? ==>
              && Paths(files).Ok? && Truthy(Paths(files).value.0)
              && cloud(Paths(files).value.0.value).Some?
              && Created(users, b, salt, body, newId, CoverUrl(Upload(cloud, Paths(files).value.1)), r.value)
              && r.value.users[newId].avatar == cloud(Paths(files).value.0.value)
  {
    var paths :- Paths(files);
    var (avatarPath, coverPath) := paths;
    if !Truthy(avatarPath) then Fail(400, "Avatar is required")
    else
      var avatar := Upload(cloud, avatarPath);
      var cover := Upload(cloud, coverPath);
      if avatar.None? then Fail(400, "Failed to upload avatar")
      else CreateUser(users, b, salt, body, avatar.value, cover, newId)
  }

  /** `registerUser` with the lookup awaited. The rest of the handler is kept
      as written: a request with files but no `coverImage` field still throws
      on `req.files?.coverImage[0]`. `newId` is the id the database assigns and
      `salt` the randomness bcrypt draws. */
  function RegisterUserAwaited(users: Users, b: Bcrypt, salt: string, cloud: string -> Option<string>,
                               body: Body, files: Option<FileFields>, newId: Id): (r: Result<Registered>)
    requires newId !in users
    ensures IsApiError(r, 400, "All fields are required") <==> AnyBlank(body)
    ensures !AnyBlank(body) ==> (IsApiError(r, 409, "User already exists") <==> ExistingUser(users, body))
    ensures !AnyBlank(body) && !ExistingUser(users, body) ==> r == UploadAndCreate(users, b, salt, cloud, body, files, newId)
    ensures r.Ok? ==>
              && !AnyBlank(body) && !ExistingUser(users, body) && Paths(files).Ok?
              && Created(users, b, salt, body, newId, CoverUrl(Upload(cloud, Paths(files).value.1)), r.value)
  {
    if AnyBlank(body) then Fail(400, "All fields are required")
    else if ExistingUser(users, body) then Fail(409, "User already exists")
    else UploadAndCreate(users, b, salt, cloud, body, files, newId)
  }

  /** Once the lookup finds no match, the unique indexes cannot reject the new
      user: the lookup and the indexes compare the same normalised values. */
  lemma AwaitedNeverDuplicate(users: Users, b: Bcrypt, salt: string, cloud: string -> Option<string>,
                              body: Body, files: Option<FileFields>, newId: Id)
    requires newId !in users
    ensures var r := RegisterUserAwaited(users, b, salt, cloud, body, files, newId);
            r != Err(DuplicateKey("username")) && r != Err(DuplicateKey("email"))
  {
    if !AnyBlank(body) && !ExistingUser(users, body) && Paths(files).Ok? && body.username.Some? {
      var (avatarPath, coverPath) := Paths(files).value;
      var avatar := Upload(cloud, avatarPath);
      var cover := Upload(cloud, coverPath);
      if Truthy(avatarPath) && avatar.Some? {
        var doc := NewUser(body, avatar.value, Upload(cloud, coverPath));
        CanonicalLower(body.username.value);
        assert doc.username == CanonicalField(body.username);
        assert doc.email == CanonicalField(body.email);
        assert !UsernameTaken(users, newId, doc.username);
        assert !EmailTaken(users, newId, doc.email);
      }
    }
  }

  /** Registration keeps usernames and emails unique. */
  lemma AwaitedKeepsUnique(users: Users, b: Bcrypt, salt: string, cloud: string -> Option<string>,
                           body: Body, files: Option<FileFields>, newId: Id)
    requires newId !in users
    requires UniqueKeys(users)
    ensures var r := RegisterUserAwaited(users, b, salt, cloud, body, files, newId);
            r.Ok? ==> UniqueKeys(r.value.users)
  {
    if RegisterUserAwaited(users, b, salt, cloud, body, files, newId).Ok? {
      var (avatarPath, coverPath) := Paths(files).value;
      var doc := NewUser(body, Upload(cloud, avatarPath).value, Upload(cloud, coverPath));
      SaveKeepsUnique(users, b, salt, newId, doc, true);
    }
  }

  /** The registered password passes `isPasswordCorrect`, and so does every
      candidate that agrees with it on its first 72 bytes, and nothing else. */
  lemma AwaitedPasswordChecks(users: Users, b: Bcrypt, salt: string, cloud: string -> Option<string>,
                              body: Body, files: Option<FileFields>, newId: Id, q: string)
    requires newId !in users
    requires BcryptSound(b)
    ensures var r := RegisterUserAwaited(users, b, salt, cloud, body, files, newId);
            r.Ok? ==> IsPasswordCorrect(b, r.value.users[newId], q) == Ok(BcryptKey(q) == BcryptKey(body.password.value))
  {
    if RegisterUserAwaited(users, b, salt, cloud, body, files, newId).Ok? {
      var h := b.hash(body.password.value, SaltRounds, salt);
      assert b.compare(q, h) <==> BcryptKey(q) == BcryptKey(body.password.value);
    }
  }

  /** Sending the same registration twice: the second one conflicts. */
  lemma AwaitedTwiceConflicts(users: Users, b: Bcrypt, salt: string, salt2: string, cloud: string -> Option<string>,
                              body: Body, files: Option<FileFields>, newId: Id, newId2: Id)
    requires newId !in users
    requires newId2 !in users && newId2 != newId
    ensures var r := RegisterUserAwaited(users, b, salt, cloud, body, files, newId);
            r.Ok? ==> IsApiError(RegisterUserAwaited(r.value.users, b, salt2, cloud, body, files, newId2),
                                 409, "User already exists")
  {
    var r := RegisterUserAwaited(users, b, salt, cloud, body, files, newId);
    if r.Ok? {
      var after := r.value.users;
      assert newId2 !in after;
      assert after[newId].email == CanonicalField(body.email);
      assert ExistingUser(after, body);
    }
  }

  /** A complete body with an uploaded avatar creates its user in an empty collection. */
  lemma CreateInEmpty(b: Bcrypt, salt: string, body: Body, url: string, newId: Id)
    requires body.fullName.Some? && body.email.Some? && body.username.Some? && body.password.Some?
    requires Trim(body.fullName.value) != "" && Trim(body.email.value) != ""
    requires Trim(body.username.value) != "" && Trim(body.password.value) != "" && url != ""
    ensures CreateUser(map[], b, salt, body, url, None, newId).Ok?
  {
    var doc := NewUser(body, url, None);
    assert |Canonical(body.username.value)| == |Trim(body.username.value)|;
    assert |Canonical(body.email.value)| == |Trim(body.email.value)|;
    assert body.password.value != "";
    assert Complete(doc);
    assert !UsernameTaken(map[], newId, doc.username) && !EmailTaken(map[], newId, doc.email);
  }

  /** With one avatar file, no cover file and a working upload, the handler
      goes straight to `User.create`. */
  lemma UploadAvatarOnly(users: Users, b: Bcrypt, salt: string, cloud: string -> Option<string>,
                         body: Body, path: string, newId: Id)
    requires newId !in users
    requires path != "" && cloud(path).Some?
    ensures UploadAndCreate(users, b, salt, cloud, body, Some(FileFields(Some([path]), Some([]))), newId) ==
            CreateUser(users, b, salt, body, cloud(path).value, None, newId)
  {
    assert Paths(Some(FileFields(Some([path]), Some([])))) == Ok((Some(path), None));
  }

  /** The request the unawaited lookup turns away: a fresh collection, every
      field filled in, an avatar that uploads. The awaited handler creates
      the user; the handler as written answers 409. */
  lemma AwaitedRegistersFreshUser(b: Bcrypt, salt: string, cloud: string -> Option<string>,
                                  body: Body, path: string, newId: Id)
    requires body.fullName.Some? && body.email.Some? && body.username.Some? && body.password.Some?
    requires Trim(body.fullName.value) != "" && Trim(body.email.value) != ""
    requires Trim(body.username.value) != "" && Trim(body.password.value) != ""
    requires path != "" && cloud(path).Some? && cloud(path).value != ""
    ensures RegisterUserAwaited(map[], b, salt, cloud, body, Some(FileFields(Some([path]), Some([]))), newId).Ok?
    ensures IsApiError(RegisterUser(map[], body), 409, "User already exists")
  {
    CreateInEmpty(b, salt, body, cloud(path).value, newId);
    UploadAvatarOnly(map[], b, salt, cloud, body, path, newId);
    assert !AnyBlank(body) && !ExistingUser(map[], body);
  }
}
