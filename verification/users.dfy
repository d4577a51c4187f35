/** The User model: its string setters, required-field validation, unique
    indexes, the pre-save password hook, the password check and the claims
    the two tokens carry. bcrypt and the JWT library are records of functions
    whose documented behaviour is stated as a predicate; secrets, expiry times
    and salts are parameters. */
module Users {
  import opened Js
  import opened ApiErrors

  /** A User document. Every field may be unset; validation decides which
      must be there. Watch history and timestamps play no part here. */
  datatype User = User(
    username: Field,
    email: Field,
    fullName: Field,
    avatar: Field,
    coverImage: Field,
    password: Field,
    refreshToken: Field)

  type Users = map<Id, User>

  /** The `trim` + `lowercase` setters of `username` and `email`. Mongoose may
      apply the two in either order; `TrimLowerCommute` shows it does not matter. */
  function Canonical(s: string): (r: string)
    ensures r == ToLower(Trim(s))
  {
    TrimLowerCommute(s);
    Trim(ToLower(s))
  }

  /** A `username` or `email` value after its setters. */
  function CanonicalField(f: Field): Field {
    if f.Some? then Some(Canonical(f.value)) else None
  }

  /** A `fullName` value after its setter. */
  function TrimField(f: Field): Field {
    if f.Some? then Some(Trim(f.value)) else None
  }

  /** The setters every assignment runs: `username` and `email` trimmed and
      lower-cased, `fullName` trimmed only, the rest stored as given. */
  function ApplySetters(u: User): (r: User)
    ensures r.username.Some? <==> u.username.Some?
    ensures r.email.Some? <==> u.email.Some?
    ensures r.fullName.Some? <==> u.fullName.Some?
    ensures r.username.Some? ==> r.username.value == ToLower(Trim(u.username.value))
    ensures r.email.Some? ==> r.email.value == ToLower(Trim(u.email.value))
    ensures r.fullName.Some? ==> r.fullName.value == Trim(u.fullName.value)
    ensures r.avatar == u.avatar && r.coverImage == u.coverImage
    ensures r.password == u.password && r.refreshToken == u.refreshToken
  {
    u.(username := CanonicalField(u.username),
       email := CanonicalField(u.email),
       fullName := TrimField(u.fullName))
  }

  /** A value the setters produced is a fixed point of them. */
  lemma CanonicalIdempotent(s: string)
    ensures Canonical(Canonical(s)) == Canonical(s)
  {
    var t := Trim(ToLower(s));
    TrimLowerCommute(s);
    assert t == ToLower(Trim(s));
    ToLowerIdempotent(Trim(s));
    assert ToLower(t) == t;
    TrimIdempotent(ToLower(s));
  }

  /** Running the setters a second time changes nothing, and what they leave
      has no upper-case ASCII letter in `username` or `email`. */
  lemma ApplySettersIdempotent(u: User)
    ensures ApplySetters(ApplySetters(u)) == ApplySetters(u)
    ensures var r := ApplySetters(u);
            r.username.Some? ==> forall k :: 0 <= k < |r.username.value| ==> !('A' <= r.username.value[k] <= 'Z')
  {
    if u.username.Some? {
      CanonicalIdempotent(u.username.value);
      TrimLowerCommute(u.username.value);
      ToLowerIdempotent(Trim(u.username.value));
    }
    if u.email.Some? {
      CanonicalIdempotent(u.email.value);
    }
    if u.fullName.Some? {
      TrimIdempotent(u.fullName.value);
    }
  }

  /** A `required: true` string: set and non-empty. */
  predicate Present(f: Field) {
    f.Some? && f.value != ""
  }

  /** Every required field is there. */
  predicate Complete(u: User) {
    Present(u.username) && Present(u.email) && Present(u.fullName) && Present(u.avatar) && Present(u.password)
  }

  /** Schema validation: the first required path, in schema order, that is
      missing or empty names the error. */
  function Validate(u: User): (r: Result<User>)
    ensures r.Ok? <==> Complete(u)
    ensures r.Ok? ==> r.value == u
    ensures r.Err? ==> r.failure.ValidationError?
    ensures !Present(u.username) ==> r == Err(ValidationError("username"))
  {
    if !Present(u.username) then Err(ValidationError("username"))
    else if !Present(u.email) then Err(ValidationError("email"))
    else if !Present(u.fullName) then Err(ValidationError("fullName"))
    else if !Present(u.avatar) then Err(ValidationError("avatar"))
    else if !Present(u.password) then Err(ValidationError("password"))
    else Ok(u)
  }

  const SaltRounds: nat := 10

  /** The bcrypt functions: `hash(plain, rounds, salt)`, the salt standing for
      the randomness bcrypt draws, and `compare(plain, hashed)`. */
  datatype Bcrypt = Bcrypt(hash: (string, nat, string) -> string, compare: (string, string) -> bool)

  /** bcrypt reads at most this many bytes of a password. */
  const BcryptKeyBytes: nat := 72

  /** The part of a password bcrypt looks at: its first 72 UTF-8 bytes. */
  function BcryptKey(p: string): seq<Byte> {
    var bs := Utf8(p);
    if |bs| <= BcryptKeyBytes then bs else bs[..BcryptKeyBytes]
  }

  /** bcrypt's documented behaviour: a hash accepts exactly the candidates
      whose first 72 bytes agree with those of the password it was made from. */
  ghost predicate BcryptSound(b: Bcrypt) {
    forall p, q, salt :: b.compare(q, b.hash(p, SaltRounds, salt)) <==> BcryptKey(q) == BcryptKey(p)
  }

  /** The `pre("save")` hook: the password is hashed only when it was modified. */
  function HashIfModified(b: Bcrypt, salt: string, u: User, passwordModified: bool): (r: User)
    requires Present(u.password)
    ensures !passwordModified ==> r == u
    ensures passwordModified ==> r == u.(password := Some(b.hash(u.password.value, SaltRounds, salt)))
  {
    if !passwordModified then u
    else u.(password := Some(b.hash(u.password.value, SaltRounds, salt)))
  }

  /** Another user already holds this username. */
  predicate UsernameTaken(users: Users, id: Id, value: Field) {
    exists k :: k in users && k != id && users[k].username == value
  }

  /** Another user already holds this email. */
  predicate EmailTaken(users: Users, id: Id, value: Field) {
    exists k :: k in users && k != id && users[k].email == value
  }

  /** `doc.save()` for document `id`: validation, then the hook, then the
      unique indexes on `username` and `email`. */
  function Save(users: Users, b: Bcrypt, salt: string, id: Id, u: User, passwordModified: bool): (r: Result<Users>)
    ensures r.Ok? <==> Complete(u) && !UsernameTaken(users, id, u.username) && !EmailTaken(users, id, u.email)
    ensures r.Err? ==> r.failure.ValidationError? || r.failure.DuplicateKey?
    ensures Complete(u) && UsernameTaken(users, id, u.username) ==> r == Err(DuplicateKey("username"))
    ensures Complete(u) && !UsernameTaken(users, id, u.username) && EmailTaken(users, id, u.email) ==>
              r == Err(DuplicateKey("email"))
    ensures r.Ok? ==>
              && r.value.Keys == users.Keys + {id}
              && r.value[id] == HashIfModified(b, salt, u, passwordModified)
              && (forall k :: k in users && k != id ==> r.value[k] == users[k])
  {
    var valid :- Validate(u);
    var hashed := HashIfModified(b, salt, valid, passwordModified);
    if UsernameTaken(users, id, hashed.username) then Err(DuplicateKey("username"))
    else if EmailTaken(users, id, hashed.email) then Err(DuplicateKey("email"))
    else Ok(users[id := hashed])
  }

  /** No two users share a username or an email. */
  ghost predicate UniqueKeys(users: Users) {
    forall k1, k2 :: k1 in users && k2 in users && k1 != k2 ==>
      users[k1].username != users[k2].username && users[k1].email != users[k2].email
  }

  /** The unique indexes keep usernames and emails unique across every save. */
  lemma SaveKeepsUnique(users: Users, b: Bcrypt, salt: string, id: Id, u: User, passwordModified: bool)
    requires UniqueKeys(users)
    requires Save(users, b, salt, id, u, passwordModified).Ok?
    ensures UniqueKeys(Save(users, b, salt, id, u, passwordModified).value)
  {
    var out := Save(users, b, salt, id, u, passwordModified).value;
    forall k1, k2 | k1 in out && k2 in out && k1 != k2
      ensures out[k1].username != out[k2].username && out[k1].email != out[k2].email
    {
      if k1 == id {
        assert out[k2] == users[k2];
        assert users[k2].username != u.username && users[k2].email != u.email;
      } else if k2 == id {
        assert out[k1] == users[k1];
        assert users[k1].username != u.username && users[k1].email != u.email;
      } else {
        assert out[k1] == users[k1] && out[k2] == users[k2];
      }
    }
  }

  /** `user.isPasswordCorrect(candidate)`; bcrypt rejects a missing hash with
      a plain `Error`. */
  function IsPasswordCorrect(b: Bcrypt, u: User, candidate: string): (r: Result<bool>)
    ensures r.Err? <==> u.password.None?
    ensures r.Err? ==> r.failure.LibraryError?
    ensures r.Ok? ==> r.value == b.compare(candidate, u.password.value)
  {
    match u.password
    case None => Err(LibraryError("data and hash arguments required"))
    case Some(h) => Ok(b.compare(candidate, h))
  }

  /** After a save that modified the password, the stored hash accepts exactly
      the candidates that agree with the plaintext on its first 72 bytes. */
  lemma PasswordRoundTrip(users: Users, b: Bcrypt, salt: string, id: Id, u: User, q: string)
    requires BcryptSound(b)
    requires Save(users, b, salt, id, u, true).Ok?
    ensures IsPasswordCorrect(b, Save(users, b, salt, id, u, true).value[id], q)
            == Ok(BcryptKey(q) == BcryptKey(u.password.value))
  {
    var h := b.hash(u.password.value, SaltRounds, salt);
    assert b.compare(q, h) <==> BcryptKey(q) == BcryptKey(u.password.value);
  }

  /** A password of 72 bytes or more is also accepted with anything appended. */
  lemma TruncatedPasswordAccepted(users: Users, b: Bcrypt, salt: string, id: Id, u: User, extra: string)
    requires BcryptSound(b)
    requires Save(users, b, salt, id, u, true).Ok?
    requires |Utf8(u.password.value)| >= BcryptKeyBytes
    ensures IsPasswordCorrect(b, Save(users, b, salt, id, u, true).value[id], u.password.value + extra) == Ok(true)
  {
    var p := u.password.value;
    Utf8Append(p, extra);
    assert (Utf8(p) + Utf8(extra))[..BcryptKeyBytes] == Utf8(p)[..BcryptKeyBytes];
    PasswordRoundTrip(users, b, salt, id, u, p + extra);
  }

  /** A save that did not touch the password keeps the stored hash as it was,
      so the old plaintext is still accepted. */
  lemma UnmodifiedPasswordKept(users: Users, b: Bcrypt, salt: string, id: Id, u: User)
    requires Save(users, b, salt, id, u, false).Ok?
    ensures Save(users, b, salt, id, u, false).value[id].password == u.password
  {
  }

  /** A property read on the document: schema paths by name, `undefined` for
      any other name (the lookup is case-sensitive). */
  function Get(id: Id, u: User, name: string): Field {
    if name == "_id" then Some(id)
    else if name == "username" then u.username
    else if name == "email" then u.email
    else if name == "fullName" then u.fullName
    else if name == "avatar" then u.avatar
    else if name == "coverImage" then u.coverImage
    else if name == "password" then u.password
    else if name == "refreshToken" then u.refreshToken
    else None
  }

  type Claims = map<string, string>

  /** One property of the payload object; `JSON.stringify` drops an undefined one. */
  function Put(c: Claims, key: string, value: Field): (r: Claims)
    ensures value.Some? ==> r == c[key := value.value]
    ensures value.None? ==> r == c
  {
    match value
    case None => c
    case Some(v) => c[key := v]
  }

  /** The access-token payload as written: the `fullname` claim reads
      `this.fullname`, which is not a schema path. */
  function AccessClaims(id: Id, u: User): (c: Claims)
    ensures "_id" in c && c["_id"] == id
    ensures "email" in c <==> u.email.Some?
    ensures "username" in c <==> u.username.Some?
    ensures "fullname" !in c
    ensures c.Keys <= {"_id", "email", "username"}
  {
    var c0 := Put(map[], "_id", Some(id));
    var c1 := Put(c0, "email", Get(id, u, "email"));
    var c2 := Put(c1, "username", Get(id, u, "username"));
    Put(c2, "fullname", Get(id, u, "fullname"))
  }

  /** The access-token payload the code evidently intends: `fullname` carries
      the user's `fullName`. */
  function IntendedAccessClaims(id: Id, u: User): (c: Claims)
    ensures "fullname" in c <==> u.fullName.Some?
    ensures "fullname" in c ==> c["fullname"] == u.fullName.value
    ensures forall k :: k != "fullname" ==> (k in c <==> k in AccessClaims(id, u))
    ensures forall k :: k in c && k != "fullname" ==> c[k] == AccessClaims(id, u)[k]
  {
    Put(AccessClaims(id, u), "fullname", Get(id, u, "fullName"))
  }

  /** The refresh-token payload: the id and nothing else. */
  function RefreshClaims(id: Id): (c: Claims)
    ensures c.Keys == {"_id"} && c["_id"] == id
  {
    map["_id" := id]
  }

  /** `jwt.sign(payload, secret, {expiresIn})` and `jwt.verify(token, secret)`,
      the latter read at a time before the token expires. */
  datatype Jwt = Jwt(sign: (Claims, string) -> string, verify: (string, string) -> Option<Claims>)

  /** The claims `sign` adds: the issue time and, since `expiresIn` is set,
      the expiry time. */
  const TimeClaims: set<string> := {"iat", "exp"}

  /** jsonwebtoken's behaviour for a payload without its own time claims: the
      token verifies, under the secret that signed it, to that payload plus
      at most the two time claims. */
  ghost predicate JwtSound(j: Jwt) {
    forall c: Claims, secret :: "iat" !in c && "exp" !in c ==>
      && j.verify(j.sign(c, secret), secret).Some?
      && (forall k :: k in c ==>
            k in j.verify(j.sign(c, secret), secret).value && j.verify(j.sign(c, secret), secret).value[k] == c[k])
      && j.verify(j.sign(c, secret), secret).value.Keys <= c.Keys + TimeClaims
  }

  /** `user.generateAccessToken()`: the verified token names the user and
      never carries a full name. */
  function GenerateAccessToken(j: Jwt, secret: string, id: Id, u: User): (token: string)
    ensures JwtSound(j) ==>
              && j.verify(token, secret).Some?
              && "_id" in j.verify(token, secret).value && j.verify(token, secret).value["_id"] == id
              && "fullname" !in j.verify(token, secret).value
  {
    var c := AccessClaims(id, u);
    assert "iat" !in c && "exp" !in c;
    j.sign(c, secret)
  }

  /** `user.generateRefreshToken()`: the verified token names the user and
      carries nothing but the time claims besides. */
  function GenerateRefreshToken(j: Jwt, secret: string, id: Id): (token: string)
    ensures JwtSound(j) ==>
              && j.verify(token, secret).Some?
              && "_id" in j.verify(token, secret).value && j.verify(token, secret).value["_id"] == id
              && j.verify(token, secret).value.Keys <= {"_id"} + TimeClaims
  {
    var c := RefreshClaims(id);
    assert "iat" !in c && "exp" !in c;
    j.sign(c, secret)
  }

  /** Whoever verifies the tokens gets back the id and the access token's
      email and username, and never a full name; besides those, only the
      time claims. */
  lemma TokensRoundTrip(j: Jwt, access: string, refresh: string, id: Id, u: User)
    requires JwtSound(j)
    requires Present(u.email) && Present(u.username) && Present(u.fullName)
    ensures var c := j.verify(GenerateAccessToken(j, access, id, u), access);
            && c.Some?
            && c.value["_id"] == id && c.value["email"] == u.email.value && c.value["username"] == u.username.value
            && "fullname" !in c.value
            && c.value.Keys <= {"_id", "email", "username"} + TimeClaims
    ensures var c := j.verify(GenerateRefreshToken(j, refresh, id), refresh);
            c.Some? && c.value["_id"] == id && c.value.Keys <= {"_id"} + TimeClaims
  {
    var a := AccessClaims(id, u);
    assert "iat" !in a && "exp" !in a;
    assert "email" in a && "username" in a;
    var r := RefreshClaims(id);
    assert "iat" !in r && "exp" !in r;
  }
}
