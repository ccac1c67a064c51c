/**
 * Password hashing, the bearer token and the register/login/current-user
 * decisions of the InfoHub service. The users table is a map from email to
 * row (the column is UNIQUE); SHA-256 is the parameter `hash`.
 */
module InfoHubAuth {
  import opened Wrappers
  import opened Utf8
  import Base64Url
  import Seqs

  /** The byte of ':' in UTF-8. */
  const COLON: byte := 0x3A

  /** A hex digest, as `hashlib.sha256(p.encode()).hexdigest()` gives it. */
  type Digest = string

  /** `verify_password`: the plain password hashes to the stored digest. */
  function VerifyPassword(hash: Str -> Digest, plain: Str, hashed: Digest): bool {
    hash(plain) == hashed
  }

  /**
   * `hash_password`: the hash function applied to the password. A password
   * is always accepted against its own hash.
   */
  function HashPassword(hash: Str -> Digest, password: Str): (d: Digest)
    ensures VerifyPassword(hash, password, d)
  {
    hash(password)
  }

  /**
   * `create_access_token`: base64url of the UTF-8 text "{email}:{name}";
   * the token base64url-decodes back to exactly that text.
   */
  function CreateAccessToken(email: Str, name: Str): (token: string)
    ensures Base64Url.Decode(token) == Some(email + [COLON] + name)
  {
    Base64Url.RoundTrip(email + [COLON] + name);
    Base64Url.Encode(email + [COLON] + name)
  }

  /** `text.split(":", 1)` when it gives two parts: the text before the first ':' and the text after it. */
  function SplitAtColon(text: Str): (r: Option<(Str, Str)>)
    ensures r.None? <==> COLON !in text
    ensures r.Some? ==> COLON !in r.value.0 && text == r.value.0 + [COLON] + r.value.1
  {
    match Seqs.IndexOf(text, COLON)
    case None => None
    case Some(i) =>
      SplitAtAscii(text, i);
      assert text == text[..i] + [COLON] + text[i + 1..];
      Some((text[..i], text[i + 1..]))
  }

  /**
   * `decode_access_token`: base64url-decode, UTF-8-decode, split at the first
   * ':'. Any failure (bad base64, bad UTF-8, no ':') is caught and gives
   * None, the model of `(None, None)`.
   */
  function DecodeAccessToken(token: string): (r: Option<(Str, Str)>)
    ensures r.None? <==>
      (match Base64Url.Decode(token)
       case None => true
       case Some(bytes) => !IsUtf8(bytes) || COLON !in bytes)
    ensures r.Some? ==> COLON !in r.value.0
    ensures r.Some? ==> Base64Url.Decode(token) == Some(r.value.0 + [COLON] + r.value.1)
  {
    match Base64Url.Decode(token)
    case None => None
    case Some(bytes) =>
      if !IsUtf8(bytes) then None else SplitAtColon(bytes)
  }

  /**
   * The token of `(e, n)` decodes to `(e, n)` exactly when `e` has no ':';
   * `n` may hold ':' since only the first one splits.
   */
  lemma TokenRoundTrip(email: Str, name: Str)
    ensures DecodeAccessToken(CreateAccessToken(email, name)) == Some((email, name)) <==> COLON !in email
  {
    var bytes := email + [COLON] + name;
    Base64Url.RoundTrip(bytes);
    AsciiIsUtf8(COLON);
    Concat(email, [COLON]);
    Concat(email + [COLON], name);
    if COLON !in email {
      Seqs.IndexOfAfter(email, COLON, name);
      assert bytes[..|email|] == email && bytes[|email| + 1..] == name;
    } else {
      var i := Seqs.IndexOf(bytes, COLON).value;
      assert bytes[..|email|] == email;
      assert i < |email|;
    }
  }

  datatype UserRow = UserRow(id: int, name: Str, email: Str, passwordHash: Digest)

  /** The `users` table: rows by their UNIQUE email, and the next AUTOINCREMENT id. */
  datatype UserTable = UserTable(rows: map<Str, UserRow>, nextId: int)

  /** `UserInDB`: what the service returns about a user (no hash). */
  datatype UserInDB = UserInDB(id: int, name: Str, email: Str)

  datatype UserCreate = UserCreate(name: Str, email: Str, password: Str)

  datatype Token = Token(accessToken: string, tokenType: string)

  function View(row: UserRow): UserInDB {
    UserInDB(row.id, row.name, row.email)
  }

  /**
   * What the table's constraints keep true: a row sits under its own email,
   * names are UNIQUE, ids are distinct and below the next one.
   */
  ghost predicate Consistent(t: UserTable) {
    && (forall e :: e in t.rows ==> t.rows[e].email == e && t.rows[e].id < t.nextId)
    && (forall e1, e2 :: e1 in t.rows && e2 in t.rows && e1 != e2 ==>
          t.rows[e1].name != t.rows[e2].name && t.rows[e1].id != t.rows[e2].id)
  }

  const CredentialsError := HttpError(UNAUTHORIZED, "Could not validate credentials")
  const LoginError := HttpError(UNAUTHORIZED, "Incorrect email or password")
  const AlreadyRegistered := HttpError(BAD_REQUEST, "Email already registered")
  /** The UNIQUE constraint on `name` raises IntegrityError, which nothing catches. */
  const NameTaken := HttpError(INTERNAL_ERROR, "Internal Server Error")

  /**
   * `get_current_user`: the token is accepted exactly when it decodes to a
   * non-empty email and a non-empty name and the email has a row; the name
   * in the token is not compared with the row.
   */
  function GetCurrentUser(t: UserTable, token: string): (r: Result<UserInDB, HttpError>)
    ensures r.Err? ==> r.error == CredentialsError
    ensures r.Ok? <==>
      (match DecodeAccessToken(token)
       case None => false
       case Some(d) => |d.0| > 0 && |d.1| > 0 && d.0 in t.rows)
    ensures r.Ok? ==> r.value == View(t.rows[DecodeAccessToken(token).value.0])
  {
    match DecodeAccessToken(token)
    case None => Err(CredentialsError)
    case Some((email, name)) =>
      if |email| == 0 || |name| == 0 then Err(CredentialsError)
      else if email !in t.rows then Err(CredentialsError)
      else Ok(View(t.rows[email]))
  }

  /**
   * `register_user`: a known email is refused with 400 and a taken name
   * fails on the UNIQUE constraint; either way the table is unchanged.
   * Otherwise exactly one row is added, with the next id and the hash of
   * the password, and its public view is returned.
   */
  function RegisterUser(t: UserTable, hash: Str -> Digest, user: UserCreate): (r: (UserTable, Result<UserInDB, HttpError>))
    ensures user.email in t.rows ==> r == (t, Err(AlreadyRegistered))
    ensures r.1.Err? ==> r.0 == t
    ensures r.1.Ok? <==> user.email !in t.rows && (forall e :: e in t.rows ==> t.rows[e].name != user.name)
    ensures r.1.Ok? ==>
      var row := UserRow(t.nextId, user.name, user.email, HashPassword(hash, user.password));
      && r.0.rows == t.rows[user.email := row]
      && r.0.nextId == t.nextId + 1
      && r.1.value == View(row)
    ensures Consistent(t) ==> Consistent(r.0)
  {
    if user.email in t.rows then (t, Err(AlreadyRegistered))
    else if exists e :: e in t.rows && t.rows[e].name == user.name then (t, Err(NameTaken))
    else
      var row := UserRow(t.nextId, user.name, user.email, HashPassword(hash, user.password));
      (UserTable(t.rows[user.email := row], t.nextId + 1), Ok(View(row)))
  }

  /**
   * `login`: an unknown email or a wrong password is refused with 401;
   * otherwise a bearer token built from the stored email and name.
   */
  function Login(t: UserTable, hash: Str -> Digest, username: Str, password: Str): (r: Result<Token, HttpError>)
    ensures r.Err? ==> r.error == LoginError
    ensures r.Ok? <==> username in t.rows && VerifyPassword(hash, password, t.rows[username].passwordHash)
    ensures r.Ok? ==> r.value == Token(CreateAccessToken(t.rows[username].email, t.rows[username].name), "bearer")
  {
    if username !in t.rows || !VerifyPassword(hash, password, t.rows[username].passwordHash) then Err(LoginError)
    else
      var row := t.rows[username];
      Ok(Token(CreateAccessToken(row.email, row.name), "bearer"))
  }

  /**
   * A token from a successful login authenticates its user, provided the
   * stored email is non-empty and has no ':' and the stored name is non-empty.
   */
  lemma LoginThenAuthenticate(t: UserTable, hash: Str -> Digest, username: Str, password: Str)
    requires Consistent(t)
    requires Login(t, hash, username, password).Ok?
    requires COLON !in username && |username| > 0 && |t.rows[username].name| > 0
    ensures GetCurrentUser(t, Login(t, hash, username, password).value.accessToken) == Ok(View(t.rows[username]))
  {
    var row := t.rows[username];
    TokenRoundTrip(row.email, row.name);
  }

  /**
   * A user registered with an empty name (nothing forbids one) and an email
   * without ':' can log in, but every token they get is refused with 401.
   */
  lemma EmptyNameIsLockedOut(t: UserTable, hash: Str -> Digest, username: Str, password: Str)
    requires Consistent(t)
    requires Login(t, hash, username, password).Ok?
    requires COLON !in username && |t.rows[username].name| == 0
    ensures GetCurrentUser(t, Login(t, hash, username, password).value.accessToken) == Err(CredentialsError)
  {
    var row := t.rows[username];
    TokenRoundTrip(row.email, row.name);
  }

  /** After a registration succeeds, logging in with the same password succeeds. */
  lemma RegisterThenLogin(t: UserTable, hash: Str -> Digest, user: UserCreate)
    requires RegisterUser(t, hash, user).1.Ok?
    ensures Login(RegisterUser(t, hash, user).0, hash, user.email, user.password)
         == Ok(Token(CreateAccessToken(user.email, user.name), "bearer"))
  {
  }
}
