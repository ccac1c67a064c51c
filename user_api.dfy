/**
 * The users service: a bearer token that is the base64url of
 * "{email}-{name}", decoded by keeping the bytes before the first '-', and
 * the accept/reject decisions of login, current-user, registration and
 * listing. The `users` table is a sequence of rows in insertion (rowid)
 * order; the schema puts no UNIQUE constraint on email.
 */
module UserApi {
  import opened Wrappers
  import opened Utf8
  import Base64Url
  import Seqs

  /** The byte of '-' in UTF-8. */
  const DASH: byte := 0x2D

  datatype UserRow = UserRow(id: int, name: Str, email: Str, password: Str, isActive: bool)

  /** Rows in rowid order and the next AUTOINCREMENT id. */
  datatype UserTable = UserTable(rows: seq<UserRow>, nextId: int)

  datatype UserCreate = UserCreate(name: Str, email: Str, password: Str)

  /** `UserDisplay`: the row as the service returns it. */
  datatype UserDisplay = UserDisplay(id: int, name: Str, email: Str, password: Str, isActive: bool)

  datatype AccessToken = AccessToken(tokenType: string, accessToken: string)

  function Display(row: UserRow): UserDisplay {
    UserDisplay(row.id, row.name, row.email, row.password, row.isActive)
  }

  /**
   * The token `login` issues: base64url of the UTF-8 text "{email}-{name}";
   * it base64url-decodes back to exactly that text.
   */
  function TokenFor(email: Str, name: Str): (token: string)
    ensures Base64Url.Decode(token) == Some(email + [DASH] + name)
  {
    Base64Url.RoundTrip(email + [DASH] + name);
    Base64Url.Encode(email + [DASH] + name)
  }

  /** `bytes.split(b"-")[0]`: everything before the first '-', or all of it. */
  function BeforeDash(bytes: seq<byte>): (p: seq<byte>)
    ensures DASH !in p
    ensures |p| <= |bytes| && p == bytes[..|p|]
    ensures |p| < |bytes| ==> bytes[|p|] == DASH
    ensures p == bytes <==> DASH !in bytes
    ensures IsUtf8(bytes) ==> IsUtf8(p)
  {
    match Seqs.IndexOf(bytes, DASH)
    case None => bytes
    case Some(i) =>
      PrefixBeforeAscii(bytes, i);
      bytes[..i]
  }

  /**
   * `decode_access_token`: the email is the UTF-8 text before the first '-'
   * of the decoded token. Bad base64 (binascii.Error is a ValueError) and a
   * prefix that is not UTF-8 (UnicodeDecodeError) give None. A decoded email
   * never holds '-'.
   */
  function DecodeAccessToken(token: string): (r: Option<Str>)
    ensures r.None? <==>
      (match Base64Url.Decode(token)
       case None => true
       case Some(bytes) => !IsUtf8(BeforeDash(bytes)))
    ensures r.Some? ==> DASH !in r.value
    ensures r.Some? ==> r.value == BeforeDash(Base64Url.Decode(token).value)
  {
    match Base64Url.Decode(token)
    case None => None
    case Some(bytes) =>
      var email := BeforeDash(bytes);
      if IsUtf8(email) then Some(email) else None
  }

  /**
   * The token of `(e, n)` decodes to the part of `e` before its first '-':
   * to `e` itself exactly when `e` has no '-'.
   */
  lemma TokenRoundTrip(email: Str, name: Str)
    ensures DecodeAccessToken(TokenFor(email, name)) == Some(BeforeDash(email))
    ensures DecodeAccessToken(TokenFor(email, name)) == Some(email) <==> DASH !in email
  {
    var bytes := email + [DASH] + name;
    Base64Url.RoundTrip(bytes);
    if DASH !in email {
      Seqs.IndexOfAfter(email, DASH, name);
      assert BeforeDash(bytes) == email by { assert bytes[..|email|] == email; }
    } else {
      var i := Seqs.IndexOf(email, DASH).value;
      assert bytes[..|email|] == email;
      assert BeforeDash(bytes) == BeforeDash(email);
    }
  }

  /** `SELECT * FROM users WHERE email = ?` then `fetchone()`: the first matching row. */
  function FindByEmail(rows: seq<UserRow>, email: Str): (r: Option<UserRow>)
    ensures r.None? <==> forall k :: 0 <= k < |rows| ==> rows[k].email != email
    ensures r.Some? ==> exists k :: 0 <= k < |rows| && rows[k] == r.value && r.value.email == email
                                    && forall j :: 0 <= j < k ==> rows[j].email != email
  {
    if |rows| == 0 then None
    else if rows[0].email == email then Some(rows[0])
    else
      var r := FindByEmail(rows[1..], email);
      assert forall k :: 1 <= k < |rows| ==> rows[k] == rows[1..][k - 1];
      if r.Some? then
        var k :| 0 <= k < |rows[1..]| && rows[1..][k] == r.value && r.value.email == email
                 && forall j :: 0 <= j < k ==> rows[1..][j].email != email;
        assert rows[k + 1] == r.value;
        r
      else r
  }

  const InvalidCredentials := HttpError(UNAUTHORIZED, "Invalid authentication credentials")
  const NotActive := HttpError(BAD_REQUEST, "User is not active.")
  const NoSuchUser := HttpError(NOT_FOUND, "User does not exist.")
  const WrongPassword := HttpError(BAD_REQUEST, "Incorrect password.")
  const AlreadyExists := HttpError(BAD_REQUEST, "User already exists.")
  /**
   * FastAPI's answer when the `gt=0` bound on `limit` fails. Only the status
   * and the message are kept; the body's list of validation errors (type
   * `greater_than`, location `query`/`limit`) is not modelled.
   */
  const LimitNotPositive := HttpError(UNPROCESSABLE, "Input should be greater than 0")

  /**
   * `get_current_user`: 401 when the token does not decode or no row has
   * the decoded email (a None email matches no row), 400 when that row is
   * inactive, otherwise the row.
   */
  function GetCurrentUser(t: UserTable, token: string): (r: Result<UserDisplay, HttpError>)
    ensures r == Err(InvalidCredentials) <==>
      (match DecodeAccessToken(token)
       case None => true
       case Some(email) => FindByEmail(t.rows, email).None?)
    ensures r == Err(NotActive) <==>
      (match DecodeAccessToken(token)
       case None => false
       case Some(email) => FindByEmail(t.rows, email).Some? && !FindByEmail(t.rows, email).value.isActive)
    ensures r.Ok? <==>
      (match DecodeAccessToken(token)
       case None => false
       case Some(email) => FindByEmail(t.rows, email).Some? && FindByEmail(t.rows, email).value.isActive)
    ensures r.Ok? ==> r.value.isActive && r.value == Display(FindByEmail(t.rows, DecodeAccessToken(token).value).value)
  {
    match DecodeAccessToken(token)
    case None => Err(InvalidCredentials)
    case Some(email) =>
      match FindByEmail(t.rows, email)
      case None => Err(InvalidCredentials)
      case Some(row) => if !row.isActive then Err(NotActive) else Ok(Display(row))
  }

  /**
   * `login`: 404 for an unknown email, 400 for a wrong password (compared as
   * plain text), otherwise a bearer token built from the stored email and name.
   */
  function Login(t: UserTable, username: Str, password: Str): (r: Result<AccessToken, HttpError>)
    ensures r == Err(NoSuchUser) <==> FindByEmail(t.rows, username).None?
    ensures r == Err(WrongPassword) <==>
      FindByEmail(t.rows, username).Some? && FindByEmail(t.rows, username).value.password != password
    ensures r.Ok? <==>
      FindByEmail(t.rows, username).Some? && FindByEmail(t.rows, username).value.password == password
    ensures r.Ok? ==>
      var row := FindByEmail(t.rows, username).value;
      row.password == password && r.value == AccessToken("bearer", TokenFor(row.email, row.name))
  {
    match FindByEmail(t.rows, username)
    case None => Err(NoSuchUser)
    case Some(row) =>
      if row.password != password then Err(WrongPassword)
      else Ok(AccessToken("bearer", TokenFor(row.email, row.name)))
  }

  /**
   * `register_user`: a known email is refused with 400 and nothing is
   * inserted; otherwise one active row is appended with the next id, and it
   * is returned.
   */
  function RegisterUser(t: UserTable, user: UserCreate): (r: (UserTable, Result<UserDisplay, HttpError>))
    ensures r.1 == Err(AlreadyExists) <==> FindByEmail(t.rows, user.email).Some?
    ensures r.1.Ok? <==> FindByEmail(t.rows, user.email).None?
    ensures r.1.Err? ==> r.0 == t
    ensures r.1.Ok? ==>
      var row := UserRow(t.nextId, user.name, user.email, user.password, true);
      r.0 == UserTable(t.rows + [row], t.nextId + 1) && r.1.value == Display(row) && r.1.value.isActive
  {
    if FindByEmail(t.rows, user.email).Some? then (t, Err(AlreadyExists))
    else
      var row := UserRow(t.nextId, user.name, user.email, user.password, true);
      (UserTable(t.rows + [row], t.nextId + 1), Ok(Display(row)))
  }

  /**
   * `get_users`: a limit that is not positive is refused; a positive limit
   * is bound into `LIMIT ?`, and one beyond a 64-bit SQLite INTEGER makes
   * the driver raise OverflowError, which nothing catches (500); otherwise
   * at most `limit` rows, in table order.
   */
  function GetUsers(t: UserTable, limit: int): (r: Result<seq<UserDisplay>, HttpError>)
    ensures r.Err? <==> limit <= 0 || limit > SQLITE_INTEGER_MAX
    ensures r == Err(LimitNotPositive) <==> limit <= 0
    ensures r == Err(ServerError) <==> limit > SQLITE_INTEGER_MAX
    ensures r.Ok? ==> |r.value| <= limit && |r.value| == if limit < |t.rows| then limit else |t.rows|
    ensures r.Ok? ==> forall k :: 0 <= k < |r.value| ==> r.value[k] == Display(t.rows[k])
  {
    if limit <= 0 then Err(LimitNotPositive)
    else if !FitsInteger(limit) then Err(ServerError)
    else
      var n := if limit < |t.rows| then limit else |t.rows|;
      Ok(seq(n, k requires 0 <= k < n => Display(t.rows[k])))
  }

  /** A token from a successful login authenticates that user when the email has no '-' and the user is active. */
  lemma LoginThenCurrentUser(t: UserTable, username: Str, password: Str)
    requires Login(t, username, password).Ok?
    requires DASH !in username && FindByEmail(t.rows, username).value.isActive
    ensures GetCurrentUser(t, Login(t, username, password).value.accessToken)
         == Ok(Display(FindByEmail(t.rows, username).value))
  {
    var row := FindByEmail(t.rows, username).value;
    TokenRoundTrip(row.email, row.name);
  }

  /**
   * A user whose email holds '-' is looked up under the part before it: when
   * no row has that shorter email, every token they get from login is refused.
   */
  lemma DashedEmailLockedOut(t: UserTable, username: Str, password: Str)
    requires Login(t, username, password).Ok?
    requires DASH in username && FindByEmail(t.rows, BeforeDash(username)).None?
    ensures GetCurrentUser(t, Login(t, username, password).value.accessToken) == Err(InvalidCredentials)
  {
    var row := FindByEmail(t.rows, username).value;
    TokenRoundTrip(row.email, row.name);
  }

  /**
   * The other side of the '-' cut: when an active row holds the part of a
   * dashed email before its '-', the token that login issues to the dashed
   * user authenticates as that other row (`bob@ex.com-x.org` is served the
   * account of `bob@ex.com`).
   */
  lemma DashedEmailImpersonates(t: UserTable, username: Str, password: Str)
    requires Login(t, username, password).Ok?
    requires DASH in username
    requires FindByEmail(t.rows, BeforeDash(username)).Some?
    requires FindByEmail(t.rows, BeforeDash(username)).value.isActive
    ensures GetCurrentUser(t, Login(t, username, password).value.accessToken)
         == Ok(Display(FindByEmail(t.rows, BeforeDash(username)).value))
    ensures FindByEmail(t.rows, BeforeDash(username)).value != FindByEmail(t.rows, username).value
  {
    var row := FindByEmail(t.rows, username).value;
    TokenRoundTrip(row.email, row.name);
  }

  /** After registering, logging in with the same email and password gives that user's token. */
  lemma RegisterThenLogin(t: UserTable, user: UserCreate)
    requires RegisterUser(t, user).1.Ok?
    ensures Login(RegisterUser(t, user).0, user.email, user.password)
         == Ok(AccessToken("bearer", TokenFor(user.email, user.name)))
  {
    var row := UserRow(t.nextId, user.name, user.email, user.password, true);
    FindAppended(t.rows, row);
  }

  /** A row appended under an email no earlier row has is the one the lookup finds. */
  lemma {:induction false} FindAppended(rows: seq<UserRow>, row: UserRow)
    requires FindByEmail(rows, row.email).None?
    ensures FindByEmail(rows + [row], row.email) == Some(row)
    decreases |rows|
  {
    if |rows| > 0 {
      assert (rows + [row])[0] == rows[0];
      assert (rows + [row])[1..] == rows[1..] + [row];
      FindAppended(rows[1..], row);
    }
  }
}
