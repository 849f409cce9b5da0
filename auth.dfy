/** The `/api/auth` router: login against the Users tab, and reading the
    bearer token of a request. Signing and checking a token's signature are
    done by the token library and enter here as the `verify` parameter. */
module Auth {
  import opened Common
  import opened JsStrings
  import opened Api
  import opened Store

  const MissingCredentials := Reply(400, "Username dan password diperlukan")
  const WrongCredentials := Reply(401, "Username atau password salah")
  const NoToken := Reply(401, "Token tidak ditemukan")
  const InvalidToken := Reply(401, "Token tidak valid")

  /** `u[0] === username && u[1] === password`: plaintext, case-sensitive. */
  predicate CredentialsMatch(row: Row, username: string, password: string) {
    Cell(row, 0) == Some(username) && Cell(row, 1) == Some(password)
  }

  /** `users.find(...)`, as the index of the row it finds. */
  function FindUser(users: seq<Row>, username: string, password: string): (found: Option<nat>)
    ensures found.Some? ==>
      && found.value < |users|
      && CredentialsMatch(users[found.value], username, password)
      && forall k :: 0 <= k < found.value ==> !CredentialsMatch(users[k], username, password)
    ensures found.None? ==>
      forall k :: 0 <= k < |users| ==> !CredentialsMatch(users[k], username, password)
  {
    if users == [] then None
    else if CredentialsMatch(users[0], username, password) then Some(0)
    else match FindUser(users[1..], username, password)
      case None => None
      case Some(k) => Some(k + 1)
  }

  /** The token payload built from a Users row: username, role and class,
      an empty class becoming `null`. Column 1, the password, is not read. */
  function IdentityOf(row: Row): (who: Identity)
    requires |row| > 0
    ensures who.username == row[0]
    ensures who.role.Some? <==> |row| > 2
    ensures who.role.Some? ==> who.role.value == row[2]
    ensures who.kelas.Some? <==> |row| > 3 && row[3] != ""
    ensures who.kelas.Some? ==> who.kelas.value == row[3]
  {
    Identity(row[0], Cell(row, 2), OrNull(Cell(row, 3)))
  }

  /** POST /auth/login: the identity that is signed into the token, or the
      error reply. */
  function Login(users: seq<Row>, username: Option<string>, password: Option<string>): (r: Result<Identity, Reply>)
    ensures !Truthy(username) || !Truthy(password) ==> r == Failure(MissingCredentials)
    ensures Truthy(username) && Truthy(password) ==>
      (r.Success? <==> exists k :: 0 <= k < |users| && CredentialsMatch(users[k], username.value, password.value))
    ensures Truthy(username) && Truthy(password) && r.Failure? ==> r.error == WrongCredentials
    ensures r.Success? ==>
      exists k :: 0 <= k < |users| && CredentialsMatch(users[k], username.value, password.value)
        && (forall j :: 0 <= j < k ==> !CredentialsMatch(users[j], username.value, password.value))
        && r.value == IdentityOf(users[k])
  {
    if !Truthy(username) || !Truthy(password) then Failure(MissingCredentials)
    else match FindUser(users, username.value, password.value)
      case None => Failure(WrongCredentials)
      case Some(k) => Success(IdentityOf(users[k]))
  }

  /** The identity a successful login returns has the username that was
      typed, and the role and class of the first matching row. */
  lemma LoginIdentity(users: seq<Row>, username: string, password: string, k: nat)
    requires k < |users| && CredentialsMatch(users[k], username, password)
    requires forall j :: 0 <= j < k ==> !CredentialsMatch(users[j], username, password)
    requires username != "" && password != ""
    ensures Login(users, Some(username), Some(password)) ==
      Success(Identity(username, Cell(users[k], 2), OrNull(Cell(users[k], 3))))
  {
    var r := Login(users, Some(username), Some(password));
    var i :| 0 <= i < |users| && CredentialsMatch(users[i], username, password)
      && (forall j :: 0 <= j < i ==> !CredentialsMatch(users[j], username, password))
      && r.value == IdentityOf(users[i]);
    assert i == k;
  }

  /** A wrong password for a known username and an unknown username get
      the same reply, so the reply does not reveal which usernames exist. */
  lemma NoUsernameEnumeration(users: seq<Row>, known: string, wrongPassword: string,
                              unknown: string, anyPassword: string)
    requires known != "" && wrongPassword != "" && unknown != "" && anyPassword != ""
    requires forall k :: 0 <= k < |users| ==> !CredentialsMatch(users[k], known, wrongPassword)
    requires forall k :: 0 <= k < |users| ==> Cell(users[k], 0) != Some(unknown)
    ensures Login(users, Some(known), Some(wrongPassword)) == Failure(WrongCredentials)
    ensures Login(users, Some(unknown), Some(anyPassword)) == Failure(WrongCredentials)
  {
  }

  /** Presence is checked before the Users tab is consulted: with a missing
      field the reply does not depend on the table at all. */
  lemma PresenceCheckedFirst(users: seq<Row>, others: seq<Row>, username: Option<string>, password: Option<string>)
    requires !Truthy(username) || !Truthy(password)
    ensures Login(users, username, password) == Login(others, username, password)
  {
  }

  /** Two Users rows that differ only in the password column give the same
      identity: the password never reaches the token. */
  lemma IdentityOmitsPassword(a: Row, b: Row)
    requires |a| > 0 && |b| > 0
    requires Cell(a, 0) == Cell(b, 0) && Cell(a, 2) == Cell(b, 2) && Cell(a, 3) == Cell(b, 3)
    ensures IdentityOf(a) == IdentityOf(b)
  {
  }

  // ---------------------------------------------------------------------------
  // Bearer tokens

  /** `req.headers.authorization?.split(' ')[1]`: the text between the first
      space of the header and the next one (or the end). */
  function BearerToken(authorization: Option<string>): (token: Option<string>)
    ensures token.Some? ==> ' ' !in token.value
    ensures token.None? <==> authorization.None? || ' ' !in authorization.value
  {
    match authorization
    case None => None
    case Some(header) =>
      var parts := Split(header, ' ');
      if |parts| > 1 then Some(parts[1]) else None
  }

  /** The header the client sends, `Bearer ${token}`, gives the token back. */
  lemma {:induction false} BearerTokenRoundTrip(scheme: string, token: string)
    requires ' ' !in scheme && ' ' !in token
    ensures BearerToken(Some(scheme + " " + token)) == Some(token)
  {
    assert Join([token], ' ') == token;
    assert Join([scheme, token], ' ') == scheme + " " + token;
    SplitJoin([scheme, token], ' ');
  }

  /** The token is the text between the header's first space and the next
      space, or the end of the header. */
  lemma {:induction false} TokenIsTextAfterFirstSpace(scheme: string, rest: string)
    requires ' ' !in scheme
    ensures BearerToken(Some(scheme + " " + rest)) == Some(Split(rest, ' ')[0])
  {
    SplitAtSeparator(scheme, rest, ' ');
    assert scheme + " " + rest == scheme + [' '] + rest;
  }

  /** Whatever follows the first space decides: the token is missing exactly
      when nothing, or another space, comes right after it. */
  lemma {:induction false} TokenAfterFirstSpace(scheme: string, rest: string)
    requires ' ' !in scheme
    ensures !Truthy(BearerToken(Some(scheme + " " + rest))) <==> rest == "" || rest[0] == ' '
  {
    SplitAtSeparator(scheme, rest, ' ');
    assert scheme + " " + rest == scheme + [' '] + rest;
    var parts := Split(rest, ' ');
    if rest != [] {
      assert Split(rest, ' ')[0] == "" <==> rest[0] == ' ';
    }
  }

  /** The `authenticate` middleware of the attendance router, and POST
      /auth/verify: the identity carried by a valid token. */
  function Authenticate(authorization: Option<string>, verify: string -> Option<Identity>): (r: Result<Identity, Reply>)
    ensures !Truthy(BearerToken(authorization)) ==> r == Failure(NoToken)
    ensures Truthy(BearerToken(authorization)) ==>
      match verify(BearerToken(authorization).value)
      case None => r == Failure(InvalidToken)
      case Some(who) => r == Success(who)
  {
    var token := BearerToken(authorization);
    if !Truthy(token) then Failure(NoToken)
    else match verify(token.value)
      case None => Failure(InvalidToken)
      case Some(who) => Success(who)
  }
}
