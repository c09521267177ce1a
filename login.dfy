/**
 * The login page (login.php): trim and check the two form fields, look the
 * username up, verify the password, and on success fill the session.
 *
 * The database query is an oracle: `lookup` maps the username that is bound
 * into the SELECT to what the statement yields. password_verify is an
 * uninterpreted predicate passed in as `passwordVerify`.
 */
module Login {

  // ---------------------------------------------------------------------
  // Form fields
  // ---------------------------------------------------------------------

  /** The characters PHP's trim() strips by default: space, tab, line feed,
      carriage return, NUL and vertical tab. */
  predicate IsTrimChar(c: char) {
    c == ' ' || c == '\t' || c == '\n' || c == '\r' || c == '\0' || c == '\U{000B}'
  }

  /** Where trim()'s forward scan from i stops: the first position at or
      after i that holds a character trim() keeps, or |s|. */
  function SkipLeading(s: string, i: nat): (r: nat)
    requires i <= |s|
    decreases |s| - i
    ensures i <= r <= |s|
    ensures forall k :: i <= k < r ==> IsTrimChar(s[k])
    ensures r < |s| ==> !IsTrimChar(s[r])
  {
    if i < |s| && IsTrimChar(s[i]) then SkipLeading(s, i + 1) else i
  }

  /** Where trim()'s backward scan from j stops: the end of the last
      character before j that trim() keeps, or 0. */
  function SkipTrailing(s: string, j: nat): (r: nat)
    requires j <= |s|
    ensures r <= j
    ensures forall k :: r <= k < j ==> IsTrimChar(s[k])
    ensures 0 < r ==> !IsTrimChar(s[r - 1])
  {
    if 0 < j && IsTrimChar(s[j - 1]) then SkipTrailing(s, j - 1) else j
  }

  /** trim($s): the part of s between its leading and trailing runs of trim
      characters, empty when s has nothing else. */
  function Trim(s: string): (r: string)
    ensures |r| <= |s|
    ensures r == [] <==> forall k :: 0 <= k < |s| ==> IsTrimChar(s[k])
    ensures r != [] ==> !IsTrimChar(r[0]) && !IsTrimChar(r[|r| - 1])
    ensures r != [] ==> r == s[SkipLeading(s, 0)..SkipTrailing(s, |s|)]
  {
    var start := SkipLeading(s, 0);
    var end := SkipTrailing(s, |s|);
    if start < end then s[start..end] else ""
  }

  /** Trimming twice is trimming once. */
  lemma TrimIdempotent(s: string)
    ensures Trim(Trim(s)) == Trim(s)
  {
  }

  /** PHP's empty() on a string: true for "" and for "0". */
  predicate IsEmptyInPhp(s: string): (b: bool)
    ensures b <==> |s| <= 1 && forall k :: 0 <= k < |s| ==> s[k] == '0'
  {
    s == "" || s == "0"
  }

  /** A trimmed field counts as empty exactly when the raw field keeps at most
      one character once trim characters are ignored, and that character is '0'
      (so "  0 " is rejected like "", while "00" and "0 0" are not). */
  lemma EmptyAfterTrim(raw: string)
    ensures IsEmptyInPhp(Trim(raw)) <==>
              && (forall k :: 0 <= k < |raw| && !IsTrimChar(raw[k]) ==> raw[k] == '0')
              && (forall j, k :: 0 <= j < k < |raw| ==> IsTrimChar(raw[j]) || IsTrimChar(raw[k]))
  {
    var r := Trim(raw);
    if r != [] {
      var start, end := SkipLeading(raw, 0), SkipTrailing(raw, |raw|);
      assert r == raw[start..end];
      assert !IsTrimChar(raw[start]) && !IsTrimChar(raw[end - 1]);
      if end == start + 1 {
        assert r == [raw[start]];
      }
    }
  }

  const UsernameRequired: string := "Please enter username."
  const PasswordRequired: string := "Please enter your password."
  const InvalidCredentials: string := "Invalid username or password."
  const TryAgainLater: string := "Oops! Something went wrong. Please try again later."
  const PrepareFailedMessage: string := "Failed to prepare the SQL statement."

  // ---------------------------------------------------------------------
  // handleLogin
  // ---------------------------------------------------------------------

  /** The columns SELECT id, username, password, ork FROM users returns; the
      same `users` table as Referral.User, whose password column is `passwordHash`. */
  datatype UserRow = UserRow(id: int, username: string, hashedPassword: string, ork: bool)

  /** What the prepared SELECT does: fails to prepare, fails to execute, or
      stores its rows; `fetchSucceeds` is what mysqli_stmt_fetch reports. */
  datatype Lookup =
    | PrepareFailed
    | ExecuteFailed
    | Stored(rows: seq<UserRow>, fetchSucceeds: bool)

  /** What handleLogin does: return a message, return null (NoMessage), or
      fill the session from the fetched row and redirect. */
  datatype LoginOutcome =
    | Rejected(message: string)
    | NoMessage
    | LoggedIn(row: UserRow)

  /** handleLogin($link, $username, $password), given the outcome of the SELECT
      for $username. */
  function HandleLogin(lookup: Lookup, password: string, passwordVerify: (string, string) -> bool): (r: LoginOutcome)
    ensures r.LoggedIn? <==>
              lookup.Stored? && |lookup.rows| == 1 && lookup.fetchSucceeds
              && passwordVerify(password, lookup.rows[0].hashedPassword)
    ensures r.LoggedIn? ==> r.row == lookup.rows[0]
    ensures r == Rejected(InvalidCredentials) <==>
              lookup.Stored?
              && (|lookup.rows| != 1
                  || (lookup.fetchSucceeds && !passwordVerify(password, lookup.rows[0].hashedPassword)))
    ensures r == Rejected(TryAgainLater) <==> lookup.ExecuteFailed?
    ensures r == Rejected(PrepareFailedMessage) <==> lookup.PrepareFailed?
    ensures r.NoMessage? <==> lookup.Stored? && |lookup.rows| == 1 && !lookup.fetchSucceeds
  {
    match lookup
    case PrepareFailed => Rejected(PrepareFailedMessage)
    case ExecuteFailed => Rejected(TryAgainLater)
    case Stored(rows, fetchSucceeds) =>
      if |rows| == 1 then
        if fetchSucceeds then
          var row := rows[0];
          if passwordVerify(password, row.hashedPassword) then LoggedIn(row)
          else Rejected(InvalidCredentials)
        else NoMessage
      else Rejected(InvalidCredentials)
  }

  /** An unknown username (or an ambiguous one: any row count but 1) and a
      known username with a wrong password get the very same answer. */
  lemma UnknownUserLooksLikeWrongPassword(rows: seq<UserRow>, fetchSucceeds: bool, row: UserRow,
                                          password: string, passwordVerify: (string, string) -> bool)
    requires |rows| != 1
    requires !passwordVerify(password, row.hashedPassword)
    ensures HandleLogin(Stored(rows, fetchSucceeds), password, passwordVerify)
         == HandleLogin(Stored([row], true), password, passwordVerify)
         == Rejected(InvalidCredentials)
  {
  }

  // ---------------------------------------------------------------------
  // The session and the page
  // ---------------------------------------------------------------------

  datatype SessionValue = BoolValue(b: bool) | IntValue(i: int) | StringValue(s: string)

  /** $_SESSION after the four assignments of a successful login; the
      username is the stored one, which bind_result wrote over the input. */
  function WithLogin(vars: map<string, SessionValue>, row: UserRow): (r: map<string, SessionValue>)
    ensures r.Keys == vars.Keys + {"loggedin", "id", "username", "ork"}
    ensures r["loggedin"] == BoolValue(true) && r["id"] == IntValue(row.id)
    ensures r["username"] == StringValue(row.username) && r["ork"] == BoolValue(row.ork)
    ensures forall k :: k in vars && k !in {"loggedin", "id", "username", "ork"} ==> r[k] == vars[k]
  {
    vars["loggedin" := BoolValue(true)]["id" := IntValue(row.id)]
        ["username" := StringValue(row.username)]["ork" := BoolValue(row.ork)]
  }

  class Session {
    var vars: map<string, SessionValue>

    constructor (vars: map<string, SessionValue>)
      ensures this.vars == vars
    {
      this.vars := vars;
    }

    /** isset($_SESSION["loggedin"]) && $_SESSION["loggedin"] === true */
    predicate IsLoggedIn(): (b: bool)
      reads this
      // `===` admits only the boolean true: 1, "1" or "true" do not log in
      ensures b <==> "loggedin" in vars && vars["loggedin"].BoolValue? && vars["loggedin"].b
    {
      "loggedin" in vars && vars["loggedin"] == BoolValue(true)
    }

    method Establish(row: UserRow)
      modifies this
      ensures vars == WithLogin(old(vars), row)
      ensures IsLoggedIn()
    {
      vars := vars["loggedin" := BoolValue(true)];
      vars := vars["id" := IntValue(row.id)];
      vars := vars["username" := StringValue(row.username)];
      vars := vars["ork" := BoolValue(row.ork)];
    }
  }

  /** What the request ends in: a redirect to welcome.php, or the form with
      its three messages ("" where PHP has "" or null). */
  datatype LoginPage =
    | RedirectToWelcome
    | Form(usernameErr: string, passwordErr: string, loginErr: string)

  /**
   * One request to login.php. A session that is already logged in is sent
   * on before anything else; otherwise a POST has both fields trimmed and
   * checked, and handleLogin runs only when neither field check failed.
   */
  method LoginRequest(session: Session, isPost: bool, rawUsername: string, rawPassword: string,
                      lookup: string -> Lookup, passwordVerify: (string, string) -> bool)
    returns (page: LoginPage)
    modifies session
    ensures old(session.IsLoggedIn()) ==> page == RedirectToWelcome && session.vars == old(session.vars)
    ensures !old(session.IsLoggedIn()) && !isPost ==> page == Form("", "", "") && session.vars == old(session.vars)
    ensures !old(session.IsLoggedIn()) && isPost ==>
              var username := Trim(rawUsername);
              var password := Trim(rawPassword);
              if IsEmptyInPhp(username) || IsEmptyInPhp(password) then
                && page == Form(if IsEmptyInPhp(username) then UsernameRequired else "",
                                if IsEmptyInPhp(password) then PasswordRequired else "", "")
                && session.vars == old(session.vars)
              else
                match HandleLogin(lookup(username), password, passwordVerify)
                case LoggedIn(row) => page == RedirectToWelcome && session.vars == WithLogin(old(session.vars), row)
                case Rejected(message) => page == Form("", "", message) && session.vars == old(session.vars)
                case NoMessage => page == Form("", "", "") && session.vars == old(session.vars)
  {
    if session.IsLoggedIn() {
      return RedirectToWelcome;
    }
    var username, password := "", "";
    var usernameErr, passwordErr, loginErr := "", "", "";
    if isPost {
      username := Trim(rawUsername);
      password := Trim(rawPassword);
      if IsEmptyInPhp(username) {
        usernameErr := UsernameRequired;
      }
      if IsEmptyInPhp(password) {
        passwordErr := PasswordRequired;
      }
      if IsEmptyInPhp(usernameErr) && IsEmptyInPhp(passwordErr) {
        var outcome := HandleLogin(lookup(username), password, passwordVerify);
        match outcome
        case LoggedIn(row) =>
          session.Establish(row);
          return RedirectToWelcome;
        case Rejected(message) =>
          loginErr := message;
        case NoMessage =>
          loginErr := "";
      }
    }
    page := Form(usernameErr, passwordErr, loginErr);
  }
}
