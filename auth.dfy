/**
 * Login, registration and page gating of js/auth.js. Each handler runs its
 * checks in the source's order and stops at the first that fails; only a
 * handler that passes every check writes to the store.
 */
module Auth {
  import opened Wrappers
  import opened JsString
  import opened Storage

  datatype LoginOutcome =
    | LoginMissingFields
    | UnknownUser
    | WrongPassword
    | LoggedIn(username: string)
  {
    /** The text shown to the user. */
    function Message(): string {
      match this
      case LoginMissingFields => "Please enter both username and password."
      case UnknownUser => "Username not found."
      case WrongPassword => "Incorrect password."
      case LoggedIn(_) => "Login successful! Redirecting to dashboard..."
    }
  }

  /**
   * The login decision. The username is trimmed, the password is not; an
   * empty field is reported before the lookup, an unknown user before a
   * password mismatch.
   */
  function CheckLogin(users: map<string, User>, rawUsername: string, password: string): (r: LoginOutcome)
    ensures r == LoginMissingFields <==> Trim(rawUsername) == "" || password == ""
    ensures r == UnknownUser <==> Trim(rawUsername) != "" && password != "" && Trim(rawUsername) !in users
    ensures r == WrongPassword <==>
      Trim(rawUsername) != "" && password != "" && Trim(rawUsername) in users
      && users[Trim(rawUsername)].password != password
    ensures r.LoggedIn? <==>
      Trim(rawUsername) != "" && password != "" && Trim(rawUsername) in users
      && users[Trim(rawUsername)].password == password
    ensures r.LoggedIn? ==> r.username == Trim(rawUsername)
  {
    var username := Trim(rawUsername);
    if username == "" || password == "" then LoginMissingFields
    else if username !in users then UnknownUser
    else if users[username].password != password then WrongPassword
    else LoggedIn(username)
  }

  /** The login form's submit handler. Only a successful login touches the session. */
  method Login(store: Store, rawUsername: string, password: string) returns (r: LoginOutcome)
    modifies store
    ensures r == CheckLogin(old(store.Users()), rawUsername, password)
    ensures store.session == if r.LoggedIn? then Some(r.username) else old(store.session)
    ensures store.users == old(store.users) && store.projects == old(store.projects)
  {
    r := CheckLogin(store.Users(), rawUsername, password);
    if r.LoggedIn? {
      store.SetSession(r.username);
    }
  }

  /** A password that differs from the stored one in any way, surrounding blanks included, is refused. */
  lemma PasswordNotTrimmed(users: map<string, User>, rawUsername: string, password: string)
    requires Trim(rawUsername) in users && users[Trim(rawUsername)].password != password
    ensures !CheckLogin(users, rawUsername, password).LoggedIn?
  {
  }

  datatype RegisterOutcome =
    | RegisterMissingFields
    | PasswordMismatch
    | UsernameTaken
    | Registered(user: User)
  {
    function Message(): string {
      match this
      case RegisterMissingFields => "Please fill in all fields."
      case PasswordMismatch => "Passwords do not match."
      case UsernameTaken => "Username already taken."
      case Registered(_) => "Registration successful! Redirecting to dashboard..."
    }
  }

  /**
   * The registration decision: missing username, email or password first,
   * then a confirmation mismatch, then a taken username. Username and email
   * are trimmed; passwords are compared as typed.
   */
  function CheckRegister(users: map<string, User>, rawUsername: string, rawEmail: string,
                         password: string, confirm: string, createdAt: string): (r: RegisterOutcome)
    ensures r == RegisterMissingFields <==> Trim(rawUsername) == "" || Trim(rawEmail) == "" || password == ""
    ensures r == PasswordMismatch <==>
      Trim(rawUsername) != "" && Trim(rawEmail) != "" && password != "" && password != confirm
    ensures r == UsernameTaken <==>
      Trim(rawUsername) != "" && Trim(rawEmail) != "" && password != "" && password == confirm
      && Trim(rawUsername) in users
    ensures r.Registered? <==>
      Trim(rawUsername) != "" && Trim(rawEmail) != "" && password != "" && password == confirm
      && Trim(rawUsername) !in users
    ensures r.Registered? ==> r.user == User(Trim(rawUsername), Trim(rawEmail), password, createdAt)
  {
    var username := Trim(rawUsername);
    var email := Trim(rawEmail);
    if username == "" || email == "" || password == "" then RegisterMissingFields
    else if password != confirm then PasswordMismatch
    else if username in users then UsernameTaken
    else Registered(User(username, email, password, createdAt))
  }

  /**
   * The registration form's submit handler: on success the record is stored
   * under the username and the new user is signed in; on failure nothing is
   * written. An existing user record is never overwritten.
   */
  method Register(store: Store, rawUsername: string, rawEmail: string,
                  password: string, confirm: string, createdAt: string) returns (r: RegisterOutcome)
    modifies store
    ensures r == CheckRegister(old(store.Users()), rawUsername, rawEmail, password, confirm, createdAt)
    ensures r.Registered? ==>
      && store.users == Some(old(store.Users())[r.user.username := r.user])
      && store.session == Some(r.user.username)
    ensures !r.Registered? ==> store.users == old(store.users) && store.session == old(store.session)
    ensures forall k :: k in old(store.Users()) ==> k in store.Users() && store.Users()[k] == old(store.Users())[k]
    ensures store.projects == old(store.projects)
  {
    r := CheckRegister(store.Users(), rawUsername, rawEmail, password, confirm, createdAt);
    if r.Registered? {
      store.SaveUser(r.user.username, r.user);
      store.SetSession(r.user.username);
    }
  }

  /** A user who registers can then log in with the same name and password. */
  lemma RegisterThenLogin(users: map<string, User>, rawUsername: string, rawEmail: string,
                          password: string, createdAt: string)
    requires CheckRegister(users, rawUsername, rawEmail, password, password, createdAt).Registered?
    ensures var u := CheckRegister(users, rawUsername, rawEmail, password, password, createdAt).user;
            CheckLogin(users[u.username := u], rawUsername, password) == LoggedIn(Trim(rawUsername))
  {
  }

  // -------------------------------------------------------------- checkAuth

  /** `path.split('/').pop()`: the text after the last '/', or the whole path if it has none. */
  function LastSegment(path: string): (r: string)
    ensures |r| <= |path| && r == path[|path| - |r|..]
    ensures '/' !in r
    ensures |r| < |path| ==> path[|path| - |r| - 1] == '/'
  {
    if path == [] then []
    else if path[|path| - 1] == '/' then []
    else LastSegment(path[..|path| - 1]) + [path[|path| - 1]]
  }

  const PublicPages: seq<string> := ["index.html", "login.html", ""]

  /** `!currentUser`: no session entry, or an empty one. */
  predicate SignedOut(session: Option<string>) {
    session.None? || session.value == ""
  }

  /** `checkAuth()`'s redirect decision: signed out and not on a public page. */
  function NeedsLogin(session: Option<string>, path: string): bool {
    SignedOut(session) && LastSegment(path) !in PublicPages
  }

  /**
   * The gate sends a visitor to the login page exactly when nobody is signed
   * in and the page, the last path segment, is not one of the public pages.
   */
  lemma NeedsLoginIff(session: Option<string>, prefix: string, page: string)
    requires '/' !in page
    ensures NeedsLogin(session, prefix + "/" + page) <==>
      SignedOut(session) && page != "index.html" && page != "login.html" && page != ""
  {
    LastSegmentAfterSlash(prefix, page);
  }

  lemma {:induction false} LastSegmentAfterSlash(prefix: string, page: string)
    requires '/' !in page
    ensures LastSegment(prefix + "/" + page) == page
  {
    var p := prefix + "/" + page;
    if page == [] {
      assert p[|p| - 1] == '/';
    } else {
      var q := page[..|page| - 1];
      assert p[..|p| - 1] == prefix + "/" + q;
      assert '/' !in q by {
        forall k | 0 <= k < |q| ensures q[k] != '/' { assert q[k] == page[k]; }
      }
      LastSegmentAfterSlash(prefix, q);
      assert page == q + [page[|page| - 1]];
    }
  }
}
