/**
 * Registration and login: the e-mail and password rules, role defaulting, e-mail
 * lower-casing, and the token a successful login issues.
 */
module Auth {
  import opened Common
  import opened Text
  import opened Models
  import opened Store
  import opened Rbac

  /** A character the e-mail pattern admits inside one of its parts: no white space, no `@`. */
  predicate EmailChar(c: char) {
    !IsSpace(c) && c != '@'
  }

  predicate EmailPart(s: string) {
    s != [] && forall i :: 0 <= i < |s| ==> EmailChar(s[i])
  }

  /** The domain side of the pattern: admitted characters with a `.` neither first nor last. */
  predicate EmailDomain(d: string) {
    EmailPart(d) && exists i :: 0 < i < |d| - 1 && d[i] == '.'
  }

  /** `isValidEmail`: the pattern "one or more, `@`, one or more, `.`, one or more" over admitted characters. */
  predicate IsValidEmail(s: string) {
    exists at :: 0 < at < |s| - 1 && s[at] == '@' && EmailPart(s[..at]) && EmailDomain(s[at + 1..])
  }

  /**
   * The pattern read off character by character: no white space anywhere, exactly one `@`,
   * something before it, and a `.` after it that is neither the first nor the last
   * character after the `@`.
   */
  lemma IsValidEmailChars(s: string)
    ensures IsValidEmail(s) <==>
      exists at :: 0 < at < |s| && s[at] == '@'
        && (forall i :: 0 <= i < |s| ==> !IsSpace(s[i]))
        && (forall i :: 0 <= i < |s| && s[i] == '@' ==> i == at)
        && (exists j :: at + 1 < j < |s| - 1 && s[j] == '.')
  {
    if IsValidEmail(s) {
      var at :| 0 < at < |s| - 1 && s[at] == '@' && EmailPart(s[..at]) && EmailDomain(s[at + 1..]);
      ValidEmailShape(s, at);
    }
    if exists at :: 0 < at < |s| && s[at] == '@'
        && (forall i :: 0 <= i < |s| ==> !IsSpace(s[i]))
        && (forall i :: 0 <= i < |s| && s[i] == '@' ==> i == at)
        && (exists j :: at + 1 < j < |s| - 1 && s[j] == '.')
    {
      var at :| 0 < at < |s| && s[at] == '@'
        && (forall i :: 0 <= i < |s| ==> !IsSpace(s[i]))
        && (forall i :: 0 <= i < |s| && s[i] == '@' ==> i == at)
        && (exists j :: at + 1 < j < |s| - 1 && s[j] == '.');
      var j :| at + 1 < j < |s| - 1 && s[j] == '.';
      ShapedEmailValid(s, at, j);
    }
  }

  /** The pattern split at its `@`, read off character by character. */
  lemma ValidEmailShape(s: string, at: int)
    requires 0 < at < |s| - 1 && s[at] == '@' && EmailPart(s[..at]) && EmailDomain(s[at + 1..])
    ensures forall i :: 0 <= i < |s| ==> !IsSpace(s[i])
    ensures forall i :: 0 <= i < |s| && s[i] == '@' ==> i == at
    ensures exists j :: at + 1 < j < |s| - 1 && s[j] == '.'
  {
    var d := s[at + 1..];
    var k :| 0 < k < |d| - 1 && d[k] == '.';
    assert s[at + 1 + k] == '.';
    forall i | 0 <= i < |s| ensures !IsSpace(s[i]) && (s[i] == '@' ==> i == at) {
      if i < at {
        assert s[i] == s[..at][i];
      } else if i > at {
        assert s[i] == d[i - at - 1];
      }
    }
  }

  /** Characters that meet the pattern's tests, around an only `@` and a later `.`, match it. */
  lemma ShapedEmailValid(s: string, at: int, j: int)
    requires 0 < at < |s| && s[at] == '@'
    requires forall i :: 0 <= i < |s| ==> !IsSpace(s[i])
    requires forall i :: 0 <= i < |s| && s[i] == '@' ==> i == at
    requires at + 1 < j < |s| - 1 && s[j] == '.'
    ensures IsValidEmail(s)
  {
    var d := s[at + 1..];
    assert d[j - at - 1] == '.';
    assert forall i :: 0 <= i < |d| ==> d[i] == s[at + 1 + i];
    assert forall i :: 0 <= i < at ==> s[..at][i] == s[i];
    assert EmailPart(s[..at]) && EmailDomain(d);
  }

  /** Lower-casing keeps a part admitted by the pattern, and every `.` where it was. */
  lemma LowerKeepsEmailPart(s: string)
    requires EmailPart(s)
    ensures EmailPart(Lower(s))
    ensures forall i :: 0 <= i < |s| && s[i] == '.' ==> Lower(s)[i] == '.'
  {
    var l := Lower(s);
    forall i | 0 <= i < |l| ensures EmailChar(l[i]) {
      assert l[i] == LowerChar(s[i]);
      if 'A' <= s[i] <= 'Z' {
        assert 'a' <= l[i] <= 'z';
      }
    }
  }

  /** Lower-casing a slice is slicing the lower-cased text. */
  lemma LowerSlice(s: string, lo: nat, hi: nat)
    requires lo <= hi <= |s|
    ensures Lower(s)[lo..hi] == Lower(s[lo..hi])
  {
    assert forall k :: 0 <= k < hi - lo ==> Lower(s)[lo..hi][k] == Lower(s[lo..hi])[k];
  }

  /** Lower-casing keeps the domain side admitted, with its `.`. */
  lemma LowerKeepsEmailDomain(d: string)
    requires EmailDomain(d)
    ensures EmailDomain(Lower(d))
  {
    LowerKeepsEmailPart(d);
    var k :| 0 < k < |d| - 1 && d[k] == '.';
    assert Lower(d)[k] == '.';
  }

  /** Lower-casing keeps an address valid: it moves no `@`, `.` or white space. */
  lemma LowerKeepsValidEmail(s: string)
    requires IsValidEmail(s)
    ensures IsValidEmail(Lower(s))
  {
    var at :| 0 < at < |s| - 1 && s[at] == '@' && EmailPart(s[..at]) && EmailDomain(s[at + 1..]);
    LowerKeepsSplit(s, at);
  }

  /** The same, for a known position of the `@`. */
  lemma LowerKeepsSplit(s: string, at: nat)
    requires 0 < at < |s| - 1 && s[at] == '@' && EmailPart(s[..at]) && EmailDomain(s[at + 1..])
    ensures IsValidEmail(Lower(s))
  {
    var l := Lower(s);
    var local, domain := s[..at], s[at + 1..];
    LowerSlice(s, 0, at);
    LowerSlice(s, at + 1, |s|);
    assert l[..at] == Lower(local) by {
      assert s[0..at] == local && l[0..at] == l[..at];
    }
    assert l[at + 1..] == Lower(domain) by {
      assert s[at + 1..|s|] == domain && l[at + 1..|l|] == l[at + 1..];
    }
    LowerKeepsEmailPart(local);
    LowerKeepsEmailDomain(domain);
    assert l[at] == '@';
  }

  /** `isValidPassword`: a string of 8 to 128 characters (`None` stands for a missing or non-string value). */
  predicate IsValidPassword(p: Option<string>) {
    p.Some? && 8 <= |p.value| <= 128
  }

  /** The role a registration asks for is kept only when it is a known role. */
  function RoleFor(requested: Option<string>): (role: string)
    ensures role in ROLES
    ensures requested.Some? ==> (requested.value in ROLES <==> role == requested.value)
    ensures requested.None? ==> role == DEFAULT_ROLE
    ensures !(TruthyText(requested) && requested.value in ROLES) ==> role == DEFAULT_ROLE
  {
    if TruthyText(requested) && requested.value in ["volunteer", "admin"] then requested.value else DEFAULT_ROLE
  }

  /** `User.findOne({ where: { email } })`: the first user with that address. */
  function FindByEmail(users: seq<User>, email: string): (r: Option<User>)
    ensures r.None? <==> forall i :: 0 <= i < |users| ==> users[i].email != email
    ensures r.Some? ==> r.value in users && r.value.email == email
  {
    if users == [] then None
    else if users[0].email == email then Some(users[0])
    else FindByEmail(users[1..], email)
  }

  // ---------------------------------------------------------------- register

  datatype RegisterOutcome =
    | Registered(user: User)
    | InvalidEmailFormat   // 400
    | InvalidPasswordLength // 400
    | EmailRegistered      // 409
    | RegistrationError    // 500: the model validators or the column widths refuse the row

  function RegisterStatus(o: RegisterOutcome): int {
    match o
    case Registered(_) => 201
    case InvalidEmailFormat => 400
    case InvalidPasswordLength => 400
    case EmailRegistered => 409
    case RegistrationError => 500
  }

  /** The checks of `POST /register`, in order; `None` when the user can be created. */
  function RegisterRefusal(users: seq<User>, email: Option<string>, password: Option<string>): (r: Option<RegisterOutcome>)
    ensures r.None? ==> email.Some? && IsValidEmail(email.value) && IsValidPassword(password)
                        && FindByEmail(users, Lower(email.value)).None?
  {
    if !TruthyText(email) || !IsValidEmail(email.value) then Some(InvalidEmailFormat)
    else if !IsValidPassword(password) then Some(InvalidPasswordLength)
    else if FindByEmail(users, Lower(email.value)).Some? then Some(EmailRegistered)
    else None
  }

  /** Passwords of 7 characters are refused and passwords of 8 are accepted. */
  lemma RegisterPasswordBoundary(users: seq<User>, email: string, p7: string, p8: string)
    requires IsValidEmail(email) && |p7| == 7 && |p8| == 8
    ensures RegisterRefusal(users, Some(email), Some(p7)) == Some(InvalidPasswordLength)
    ensures RegisterRefusal(users, Some(email), Some(p8)) != Some(InvalidPasswordLength)
  {
  }

  /**
   * `POST /register`. The address is stored lower-cased, so two registrations that differ
   * only in letter case collide. `hash` is bcrypt and `isEmail` the model's e-mail validator.
   */
  method Register(db: Database, email: Option<string>, password: Option<string>, role: Option<string>,
                  hash: string -> string, isEmail: string -> bool)
    returns (out: RegisterOutcome)
    requires db.Valid()
    modifies db
    ensures db.Valid()
    ensures var refusal := RegisterRefusal(old(db.users), email, password);
      if refusal.Some? then out == refusal.value && unchanged(db)
      else
        var stored := User(old(db.nextUserId), Lower(email.value), hash(password.value), RoleFor(role));
        if !isEmail(stored.email) || !UserRowValid(stored) then out == RegistrationError && unchanged(db)
        else
          && out == Registered(stored)
          && db.users == old(db.users) + [stored]
          && db.nextUserId == old(db.nextUserId) + 1
          && db.profiles == old(db.profiles) && db.events == old(db.events)
          && db.history == old(db.history) && db.notifications == old(db.notifications)
          && db.nextHistoryId == old(db.nextHistoryId) && db.nextNotificationId == old(db.nextNotificationId)
    ensures out.Registered? ==> IsLower(out.user.email) && IsValidEmail(out.user.email) && out.user.role in ROLES
  {
    if !TruthyText(email) || !IsValidEmail(email.value) {
      return InvalidEmailFormat;
    }
    if !IsValidPassword(password) {
      return InvalidPasswordLength;
    }
    var lowered := Lower(email.value);
    if FindByEmail(db.users, lowered).Some? {
      return EmailRegistered;
    }
    var hashed := hash(password.value);
    var row := User(0, lowered, hashed, RoleFor(role));
    if !isEmail(lowered) || !UserRowValid(row) {
      return RegistrationError;
    }
    LowerIsLower(email.value);
    LowerKeepsValidEmail(email.value);
    var stored := db.CreateUser(row);
    out := Registered(stored);
  }

  // ---------------------------------------------------------------- login

  /** The token lifetime, "24h", in seconds. */
  const TOKEN_LIFETIME: int := 24 * 60 * 60

  /** `jwt.sign(claims, secret, { expiresIn })`. */
  type Signer = (Claims, int) -> string

  datatype LoginOutcome =
    | LoggedIn(token: string, user: User)
    | InvalidEmail        // 400
    | InvalidPassword     // 400
    | InvalidCredentials  // 401, for an unknown address and for a wrong password alike

  function LoginStatus(o: LoginOutcome): int {
    match o
    case LoggedIn(_, _) => 200
    case InvalidEmail => 400
    case InvalidPassword => 400
    case InvalidCredentials => 401
  }

  /** The claims a login signs: the user's id as `sub`, the address and the role. */
  function ClaimsOf(u: User): Claims {
    Claims(u.id, u.email, u.role)
  }

  /** `POST /login`. `compare` is bcrypt's comparison of a password with a stored hash. */
  function Login(users: seq<User>, email: Option<string>, password: Option<string>,
                 compare: (string, string) -> bool, sign: Signer): (r: LoginOutcome)
    ensures r.InvalidEmail? <==> !TruthyText(email) || !IsValidEmail(email.value)
    ensures r.InvalidPassword? <==> TruthyText(email) && IsValidEmail(email.value) && !IsValidPassword(password)
    ensures r.InvalidCredentials? <==>
      TruthyText(email) && IsValidEmail(email.value) && IsValidPassword(password)
      && (FindByEmail(users, Lower(email.value)).None?
          || !compare(password.value, FindByEmail(users, Lower(email.value)).value.passwordHash))
    ensures r.LoggedIn? ==>
      && r.user in users && r.user.email == Lower(email.value)
      && compare(password.value, r.user.passwordHash)
      && r.token == sign(ClaimsOf(r.user), TOKEN_LIFETIME)
  {
    if !TruthyText(email) || !IsValidEmail(email.value) then InvalidEmail
    else if !TruthyText(password) || !IsValidPassword(password) then InvalidPassword
    else
      match FindByEmail(users, Lower(email.value))
      case None => InvalidCredentials
      case Some(u) =>
        if !compare(password.value, u.passwordHash) then InvalidCredentials
        else LoggedIn(sign(ClaimsOf(u), TOKEN_LIFETIME), u)
  }

  /**
   * A token issued at login and presented as `Bearer <token>` authenticates as the user
   * who logged in, given that verification returns what signing put in.
   */
  lemma LoginThenAuthenticate(users: seq<User>, email: Option<string>, password: Option<string>,
                              compare: (string, string) -> bool, sign: Signer, verify: Verifier)
    requires Login(users, email, password, compare, sign).LoggedIn?
    requires ' ' !in Login(users, email, password, compare, sign).token
    requires Login(users, email, password, compare, sign).token != ""
    requires forall c :: verify(sign(c, TOKEN_LIFETIME)) == Some(c)
    ensures var r := Login(users, email, password, compare, sign);
      AuthenticateToken(Some("Bearer " + r.token), verify) == Continue(Claims(r.user.id, r.user.email, r.user.role))
  {
    var r := Login(users, email, password, compare, sign);
    assert ' ' !in "Bearer";
    assert "Bearer" + " " + r.token == "Bearer " + r.token;
    BearerTokenOfScheme("Bearer", r.token);
  }

  /** In a store with distinct addresses, a registered user can log in with the password they chose. */
  lemma RegisteredUserCanLogIn(users: seq<User>, u: User, password: string,
                               compare: (string, string) -> bool, sign: Signer, hash: string -> string)
    requires UniqueUsers(users) && u in users
    requires IsValidEmail(u.email) && IsLower(u.email) && u.passwordHash == hash(password)
    requires 8 <= |password| <= 128
    requires forall p :: compare(p, hash(p))
    ensures Login(users, Some(u.email), Some(password), compare, sign) == LoggedIn(sign(ClaimsOf(u), TOKEN_LIFETIME), u)
  {
    assert Lower(u.email) == u.email;
    var f := FindByEmail(users, u.email);
    assert f == Some(u) by {
      var k :| 0 <= k < |users| && users[k] == u;
      assert users[k].email == u.email;
      assert f.Some?;
      var j :| 0 <= j < |users| && users[j] == f.value;
      assert users[j].email == users[k].email;
      assert j == k;
    }
  }
}
