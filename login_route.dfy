/** The admin login endpoint: an ordered chain of early returns (400, 401, 401, 403) before a 200
    that carries the session cookie. Password comparison is the parameter `passwordMatches`
    (plaintext, stored hash), token signing the parameter `sign`. */
module LoginRoute {
  import opened Wrappers
  import opened Db
  import Middleware

  datatype LoginRequest = LoginRequest(username: Option<string>, password: Option<string>)

  datatype Cookie = Cookie(
    name: string,
    value: string,
    httpOnly: bool,
    secure: bool,
    sameSite: string,
    maxAge: int,
    path: string)

  /** Status, the `error` text of the JSON body (none for `{ ok: true }`), and the cookie set. */
  datatype LoginResponse = LoginResponse(status: int, error: Option<string>, cookie: Option<Cookie>)

  /** Seven days, in seconds. */
  const SessionMaxAge: int := 60 * 60 * 24 * 7

  const MissingFields := LoginResponse(400, Some("Username and password required."), None)
  const InvalidCredentials := LoginResponse(401, Some("Invalid credentials."), None)
  const AccessDenied := LoginResponse(403, Some("Access denied."), None)

  function SessionCookie(token: string, production: bool): Cookie {
    Cookie(Middleware.CookieName, token, true, production, "lax", SessionMaxAge, "/")
  }

  /** `POST /api/admin/login`; `production` is `NODE_ENV === "production"`. */
  function Login(req: LoginRequest, users: seq<User>, passwordMatches: (string, string) -> bool,
                 sign: nat -> string, production: bool): LoginResponse
  {
    if !Truthy(req.username) || !Truthy(req.password) then MissingFields
    else
      match FindByUsername(users, req.username.value)
      case None => InvalidCredentials
      case Some(user) =>
        if !passwordMatches(req.password.value, user.passwordHash) then InvalidCredentials
        else if user.role != "admin" then AccessDenied
        else LoginResponse(200, None, Some(SessionCookie(sign(user.id), production)))
  }

  /** A missing or empty field is rejected with 400 before any lookup: the answer does not depend on
      the store, the password check or the signer. */
  lemma MissingFieldsFirst(req: LoginRequest, users1: seq<User>, m1: (string, string) -> bool, s1: nat -> string,
                           users2: seq<User>, m2: (string, string) -> bool, s2: nat -> string, production: bool)
    requires !Truthy(req.username) || !Truthy(req.password)
    ensures Login(req, users1, m1, s1, production) == MissingFields
    ensures Login(req, users1, m1, s1, production) == Login(req, users2, m2, s2, production)
  {
  }

  /** An unknown username and a wrong password for a known one get the very same response, status
      and body: the endpoint does not reveal which usernames exist. */
  lemma AntiEnumeration(unknown: LoginRequest, known: LoginRequest, users: seq<User>,
                        passwordMatches: (string, string) -> bool, sign: nat -> string, production: bool)
    requires Truthy(unknown.username) && Truthy(unknown.password)
    requires FindByUsername(users, unknown.username.value).None?
    requires Truthy(known.username) && Truthy(known.password)
    requires FindByUsername(users, known.username.value).Some?
    requires !passwordMatches(known.password.value, FindByUsername(users, known.username.value).value.passwordHash)
    ensures Login(unknown, users, passwordMatches, sign, production) == InvalidCredentials
    ensures Login(unknown, users, passwordMatches, sign, production) == Login(known, users, passwordMatches, sign, production)
  {
  }

  /** The password is checked before the role: a non-admin with a wrong password gets 401, one
      with the right password 403. */
  lemma PasswordBeforeRole(req: LoginRequest, users: seq<User>, passwordMatches: (string, string) -> bool,
                           sign: nat -> string, production: bool)
    requires Truthy(req.username) && Truthy(req.password)
    requires FindByUsername(users, req.username.value).Some?
    requires FindByUsername(users, req.username.value).value.role != "admin"
    ensures var user := FindByUsername(users, req.username.value).value;
            Login(req, users, passwordMatches, sign, production) ==
              if passwordMatches(req.password.value, user.passwordHash) then AccessDenied else InvalidCredentials
  {
  }

  /** A cookie is set exactly when the user exists, the password matches and the role is "admin";
      the cookie is `admin_token` holding a token for the user's id, HTTP-only, same-site lax, path
      "/", seven days, and secure exactly in production. */
  lemma CookieOnlyForAdmins(req: LoginRequest, users: seq<User>, passwordMatches: (string, string) -> bool,
                            sign: nat -> string, production: bool)
    ensures var r := Login(req, users, passwordMatches, sign, production);
            && (r.cookie.Some? <==>
                  && Truthy(req.username) && Truthy(req.password)
                  && FindByUsername(users, req.username.value).Some?
                  && passwordMatches(req.password.value, FindByUsername(users, req.username.value).value.passwordHash)
                  && FindByUsername(users, req.username.value).value.role == "admin")
            && (r.cookie.Some? <==> r.status == 200)
            && (r.cookie.Some? ==>
                  var user := FindByUsername(users, req.username.value).value;
                  && r.cookie.value == Cookie("admin_token", sign(user.id), true, production, "lax", 604800, "/")
                  && r.error.None?)
  {
  }

  /** The response is one of the five the endpoint can give. */
  lemma StatusCodes(req: LoginRequest, users: seq<User>, passwordMatches: (string, string) -> bool,
                    sign: nat -> string, production: bool)
    ensures Login(req, users, passwordMatches, sign, production).status in {200, 400, 401, 403}
    ensures Login(req, users, passwordMatches, sign, production).status != 200 ==>
              Login(req, users, passwordMatches, sign, production) in {MissingFields, InvalidCredentials, AccessDenied}
  {
  }
}
