/** The console's identity state: accounts, sessions and access keys under its request handlers. Each
    handler body is one step. Who may do what, and what no sequence of requests can break. */
module Console {
  import opened Option

  // ----- Roles and grants --------------------------------------------------------

  datatype Role = Administrator | Operator | ReadOnly

  datatype Permission = CredentialWrite | UserWrite

  predicate Allows(role: Role, permission: Permission) {
    role.Administrator? || (role.Operator? && permission.CredentialWrite?)
  }

  datatype Access = NoAccess | Read | Write

  datatype Grants = Grants(fallback: Access, exceptions: map<string, Access>) {
    predicate Unrestricted() {
      fallback.Write? && exceptions == map[]
    }
  }

  const EVERYTHING: Grants := Grants(Write, map[])

  predicate IsAlnum(c: char) {
    'a' <= c <= 'z' || 'A' <= c <= 'Z' || '0' <= c <= '9'
  }

  predicate ValidUsername(name: string) {
    && 0 < |name| <= 64 && IsAlnum(name[0])
    && forall i :: 0 <= i < |name| ==> IsAlnum(name[i]) || name[i] == '.' || name[i] == '_' || name[i] == '-'
  }

  // ----- Records -------------------------------------------------------------------

  datatype User = User(passwordHash: string, role: Role, disabled: bool, grants: Grants) {
    predicate EnabledAdmin() {
      role.Administrator? && !disabled
    }
  }

  datatype Principal = Principal(username: string, role: Role, grants: Grants)

  datatype Session = Session(principal: Principal, expiresAt: int)

  datatype AccessKey = AccessKey(secret: string, owner: string)

  datatype State = State(users: map<string, User>, sessions: map<string, Session>, keys: map<string, AccessKey>)

  const SESSION_TTL: int := 12 * 60 * 60
  const MINIMUM_PASSWORD: nat := 12
  const MAX_KEY_NAME: nat := 200

  /** The password hash and its verifier. */
  datatype Crypto = Crypto(hash: string -> string, verify: (string, string) -> bool)

  datatype Status = Done | BadRequest | Unauthorized | Forbidden | NotFound | Conflict

  // ----- Sessions --------------------------------------------------------------------

  type Sessions = map<string, Session>

  function Swept(m: Sessions, now: int): Sessions {
    map token | token in m && m[token].expiresAt > now :: m[token]
  }

  /** Expired sessions go first; a token already in use would keep its session. */
  function Opened(m: Sessions, token: string, principal: Principal, now: int): Sessions {
    var left := Swept(m, now);
    if token in left then left else left[token := Session(principal, now + SESSION_TTL)]
  }

  function Resolved(m: Sessions, token: string, now: int): Option<Principal> {
    if token != "" && token in m && m[token].expiresAt > now then Some(m[token].principal) else None
  }

  function UserClosed(m: Sessions, username: string): Sessions {
    if username == "" then m else map token | token in m && m[token].principal.username != username :: m[token]
  }

  // ----- Handlers ----------------------------------------------------------------------

  function Named(username: string, u: User): Principal {
    Principal(username, u.role, u.grants)
  }

  function EnabledAdmins(users: map<string, User>): set<string> {
    set name | name in users && users[name].EnabledAdmin()
  }

  /** The gate every protected route shares. */
  function Guard(s: State, token: string, now: int, permission: Permission): Result<Principal, Status> {
    match Resolved(s.sessions, token, now)
    case None => Err(Unauthorized)
    case Some(p) => if Allows(p.role, permission) then Ok(p) else Err(Forbidden)
  }

  function Login(c: Crypto, s: State, username: string, password: string, now: int, token: string): (State, Status) {
    if !ValidUsername(username) || username !in s.users then (s, Unauthorized)
    else
      var user := s.users[username];
      if !c.verify(password, user.passwordHash) || user.disabled then (s, Unauthorized)
      else (s.(sessions := Opened(s.sessions, token, Named(username, user), now)), Done)
  }

  function Logout(s: State, token: string): (State, Status) {
    (s.(sessions := s.sessions - {token}), Done)
  }

  function LastAdmin(s: State, username: string): bool
    requires username in s.users
  {
    s.users[username].EnabledAdmin() && |EnabledAdmins(s.users)| <= 1
  }

  /** `role` is None for a name that is not a role; `grants` is None when the request leaves them out. */
  function CreateUser(c: Crypto, s: State, token: string, now: int, username: string, password: string,
                      role: Option<Role>, grants: Option<Grants>): (State, Status) {
    match Guard(s, token, now, UserWrite)
    case Err(e) => (s, e)
    case Ok(_) =>
      var given := if grants.Some? then grants.value else EVERYTHING;
      if !ValidUsername(username) || |password| < MINIMUM_PASSWORD || role.None? then (s, BadRequest)
      else if role.value.Administrator? && !given.Unrestricted() then (s, BadRequest)
      else if username in s.users then (s, Conflict)
      else (s.(users := s.users[username := User(c.hash(password), role.value, false, given)]), Done)
  }

  /** An account after the fields a request names have been set; a promotion drops any narrowing. */
  function Patched(user: User, role: Option<Role>, disabled: Option<bool>, grants: Option<Grants>): User {
    var u := User(user.passwordHash,
                  if role.Some? then role.value else user.role,
                  if disabled.Some? then disabled.value else user.disabled,
                  if grants.Some? then grants.value else user.grants);
    if u.role.Administrator? && !u.grants.Unrestricted() then u.(grants := EVERYTHING) else u
  }

  function PatchUser(s: State, token: string, now: int, username: string,
                     role: Option<Role>, disabled: Option<bool>, grants: Option<Grants>): (State, Status) {
    match Guard(s, token, now, UserWrite)
    case Err(e) => (s, e)
    case Ok(_) =>
      if !ValidUsername(username) || (role.None? && disabled.None? && grants.None?) then (s, BadRequest)
      else if username !in s.users then (s, NotFound)
      else
        var user := s.users[username];
        var losesAdmin := (role.Some? && !role.value.Administrator?) || disabled == Some(true);
        if LastAdmin(s, username) && losesAdmin then (s, Conflict)
        else if grants.Some? && !grants.value.Unrestricted()
            && (if role.Some? then role.value else user.role).Administrator? then
          (s, BadRequest)
        else
          var patched := Patched(user, role, disabled, grants);
          if patched == user then (s, Done)
          else (s.(users := s.users[username := patched], sessions := UserClosed(s.sessions, username)), Done)
  }

  function KeysWithout(keys: map<string, AccessKey>, owner: string): map<string, AccessKey> {
    map id | id in keys && keys[id].owner != owner :: keys[id]
  }

  function DeleteUser(s: State, token: string, now: int, username: string): (State, Status) {
    match Guard(s, token, now, UserWrite)
    case Err(e) => (s, e)
    case Ok(p) =>
      if username == "" then (s, BadRequest)
      else if username == p.username then (s, Conflict)
      else if username !in s.users then (s, NotFound)
      else if LastAdmin(s, username) then (s, Conflict)
      else (State(s.users - {username}, UserClosed(s.sessions, username), KeysWithout(s.keys, username)), Done)
  }

  /** One's own password needs the current one; anybody else's needs the permission. */
  function ChangePassword(c: Crypto, s: State, token: string, now: int, named: string,
                          current: string, next: string, drawn: string): (State, Status) {
    match Resolved(s.sessions, token, now)
    case None => (s, Unauthorized)
    case Some(p) =>
      var target := if named == "" then p.username else named;
      var own := target == p.username;
      if !own && !Allows(p.role, UserWrite) then (s, Forbidden)
      else if |next| < MINIMUM_PASSWORD || (own && current == "") then (s, BadRequest)
      else if target !in s.users then (s, NotFound)
      else if own && !c.verify(current, s.users[target].passwordHash) then (s, Unauthorized)
      else (Rekeyed(c, s, target, next, own, drawn, now), Done)
  }

  function IssueKey(s: State, token: string, now: int, name: string, id: string, secret: string): (State, Status) {
    match Guard(s, token, now, CredentialWrite)
    case Err(e) => (s, e)
    case Ok(p) =>
      if |name| > MAX_KEY_NAME then (s, BadRequest) else (s.(keys := s.keys[id := AccessKey(secret, p.username)]), Done)
  }

  /** Somebody else's key is as good as absent to anyone who may not manage users. */
  predicate Reaches(s: State, p: Principal, id: string) {
    id in s.keys && (Allows(p.role, UserWrite) || s.keys[id].owner == p.username)
  }

  function RevokeKey(s: State, token: string, now: int, id: string): (State, Status) {
    match Guard(s, token, now, CredentialWrite)
    case Err(e) => (s, e)
    case Ok(p) =>
      if id == "" then (s, BadRequest)
      else if !Reaches(s, p, id) then (s, NotFound)
      else (s.(keys := s.keys - {id}), Done)
  }

  function RotateKey(s: State, token: string, now: int, id: string, secret: string): (State, Status) {
    match Guard(s, token, now, CredentialWrite)
    case Err(e) => (s, e)
    case Ok(p) =>
      if id == "" then (s, BadRequest)
      else if !Reaches(s, p, id) then (s, NotFound)
      else (s.(keys := s.keys[id := s.keys[id].(secret := secret)]), Done)
  }

  // ----- Requests ------------------------------------------------------------------------

  /** A request with its cookie, the time it is handled, and the random values drawn while handling it. */
  datatype Request =
    | LoginRequest(username: string, password: string, drawn: string)
    | LogoutRequest
    | CreateRequest(username: string, password: string, role: Option<Role>, grants: Option<Grants>)
    | PatchRequest(username: string, role: Option<Role>, disabled: Option<bool>, grants: Option<Grants>)
    | DeleteRequest(username: string)
    | PasswordRequest(named: string, current: string, next: string, drawn: string)
    | IssueRequest(name: string, id: string, secret: string)
    | RevokeRequest(id: string)
    | RotateRequest(id: string, secret: string)

  datatype Event = Event(request: Request, cookie: string, now: int)

  function Handle(c: Crypto, s: State, e: Event): (State, Status) {
    match e.request
    case LoginRequest(username, password, drawn) => Login(c, s, username, password, e.now, drawn)
    case LogoutRequest => Logout(s, e.cookie)
    case CreateRequest(username, password, role, grants) =>
      CreateUser(c, s, e.cookie, e.now, username, password, role, grants)
    case PatchRequest(username, role, disabled, grants) =>
      PatchUser(s, e.cookie, e.now, username, role, disabled, grants)
    case DeleteRequest(username) => DeleteUser(s, e.cookie, e.now, username)
    case PasswordRequest(named, current, next, drawn) =>
      ChangePassword(c, s, e.cookie, e.now, named, current, next, drawn)
    case IssueRequest(name, id, secret) => IssueKey(s, e.cookie, e.now, name, id, secret)
    case RevokeRequest(id) => RevokeKey(s, e.cookie, e.now, id)
    case RotateRequest(id, secret) => RotateKey(s, e.cookie, e.now, id, secret)
  }

  function Step(c: Crypto, s: State, e: Event): State {
    Handle(c, s, e).0
  }

  // ----- What no request can break --------------------------------------------------------

  /** A session is an up-to-date copy of an enabled account. */
  predicate Current(users: map<string, User>, session: Session) {
    var name := session.principal.username;
    name in users && !users[name].disabled && session.principal == Named(name, users[name])
  }

  predicate AccountsSound(users: map<string, User>) {
    && EnabledAdmins(users) != {}
    && forall name :: name in users ==>
        ValidUsername(name) && (users[name].role.Administrator? ==> users[name].grants.Unrestricted())
  }

  predicate SessionsSound(users: map<string, User>, m: Sessions) {
    forall token :: token in m ==> Current(users, m[token])
  }

  predicate KeysSound(s: State) {
    forall id :: id in s.keys ==> s.keys[id].owner in s.users
  }

  predicate Inv(s: State) {
    AccountsSound(s.users) && SessionsSound(s.users, s.sessions) && KeysSound(s)
  }

  lemma AdminRemains(users: map<string, User>, username: string)
    requires EnabledAdmins(users) != {}
    requires !(username in users && users[username].EnabledAdmin()) || |EnabledAdmins(users)| > 1
    ensures exists name :: name != username && name in users && users[name].EnabledAdmin()
  {
    var admins := EnabledAdmins(users);
    if username in admins {
      assert |admins - {username}| == |admins| - 1;
      var name :| name in admins - {username};
    } else {
      var name :| name in admins;
    }
  }

  /** Putting a record in an account's place, when that leaves an enabled administrator. */
  lemma PutSound(users: map<string, User>, username: string, u: User)
    requires AccountsSound(users) && ValidUsername(username) && (u.role.Administrator? ==> u.grants.Unrestricted())
    requires u.EnabledAdmin() || !(username in users && users[username].EnabledAdmin()) || |EnabledAdmins(users)| > 1
    ensures AccountsSound(users[username := u])
  {
    hide ValidUsername;
    var after := users[username := u];
    if u.EnabledAdmin() {
      assert username in EnabledAdmins(after);
    } else {
      AdminRemains(users, username);
      var name :| name != username && name in users && users[name].EnabledAdmin();
      assert name in EnabledAdmins(after);
    }
  }

  /** Once an account's sessions are closed, only the others matter. */
  lemma ClosedSound(users: map<string, User>, m: Sessions, username: string, after: map<string, User>)
    requires SessionsSound(users, m) && username != ""
    requires forall name :: name in users && name != username ==> name in after && after[name] == users[name]
    ensures SessionsSound(after, UserClosed(m, username))
  {
  }

  lemma OpenedSound(users: map<string, User>, m: Sessions, token: string, username: string, now: int)
    requires SessionsSound(users, m) && username in users && !users[username].disabled
    ensures SessionsSound(users, Opened(m, token, Named(username, users[username]), now))
  {
  }

  lemma OthersSound(users: map<string, User>, m: Sessions, username: string, u: User)
    requires SessionsSound(users, m) && username !in users
    ensures SessionsSound(users[username := u], m)
  {
  }

  lemma CreateKeeps(c: Crypto, s: State, e: Event)
    requires Inv(s) && e.request.CreateRequest?
    ensures Inv(Step(c, s, e))
  {
    hide AccountsSound, SessionsSound, ValidUsername, Guard;
    var t, r := Step(c, s, e), e.request;
    if t.users != s.users {
      PutSound(s.users, r.username, t.users[r.username]);
      OthersSound(s.users, s.sessions, r.username, t.users[r.username]);
    }
  }

  lemma PatchedIsSound(s: State, username: string, role: Option<Role>, disabled: Option<bool>, grants: Option<Grants>)
    requires AccountsSound(s.users) && username in s.users
    requires !(LastAdmin(s, username) && ((role.Some? && !role.value.Administrator?) || disabled == Some(true)))
    ensures AccountsSound(s.users[username := Patched(s.users[username], role, disabled, grants)]) && username != ""
  {
    assert ValidUsername(username);
    var u := Patched(s.users[username], role, disabled, grants);
    assert u.role.Administrator? ==> u.grants.Unrestricted();
    hide AccountsSound, ValidUsername, EnabledAdmins;
    PutSound(s.users, username, u);
  }

  lemma PatchKeeps(c: Crypto, s: State, e: Event)
    requires Inv(s) && e.request.PatchRequest?
    ensures Inv(Step(c, s, e))
  {
    hide AccountsSound, SessionsSound, ValidUsername, Guard, Patched, UserClosed, LastAdmin;
    var t, r := Step(c, s, e), e.request;
    if t != s {
      PatchedIsSound(s, r.username, r.role, r.disabled, r.grants);
      ClosedSound(s.users, s.sessions, r.username, t.users);
    }
  }

  lemma DeleteKeeps(c: Crypto, s: State, e: Event)
    requires Inv(s) && e.request.DeleteRequest?
    ensures Inv(Step(c, s, e))
  {
    hide SessionsSound, ValidUsername, Guard, UserClosed;
    var t, username := Step(c, s, e), e.request.username;
    if t != s {
      AdminRemains(s.users, username);
      var name :| name != username && name in s.users && s.users[name].EnabledAdmin();
      assert name in EnabledAdmins(t.users);
      ClosedSound(s.users, s.sessions, username, t.users);
    }
  }

  lemma PasswordKeeps(c: Crypto, s: State, e: Event)
    requires Inv(s) && e.request.PasswordRequest?
    ensures Inv(Step(c, s, e))
  {
    SelfIsEnabled(s, e.cookie, e.now);
    hide AccountsSound, SessionsSound, ValidUsername, Rekeyed, Resolved, Allows, Named;
    var t, r, p := Step(c, s, e), e.request, Resolved(s.sessions, e.cookie, e.now);
    if t != s {
      var target := if r.named == "" then p.value.username else r.named;
      RekeyedSound(c, s, target, r.next, target == p.value.username, r.drawn, e.now);
    }
  }

  /** The state behind a change of password. */
  function Rekeyed(c: Crypto, s: State, target: string, next: string, own: bool, drawn: string, now: int): State
    requires target in s.users
  {
    var user := s.users[target].(passwordHash := c.hash(next));
    var closed := UserClosed(s.sessions, target);
    s.(users := s.users[target := user], sessions := if own then Opened(closed, drawn, Named(target, user), now)
       else closed)
  }

  lemma RekeyedSound(c: Crypto, s: State, target: string, next: string, own: bool, drawn: string, now: int)
    requires Inv(s) && target in s.users && (own ==> !s.users[target].disabled)
    ensures Inv(Rekeyed(c, s, target, next, own, drawn, now))
  {
    hide AccountsSound, SessionsSound, ValidUsername, UserClosed, Opened;
    var user := s.users[target].(passwordHash := c.hash(next));
    var users := s.users[target := user];
    RehashedIsSound(s.users, target, user);
    ClosedSound(s.users, s.sessions, target, users);
    if own {
      OpenedSound(users, UserClosed(s.sessions, target), drawn, target, now);
    }
  }

  lemma RehashedIsSound(users: map<string, User>, username: string, u: User)
    requires AccountsSound(users) && username in users && SameAuthority(u, users[username])
    ensures AccountsSound(users[username := u]) && username != ""
  {
    assert ValidUsername(username);
    PutSound(users, username, u);
  }

  /** Whoever a cookie resolves to is an enabled account, with the role and grants the session shows. */
  lemma SelfIsEnabled(s: State, token: string, now: int)
    requires Inv(s)
    ensures
      var p := Resolved(s.sessions, token, now);
      p.Some? ==> p.value.username in s.users && !s.users[p.value.username].disabled
                  && p.value == Named(p.value.username, s.users[p.value.username])
  {
  }

  lemma StepKeeps(c: Crypto, s: State, e: Event)
    requires Inv(s)
    ensures Inv(Step(c, s, e))
  {
    match e.request
    case CreateRequest(_, _, _, _) => CreateKeeps(c, s, e);
    case PatchRequest(_, _, _, _) => PatchKeeps(c, s, e);
    case DeleteRequest(_) => DeleteKeeps(c, s, e);
    case PasswordRequest(_, _, _, _) => PasswordKeeps(c, s, e);
    case IssueRequest(_, _, _) => SelfIsEnabled(s, e.cookie, e.now);
    case _ =>
  }

  function Run(c: Crypto, s: State, events: seq<Event>): State {
    if events == [] then s else Step(c, Run(c, s, events[..|events| - 1]), events[|events| - 1])
  }

  /** Whatever the requests, an administrator can still sign in, no administrator is narrowed, every
      session is an up-to-date copy of an enabled account, and every key has an owner. */
  lemma {:induction false} RunKeeps(c: Crypto, s: State, events: seq<Event>)
    requires Inv(s)
    ensures Inv(Run(c, s, events))
    decreases |events|
  {
    hide Inv, Step;
    if events != [] {
      RunKeeps(c, s, events[..|events| - 1]);
      StepKeeps(c, Run(c, s, events[..|events| - 1]), events[|events| - 1]);
    }
  }

  // ----- Who can do what ---------------------------------------------------------------------

  predicate SameAuthority(u: User, v: User) {
    u.role == v.role && u.disabled == v.disabled && u.grants == v.grants
  }

  /** A key of somebody else's, and not one whose id has just been drawn again. */
  predicate Foreign(s: State, e: Event, id: string) {
    && id in s.keys
    && (var p := Resolved(s.sessions, e.cookie, e.now); p.None? || s.keys[id].owner != p.value.username)
    && (e.request.IssueRequest? ==> id != e.request.id)
  }

  /** A request that does not come from an administrator creates and deletes no account, changes nobody's
      role, status or grants, and touches nobody else's password or keys. */
  lemma OnlyAdministratorsGovern(c: Crypto, s: State, e: Event)
    requires Inv(s)
    requires
      var p := Resolved(s.sessions, e.cookie, e.now);
      p.None? || !p.value.role.Administrator?
    ensures
      var p := Resolved(s.sessions, e.cookie, e.now);
      var t := Step(c, s, e);
      && t.users.Keys == s.users.Keys
      && (forall name :: name in s.users ==> SameAuthority(t.users[name], s.users[name]))
      && (forall name :: name in s.users && (p.None? || name != p.value.username) ==> t.users[name] == s.users[name])
      && (forall id :: id in s.keys && Foreign(s, e, id) ==> id in t.keys && t.keys[id] == s.keys[id])
  {
    hide UserClosed, Opened, Patched, EnabledAdmins, ValidUsername, KeysWithout, Inv, Resolved;
    match e.request
    case LoginRequest(_, _, _) =>
    case LogoutRequest =>
    case CreateRequest(_, _, _, _) => NotGoverning(s, e.cookie, e.now);
    case PatchRequest(_, _, _, _) => NotGoverning(s, e.cookie, e.now);
    case DeleteRequest(_) => NotGoverning(s, e.cookie, e.now);
    case PasswordRequest(_, _, _, _) =>
    case IssueRequest(_, _, _) =>
    case RevokeRequest(_) =>
    case RotateRequest(_, _) =>
  }

  lemma NotGoverning(s: State, token: string, now: int)
    requires
      var p := Resolved(s.sessions, token, now);
      p.None? || !p.value.role.Administrator?
    ensures Guard(s, token, now, UserWrite).Err?
  {
  }

  /** Without a live session nothing changes but that somebody may sign in or out. */
  lemma StrangersChangeNothing(c: Crypto, s: State, e: Event)
    requires Resolved(s.sessions, e.cookie, e.now) == None && !e.request.LoginRequest? && !e.request.LogoutRequest?
    ensures Handle(c, s, e) == (s, Unauthorized)
  {
  }

  /** A session comes only from a verified password of an enabled account, or from a change of one's own. */
  lemma SessionsAreEarned(c: Crypto, s: State, e: Event, token: string)
    requires Inv(s) && token in Step(c, s, e).sessions
    requires token !in s.sessions || Step(c, s, e).sessions[token] != s.sessions[token]
    ensures
      var name := Step(c, s, e).sessions[token].principal.username;
      && name in s.users && !s.users[name].disabled
      && (|| (e.request.LoginRequest? && name == e.request.username
              && c.verify(e.request.password, s.users[name].passwordHash))
          || (e.request.PasswordRequest? && c.verify(e.request.current, s.users[name].passwordHash)
              && Resolved(s.sessions, e.cookie, e.now) == Some(Named(name, s.users[name]))))
  {
    SelfIsEnabled(s, e.cookie, e.now);
    if e.request.LoginRequest? {
      hide Inv, Opened, ValidUsername, Resolved;
      var user := s.users[e.request.username];
      NewSession(s.sessions, e.request.drawn, Named(e.request.username, user), e.now, token);
    } else if e.request.PasswordRequest? {
      PasswordSessions(c, s, e, token);
    } else {
      SessionsOnlyEnd(c, s, e);
    }
  }

  /** A session that was not there is the one just opened. */
  lemma NewSession(m: Sessions, drawn: string, principal: Principal, now: int, token: string)
    ensures
      var after := Opened(m, drawn, principal, now);
      token in after && (token !in m || after[token] != m[token]) ==> after[token].principal == principal
  {
  }

  lemma SessionsOnlyEnd(c: Crypto, s: State, e: Event)
    requires !e.request.LoginRequest? && !e.request.PasswordRequest?
    ensures forall token :: token in Step(c, s, e).sessions ==>
            token in s.sessions && Step(c, s, e).sessions[token] == s.sessions[token]
  {
    hide Guard, Patched, LastAdmin, ValidUsername, KeysWithout, Reaches;
  }

  lemma PasswordSessions(c: Crypto, s: State, e: Event, token: string)
    requires e.request.PasswordRequest? && token in Step(c, s, e).sessions
    requires token !in s.sessions || Step(c, s, e).sessions[token] != s.sessions[token]
    requires
      var p := Resolved(s.sessions, e.cookie, e.now);
      p.Some? ==> p.value.username in s.users && !s.users[p.value.username].disabled
                  && p.value == Named(p.value.username, s.users[p.value.username])
    ensures
      var name := Step(c, s, e).sessions[token].principal.username;
      && name in s.users && !s.users[name].disabled && c.verify(e.request.current, s.users[name].passwordHash)
      && Resolved(s.sessions, e.cookie, e.now) == Some(Named(name, s.users[name]))
  {
    hide Resolved, Allows, UserClosed, Opened;
    var p := Resolved(s.sessions, e.cookie, e.now).value;
    var target := if e.request.named == "" then p.username else e.request.named;
    var closed := UserClosed(s.sessions, target);
    ClosedSame(s.sessions, target, token);
    var user := s.users[target].(passwordHash := c.hash(e.request.next));
    NewSession(closed, e.request.drawn, Named(target, user), e.now, token);
  }

  lemma ClosedSame(m: Sessions, username: string, token: string)
    ensures token in UserClosed(m, username) ==> token in m && UserClosed(m, username)[token] == m[token]
  {
  }

  /** Changing an account's authority, its password or its existence ends every session it had. */
  lemma ChangesEndSessions(c: Crypto, s: State, e: Event, token: string, now: int)
    requires Inv(s)
    requires token in s.sessions && s.sessions[token].principal.username in s.users
    requires
      var name := s.sessions[token].principal.username;
      var t := Step(c, s, e);
      name !in t.users || t.users[name] != s.users[name]
    ensures token in Step(c, s, e).sessions ==> e.request.PasswordRequest? && token == e.request.drawn
  {
  }

  /** The guard of the last administrator is needed: without a second one, deleting is refused. */
  lemma LastAdminStays(c: Crypto, s: State, e: Event, username: string)
    requires Inv(s) && EnabledAdmins(s.users) == {username}
    ensures username in EnabledAdmins(Step(c, s, e).users)
  {
    assert username in s.users && s.users[username].EnabledAdmin();
    match e.request
    case PatchRequest(_, _, _, _) => AfterPatch(c, s, e, username);
    case DeleteRequest(_) => AfterDelete(c, s, e, username);
    case _ => AfterOthers(c, s, e, username);
  }

  lemma AfterPatch(c: Crypto, s: State, e: Event, username: string)
    requires EnabledAdmins(s.users) == {username} && e.request.PatchRequest?
    ensures username in EnabledAdmins(Step(c, s, e).users)
  {
    hide UserClosed, Guard, ValidUsername, Resolved, KeysWithout, Opened;
    assert username in s.users && s.users[username].EnabledAdmin();
  }

  lemma AfterDelete(c: Crypto, s: State, e: Event, username: string)
    requires EnabledAdmins(s.users) == {username} && e.request.DeleteRequest?
    ensures username in EnabledAdmins(Step(c, s, e).users)
  {
    hide UserClosed, Guard, ValidUsername, Resolved, KeysWithout, Opened;
    assert username in s.users && s.users[username].EnabledAdmin();
  }

  lemma AfterOthers(c: Crypto, s: State, e: Event, username: string)
    requires EnabledAdmins(s.users) == {username} && !e.request.PatchRequest? && !e.request.DeleteRequest?
    ensures username in EnabledAdmins(Step(c, s, e).users)
  {
    hide UserClosed, Guard, ValidUsername, Resolved, KeysWithout, Opened;
    assert username in s.users && s.users[username].EnabledAdmin();
  }
}
