/** The session store and the console's handlers as they run on the stored records; each handler is
    proved to be the function of Console.dfy. */
module ConsoleApi {
  import opened Option
  import C = Console

  // ----- Sessions ----------------------------------------------------------------

  class SessionStore {
    var sessions: C.Sessions

    constructor ()
      ensures sessions == map[]
    {
      sessions := map[];
    }

    /** Erases what has expired, one entry after the other. */
    method Sweep(now: int)
      modifies this
      ensures sessions == C.Swept(old(sessions), now)
    {
      var left := sessions.Keys;
      while left != {}
        invariant left <= sessions.Keys <= old(sessions).Keys
        invariant forall t :: t in sessions ==> sessions[t] == old(sessions)[t]
        invariant forall t :: t in old(sessions) ==> (t in sessions <==> t in left || old(sessions)[t].expiresAt > now)
        decreases |left|
      {
        var token :| token in left;
        left := left - {token};
        if sessions[token].expiresAt <= now {
          sessions := sessions - {token};
        }
      }
    }

    method OpenAt(principal: C.Principal, now: int, drawn: string)
      modifies this
      ensures sessions == C.Opened(old(sessions), drawn, principal, now)
    {
      Sweep(now);
      if drawn !in sessions {
        sessions := sessions[drawn := C.Session(principal, now + C.SESSION_TTL)];
      }
    }

    method ResolveAt(token: string, now: int) returns (p: Option<C.Principal>)
      ensures p == C.Resolved(sessions, token, now)
    {
      if token == "" {
        return None;
      }
      if token !in sessions || sessions[token].expiresAt <= now {
        return None;
      }
      p := Some(sessions[token].principal);
    }

    method Close(token: string)
      modifies this
      ensures sessions == old(sessions) - {token}
    {
      sessions := sessions - {token};
    }

    /** Ends every session of an account, and counts them. */
    method CloseUser(username: string) returns (closed: nat)
      modifies this
      ensures sessions == C.UserClosed(old(sessions), username)
      ensures closed == |old(sessions)| - |sessions|
    {
      closed := 0;
      if username == "" {
        return;
      }
      var left := sessions.Keys;
      while left != {}
        invariant left <= sessions.Keys <= old(sessions).Keys
        invariant forall t :: t in sessions ==> sessions[t] == old(sessions)[t]
        invariant forall t :: t in old(sessions) ==>
          (t in sessions <==> t in left || old(sessions)[t].principal.username != username)
        invariant closed == |old(sessions)| - |sessions|
        decreases |left|
      {
        var token :| token in left;
        left := left - {token};
        if sessions[token].principal.username == username {
          assert |sessions - {token}| == |sessions| - 1 by { OneLess(sessions, token); }
          sessions := sessions - {token};
          closed := closed + 1;
        }
      }
    }
  }

  lemma OneLess<K, V>(m: map<K, V>, k: K)
    requires k in m
    ensures |m - {k}| == |m| - 1
  {
    assert (m - {k}).Keys == m.Keys - {k};
    assert |m| == |m.Keys| && |m - {k}| == |(m - {k}).Keys|;
  }

  // ----- Handlers ------------------------------------------------------------------

  class Api {
    const crypto: C.Crypto
    const store: SessionStore
    var users: map<string, C.User>
    var keys: map<string, C.AccessKey>

    ghost function Current(): C.State
      reads this, store
    {
      C.State(users, store.sessions, keys)
    }

    constructor (crypto: C.Crypto, users: map<string, C.User>)
      ensures Current() == C.State(users, map[], map[]) && fresh(store) && this.crypto == crypto
    {
      this.crypto, this.users, this.keys := crypto, users, map[];
      store := new SessionStore();
    }

    method Login(username: string, password: string, now: int, drawn: string) returns (status: C.Status)
      modifies store
      ensures (Current(), status) == C.Login(crypto, old(Current()), username, password, now, drawn)
    {
      if !C.ValidUsername(username) || username !in users {
        return C.Unauthorized;
      }
      var user := users[username];
      if !crypto.verify(password, user.passwordHash) || user.disabled {
        return C.Unauthorized;
      }
      store.OpenAt(C.Named(username, user), now, drawn);
      status := C.Done;
    }

    method Logout(token: string) returns (status: C.Status)
      modifies store
      ensures (Current(), status) == C.Logout(old(Current()), token)
    {
      store.Close(token);
      status := C.Done;
    }

    /** The session a request needs, and the permission its role must hold. */
    method Guard(token: string, now: int, permission: C.Permission) returns (r: Result<C.Principal, C.Status>)
      ensures r == C.Guard(Current(), token, now, permission)
    {
      var principal := store.ResolveAt(token, now);
      if principal == None {
        return Err(C.Unauthorized);
      }
      if !C.Allows(principal.value.role, permission) {
        return Err(C.Forbidden);
      }
      r := Ok(principal.value);
    }

    method CountEnabledAdministrators() returns (count: nat)
      ensures count == |C.EnabledAdmins(users)|
    {
      count := 0;
      var left := users.Keys;
      ghost var seen: set<string> := {};
      while left != {}
        invariant left <= users.Keys
        invariant seen == C.EnabledAdmins(users) - left && count == |seen|
        decreases |left|
      {
        var name :| name in left;
        left := left - {name};
        if users[name].EnabledAdmin() {
          seen := seen + {name};
          count := count + 1;
        }
      }
      assert C.EnabledAdmins(users) - {} == C.EnabledAdmins(users);
    }

    method LastAdmin(username: string) returns (last: bool)
      requires username in users
      ensures last == C.LastAdmin(Current(), username)
    {
      var count := CountEnabledAdministrators();
      last := users[username].EnabledAdmin() && count <= 1;
    }

    method CreateUser(token: string, now: int, username: string, password: string,
                      role: Option<C.Role>, grants: Option<C.Grants>) returns (status: C.Status)
      modifies this`users
      ensures (Current(), status) == C.CreateUser(crypto, old(Current()), token, now, username, password, role, grants)
    {
      var principal := Guard(token, now, C.UserWrite);
      if principal.Err? {
        return principal.error;
      }
      if !C.ValidUsername(username) || |password| < C.MINIMUM_PASSWORD || role == None {
        return C.BadRequest;
      }
      var given := if grants.Some? then grants.value else C.EVERYTHING;
      if role.value.Administrator? && !given.Unrestricted() {
        return C.BadRequest;
      }
      if username in users {
        return C.Conflict;
      }
      users := users[username := C.User(crypto.hash(password), role.value, false, given)];
      status := C.Done;
    }

    /** Sets the named fields one by one, noting whether any of them changed. */
    method Change(user: C.User, role: Option<C.Role>, disabled: Option<bool>, grants: Option<C.Grants>)
      returns (u: C.User, changed: bool)
      requires !(grants.Some? && !grants.value.Unrestricted()
                 && (if role.Some? then role.value else user.role).Administrator?)
      ensures u == C.Patched(user, role, disabled, grants)
      ensures changed <==> u != user
    {
      u, changed := user, false;
      if role.Some? && role.value != u.role {
        u, changed := u.(role := role.value), true;
      }
      if disabled.Some? && disabled.value != u.disabled {
        u, changed := u.(disabled := disabled.value), true;
      }
      if grants.Some? && grants.value != u.grants {
        u, changed := u.(grants := grants.value), true;
      }
      if u.role.Administrator? && !u.grants.Unrestricted() {
        u, changed := u.(grants := C.EVERYTHING), true;
      }
    }

    method PatchUser(token: string, now: int, username: string,
                     role: Option<C.Role>, disabled: Option<bool>, grants: Option<C.Grants>) returns (status: C.Status)
      modifies this`users, store
      ensures (Current(), status) == C.PatchUser(old(Current()), token, now, username, role, disabled, grants)
    {
      hide C.Guard, C.LastAdmin, C.Patched, C.UserClosed, C.ValidUsername;
      var principal := Guard(token, now, C.UserWrite);
      if principal.Err? {
        return principal.error;
      }
      if !C.ValidUsername(username) || (role == None && disabled == None && grants == None) {
        return C.BadRequest;
      }
      if username !in users {
        return C.NotFound;
      }
      var user := users[username];
      var last := LastAdmin(username);
      if last && ((role.Some? && !role.value.Administrator?) || disabled == Some(true)) {
        return C.Conflict;
      }
      if grants.Some? && !grants.value.Unrestricted() && (if role.Some? then role.value else user.role).Administrator? {
        return C.BadRequest;
      }
      var patched, changed := Change(user, role, disabled, grants);
      if changed {
        users := users[username := patched];
        var _ := store.CloseUser(username);
      }
      status := C.Done;
    }

    /** The keys go with the person. */
    method RevokeKeysOf(owner: string) returns (revoked: nat)
      modifies this`keys
      ensures keys == C.KeysWithout(old(keys), owner)
      ensures revoked == |old(keys)| - |keys|
    {
      revoked := 0;
      var left := keys.Keys;
      while left != {}
        invariant left <= keys.Keys <= old(keys).Keys
        invariant forall id :: id in keys ==> keys[id] == old(keys)[id]
        invariant forall id :: id in old(keys) ==> (id in keys <==> id in left || old(keys)[id].owner != owner)
        invariant revoked == |old(keys)| - |keys|
        decreases |left|
      {
        var id :| id in left;
        left := left - {id};
        if keys[id].owner == owner {
          OneLess(keys, id);
          keys := keys - {id};
          revoked := revoked + 1;
        }
      }
    }

    method DeleteUser(token: string, now: int, username: string) returns (status: C.Status)
      modifies this`users, this`keys, store
      ensures (Current(), status) == C.DeleteUser(old(Current()), token, now, username)
    {
      hide C.Guard, C.LastAdmin, C.UserClosed, C.KeysWithout;
      var principal := Guard(token, now, C.UserWrite);
      if principal.Err? {
        return principal.error;
      }
      if username == "" {
        return C.BadRequest;
      }
      if username == principal.value.username {
        return C.Conflict;
      }
      if username !in users {
        return C.NotFound;
      }
      var last := LastAdmin(username);
      if last {
        return C.Conflict;
      }
      var _ := RevokeKeysOf(username);
      users := users - {username};
      var _ := store.CloseUser(username);
      status := C.Done;
    }

    method ChangePassword(token: string, now: int, named: string, current: string, next: string, drawn: string)
      returns (status: C.Status)
      modifies this`users, store
      ensures (Current(), status) == C.ChangePassword(crypto, old(Current()), token, now, named, current, next, drawn)
    {
      hide C.Resolved, C.UserClosed, C.Opened;
      var principal := store.ResolveAt(token, now);
      if principal == None {
        return C.Unauthorized;
      }
      var target := if named == "" then principal.value.username else named;
      var own := target == principal.value.username;
      if !own && !C.Allows(principal.value.role, C.UserWrite) {
        return C.Forbidden;
      }
      if |next| < C.MINIMUM_PASSWORD || (own && current == "") {
        return C.BadRequest;
      }
      if target !in users {
        return C.NotFound;
      }
      if own && !crypto.verify(current, users[target].passwordHash) {
        return C.Unauthorized;
      }
      var user := users[target].(passwordHash := crypto.hash(next));
      users := users[target := user];
      var _ := store.CloseUser(target);
      if own {
        store.OpenAt(C.Named(target, user), now, drawn);
      }
      status := C.Done;
    }

    method IssueKey(token: string, now: int, name: string, id: string, secret: string) returns (status: C.Status)
      modifies this`keys
      ensures (Current(), status) == C.IssueKey(old(Current()), token, now, name, id, secret)
    {
      var principal := Guard(token, now, C.CredentialWrite);
      if principal.Err? {
        return principal.error;
      }
      if |name| > C.MAX_KEY_NAME {
        return C.BadRequest;
      }
      keys := keys[id := C.AccessKey(secret, principal.value.username)];
      status := C.Done;
    }

    method RevokeKey(token: string, now: int, id: string) returns (status: C.Status)
      modifies this`keys
      ensures (Current(), status) == C.RevokeKey(old(Current()), token, now, id)
    {
      var principal := Guard(token, now, C.CredentialWrite);
      if principal.Err? {
        return principal.error;
      }
      if id == "" {
        return C.BadRequest;
      }
      var any := C.Allows(principal.value.role, C.UserWrite);
      if id !in keys || (!any && keys[id].owner != principal.value.username) {
        return C.NotFound;
      }
      keys := keys - {id};
      status := C.Done;
    }

    method RotateKey(token: string, now: int, id: string, secret: string) returns (status: C.Status)
      modifies this`keys
      ensures (Current(), status) == C.RotateKey(old(Current()), token, now, id, secret)
    {
      var principal := Guard(token, now, C.CredentialWrite);
      if principal.Err? {
        return principal.error;
      }
      if id == "" {
        return C.BadRequest;
      }
      var any := C.Allows(principal.value.role, C.UserWrite);
      if id !in keys || (!any && keys[id].owner != principal.value.username) {
        return C.NotFound;
      }
      keys := keys[id := keys[id].(secret := secret)];
      status := C.Done;
    }
  }
}
