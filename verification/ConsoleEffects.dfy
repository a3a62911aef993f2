/** What a console request that is answered Done has achieved, as later requests find it: who can sign in
    and as what, which sessions and keys still work, and that nobody else notices. */
module ConsoleEffects {
  import opened Option
  import opened Console

  // ----- What can be observed --------------------------------------------------------------------

  /** A hash verifies the password it was made from and no other. */
  ghost predicate Faithful(c: Crypto) {
    forall p, q :: c.verify(p, c.hash(q)) <==> p == q
  }

  /** Which answer signing in gives, at any time and with any token drawn. */
  function SignIn(c: Crypto, s: State, username: string, password: string, at: int, drawn: string): Status {
    Handle(c, s, Event(LoginRequest(username, password, drawn), "", at)).1
  }

  /** As whom a cookie is known right after somebody signed in and was given it. */
  function KnownAs(c: Crypto, s: State, username: string, password: string, at: int, drawn: string)
    : Option<Principal>
  {
    Resolved(Handle(c, s, Event(LoginRequest(username, password, drawn), "", at)).0.sessions, drawn, at)
  }

  /** A token that no session has. */
  predicate Fresh(s: State, token: string) {
    token != "" && token !in s.sessions
  }

  /** The secret requests are verified with, and whose they are. */
  function KeyOf(s: State, id: string): Option<AccessKey> {
    if id in s.keys then Some(s.keys[id]) else None
  }

  /** An account signs in exactly as before. */
  ghost predicate SameFor(c: Crypto, s: State, t: State, username: string) {
    && (forall q, at, drawn :: SignIn(c, t, username, q, at, drawn) == SignIn(c, s, username, q, at, drawn))
    && (username in s.users <==> username in t.users)
    && (username in s.users ==> t.users[username] == s.users[username])
  }

  ghost predicate SameSessions(s: State, t: State) {
    forall token, at :: Resolved(t.sessions, token, at) == Resolved(s.sessions, token, at)
  }

  ghost predicate SameKeys(s: State, t: State) {
    forall id :: KeyOf(t, id) == KeyOf(s, id)
  }

  /** A session of an account's. */
  predicate Of(s: State, token: string, username: string) {
    token in s.sessions && s.sessions[token].principal.username == username
  }

  /** The account's sessions are over and everybody else's go on. */
  ghost predicate Ended(s: State, t: State, username: string) {
    forall token, at :: Resolved(t.sessions, token, at)
                     == if Of(s, token, username) then None else Resolved(s.sessions, token, at)
  }

  /** The answers to signing in with every password, and as whom: only `password`, only while the account is
      enabled, and with this role and these grants. */
  ghost predicate SignsIn(c: Crypto, s: State, username: string, password: string, u: User) {
    && (forall q, at, drawn :: SignIn(c, s, username, q, at, drawn)
                            == if q == password && !u.disabled then Done else Unauthorized)
    && (forall at, drawn :: Fresh(s, drawn) && !u.disabled ==>
                            KnownAs(c, s, username, password, at, drawn) == Some(Named(username, u)))
  }

  // ----- Signing in and out ------------------------------------------------------------------------

  lemma SignInIs(c: Crypto, s: State, username: string, q: string, at: int, drawn: string)
    ensures SignIn(c, s, username, q, at, drawn)
         == if ValidUsername(username) && username in s.users && !s.users[username].disabled
               && c.verify(q, s.users[username].passwordHash) then Done else Unauthorized
  {
    hide ValidUsername, Opened;
  }

  lemma KnownAsIs(c: Crypto, s: State, username: string, q: string, at: int, drawn: string)
    requires SignIn(c, s, username, q, at, drawn) == Done && Fresh(s, drawn)
    ensures username in s.users && KnownAs(c, s, username, q, at, drawn) == Some(Named(username, s.users[username]))
  {
    hide ValidUsername;
  }

  /** An account whose stored hash is of a password signs in with that one alone. */
  lemma HashSignsIn(c: Crypto, s: State, username: string, password: string)
    requires Faithful(c) && ValidUsername(username) && username in s.users
    requires s.users[username].passwordHash == c.hash(password)
    ensures SignsIn(c, s, username, password, s.users[username])
  {
    hide ValidUsername, SignIn, KnownAs, Fresh;
    forall q, at, drawn ensures SignIn(c, s, username, q, at, drawn)
                             == if q == password && !s.users[username].disabled then Done else Unauthorized
    {
      SignInIs(c, s, username, q, at, drawn);
    }
    forall at, drawn | Fresh(s, drawn) && !s.users[username].disabled
      ensures KnownAs(c, s, username, password, at, drawn) == Some(Named(username, s.users[username]))
    {
      SignInIs(c, s, username, password, at, drawn);
      KnownAsIs(c, s, username, password, at, drawn);
    }
  }

  lemma UnchangedSame(c: Crypto, s: State, t: State, username: string)
    requires username in s.users <==> username in t.users
    requires username in s.users ==> t.users[username] == s.users[username]
    ensures SameFor(c, s, t, username)
  {
    hide ValidUsername, SignIn;
    forall q, at, drawn ensures SignIn(c, t, username, q, at, drawn) == SignIn(c, s, username, q, at, drawn) {
      SignInIs(c, s, username, q, at, drawn);
      SignInIs(c, t, username, q, at, drawn);
    }
  }

  /** Signing in is for an enabled account's own password. The session lasts its time, nobody else's is
      touched, and nothing else changes. */
  lemma LoginAchieves(c: Crypto, s: State, e: Event)
    requires e.request.LoginRequest? && Fresh(s, e.request.drawn)
    ensures
      var (t, status) := Handle(c, s, e);
      var name := e.request.username;
      && (status == Done <==> ValidUsername(name) && name in s.users && !s.users[name].disabled
                              && c.verify(e.request.password, s.users[name].passwordHash))
      && (status == Done ==> forall token, at :: at >= e.now ==>
            Resolved(t.sessions, token, at)
              == if token != e.request.drawn then Resolved(s.sessions, token, at)
                 else if at < e.now + SESSION_TTL then Some(Named(name, s.users[name])) else None)
      && (status != Done ==> t == s) && t.users == s.users && t.keys == s.keys
  {
    hide ValidUsername;
  }

  /** Signing out ends the cookie's session and no other. */
  lemma LogoutAchieves(c: Crypto, s: State, e: Event)
    requires e.request.LogoutRequest?
    ensures
      var (t, status) := Handle(c, s, e);
      && status == Done && t.users == s.users && t.keys == s.keys
      && forall token, at :: Resolved(t.sessions, token, at)
                          == if token == e.cookie then None else Resolved(s.sessions, token, at)
  {
  }

  // ----- Accounts ------------------------------------------------------------------------------------

  /** Whoever the cookie stands for may do this. */
  predicate May(s: State, e: Event, permission: Permission) {
    var p := Resolved(s.sessions, e.cookie, e.now);
    p.Some? && Allows(p.value.role, permission)
  }

  /** The new account signs in with its password, as what it was created. */
  lemma CreateAchieves(c: Crypto, s: State, e: Event)
    requires Faithful(c) && e.request.CreateRequest?
    ensures
      var (t, status) := Handle(c, s, e);
      var r := e.request;
      var given := if r.grants.Some? then r.grants.value else EVERYTHING;
      && (status == Done <==> May(s, e, UserWrite) && ValidUsername(r.username) && r.username !in s.users
                              && |r.password| >= MINIMUM_PASSWORD && r.role.Some?
                              && (r.role.value.Administrator? ==> given.Unrestricted()))
      && (status != Done ==> t == s)
      && (status == Done ==>
            && SignsIn(c, t, r.username, r.password, User(c.hash(r.password), r.role.value, false, given))
            && SameSessions(s, t) && SameKeys(s, t)
            && forall name :: name != r.username ==> SameFor(c, s, t, name))
  {
    hide ValidUsername, SignsIn, SameFor, Resolved, Faithful;
    var (t, status) := Handle(c, s, e);
    if status == Done {
      HashSignsIn(c, t, e.request.username, e.request.password);
      forall name | name != e.request.username ensures SameFor(c, s, t, name) {
        UnchangedSame(c, s, t, name);
      }
    }
  }

  /** What a patch leaves of an account: the fields it names, and for the rest what there was, except that an
      administrator is not narrowed. */
  predicate PatchGives(u: User, v: User, role: Option<Role>, disabled: Option<bool>, grants: Option<Grants>) {
    && v.passwordHash == u.passwordHash
    && (if role.Some? then v.role == role.value else v.role == u.role)
    && (if disabled.Some? then v.disabled == disabled.value else v.disabled == u.disabled)
    && (if v.role.Administrator? then v.grants.Unrestricted()
        else if grants.Some? then v.grants == grants.value else v.grants == u.grants)
  }

  lemma PatchedGives(u: User, role: Option<Role>, disabled: Option<bool>, grants: Option<Grants>)
    requires
      var administrator := (if role.Some? then role.value else u.role).Administrator?;
      grants.Some? && administrator ==> grants.value.Unrestricted()
    ensures PatchGives(u, Patched(u, role, disabled, grants), role, disabled, grants)
  {
  }

  /** The password that signed in before is the one that does, while the account is enabled; as what, the
      patch decides. When anything changed, the sessions from before are over. */
  lemma PatchAchieves(c: Crypto, s: State, e: Event, password: string)
    requires Inv(s) && Faithful(c) && e.request.PatchRequest?
    requires
      var name := e.request.username;
      name in s.users ==> s.users[name].passwordHash == c.hash(password)
    ensures
      var (t, status) := Handle(c, s, e);
      var r := e.request;
      && (status != Done ==> t == s)
      && (status == Done ==>
            && r.username in s.users && r.username in t.users
            && PatchGives(s.users[r.username], t.users[r.username], r.role, r.disabled, r.grants)
            && SignsIn(c, t, r.username, password, t.users[r.username])
            && SameKeys(s, t)
            && (if t.users == s.users then SameSessions(s, t) else Ended(s, t, r.username))
            && forall name :: name != r.username ==> SameFor(c, s, t, name))
  {
    hide ValidUsername, SignsIn, SameFor, Resolved, Faithful, Inv, LastAdmin, Patched, UserClosed, PatchGives, Ended;
    var (t, status) := Handle(c, s, e);
    var r := e.request;
    if status == Done {
      var u := s.users[r.username];
      PatchedGives(u, r.role, r.disabled, r.grants);
      HashKept(u, r.role, r.disabled, r.grants);
      PatchDone(c, s, e);
      HashSignsIn(c, t, r.username, password);
      NamesValid(s, r.username);
      EndedIs(s, t, r.username);
      forall name | name != r.username ensures SameFor(c, s, t, name) {
        UnchangedSame(c, s, t, name);
      }
    }
  }

  lemma LastAdminIs(s: State, username: string)
    requires username in s.users
    ensures LastAdmin(s, username) <==> EnabledAdmins(s.users) == {username}
  {
    var admins := EnabledAdmins(s.users);
    if username in admins && |admins| <= 1 {
      assert |admins - {username}| == |admins| - 1;
      assert admins == {username};
    }
    assert admins == {username} ==> username in admins && |admins| == 1;
  }

  /** Any field may be set by who manages users, as long as an administrator who can sign in remains and no
      administrator is narrowed. */
  lemma WhenPatched(c: Crypto, s: State, e: Event)
    requires e.request.PatchRequest?
    ensures
      var r := e.request;
      var allowed :=
        && May(s, e, UserWrite) && ValidUsername(r.username) && r.username in s.users
        && (r.role.Some? || r.disabled.Some? || r.grants.Some?)
        && (EnabledAdmins(s.users) == {r.username} ==>
              r.disabled != Some(true) && (r.role.Some? ==> r.role.value.Administrator?))
        && (r.grants.Some? && !r.grants.value.Unrestricted() ==>
              if r.role.Some? then !r.role.value.Administrator? else !s.users[r.username].role.Administrator?);
      Handle(c, s, e).1 == Done <==> allowed
  {
    hide ValidUsername, Resolved, LastAdmin, Patched, UserClosed, EnabledAdmins;
    if e.request.username in s.users {
      LastAdminIs(s, e.request.username);
    }
  }

  /** Any account but one's own may be deleted by who manages users, as long as an administrator who can sign
      in remains. */
  lemma WhenDeleted(c: Crypto, s: State, e: Event)
    requires e.request.DeleteRequest?
    ensures
      var name, p := e.request.username, Resolved(s.sessions, e.cookie, e.now);
      var allowed :=
        && May(s, e, UserWrite) && name != "" && name != p.value.username && name in s.users
        && EnabledAdmins(s.users) != {name};
      Handle(c, s, e).1 == Done <==> allowed
  {
    hide Resolved, LastAdmin, UserClosed, EnabledAdmins, KeysWithout;
    if e.request.username in s.users {
      LastAdminIs(s, e.request.username);
    }
  }

  lemma HashKept(u: User, role: Option<Role>, disabled: Option<bool>, grants: Option<Grants>)
    ensures Patched(u, role, disabled, grants).passwordHash == u.passwordHash
  {
  }

  lemma PatchDone(c: Crypto, s: State, e: Event)
    requires e.request.PatchRequest? && Handle(c, s, e).1 == Done
    ensures
      var t, r := Handle(c, s, e).0, e.request;
      && ValidUsername(r.username) && r.username in s.users
      && t.users == s.users[r.username := Patched(s.users[r.username], r.role, r.disabled, r.grants)]
      && t.sessions == (if t.users == s.users then s.sessions else UserClosed(s.sessions, r.username))
      && t.keys == s.keys
  {
    hide ValidUsername, Resolved, LastAdmin, Patched, UserClosed;
    var r := e.request;
    var patched := Patched(s.users[r.username], r.role, r.disabled, r.grants);
    assert s.users[r.username := patched][r.username] == patched;
  }

  /** Closing an account's sessions ends them and leaves the others. */
  lemma EndedIs(s: State, t: State, username: string)
    requires username != ""
    ensures t.sessions == UserClosed(s.sessions, username) ==> Ended(s, t, username)
  {
  }

  /** The account is gone with its sessions and keys, and signs in no more. */
  lemma DeleteAchieves(c: Crypto, s: State, e: Event)
    requires Inv(s) && e.request.DeleteRequest?
    ensures
      var (t, status) := Handle(c, s, e);
      var name := e.request.username;
      && (status != Done ==> t == s)
      && (status == Done ==>
            && (forall q, at, drawn :: SignIn(c, t, name, q, at, drawn) == Unauthorized)
            && Ended(s, t, name)
            && (forall id :: KeyOf(t, id) == if id in s.keys && s.keys[id].owner == name then None else KeyOf(s, id))
            && forall other :: other != name ==> SameFor(c, s, t, other))
  {
    hide ValidUsername, SameFor, Resolved, Inv, LastAdmin, UserClosed, SignIn, Ended;
    var (t, status) := Handle(c, s, e);
    var name := e.request.username;
    if status == Done {
      forall q, at, drawn ensures SignIn(c, t, name, q, at, drawn) == Unauthorized {
        SignInIs(c, t, name, q, at, drawn);
      }
      EndedIs(s, t, name);
      forall other | other != name ensures SameFor(c, s, t, other) {
        UnchangedSame(c, s, t, other);
      }
    }
  }

  /** The new password signs in and no other does, as what the account was; the sessions from before are
      over, and whoever changed their own holds a new one. */
  lemma PasswordAchieves(c: Crypto, s: State, e: Event)
    requires Inv(s) && Faithful(c) && e.request.PasswordRequest? && Fresh(s, e.request.drawn)
    ensures
      var (t, status) := Handle(c, s, e);
      var r := e.request;
      && (status != Done ==> t == s)
      && (status == Done ==>
            var p := Resolved(s.sessions, e.cookie, e.now).value;
            var name := if r.named == "" then p.username else r.named;
            && name in s.users && SignsIn(c, t, name, r.next, s.users[name]) && SameKeys(s, t)
            && (forall token, at :: at >= e.now && token != r.drawn ==>
                  Resolved(t.sessions, token, at)
                    == if Of(s, token, name) then None else Resolved(s.sessions, token, at))
            && Resolved(t.sessions, r.drawn, e.now) == (if name == p.username then Some(p) else None)
            && forall other :: other != name ==> SameFor(c, s, t, other))
  {
    hide ValidUsername, SignsIn, SameFor, Resolved, Faithful, Inv, UserClosed, Opened, Of;
    var (t, status) := Handle(c, s, e);
    var r := e.request;
    if status == Done {
      var p := Resolved(s.sessions, e.cookie, e.now).value;
      var name := if r.named == "" then p.username else r.named;
      NamesValid(s, name);
      SelfIsEnabled(s, e.cookie, e.now);
      HashSignsIn(c, t, name, r.next);
      SameButHash(c, t, name, r.next, s.users[name]);
      RekeyedSessions(c, s, name, r.next, name == p.username, r.drawn, e.now);
      forall other | other != name ensures SameFor(c, s, t, other) {
        UnchangedSame(c, s, t, other);
      }
    }
  }

  lemma NamesValid(s: State, name: string)
    requires Inv(s) && name in s.users
    ensures ValidUsername(name) && name != ""
  {
  }

  /** The hash is no part of what signing in shows. */
  lemma SameButHash(c: Crypto, s: State, name: string, password: string, u: User)
    requires name in s.users && SignsIn(c, s, name, password, s.users[name]) && SameAuthority(u, s.users[name])
    ensures SignsIn(c, s, name, password, u)
  {
    hide SignIn, KnownAs, Fresh;
    assert Named(name, u) == Named(name, s.users[name]);
  }

  lemma RekeyedSessions(c: Crypto, s: State, name: string, next: string, own: bool, drawn: string, now: int)
    requires name in s.users && name != "" && Fresh(s, drawn)
    ensures
      var t := Rekeyed(c, s, name, next, own, drawn, now);
      && (forall token, at :: at >= now && token != drawn ==>
            Resolved(t.sessions, token, at) == if Of(s, token, name) then None else Resolved(s.sessions, token, at))
      && Resolved(t.sessions, drawn, now) == (if own then Some(Named(name, s.users[name])) else None)
  {
  }

  /** Who may change which password: one's own with the current one, and anybody's with the permission. */
  lemma PasswordIsChanged(c: Crypto, s: State, e: Event)
    requires Inv(s) && e.request.PasswordRequest?
    ensures
      var r, p := e.request, Resolved(s.sessions, e.cookie, e.now);
      var allowed :=
        && p.Some? && |r.next| >= MINIMUM_PASSWORD
        && var name := if r.named == "" then p.value.username else r.named;
           if name == p.value.username then
             r.current != "" && c.verify(r.current, s.users[p.value.username].passwordHash)
           else May(s, e, UserWrite) && name in s.users;
      Handle(c, s, e).1 == Done <==> allowed
  {
    hide Resolved, Inv;
    SelfIsEnabled(s, e.cookie, e.now);
  }

  // ----- Access keys ---------------------------------------------------------------------------------

  /** The key is there with its secret, and its issuer owns it. */
  lemma IssueAchieves(c: Crypto, s: State, e: Event)
    requires e.request.IssueRequest?
    ensures
      var (t, status) := Handle(c, s, e);
      var r := e.request;
      && (status == Done <==> May(s, e, CredentialWrite) && |r.name| <= MAX_KEY_NAME)
      && t.users == s.users && t.sessions == s.sessions
      && forall id :: KeyOf(t, id)
                   == if status == Done && id == r.id
                      then Some(AccessKey(r.secret, Resolved(s.sessions, e.cookie, e.now).value.username))
                      else KeyOf(s, id)
  {
    hide Resolved;
  }

  /** A key somebody may reach: one's own, or any for who manages users. */
  predicate InReach(s: State, e: Event, id: string) {
    && id != "" && May(s, e, CredentialWrite) && KeyOf(s, id).Some?
    && (May(s, e, UserWrite) || KeyOf(s, id).value.owner == Resolved(s.sessions, e.cookie, e.now).value.username)
  }

  /** The key is gone and no other is. */
  lemma RevokeAchieves(c: Crypto, s: State, e: Event)
    requires e.request.RevokeRequest?
    ensures
      var (t, status) := Handle(c, s, e);
      && (status == Done <==> InReach(s, e, e.request.id)) && t.users == s.users && t.sessions == s.sessions
      && forall id :: KeyOf(t, id) == if status == Done && id == e.request.id then None else KeyOf(s, id)
  {
    hide Resolved;
  }

  /** The key keeps its owner and has the new secret; the old one opens nothing any more. */
  lemma RotateAchieves(c: Crypto, s: State, e: Event)
    requires e.request.RotateRequest?
    ensures
      var (t, status) := Handle(c, s, e);
      var r := e.request;
      && (status == Done <==> InReach(s, e, r.id)) && t.users == s.users && t.sessions == s.sessions
      && forall id :: KeyOf(t, id)
                   == if status == Done && id == r.id then Some(AccessKey(r.secret, s.keys[id].owner)) else KeyOf(s, id)
  {
    hide Resolved;
  }
}
