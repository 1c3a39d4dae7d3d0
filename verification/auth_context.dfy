/** The session of the browser client: the `user` and `loading` state of the auth context,
    kept in step with the token and user saved in storage. */
module AuthContextProvider {
  import opened Common
  import opened ClientData
  import opened BrowserStorage

  /** How a login or register request settled: the reply's user and token, or a failure
      with the reply's `error` text when there was one. */
  datatype AuthReply = Accepted(user: SessionUser, token: string) | Rejected(serverError: Option<string>)

  /** What `login` and `register` return: `{ success }` or `{ success: false, error }`. */
  datatype AuthResult = AuthResult(success: bool, error: Option<string>)

  class Session {
    var user: Option<SessionUser>
    var loading: bool
    const storage: LocalStorage

    /** A signed-in user always has both session keys in storage. */
    ghost predicate Consistent()
      reads this, storage
    {
      user.Some? ==> "token" in storage.items && "user" in storage.items
    }

    /** The provider's initial state: no user, still loading. */
    constructor (storage: LocalStorage)
      ensures this.storage == storage && user.None? && loading
      ensures Consistent()
    {
      this.storage := storage;
      user := None;
      loading := true;
    }

    /** The start-up effect. `parse` stands for `JSON.parse` of the saved user, None where
        it throws. The user is restored only when both keys hold a value; a saved user that
        does not parse removes both keys; loading ends in every case. */
    method Restore(parse: string -> Option<SessionUser>)
      modifies this, storage
      ensures !loading
      ensures var token := Stored(old(storage.items), "token");
        var saved := Stored(old(storage.items), "user");
        if token.None? || saved.None? then
          user == old(user) && storage.items == old(storage.items)
        else if parse(saved.value).Some? then
          user == parse(saved.value) && storage.items == old(storage.items)
        else
          user == old(user) && storage.items == ClearSession(old(storage.items))
      ensures old(user).None? ==> Consistent()
    {
      var token := Stored(storage.items, "token");
      var saved := Stored(storage.items, "user");
      if token.Some? && saved.Some? {
        var parsed := parse(saved.value);
        if parsed.Some? {
          user := parsed;
        } else {
          storage.RemoveItem("token");
          storage.RemoveItem("user");
        }
      }
      loading := false;
    }

    /** The common body of `login` and `register`: on success both keys are written and the
        user is set; on failure nothing changes and the error is the reply's text or
        `fallback`. `stringify` stands for `JSON.stringify`. */
    method SignIn(reply: AuthReply, stringify: SessionUser -> string, fallback: string) returns (result: AuthResult)
      modifies this, storage
      ensures loading == old(loading)
      ensures reply.Accepted? ==>
        && result == AuthResult(true, None)
        && user == Some(reply.user)
        && storage.items == SaveSession(old(storage.items), reply.token, stringify(reply.user))
      ensures reply.Rejected? ==>
        && result == AuthResult(false, Some(OrDefault(reply.serverError, fallback)))
        && user == old(user) && storage.items == old(storage.items)
      ensures old(Consistent()) ==> Consistent()
    {
      match reply {
        case Accepted(u, token) =>
          storage.SetItem("token", token);
          storage.SetItem("user", stringify(u));
          user := Some(u);
          result := AuthResult(true, None);
        case Rejected(serverError) =>
          result := AuthResult(false, Some(OrDefault(serverError, fallback)));
      }
    }

    /** `login`. */
    method Login(reply: AuthReply, stringify: SessionUser -> string) returns (result: AuthResult)
      modifies this, storage
      ensures loading == old(loading)
      ensures reply.Accepted? ==>
        && result.success && user == Some(reply.user)
        && storage.items == SaveSession(old(storage.items), reply.token, stringify(reply.user))
      ensures reply.Rejected? ==>
        && result == AuthResult(false, Some(OrDefault(reply.serverError, "Login failed")))
        && user == old(user) && storage.items == old(storage.items)
      ensures old(Consistent()) ==> Consistent()
    {
      result := SignIn(reply, stringify, "Login failed");
    }

    /** `register`. */
    method Register(reply: AuthReply, stringify: SessionUser -> string) returns (result: AuthResult)
      modifies this, storage
      ensures loading == old(loading)
      ensures reply.Accepted? ==>
        && result.success && user == Some(reply.user)
        && storage.items == SaveSession(old(storage.items), reply.token, stringify(reply.user))
      ensures reply.Rejected? ==>
        && result == AuthResult(false, Some(OrDefault(reply.serverError, "Registration failed")))
        && user == old(user) && storage.items == old(storage.items)
      ensures old(Consistent()) ==> Consistent()
    {
      result := SignIn(reply, stringify, "Registration failed");
    }

    /** `logout`: both keys go and the user is cleared. */
    method Logout()
      modifies this, storage
      ensures user.None? && loading == old(loading)
      ensures storage.items == ClearSession(old(storage.items))
      ensures Consistent()
    {
      storage.RemoveItem("token");
      storage.RemoveItem("user");
      user := None;
    }

    /** `isAdmin()`. */
    function IsAdmin(): bool
      reads this
    {
      IsAdminUser(user)
    }

    /** `isAuthenticated`: `!!user`. */
    function IsAuthenticated(): bool
      reads this
    {
      user.Some?
    }
  }
}
