/** The authentication context: a token and a user, kept in local storage
    under "auth_token" and "auth_user". The user is kept as the JSON text
    stored for it. */
module AuthProvider {
  import opened Wrappers
  import opened LocalStorage

  const TokenKey: string := "auth_token"
  const UserKey: string := "auth_user"

  /** A stored session: the token and the user's JSON text. */
  datatype Session = Session(token: string, user: string)

  /** What became of the login request: a body with a token and a user,
      a response that was not OK, or an exception. */
  datatype LoginOutcome = LoginOk(token: string, user: string) | LoginRejected | LoginThrew

  /** The error `login` rethrows to its caller. */
  datatype LoginError = LoginFailed | RequestError

  /** The session the mount effect restores: both keys stored and
      non-empty. */
  function StoredSession(store: Store): Option<Session> {
    var storedToken := GetItem(store, TokenKey);
    var storedUser := GetItem(store, UserKey);
    if storedToken.Some? && storedToken.value != "" && storedUser.Some? && storedUser.value != "" then
      Some(Session(storedToken.value, storedUser.value))
    else
      None
  }

  /** The writes of a successful `login`. */
  function SaveSession(store: Store, token: string, user: string): Store {
    SetItem(SetItem(store, TokenKey, token), UserKey, user)
  }

  /** The removals of `logout`. */
  function ClearSession(store: Store): Store {
    RemoveItem(RemoveItem(store, TokenKey), UserKey)
  }

  /** A saved session is restored by the next mount when both parts are
      non-empty (the JSON text of a user object never is). */
  lemma SaveThenRestore(store: Store, token: string, user: string)
    ensures StoredSession(SaveSession(store, token, user)) ==
      if token != "" && user != "" then Some(Session(token, user)) else None
  {
    assert TokenKey != UserKey by {
      assert TokenKey[5] != UserKey[5];
    }
    assert SaveSession(store, token, user)[TokenKey] == token;
  }

  /** After `logout` the next mount restores nothing. */
  lemma ClearThenRestore(store: Store)
    ensures StoredSession(ClearSession(store)) == None
  {
  }

  /** The context's state, with the local storage it reads and writes. */
  class AuthState {
    var store: Store
    var user: Option<string>
    var token: Option<string>
    var loading: bool

    constructor(store: Store)
      ensures this.store == store && user == None && token == None && loading
    {
      this.store := store;
      user := None;
      token := None;
      loading := true;
    }

    /** The mount effect: a stored session is restored, otherwise the state
        is left as it is; loading ends either way. */
    method Mount()
      modifies this
      ensures StoredSession(store).Some? ==>
        token == Some(StoredSession(store).value.token) && user == Some(StoredSession(store).value.user)
      ensures StoredSession(store).None? ==> token == old(token) && user == old(user)
      ensures !loading && store == old(store)
    {
      var storedToken := GetItem(store, TokenKey);
      var storedUser := GetItem(store, UserKey);
      if storedToken.Some? && storedToken.value != "" && storedUser.Some? && storedUser.value != "" {
        token := Some(storedToken.value);
        user := Some(storedUser.value);
      }
      loading := false;
    }

    /** `login`: on an OK response the token and user are set and stored;
        a response that is not OK, or an exception, is passed on to the
        caller as an error and changes nothing. */
    method Login(outcome: LoginOutcome) returns (result: Result<(), LoginError>)
      modifies this
      ensures result.Success? <==> outcome.LoginOk?
      ensures outcome.LoginOk? ==>
        token == Some(outcome.token) && user == Some(outcome.user) &&
        store == SaveSession(old(store), outcome.token, outcome.user)
      ensures !outcome.LoginOk? ==> token == old(token) && user == old(user) && store == old(store)
      ensures loading == old(loading)
    {
      match outcome {
        case LoginRejected =>
          return Failure(LoginFailed);
        case LoginThrew =>
          return Failure(RequestError);
        case LoginOk(t, u) =>
          token := Some(t);
          user := Some(u);
          store := SetItem(store, TokenKey, t);
          store := SetItem(store, UserKey, u);
          return Success(());
      }
    }

    /** `logout`: clears the user and the token and removes both keys. */
    method Logout()
      modifies this
      ensures user == None && token == None
      ensures store == ClearSession(old(store))
      ensures loading == old(loading)
    {
      user := None;
      token := None;
      store := RemoveItem(store, TokenKey);
      store := RemoveItem(store, UserKey);
    }
  }
}
