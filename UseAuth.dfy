/** The `useAuth` hook: a session made of an access token and a refresh
    token, kept in local storage under "auth-token" and "refresh-token". */
module UseAuth {
  import opened Wrappers
  import opened LocalStorage

  const AuthTokenKey: string := "auth-token"
  const RefreshTokenKey: string := "refresh-token"

  /** The hook's user: both tokens. */
  datatype Tokens = Tokens(authToken: string, refreshToken: string)

  /** The session the mount check finds: both tokens, when both are stored
      and neither is empty. */
  function StoredTokens(store: Store): Option<Tokens> {
    var authToken := GetItem(store, AuthTokenKey);
    var refreshToken := GetItem(store, RefreshTokenKey);
    if authToken.Some? && authToken.value != "" && refreshToken.Some? && refreshToken.value != "" then
      Some(Tokens(authToken.value, refreshToken.value))
    else
      None
  }

  /** The writes of `login`. */
  function SaveTokens(store: Store, authToken: string, refreshToken: string): Store {
    SetItem(SetItem(store, AuthTokenKey, authToken), RefreshTokenKey, refreshToken)
  }

  /** The removals of `logout`. */
  function ClearTokens(store: Store): Store {
    RemoveItem(RemoveItem(store, AuthTokenKey), RefreshTokenKey)
  }

  /** What `login` saved is what the next mount check finds, provided both
      tokens are non-empty; an empty token is saved but not restored. */
  lemma SaveThenCheck(store: Store, authToken: string, refreshToken: string)
    ensures StoredTokens(SaveTokens(store, authToken, refreshToken)) ==
      if authToken != "" && refreshToken != "" then Some(Tokens(authToken, refreshToken)) else None
  {
    var s := SaveTokens(store, authToken, refreshToken);
    assert AuthTokenKey != RefreshTokenKey by {
      assert AuthTokenKey[1] != RefreshTokenKey[1];
    }
    assert s[AuthTokenKey] == authToken;
  }

  /** After `logout` the mount check finds no session. */
  lemma ClearThenCheck(store: Store)
    ensures StoredTokens(ClearTokens(store)) == None
  {
  }

  /** `login` and `logout` touch no other key of the store. */
  lemma OtherKeysUntouched(store: Store, authToken: string, refreshToken: string, key: string)
    requires key != AuthTokenKey && key != RefreshTokenKey
    ensures key in SaveTokens(store, authToken, refreshToken) <==> key in store
    ensures key in ClearTokens(store) <==> key in store
    ensures key in store ==> SaveTokens(store, authToken, refreshToken)[key] == store[key] && ClearTokens(store)[key] == store[key]
  {
  }

  /** The hook's state, with the local storage it reads and writes. */
  class AuthHook {
    var store: Store
    var user: Option<Tokens>
    var isAuthenticated: bool
    var isLoading: bool

    constructor(store: Store)
      ensures this.store == store && user == None && !isAuthenticated && isLoading
    {
      this.store := store;
      user := None;
      isAuthenticated := false;
      isLoading := true;
    }

    /** `checkAuthStatus`, run on mount: authenticated exactly when both
        tokens are stored and non-empty, the user then being both tokens;
        loading ends either way. */
    method CheckAuthStatus()
      modifies this
      ensures user == StoredTokens(store) && isAuthenticated == user.Some?
      ensures !isLoading && store == old(store)
    {
      var authToken := GetItem(store, AuthTokenKey);
      var refreshToken := GetItem(store, RefreshTokenKey);
      if authToken.Some? && authToken.value != "" && refreshToken.Some? && refreshToken.value != "" {
        isAuthenticated := true;
        user := Some(Tokens(authToken.value, refreshToken.value));
      } else {
        isAuthenticated := false;
        user := None;
      }
      isLoading := false;
    }

    /** `login`: stores both tokens and signs in with them, whatever they
        are. */
    method Login(authToken: string, refreshToken: string)
      modifies this
      ensures store == SaveTokens(old(store), authToken, refreshToken)
      ensures user == Some(Tokens(authToken, refreshToken)) && isAuthenticated
      ensures isLoading == old(isLoading)
    {
      store := SetItem(store, AuthTokenKey, authToken);
      store := SetItem(store, RefreshTokenKey, refreshToken);
      user := Some(Tokens(authToken, refreshToken));
      isAuthenticated := true;
    }

    /** `logout`: removes both tokens and signs out. */
    method Logout()
      modifies this
      ensures store == ClearTokens(old(store))
      ensures user == None && !isAuthenticated
      ensures isLoading == old(isLoading)
    {
      store := RemoveItem(store, AuthTokenKey);
      store := RemoveItem(store, RefreshTokenKey);
      user := None;
      isAuthenticated := false;
    }
  }
}
