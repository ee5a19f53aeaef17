/** The API configuration and the bearer-token store of the admin client
    (src/config/api.ts). The token lives in the browser's `localStorage`
    under the single key `"authToken"`; every other entry of the storage is
    left alone by the four token operations. */
module TokenStore {
  import opened Wrappers

  const AuthTokenKey: string := "authToken"
  const DefaultApiBaseUrl: string := "http://localhost:5000/api"
  const LoginPath: string := "/admin/login"
  const AuthorizationHeader: string := "Authorization"
  const BearerPrefix: string := "Bearer "

  // ---------------------------------------------------------------------------
  // Base URL and login endpoint

  /** `VITE_API_BASE_URL || "http://localhost:5000/api"`: the configured
      value when it is set and non-empty, the local default otherwise. */
  function ApiBaseUrl(configured: Option<string>): (url: string)
    ensures configured.Some? && configured.value != "" ==> url == configured.value
    ensures configured.None? || configured.value == "" ==> url == DefaultApiBaseUrl
    ensures url != ""
  {
    if configured.Some? && configured.value != "" then configured.value else DefaultApiBaseUrl
  }

  /** `${API_BASE_URL}/admin/login`: the base URL followed by the login path. */
  function LoginEndpoint(configured: Option<string>): (url: string)
    ensures |url| > |LoginPath|
    ensures url[..|url| - |LoginPath|] == ApiBaseUrl(configured)
    ensures url[|url| - |LoginPath|..] == LoginPath
  {
    var base := ApiBaseUrl(configured);
    assert (base + LoginPath)[..|base|] == base;
    base + LoginPath
  }

  // ---------------------------------------------------------------------------
  // The storage entries, as values

  /** `localStorage.getItem("authToken")`: the stored token, or none. */
  function TokenIn(items: map<string, string>): Option<string> {
    if AuthTokenKey in items then Some(items[AuthTokenKey]) else None
  }

  /** The entries after `localStorage.setItem("authToken", token)`: the token
      is stored, replacing any earlier one, and no other entry changes. */
  function WithToken(items: map<string, string>, token: string): (after: map<string, string>)
    ensures TokenIn(after) == Some(token)
    ensures after.Keys == items.Keys + {AuthTokenKey}
    ensures forall k :: k in items && k != AuthTokenKey ==> after[k] == items[k]
  {
    items[AuthTokenKey := token]
  }

  /** The entries after `localStorage.removeItem("authToken")`: no token is
      stored, and no other entry changes. */
  function WithoutToken(items: map<string, string>): (after: map<string, string>)
    ensures TokenIn(after) == None
    ensures after.Keys == items.Keys - {AuthTokenKey}
    ensures forall k :: k in after ==> after[k] == items[k]
  {
    items - {AuthTokenKey}
  }

  /** Storing twice keeps only the last token. */
  lemma StoreTwiceKeepsLast(items: map<string, string>, first: string, second: string)
    ensures WithToken(WithToken(items, first), second) == WithToken(items, second)
  {
  }

  /** Removing after storing leaves the other entries as they were. */
  lemma StoreThenRemove(items: map<string, string>, token: string)
    ensures WithoutToken(WithToken(items, token)) == WithoutToken(items)
  {
  }

  /** The header set `getAuthHeader` builds from a stored token: one
      `Authorization: Bearer <token>` header for a non-empty token, and no
      header at all for a missing or empty one. */
  function AuthHeaderFor(token: Option<string>): (header: map<string, string>)
    ensures header != map[] <==> token.Some? && token.value != ""
    ensures header.Keys <= {AuthorizationHeader}
    ensures AuthorizationHeader in header ==> header[AuthorizationHeader] == BearerPrefix + token.value
  {
    if token.Some? && token.value != "" then
      var header := map[AuthorizationHeader := BearerPrefix + token.value];
      assert AuthorizationHeader in header;
      header
    else map[]
  }

  /** The header's value gives back the token it was built from. */
  lemma AuthHeaderCarriesToken(token: string)
    requires token != ""
    ensures var value := AuthHeaderFor(Some(token))[AuthorizationHeader];
            |value| > |BearerPrefix| && value[..|BearerPrefix|] == BearerPrefix && value[|BearerPrefix|..] == token
  {
    var value := BearerPrefix + token;
    assert value[..|BearerPrefix|] == BearerPrefix;
    assert value[|BearerPrefix|..] == token;
  }

  // ---------------------------------------------------------------------------
  // The browser storage and the operations of api.ts on it

  /** The browser's `localStorage`: string keys to string values. */
  class LocalStorage {
    var items: map<string, string>

    constructor (initial: map<string, string>)
      ensures items == initial
    {
      items := initial;
    }

    /** The token currently stored under `"authToken"`. */
    function Token(): Option<string>
      reads this
    {
      TokenIn(items)
    }
  }

  /** `getAuthHeader()`: builds the header set from the stored token and
      changes nothing. */
  method GetAuthHeader(storage: LocalStorage) returns (header: map<string, string>)
    ensures header == AuthHeaderFor(storage.Token())
    ensures header != map[] <==> AuthTokenKey in storage.items && storage.items[AuthTokenKey] != ""
  {
    var token := GetAuthToken(storage);
    header := AuthHeaderFor(token);
  }

  /** `storeAuthToken(token)`. */
  method StoreAuthToken(storage: LocalStorage, token: string)
    modifies storage
    ensures storage.items == WithToken(old(storage.items), token)
    ensures storage.Token() == Some(token)
  {
    storage.items := storage.items[AuthTokenKey := token];
  }

  /** `removeAuthToken()`. */
  method RemoveAuthToken(storage: LocalStorage)
    modifies storage
    ensures storage.items == WithoutToken(old(storage.items))
    ensures storage.Token() == None
  {
    storage.items := storage.items - {AuthTokenKey};
  }

  /** `getAuthToken()`: the stored token, or none; changes nothing. */
  method GetAuthToken(storage: LocalStorage) returns (token: Option<string>)
    ensures token.Some? <==> AuthTokenKey in storage.items
    ensures token.Some? ==> token.value == storage.items[AuthTokenKey]
    ensures token == storage.Token()
  {
    token := storage.Token();
  }
}
