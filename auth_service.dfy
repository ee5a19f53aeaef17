/** The admin login service (src/services/auth_services.ts). The network
    call itself is not modelled: `login` is given what it observes of the
    response, the `ok` flag and the parsed JSON body (absent when the body
    does not parse), and decides between failing with a message and storing
    the token it received. */
module AuthService {
  import opened Wrappers
  import opened TokenStore

  const LoginFailed: string := "Login failed"

  /** The fields of the parsed login body that `login` reads. */
  datatype LoginBody = LoginBody(message: Option<string>, token: Option<string>)

  /** What `login` observes of the `fetch` response; `body` is `None` when
      `res.json()` threw. */
  datatype LoginResponse = LoginResponse(ok: bool, body: Option<LoginBody>)

  /** `data?.message`, with a missing body or field read as the empty string. */
  function MessageOf(response: LoginResponse): string {
    if response.body.Some? then response.body.value.message.GetOr("") else ""
  }

  /** `data?.token`, with a missing body or field read as the empty string. */
  function TokenOf(response: LoginResponse): string {
    if response.body.Some? then response.body.value.token.GetOr("") else ""
  }

  /** The outcome of `login` for a response: the token on success, the
      message of the thrown error on failure. */
  function LoginOutcome(response: LoginResponse): (r: Result<string, string>)
    ensures r.Success? <==> response.ok && TokenOf(response) != ""
    ensures r.Success? ==> r.value == TokenOf(response) && r.value != ""
    ensures r.Failure? ==> r.error != ""
    ensures !response.ok && MessageOf(response) != "" ==> r == Failure(MessageOf(response))
    ensures r.Failure? && (response.ok || MessageOf(response) == "") ==> r.error == LoginFailed
    ensures response.body.None? ==> r == Failure(LoginFailed)
  {
    if !response.ok then
      Failure(if MessageOf(response) != "" then MessageOf(response) else LoginFailed)
    else if TokenOf(response) == "" then
      Failure(LoginFailed)
    else
      Success(TokenOf(response))
  }

  /** `authService.login`: on success the token is stored (and nothing else
      changes) and returned; on failure the storage is left as it was. */
  method Login(storage: LocalStorage, response: LoginResponse) returns (r: Result<string, string>)
    modifies storage
    ensures r == LoginOutcome(response)
    ensures r.Success? ==> storage.items == WithToken(old(storage.items), r.value)
    ensures r.Success? ==> storage.Token() == Some(r.value)
    ensures r.Failure? ==> storage.items == old(storage.items)
  {
    if !response.ok {
      var message := MessageOf(response);
      return Failure(if message != "" then message else LoginFailed);
    }
    var token := TokenOf(response);
    if token == "" {
      return Failure(LoginFailed);
    }
    StoreAuthToken(storage, token);
    return Success(token);
  }

  /** `authService.logout`: removes the stored token. */
  method Logout(storage: LocalStorage)
    modifies storage
    ensures storage.items == WithoutToken(old(storage.items))
    ensures storage.Token() == None
  {
    RemoveAuthToken(storage);
  }

  /** `authService.getToken`: the stored token, or none; changes nothing. */
  method GetToken(storage: LocalStorage) returns (token: Option<string>)
    ensures token == storage.Token()
  {
    token := GetAuthToken(storage);
  }

  /** Log in, read the token back, log out and read it back again. */
  method LoginSession(storage: LocalStorage, response: LoginResponse)
    returns (loggedIn: Option<string>, afterLogout: Option<string>)
    modifies storage
    ensures LoginOutcome(response).Success? ==> loggedIn == Some(TokenOf(response))
    ensures LoginOutcome(response).Failure? ==> loggedIn == TokenIn(old(storage.items))
    ensures afterLogout == None
    ensures storage.items == WithoutToken(old(storage.items))
    ensures storage.Token() == None
  {
    var r := Login(storage, response);
    loggedIn := GetToken(storage);
    Logout(storage);
    afterLogout := GetToken(storage);
  }
}
