/**
 * Authentication state of the web client: the token kept in the browser's storage,
 * the signed-in user (services/auth.service.ts), and the HTTP interceptor that attaches
 * the token to requests and signs the user out on a 401 answer
 * (interceptors/auth.interceptor.ts). Storage is one optional token; server answers are
 * parameters.
 */
module Auth {
  import opened Wrappers
  import opened Strings

  /** `localStorage`'s "token" entry; `None` when absent. */
  class TokenStore {
    var token: Option<string>

    constructor(token: Option<string>)
      ensures this.token == token
    {
      this.token := token;
    }
  }

  datatype User = User(id: Option<int>, username: string, email: string)

  /** An outgoing request, reduced to its URL and headers. */
  datatype Request = Request(url: string, headers: map<string, string>)

  /** What the server answers: a success, or an error with its HTTP status. */
  datatype Outcome = Succeeded | Failed(status: int)

  /** The answer to `GET /me`. */
  datatype MeReply = MeOk(user: User) | MeFailed

  const AuthorizationHeader := "Authorization"
  const BearerPrefix := "Bearer "
  const LoginRoute := "/login"

  /** The request the interceptor forwards: with a token, the same request whose Authorization
      header is "Bearer " and the token; without one, the request unchanged. */
  function Authorized(request: Request, token: Option<string>): (r: Request)
    ensures r.url == request.url
    ensures !HasToken(token) ==> r == request
    ensures HasToken(token) ==>
      AuthorizationHeader in r.headers &&
      StartsWith(r.headers[AuthorizationHeader], BearerPrefix) &&
      r.headers[AuthorizationHeader][|BearerPrefix|..] == token.value
    ensures forall h :: h != AuthorizationHeader ==>
      (h in r.headers <==> h in request.headers) && (h in r.headers ==> r.headers[h] == request.headers[h])
  {
    if HasToken(token) then
      var value := BearerPrefix + token.value;
      assert value[..|BearerPrefix|] == BearerPrefix && value[|BearerPrefix|..] == token.value;
      request.(headers := request.headers[AuthorizationHeader := value])
    else request
  }

  /** Attaching the header twice is the same as attaching it once. */
  lemma AuthorizedIdempotent(request: Request, token: Option<string>)
    ensures Authorized(Authorized(request, token), token) == Authorized(request, token)
  {
    if HasToken(token) {
      var once := Authorized(request, token);
      assert once.headers[AuthorizationHeader := BearerPrefix + token.value] == once.headers;
    }
  }

  /** `AuthInterceptor`: `answer` is what the server does with the forwarded request. With a token,
      a 401 answer removes the token and navigates to the login page; every answer, error or not,
      is passed on unchanged. */
  method Intercept(store: TokenStore, request: Request, answer: Outcome)
    returns (forwarded: Request, passedOn: Outcome, navigateTo: Option<string>)
    modifies store
    ensures forwarded == Authorized(request, old(store.token))
    ensures passedOn == answer
    ensures HasToken(old(store.token)) && answer == Failed(401) ==>
      store.token == None && navigateTo == Some(LoginRoute)
    ensures !(HasToken(old(store.token)) && answer == Failed(401)) ==>
      store.token == old(store.token) && navigateTo == None
  {
    var token := store.token;
    navigateTo := None;
    if token.Some? && token.value != "" {
      forwarded := request.(headers := request.headers[AuthorizationHeader := BearerPrefix + token.value]);
      if answer.Failed? && answer.status == 401 {
        store.token := None;
        navigateTo := Some(LoginRoute);
      }
    } else {
      forwarded := request;
    }
    passedOn := answer;
  }

  class AuthService {
    const store: TokenStore
    var currentUser: Option<User>

    /** The constructor loads the user only when a token is stored; `me` answers that load. */
    constructor(store: TokenStore, me: MeReply)
      modifies store
      ensures this.store == store
      ensures !HasToken(old(store.token)) ==> currentUser == None && store.token == old(store.token)
      ensures HasToken(old(store.token)) && me.MeOk? ==> currentUser == Some(me.user) && store.token == old(store.token)
      ensures HasToken(old(store.token)) && me.MeFailed? ==> currentUser == None && store.token == None
    {
      this.store := store;
      currentUser := None;
      new;
      if store.token.Some? && store.token.value != "" {
        var _ := LoadCurrentUser(me);
      }
    }

    /** `getToken`. */
    function GetToken(): Option<string>
      reads this, store
    {
      store.token
    }

    /** `isAuthenticated`: a stored, non-empty token. */
    predicate IsAuthenticated()
      reads this, store
    {
      HasToken(GetToken())
    }

    /** `loadCurrentUser`: without a token the user is cleared and nothing is requested. Otherwise
        `/me` is requested with the token (the returned header value); a failure removes the token
        and clears the user. */
    method LoadCurrentUser(me: MeReply) returns (sentHeader: Option<string>)
      modifies this`currentUser, store
      ensures !HasToken(old(store.token)) ==>
        sentHeader == None && currentUser == None && store.token == old(store.token)
      ensures HasToken(old(store.token)) ==> sentHeader == Some(BearerPrefix + old(store.token).value)
      ensures HasToken(old(store.token)) && me.MeOk? ==> currentUser == Some(me.user) && store.token == old(store.token)
      ensures HasToken(old(store.token)) && me.MeFailed? ==> currentUser == None && store.token == None
    {
      var token := store.token;
      if !(token.Some? && token.value != "") {
        currentUser := None;
        return None;
      }
      sentHeader := Some(BearerPrefix + token.value);
      match me {
        case MeOk(user) =>
          currentUser := Some(user);
        case MeFailed =>
          store.token := None;
          currentUser := None;
      }
    }

    /** `login`: `accessToken` is the token the server issued, `None` when the login failed (the
        error goes to the caller). The token is stored first, then the user is loaded. */
    method Login(accessToken: Option<string>, me: MeReply)
      modifies this`currentUser, store
      ensures accessToken.None? ==> currentUser == old(currentUser) && store.token == old(store.token)
      ensures accessToken.Some? && accessToken.value == "" ==> store.token == Some("") && currentUser == None
      ensures accessToken.Some? && accessToken.value != "" && me.MeOk? ==>
        store.token == accessToken && currentUser == Some(me.user) && IsAuthenticated()
      ensures accessToken.Some? && accessToken.value != "" && me.MeFailed? ==>
        store.token == None && currentUser == None && !IsAuthenticated()
    {
      if accessToken.Some? {
        store.token := accessToken;
        var _ := LoadCurrentUser(me);
      }
    }

    /** `logout`: the token is removed and the user cleared. */
    method Logout()
      modifies this`currentUser, store
      ensures store.token == None && currentUser == None && !IsAuthenticated()
    {
      store.token := None;
      currentUser := None;
    }
  }
}
