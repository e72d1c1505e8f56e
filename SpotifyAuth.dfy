/** The authorization-code login of the quiz client and its credential store
    (src/services/SpotifyAuth.ts): the authorization request of section 4.1.1 of RFC 6749,
    reading the `code` out of the authorization response of section 4.1.2, the exchange of
    the code for tokens through the trusted backend, and the two persisted keys. */
module SpotifyAuth {
  import opened Async
  import opened Url
  import opened Storage

  const ClientId: string := "YOUR_SPOTIFY_CLIENT_ID"
  const RedirectUri: string := "spotifymusicquiz://callback"
  const AuthorizeEndpoint: string := "https://accounts.spotify.com/authorize"
  const Scope: string := "user-read-private user-read-email app-remote-control streaming"
  const AccessTokenKey: string := "spotify_access_token"
  const RefreshTokenKey: string := "spotify_refresh_token"

  // ---------------------------------------------------------------------------------------
  // The authorization request

  /** The query parameters of the authorization request, in order: `client_id` inserted as it
      is, `response_type=code`, and the redirect URI and scope passed through
      `encodeURIComponent`. */
  function AuthorizationParams(clientId: string, redirectUri: string, scope: string): seq<(string, string)> {
    [("client_id", clientId), ("response_type", "code"),
     ("redirect_uri", EncodeUriComponent(redirectUri)), ("scope", EncodeUriComponent(scope))]
  }

  function AuthorizationUrl(clientId: string, redirectUri: string, scope: string): string {
    AuthorizeEndpoint + "?" + JoinParams(AuthorizationParams(clientId, redirectUri, scope))
  }

  lemma QueryAfterEndpoint(q: string)
    ensures QueryParams(AuthorizeEndpoint + "?" + q) == KeyValues(Split(q, '&'))
  {
    var url := AuthorizeEndpoint + "?" + q;
    assert '?' !in AuthorizeEndpoint;
    assert url[|AuthorizeEndpoint|] == '?';
    assert forall k :: 0 <= k < |AuthorizeEndpoint| ==> url[k] == AuthorizeEndpoint[k];
    assert IndexOf(url, '?') == |AuthorizeEndpoint|;
    assert url[|AuthorizeEndpoint| + 1..] == q;
  }

  /** Read back, the authorization URL carries exactly the four parameters, in order, each
      value intact, whatever the redirect URI and scope; a client id holding no `&` is all it
      takes. */
  lemma AuthorizationUrlParams(clientId: string, redirectUri: string, scope: string)
    requires '&' !in clientId
    ensures QueryParams(AuthorizationUrl(clientId, redirectUri, scope)) ==
      [("client_id", clientId), ("response_type", "code"),
       ("redirect_uri", EncodeUriComponent(redirectUri)), ("scope", EncodeUriComponent(scope))]
  {
    var ps := AuthorizationParams(clientId, redirectUri, scope);
    EncodeIsEscaped(redirectUri);
    EncodeIsEscaped(scope);
    assert Joinable(ps);
    QueryAfterEndpoint(JoinParams(ps));
    SplitJoin(ps);
  }

  // ---------------------------------------------------------------------------------------
  // The authorization response: `url.match(/code=([^&]+)/)`

  /** The five characters `code=` stand at `i`. */
  predicate KeyAt(url: string, i: int) {
    && 0 <= i && i + 5 <= |url|
    && url[i] == 'c' && url[i + 1] == 'o' && url[i + 2] == 'd' && url[i + 3] == 'e' && url[i + 4] == '='
  }

  /** The pattern can begin a match at `i`: `code=` followed by at least one non-`&`. */
  predicate CodeStartsAt(url: string, i: int) {
    KeyAt(url, i) && i + 6 <= |url| && url[i + 5] != '&'
  }

  /** `code` is what the capture group holds for a match that begins at `i`: non-empty,
      free of `&`, right after `code=`, and followed by `&` or the end of the URL. */
  predicate MatchAt(url: string, i: int, code: string) {
    && 0 <= i && i + 5 + |code| <= |url|
    && KeyAt(url, i)
    && url[i + 5..i + 5 + |code|] == code
    && code != []
    && '&' !in code
    && (i + 5 + |code| == |url| || url[i + 5 + |code|] == '&')
  }

  /** A match at `i` that no earlier position could begin. */
  predicate LeftmostMatch(url: string, i: int, code: string) {
    MatchAt(url, i, code) && forall j :: 0 <= j < i ==> !CodeStartsAt(url, j)
  }

  /** End of the run of non-`&` characters that starts at `j`. */
  function ValueEnd(url: string, j: nat): (e: nat)
    requires j <= |url|
    ensures j <= e <= |url|
    ensures forall k :: j <= k < e ==> url[k] != '&'
    ensures e == |url| || url[e] == '&'
    decreases |url| - j
  {
    if j == |url| || url[j] == '&' then j else ValueEnd(url, j + 1)
  }

  /** The regex engine's scan: try each start position from `i` on, take the first that
      matches, and let `[^&]+` run as far as it can. */
  function FindCode(url: string, i: nat): Option<string>
    requires i <= |url|
    decreases |url| - i
  {
    if i == |url| then None
    else if CodeStartsAt(url, i) then Some(url[i + 5..ValueEnd(url, i + 5)])
    else FindCode(url, i + 1)
  }

  function ExtractCodeFromUrl(url: string): Option<string> {
    FindCode(url, 0)
  }

  /** A match at a position fixes the captured value: the greedy run is the only one. */
  lemma MatchIsGreedyRun(url: string, i: int, code: string)
    requires MatchAt(url, i, code)
    ensures CodeStartsAt(url, i)
    ensures code == url[i + 5..ValueEnd(url, i + 5)]
  {
    var m := i + 5 + |code|;
    assert url[i + 5] == code[0];
    forall k | i + 5 <= k < m ensures url[k] != '&' {
      assert url[k] == code[k - i - 5];
    }
    ValueEndUnique(url, i + 5, m);
  }

  /** The run of non-`&` characters from `j` ends at the first `&` or the end of the URL,
      and nowhere else. */
  lemma {:induction false} ValueEndUnique(url: string, j: nat, m: nat)
    requires j <= m <= |url|
    requires forall k :: j <= k < m ==> url[k] != '&'
    requires m == |url| || url[m] == '&'
    ensures ValueEnd(url, j) == m
    decreases m - j
  {
    if j < m {
      ValueEndUnique(url, j + 1, m);
    }
  }

  lemma {:induction false} FindCodeSpec(url: string, i: nat)
    requires i <= |url|
    ensures FindCode(url, i) == None <==> forall j :: i <= j ==> !CodeStartsAt(url, j)
    ensures FindCode(url, i).Some? ==>
      exists p :: i <= p && MatchAt(url, p, FindCode(url, i).value) &&
                  forall j :: i <= j < p ==> !CodeStartsAt(url, j)
    decreases |url| - i
  {
    if i == |url| {
    } else if CodeStartsAt(url, i) {
      var e := ValueEnd(url, i + 5);
      var code := url[i + 5..e];
      assert url[i + 5] != '&';
      assert e > i + 5;
      assert forall k :: 0 <= k < |code| ==> code[k] == url[i + 5 + k];
      assert url[i + 5..i + 5 + |code|] == code;
      assert MatchAt(url, i, code);
    } else {
      FindCodeSpec(url, i + 1);
      if FindCode(url, i).Some? {
        var p :| i + 1 <= p && MatchAt(url, p, FindCode(url, i).value) &&
                 forall j :: i + 1 <= j < p ==> !CodeStartsAt(url, j);
        assert forall j :: i <= j < p ==> !CodeStartsAt(url, j);
      }
    }
  }

  /** No code is extracted exactly when no position of the URL holds `code=` followed by a
      character other than `&`. */
  lemma ExtractCodeNone(url: string)
    ensures ExtractCodeFromUrl(url) == None <==> forall i :: !CodeStartsAt(url, i)
  {
    FindCodeSpec(url, 0);
  }

  /** The extracted code is the capture of the leftmost match, and no other string is:
      the first `code=` with a non-empty value wins and its value runs to the next `&` or the
      end of the URL. */
  lemma ExtractCodeLeftmost(url: string, code: string)
    ensures ExtractCodeFromUrl(url) == Some(code) <==> exists i :: LeftmostMatch(url, i, code)
  {
    FindCodeSpec(url, 0);
    if ExtractCodeFromUrl(url) == Some(code) {
      var p :| 0 <= p && MatchAt(url, p, code) && forall j :: 0 <= j < p ==> !CodeStartsAt(url, j);
      assert LeftmostMatch(url, p, code);
    }
    if i :| LeftmostMatch(url, i, code) {
      MatchIsGreedyRun(url, i, code);
      var r := ExtractCodeFromUrl(url);
      assert r.Some?;
      var p :| 0 <= p && MatchAt(url, p, r.value) && forall j :: 0 <= j < p ==> !CodeStartsAt(url, j);
      MatchIsGreedyRun(url, p, r.value);
      assert p == i;
    }
  }

  /** `"code=" + code` is a substring at `i`, followed by `&` or the end of the URL. */
  predicate OccursMaximallyAt(url: string, i: int, code: string) {
    && 0 <= i && i + 5 + |code| <= |url|
    && url[i..i + 5 + |code|] == "code=" + code
    && (i + 5 + |code| == |url| || url[i + 5 + |code|] == '&')
  }

  /** What the callers rely on: a code is non-empty, holds no `&`, and `code=` + code is
      followed by `&` or the end of the URL. */
  lemma ExtractedCodeShape(url: string)
    ensures ExtractCodeFromUrl(url).Some? ==>
      var code := ExtractCodeFromUrl(url).value;
      code != [] && '&' !in code && exists i :: OccursMaximallyAt(url, i, code)
  {
    if ExtractCodeFromUrl(url).Some? {
      var code := ExtractCodeFromUrl(url).value;
      ExtractCodeLeftmost(url, code);
      var i :| LeftmostMatch(url, i, code);
      var w := url[i..i + 5 + |code|];
      assert w[..5] == "code=";
      assert w[5..] == code;
      assert w == w[..5] + w[5..];
      assert OccursMaximallyAt(url, i, code);
    }
  }

  /** The usual callback: the value runs up to the next `&`. */
  lemma ExtractCodeExample()
    ensures ExtractCodeFromUrl("spotifymusicquiz://callback?code=abc123&state=x") == Some("abc123")
  {
    var u := "spotifymusicquiz://callback?code=abc123&state=x";
    assert forall j :: 0 <= j < 28 ==> !KeyAt("spotifymusicquiz://callback?code=abc123&state=x", j);
    assert forall j :: 0 <= j < 28 ==> !CodeStartsAt(u, j);
    assert MatchAt(u, 28, "abc123") by {
      assert KeyAt(u, 28);
      assert u[33..39] == "abc123";
      assert u[39] == '&';
    }
    assert LeftmostMatch(u, 28, "abc123");
    ExtractCodeLeftmost(u, "abc123");
  }

  /** An empty `code=` is passed over in favour of a later one. */
  lemma ExtractCodeSkipsEmpty()
    ensures ExtractCodeFromUrl("spotifymusicquiz://callback?code=&code=xy") == Some("xy")
  {
    var u := "spotifymusicquiz://callback?code=&code=xy";
    assert forall j :: 0 <= j < 34 && j != 28 ==> !KeyAt("spotifymusicquiz://callback?code=&code=xy", j);
    assert !CodeStartsAt(u, 28) by {
      assert u[33] == '&';
    }
    assert forall j :: 0 <= j < 34 ==> !CodeStartsAt(u, j);
    assert MatchAt(u, 34, "xy") by {
      assert KeyAt(u, 34);
      assert u[39..41] == "xy";
    }
    assert LeftmostMatch(u, 34, "xy");
    ExtractCodeLeftmost(u, "xy");
  }

  /** The pattern is unanchored: `error_code=` matches too. */
  lemma ExtractCodeUnanchored()
    ensures ExtractCodeFromUrl("spotifymusicquiz://callback?error_code=42") == Some("42")
  {
    var u := "spotifymusicquiz://callback?error_code=42";
    assert forall j :: 0 <= j < 34 ==> !KeyAt("spotifymusicquiz://callback?error_code=42", j);
    assert forall j :: 0 <= j < 34 ==> !CodeStartsAt(u, j);
    assert MatchAt(u, 34, "42") by {
      assert KeyAt(u, 34);
      assert u[39..41] == "42";
    }
    assert LeftmostMatch(u, 34, "42");
    ExtractCodeLeftmost(u, "42");
  }

  /** An error callback carries no code. */
  lemma ExtractCodeAbsent()
    ensures ExtractCodeFromUrl("spotifymusicquiz://callback?error=access_denied") == None
  {
    var u := "spotifymusicquiz://callback?error=access_denied";
    assert forall j :: !KeyAt("spotifymusicquiz://callback?error=access_denied", j);
    ExtractCodeNone(u);
  }

  // ---------------------------------------------------------------------------------------
  // The credential store

  /** Which of an operation's two sequential storage calls rejects. */
  datatype StorageFaults = StorageFaults(first: bool, second: bool)

  const NoFaults := StorageFaults(false, false)

  /** `getAccessToken`: the stored access token; `null` when it is unset or the read fails. */
  function AccessToken(items: map<string, string>, readFails: bool): Option<string> {
    if readFails || AccessTokenKey !in items then None else Some(items[AccessTokenKey])
  }

  method GetAccessToken(store: AsyncStorage, readFails: bool) returns (token: Option<string>)
    ensures token == AccessToken(store.items, readFails)
  {
    var r := store.GetItem(AccessTokenKey, readFails);
    token := if r.Resolved? then r.value else None;
  }

  /** `isLoggedIn`: whether `getAccessToken` returned something other than `null`. */
  method IsLoggedIn(store: AsyncStorage, readFails: bool) returns (loggedIn: bool)
    ensures loggedIn <==> !readFails && AccessTokenKey in store.items
  {
    var token := GetAccessToken(store, readFails);
    loggedIn := token.Some?;
  }

  /** The body posted to the backend's token endpoint. */
  datatype TokenRequest = TokenRequest(code: string, redirectUri: string)

  /** The fields of the backend's JSON reply; `None` for a missing or null field. */
  datatype TokenReply = TokenReply(accessToken: Option<string>, refreshToken: Option<string>)

  /** `exchangeCodeForToken` reports success: the reply arrived with a truthy access token,
      the access token was written and, when the reply had a truthy refresh token, so was it. */
  predicate ExchangeOk(reply: Settled<TokenReply>, faults: StorageFaults) {
    && reply.Resolved?
    && Truthy(reply.value.accessToken)
    && !faults.first
    && (Truthy(reply.value.refreshToken) ==> !faults.second)
  }

  /** The store after `exchangeCodeForToken`. */
  function AfterExchange(items: map<string, string>, reply: Settled<TokenReply>, faults: StorageFaults): map<string, string> {
    if reply.Rejected? || !Truthy(reply.value.accessToken) || faults.first then items
    else
      var withAccess := items[AccessTokenKey := reply.value.accessToken.value];
      if Truthy(reply.value.refreshToken) && !faults.second
      then withAccess[RefreshTokenKey := reply.value.refreshToken.value]
      else withAccess
  }

  /** Posts the code with the redirect URI to the backend (an oracle from request to reply;
      a rejection stands for a failed fetch or an unparsable body, both caught), then writes
      the tokens. */
  method ExchangeCodeForToken(store: AsyncStorage, code: string,
                              backend: TokenRequest -> Settled<TokenReply>, faults: StorageFaults)
    returns (success: bool)
    modifies store
    ensures success == ExchangeOk(backend(TokenRequest(code, RedirectUri)), faults)
    ensures store.items == AfterExchange(old(store.items), backend(TokenRequest(code, RedirectUri)), faults)
  {
    var reply := backend(TokenRequest(code, RedirectUri));
    if reply.Rejected? {
      return false;
    }
    var data := reply.value;
    if !Truthy(data.accessToken) {
      return false;
    }
    var w := store.SetItem(AccessTokenKey, data.accessToken.value, faults.first);
    if w.Rejected? {
      return false;
    }
    if Truthy(data.refreshToken) {
      w := store.SetItem(RefreshTokenKey, data.refreshToken.value, faults.second);
      if w.Rejected? {
        return false;
      }
    }
    return true;
  }

  /** After a successful exchange `getAccessToken` returns exactly the token the backend
      sent, and it is not empty. */
  lemma ExchangeStoresAccessToken(items: map<string, string>, reply: Settled<TokenReply>, faults: StorageFaults)
    requires ExchangeOk(reply, faults)
    ensures AccessToken(AfterExchange(items, reply, faults), false) == reply.value.accessToken
    ensures Truthy(AccessToken(AfterExchange(items, reply, faults), false))
  {
  }

  /** A successful exchange whose reply has a truthy refresh token leaves exactly that token
      stored; both writes touch only the two credential keys. */
  lemma ExchangeStoresRefreshToken(items: map<string, string>, reply: Settled<TokenReply>, faults: StorageFaults)
    requires ExchangeOk(reply, faults) && Truthy(reply.value.refreshToken)
    ensures RefreshTokenKey in AfterExchange(items, reply, faults)
    ensures AfterExchange(items, reply, faults)[RefreshTokenKey] == reply.value.refreshToken.value
    ensures forall k :: k != AccessTokenKey && k != RefreshTokenKey ==>
      (k in AfterExchange(items, reply, faults) <==> k in items) &&
      (k in items ==> AfterExchange(items, reply, faults)[k] == items[k])
  {
  }

  /** A reply with an access token but no refresh token leaves a previously stored refresh
      token as it was. */
  lemma ExchangeKeepsRefreshToken(items: map<string, string>, reply: Settled<TokenReply>, faults: StorageFaults)
    requires reply.Resolved? && !Truthy(reply.value.refreshToken)
    ensures RefreshTokenKey in AfterExchange(items, reply, faults) <==> RefreshTokenKey in items
    ensures RefreshTokenKey in items ==> AfterExchange(items, reply, faults)[RefreshTokenKey] == items[RefreshTokenKey]
  {
  }

  /** No reply, or a reply without a truthy access token: failure, and the store untouched. */
  lemma ExchangeWithoutTokenChangesNothing(items: map<string, string>, reply: Settled<TokenReply>, faults: StorageFaults)
    requires reply.Rejected? || !Truthy(reply.value.accessToken)
    ensures !ExchangeOk(reply, faults)
    ensures AfterExchange(items, reply, faults) == items
  {
  }

  /** When only the refresh-token write rejects, the exchange reports failure although the
      access token is already stored. */
  lemma ExchangeFailsAfterStoringAccess(items: map<string, string>, reply: Settled<TokenReply>)
    requires reply.Resolved? && Truthy(reply.value.accessToken) && Truthy(reply.value.refreshToken)
    ensures !ExchangeOk(reply, StorageFaults(false, true))
    ensures AccessToken(AfterExchange(items, reply, StorageFaults(false, true)), false) == reply.value.accessToken
  {
  }

  /** The store after `logout`: the access token key, then the refresh token key; when a
      removal rejects the rest is skipped and the error swallowed. */
  function AfterLogout(items: map<string, string>, faults: StorageFaults): map<string, string> {
    if faults.first then items
    else if faults.second then items - {AccessTokenKey}
    else items - {AccessTokenKey, RefreshTokenKey}
  }

  method Logout(store: AsyncStorage, faults: StorageFaults)
    modifies store
    ensures store.items == AfterLogout(old(store.items), faults)
  {
    var r := store.RemoveItem(AccessTokenKey, faults.first);
    if r.Resolved? {
      r := store.RemoveItem(RefreshTokenKey, faults.second);
    }
  }

  /** After a logout whose removals succeed, no credential is left: `getAccessToken` returns
      `null` and `isLoggedIn` is false, whatever was stored before; other keys are kept. */
  lemma LogoutClearsCredentials(items: map<string, string>, readFails: bool)
    ensures AccessToken(AfterLogout(items, NoFaults), readFails) == None
    ensures RefreshTokenKey !in AfterLogout(items, NoFaults)
    ensures forall k :: k in items && k != AccessTokenKey && k != RefreshTokenKey ==>
      k in AfterLogout(items, NoFaults) && AfterLogout(items, NoFaults)[k] == items[k]
  {
  }

  /** When the first removal rejects, the second is never attempted. */
  lemma LogoutStopsAtFirstFailure(items: map<string, string>, second: bool)
    ensures AfterLogout(items, StorageFaults(true, second)) == items
  {
  }

  // ---------------------------------------------------------------------------------------
  // The login flow

  /** The listener acts only on URLs that start with the redirect URI. */
  predicate IsRedirect(url: string) {
    StartsWith(url, RedirectUri)
  }

  /** `login()` is still waiting for a redirect, or has resolved. */
  datatype LoginState = Pending | Finished(success: bool)

  /** What one URL event does to a pending login. */
  function RedirectOutcome(url: string, backend: TokenRequest -> Settled<TokenReply>, faults: StorageFaults): LoginState {
    if !IsRedirect(url) then Pending
    else match ExtractCodeFromUrl(url)
      case None => Finished(false)
      case Some(code) => Finished(ExchangeOk(backend(TokenRequest(code, RedirectUri)), faults))
  }

  function AfterRedirect(items: map<string, string>, url: string,
                         backend: TokenRequest -> Settled<TokenReply>, faults: StorageFaults): map<string, string> {
    if !IsRedirect(url) then items
    else match ExtractCodeFromUrl(url)
      case None => items
      case Some(code) => AfterExchange(items, backend(TokenRequest(code, RedirectUri)), faults)
  }

  /** A redirect from which no code can be extracted resolves the login with false and
      leaves the store untouched; any other URL is ignored. */
  lemma RedirectWithoutCode(items: map<string, string>, url: string,
                            backend: TokenRequest -> Settled<TokenReply>, faults: StorageFaults)
    requires ExtractCodeFromUrl(url) == None
    ensures RedirectOutcome(url, backend, faults) == (if IsRedirect(url) then Finished(false) else Pending)
    ensures AfterRedirect(items, url, backend, faults) == items
  {
  }

  /** The listener `handleUrl`. */
  method HandleUrl(store: AsyncStorage, url: string,
                   backend: TokenRequest -> Settled<TokenReply>, faults: StorageFaults)
    returns (state: LoginState)
    modifies store
    ensures state == RedirectOutcome(url, backend, faults)
    ensures store.items == AfterRedirect(old(store.items), url, backend, faults)
  {
    if !IsRedirect(url) {
      return Pending;
    }
    var code := ExtractCodeFromUrl(url);
    if code.None? {
      return Finished(false);
    }
    var success := ExchangeCodeForToken(store, code.value, backend, faults);
    return Finished(success);
  }

  /** Index of the first redirect among the URL events, `|events|` when there is none. */
  function FirstRedirect(events: seq<string>): (f: nat)
    ensures f <= |events|
    ensures f < |events| ==> IsRedirect(events[f])
    ensures forall k :: 0 <= k < f ==> !IsRedirect(events[k])
  {
    if events == [] then 0
    else if IsRedirect(events[0]) then 0
    else 1 + FirstRedirect(events[1..])
  }

  /** Whether the authorization URL was opened: `canOpenURL` resolved true and `openURL`
      resolved. A rejection of either is caught and the login resolves false. */
  predicate Launched(canOpen: string -> Settled<bool>, openUrl: string -> Settled<()>) {
    var authUrl := AuthorizationUrl(ClientId, RedirectUri, Scope);
    canOpen(authUrl) == Resolved(true) && openUrl(authUrl).Resolved?
  }

  /** The listener registered by `login()`: URL events are handed to `handleUrl` in order
      until the first redirect, which removes the listener. With no redirect among the events
      the login is still pending. */
  method Listen(store: AsyncStorage, events: seq<string>,
                backend: TokenRequest -> Settled<TokenReply>, faults: StorageFaults)
    returns (state: LoginState)
    modifies store
    ensures FirstRedirect(events) == |events| ==> state == Pending && store.items == old(store.items)
    ensures FirstRedirect(events) < |events| ==>
      state == RedirectOutcome(events[FirstRedirect(events)], backend, faults) &&
      store.items == AfterRedirect(old(store.items), events[FirstRedirect(events)], backend, faults)
  {
    var f := FirstRedirect(events);
    state := Pending;
    var i := 0;
    while i < |events| && state.Pending?
      invariant 0 <= i <= |events|
      invariant state.Pending? ==> i <= f && store.items == old(store.items)
      invariant state.Finished? ==>
        i == f + 1 && state == RedirectOutcome(events[f], backend, faults) &&
        store.items == AfterRedirect(old(store.items), events[f], backend, faults)
    {
      state := HandleUrl(store, events[i], backend, faults);
      i := i + 1;
    }
  }

  /** `login()`: opens the authorization URL, then listens for the redirect. A URL that
      cannot be opened, or a rejection of either call, resolves the login false. */
  method Login(store: AsyncStorage, canOpen: string -> Settled<bool>, openUrl: string -> Settled<()>,
               events: seq<string>, backend: TokenRequest -> Settled<TokenReply>, faults: StorageFaults)
    returns (state: LoginState)
    modifies store
    ensures !Launched(canOpen, openUrl) ==> state == Finished(false) && store.items == old(store.items)
    ensures Launched(canOpen, openUrl) && FirstRedirect(events) == |events| ==>
      state == Pending && store.items == old(store.items)
    ensures Launched(canOpen, openUrl) && FirstRedirect(events) < |events| ==>
      state == RedirectOutcome(events[FirstRedirect(events)], backend, faults) &&
      store.items == AfterRedirect(old(store.items), events[FirstRedirect(events)], backend, faults)
  {
    var authUrl := AuthorizationUrl(ClientId, RedirectUri, Scope);
    var supported := canOpen(authUrl);
    if supported != Resolved(true) {
      return Finished(false);
    }
    var launched := openUrl(authUrl);
    if launched.Rejected? {
      return Finished(false);
    }
    state := Listen(store, events, backend, faults);
  }
}
