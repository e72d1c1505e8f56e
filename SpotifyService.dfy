/** The playback connection of the quiz client (src/services/SpotifyService.ts): one
    `isConnected` flag guarding the calls into the embedded playback SDK, and the fetch of a
    random track from the trusted backend. The SDK and the backend are oracles: each call's
    outcome is an input of the method that makes it, and every call made is appended to a
    trace, so that which calls were issued, and in what order, can be stated. */
module SpotifyService {
  import opened Async
  import opened Storage
  import SpotifyAuth

  /** The configuration handed to the SDK's `initialize`. */
  datatype SdkConfig = SdkConfig(clientId: string, redirectUrl: string, scopes: seq<string>)

  const InitConfig := SdkConfig("YOUR_SPOTIFY_CLIENT_ID", "spotifymusicquiz://callback",
                                ["streaming", "user-read-private", "user-read-email"])

  /** A call into the SDK or the backend. */
  datatype Call =
    | Initialize(config: SdkConfig)
    | SetAccessToken(token: string)
    | SdkLogout
    | PlayUri(uri: string)
    | SetPlaying(playing: bool)
    | GetPlayerState
    | FetchRandomTrack(authorization: string)

  /** The track the backend's random-track endpoint answers with. */
  datatype Track = Track(uri: string, name: string, artists: seq<string>)

  /** The backend's answer: its `ok` flag and how parsing its JSON body settles. */
  datatype TrackResponse = TrackResponse(ok: bool, body: Settled<Track>)

  // ---------------------------------------------------------------------------------------
  // `connect`, as functions of the token read from the store and the SDK's outcomes

  /** The calls `connect` makes: none without a truthy token, then `initialize`, then
      `setAccessToken` only when `initialize` resolved true. */
  function ConnectCalls(token: Option<string>, init: Settled<bool>): seq<Call> {
    if !Truthy(token) then []
    else if init == Resolved(true) then [Initialize(InitConfig), SetAccessToken(token.value)]
    else [Initialize(InitConfig)]
  }

  /** How `connect` settles: it rethrows a missing token and any SDK rejection. */
  function ConnectResult(token: Option<string>, init: Settled<bool>, setToken: Settled<()>): Settled<()> {
    if !Truthy(token) || init.Rejected? then Rejected
    else if init == Resolved(false) then Resolved(())
    else if setToken.Rejected? then Rejected
    else Resolved(())
  }

  /** `isConnected` after `connect`: set only once `setAccessToken` has resolved. */
  function ConnectedAfter(wasConnected: bool, token: Option<string>, init: Settled<bool>, setToken: Settled<()>): bool {
    if Truthy(token) && init == Resolved(true) && setToken.Resolved? then true else wasConnected
  }

  /** Without a truthy token `connect` throws before any SDK call and changes nothing. */
  lemma ConnectWithoutToken(wasConnected: bool, token: Option<string>, init: Settled<bool>, setToken: Settled<()>)
    requires !Truthy(token)
    ensures ConnectResult(token, init, setToken) == Rejected
    ensures ConnectCalls(token, init) == []
    ensures ConnectedAfter(wasConnected, token, init, setToken) == wasConnected
  {
  }

  /** `connect` turns a disconnected service connected exactly when `initialize` resolved true
      and `setAccessToken` resolved, the latter called with the stored token after the former;
      it then resolves. */
  lemma ConnectConnects(token: Option<string>, init: Settled<bool>, setToken: Settled<()>)
    ensures ConnectedAfter(false, token, init, setToken) <==>
      Truthy(token) && init == Resolved(true) && setToken.Resolved?
    ensures ConnectedAfter(false, token, init, setToken) ==>
      ConnectResult(token, init, setToken) == Resolved(()) &&
      ConnectCalls(token, init) == [Initialize(InitConfig), SetAccessToken(token.value)]
  {
  }

  /** An `initialize` that resolves false: `connect` returns normally, without connecting and
      without setting the token. */
  lemma ConnectNotInitialized(wasConnected: bool, token: Option<string>, setToken: Settled<()>)
    requires Truthy(token)
    ensures ConnectResult(token, Resolved(false), setToken) == Resolved(())
    ensures ConnectedAfter(wasConnected, token, Resolved(false), setToken) == wasConnected
    ensures ConnectCalls(token, Resolved(false)) == [Initialize(InitConfig)]
  {
  }

  /** Whether `playTrack` reaches `playURI`: it does when already connected, and otherwise
      when `connect` returned normally, connected or not. */
  function PlayIssued(wasConnected: bool, token: Option<string>, init: Settled<bool>, setToken: Settled<()>): bool {
    wasConnected || ConnectResult(token, init, setToken).Resolved?
  }

  /** The calls `playTrack(uri)` makes. */
  function PlayCalls(wasConnected: bool, token: Option<string>, init: Settled<bool>, setToken: Settled<()>, uri: string): seq<Call> {
    (if wasConnected then [] else ConnectCalls(token, init)) +
    (if PlayIssued(wasConnected, token, init, setToken) then [PlayUri(uri)] else [])
  }

  /** When the implicit `connect` throws, `playURI` is never issued and `playTrack` rejects. */
  lemma PlayAfterFailedConnect(token: Option<string>, init: Settled<bool>, setToken: Settled<()>, uri: string)
    requires ConnectResult(token, init, setToken).Rejected?
    ensures !PlayIssued(false, token, init, setToken)
    ensures forall c :: c in PlayCalls(false, token, init, setToken, uri) ==> !c.PlayUri?
  {
  }

  /** When `initialize` resolved false, `playURI` is issued anyway, on a service that is still
      not connected. */
  lemma PlayWithoutConnection(token: Option<string>, setToken: Settled<()>, uri: string)
    requires Truthy(token)
    ensures PlayIssued(false, token, Resolved(false), setToken)
    ensures !ConnectedAfter(false, token, Resolved(false), setToken)
    ensures PlayCalls(false, token, Resolved(false), setToken, uri) == [Initialize(InitConfig), PlayUri(uri)]
  {
  }

  /** A connected service goes straight to `playURI`. */
  lemma PlayWhenConnected(token: Option<string>, init: Settled<bool>, setToken: Settled<()>, uri: string)
    ensures PlayCalls(true, token, init, setToken, uri) == [PlayUri(uri)]
  {
  }

  // ---------------------------------------------------------------------------------------
  // `getRandomTrack`

  /** The header the track request carries. */
  function Bearer(token: string): string {
    "Bearer " + token
  }

  /** How `getRandomTrack` settles: it throws without a truthy token, on a failed fetch and on
      a response that is not ok, and otherwise yields the parsed body. */
  function RandomTrack(token: Option<string>, fetch: string -> Settled<TrackResponse>): Settled<Track> {
    if !Truthy(token) then Rejected
    else match fetch(Bearer(token.value))
      case Rejected => Rejected
      case Resolved(response) => if !response.ok then Rejected else response.body
  }

  function RandomTrackCalls(token: Option<string>): seq<Call> {
    if Truthy(token) then [FetchRandomTrack(Bearer(token.value))] else []
  }

  /** A track is returned only when the token was truthy, the fetch carried it as a bearer
      token, and the response was ok; it is then the body the backend sent. Conversely, an ok
      response to that fetch yields its parsed body, whether or not parsing succeeded. */
  lemma RandomTrackNeedsOkResponse(token: Option<string>, fetch: string -> Settled<TrackResponse>)
    ensures RandomTrack(token, fetch).Resolved? ==>
      && Truthy(token)
      && RandomTrackCalls(token) == [FetchRandomTrack(Bearer(token.value))]
      && fetch(Bearer(token.value)).Resolved?
      && fetch(Bearer(token.value)).value.ok
      && fetch(Bearer(token.value)).value.body == RandomTrack(token, fetch)
    ensures Truthy(token) && fetch(Bearer(token.value)).Resolved? && fetch(Bearer(token.value)).value.ok ==>
      RandomTrack(token, fetch) == fetch(Bearer(token.value)).value.body
    ensures !Truthy(token) ==> RandomTrack(token, fetch) == Rejected && RandomTrackCalls(token) == []
  {
  }

  // ---------------------------------------------------------------------------------------
  // The service object

  class PlaybackService {
    /** The process-wide `isConnected` flag. */
    var isConnected: bool
    /** Every SDK and backend call made, in order. */
    ghost var calls: seq<Call>
    /** The credential store, read for the token and cleared by `disconnect`. */
    const store: AsyncStorage

    constructor (store: AsyncStorage)
      ensures this.store == store
      ensures !isConnected && calls == []
    {
      this.store := store;
      isConnected := false;
      calls := [];
    }

    /** `connect()`: reads the token (a failed read counts as no token), then initializes the
        SDK and hands it the token. */
    method Connect(readFails: bool, init: Settled<bool>, setToken: Settled<()>) returns (r: Settled<()>)
      modifies this
      ensures var token := SpotifyAuth.AccessToken(store.items, readFails);
        && r == ConnectResult(token, init, setToken)
        && isConnected == ConnectedAfter(old(isConnected), token, init, setToken)
        && calls == old(calls) + ConnectCalls(token, init)
    {
      var token := SpotifyAuth.GetAccessToken(store, readFails);
      if !Truthy(token) {
        return Rejected;
      }
      calls := calls + [Initialize(InitConfig)];
      if init.Rejected? {
        return Rejected;
      }
      if init.value {
        calls := calls + [SetAccessToken(token.value)];
        if setToken.Rejected? {
          return Rejected;
        }
        isConnected := true;
      }
      return Resolved(());
    }

    /** `disconnect()`: when connected, logs out of the SDK and clears the flag, then clears
        the credentials. A rejected SDK logout skips the rest and is swallowed, like a
        rejected removal in the credential logout. */
    method Disconnect(logout: Settled<()>, faults: SpotifyAuth.StorageFaults)
      modifies this, store
      ensures isConnected == (old(isConnected) && logout.Rejected?)
      ensures calls == old(calls) + (if old(isConnected) then [SdkLogout] else [])
      ensures store.items ==
        if old(isConnected) && logout.Rejected? then old(store.items)
        else SpotifyAuth.AfterLogout(old(store.items), faults)
    {
      if isConnected {
        calls := calls + [SdkLogout];
        if logout.Rejected? {
          return;
        }
        isConnected := false;
      }
      SpotifyAuth.Logout(store, faults);
    }

    /** `getRandomTrack()`: reads the token, then asks the backend with it as bearer token. */
    method GetRandomTrack(readFails: bool, fetch: string -> Settled<TrackResponse>) returns (r: Settled<Track>)
      modifies this
      ensures var token := SpotifyAuth.AccessToken(store.items, readFails);
        r == RandomTrack(token, fetch) && calls == old(calls) + RandomTrackCalls(token)
      ensures isConnected == old(isConnected)
    {
      var token := SpotifyAuth.GetAccessToken(store, readFails);
      if !Truthy(token) {
        return Rejected;
      }
      calls := calls + [FetchRandomTrack(Bearer(token.value))];
      var response := fetch(Bearer(token.value));
      if response.Rejected? || !response.value.ok {
        return Rejected;
      }
      return response.value.body;
    }

    /** `playTrack(uri)`: connects first when not connected, then plays the URI. */
    method PlayTrack(uri: string, readFails: bool, init: Settled<bool>, setToken: Settled<()>, play: Settled<()>)
      returns (r: Settled<()>)
      modifies this
      ensures var token := SpotifyAuth.AccessToken(store.items, readFails);
        && r == (if PlayIssued(old(isConnected), token, init, setToken) then play else Rejected)
        && isConnected == (old(isConnected) || ConnectedAfter(false, token, init, setToken))
        && calls == old(calls) + PlayCalls(old(isConnected), token, init, setToken, uri)
    {
      if !isConnected {
        var c := Connect(readFails, init, setToken);
        if c.Rejected? {
          return Rejected;
        }
      }
      calls := calls + [PlayUri(uri)];
      return play;
    }

    /** `stopPlayback()`: pauses only when connected, and never throws: how the SDK's
        `setPlaying(false)` settles is caught and swallowed, so `setPlaying` changes nothing. */
    method StopPlayback(setPlaying: Settled<()>)
      modifies this
      ensures isConnected == old(isConnected)
      ensures calls == old(calls) + (if isConnected then [SetPlaying(false)] else [])
    {
      if isConnected {
        calls := calls + [SetPlaying(false)];
      }
    }

    /** `getCurrentPlayerState()`: `null` when not connected (no SDK call) or when the SDK
        rejects; otherwise the state the SDK reports. */
    method GetCurrentPlayerState<S>(state: Settled<S>) returns (r: Option<S>)
      modifies this
      ensures isConnected == old(isConnected)
      ensures calls == old(calls) + (if isConnected then [GetPlayerState] else [])
      ensures r.Some? <==> isConnected && state.Resolved?
      ensures r.Some? ==> r.value == state.value
    {
      if !isConnected {
        return None;
      }
      calls := calls + [GetPlayerState];
      if state.Rejected? {
        return None;
      }
      return Some(state.value);
    }
  }

  /** The happy path end to end: a token exchange whose reply carries `tok1` logs the user
      in; `connect` then initializes, sets `tok1` and connects; the track request carries
      `Bearer tok1` and yields the backend's track; and the connected service plays it
      without connecting again. */
  lemma LoginConnectPlay(items: map<string, string>, fetch: string -> Settled<TrackResponse>, track: Track)
    requires fetch("Bearer tok1") == Resolved(TrackResponse(true, Resolved(track)))
    ensures var reply := Resolved(SpotifyAuth.TokenReply(Some("tok1"), None));
      var token := SpotifyAuth.AccessToken(SpotifyAuth.AfterExchange(items, reply, SpotifyAuth.NoFaults), false);
      && SpotifyAuth.ExchangeOk(reply, SpotifyAuth.NoFaults)
      && token == Some("tok1")
      && ConnectResult(token, Resolved(true), Resolved(())) == Resolved(())
      && ConnectedAfter(false, token, Resolved(true), Resolved(()))
      && ConnectCalls(token, Resolved(true)) == [Initialize(InitConfig), SetAccessToken("tok1")]
      && RandomTrack(token, fetch) == Resolved(track)
      && PlayCalls(true, token, Resolved(true), Resolved(()), track.uri) == [PlayUri(track.uri)]
  {
    assert Bearer("tok1") == "Bearer tok1";
  }
}
