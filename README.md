# Spotify Music Quiz: login, playback service and game screen

This project models the core of a React Native music quiz in Dafny. The model has three parts:

- **The Spotify login** (`src/services/SpotifyAuth.ts`):
  - building the authorization URL;
  - reading the `code` out of the redirect;
  - exchanging the code for tokens through the backend;
  - the two credential keys kept in the device's key-value store.
- **The playback service** (`src/services/SpotifyService.ts`): a process-wide `isConnected` flag. `connect`, `disconnect`, `getRandomTrack`, `playTrack`, `stopPlayback` and `getCurrentPlayerState` drive it over the Spotify SDK and the backend.
- **The game screen** (`src/screens/GameScreen.tsx`):
  - the round, score and 30-second countdown state;
  - its handlers;
  - the panel, button and answer label the render picks.

Modules:

| file | contents |
|---|---|
| `Async.dfy` | `Option`, and `Settled` (a promise that resolved with a value or rejected); JavaScript truthiness of a stored string |
| `Url.dfy` | `encodeURIComponent` as ECMA-262 defines it (the unreserved set, UTF-8, upper-case `%XX`), a byte-level percent decoder as its inverse, and a reader of a URL's query (`split('&')`, then each pair cut at its first `=`) |
| `Storage.dfy` | `AsyncStorage` as a class over `map<string, string>`; every call takes a flag saying whether it rejects |
| `SpotifyAuth.dfy` | the constants, the authorization URL, the `code=([^&]+)` match, the token store as functions of the map, the store methods, and the login listener as a loop over incoming URL events |
| `SpotifyService.dfy` | the class `PlaybackService` with `isConnected` and a ghost trace of every SDK/backend call, plus specification functions for what each call does |
| `GameScreen.dfy` | the state value `Screen`, the handlers as pure steps, the render as functions of the state, and the class `Game` whose methods perform those steps in place |

Everything outside the device is an input of the operation that uses it:
- the Spotify SDK, `fetch`, the backend's JSON and `Linking` become `Settled` outcomes or oracle functions;
- the incoming URL events become a sequence;
- timer firings become events.

## Model

| member | source | states |
|---|---|---|
| Url.EncodeUriComponent | src/services/SpotifyAuth.ts:21-22 | `encodeURIComponent(s)`: the escapes of the characters of `s`, in order; its properties are the `Url.Encode…` and `Url.DecodeEncode` rows |
| Url.EncodeChar | src/services/SpotifyAuth.ts:21-22 | the escape of one character holds only `%` and unreserved characters |
| Url.EncodeCons | src/services/SpotifyAuth.ts:21-22 | `encodeURIComponent` works character by character: the first character's escape, then the rest |
| Url.EncodeAppend | src/services/SpotifyAuth.ts:21-22 | escaping distributes over concatenation |
| Url.EncodeIsEscaped | src/services/SpotifyAuth.ts:21-22 | an encoded value never holds `&`, `=` or `?`, so it cannot break the query it is put into |
| Url.DecodeEncode | src/services/SpotifyAuth.ts:21-22 | round trip: percent-decoding `encodeURIComponent(s)` yields exactly the UTF-8 bytes of `s` |
| Url.EncodeUnreserved | src/services/SpotifyAuth.ts:21-22 | a text of unreserved characters only is left unchanged |
| Url.EncodeAsciiReserved | src/services/SpotifyAuth.ts:21-22 | an ASCII character outside the unreserved set becomes one `%XX` escape of its code |
| Url.EncodeReservedHead | src/services/SpotifyAuth.ts:21 | a leading reserved ASCII character (such as the `:` and `/` of the redirect URI) is escaped and the rest encoded after it |
| Url.EncodeSpaceJoined | src/services/SpotifyAuth.ts:17-22 | a space-separated scope list is escaped item by item, each space becoming `%20` |
| Url.SplitJoin | src/services/SpotifyAuth.ts:18-22 | round trip: parameters joined with `&` as `key=value` are read back exactly, in order, provided no key holds `=` or `&` and no value holds `&` |
| SpotifyAuth.AuthorizationParams | src/services/SpotifyAuth.ts:19-22 | the four query parameters in source order, the redirect URI and scope passed through `encodeURIComponent` |
| SpotifyAuth.AuthorizationUrl | src/services/SpotifyAuth.ts:17-22 | the endpoint, `?`, and the parameters joined with `&`; `SpotifyAuth.AuthorizationUrlParams` states what it carries |
| SpotifyAuth.QueryAfterEndpoint | src/services/SpotifyAuth.ts:18 | the query of the authorization URL is everything after the endpoint's `?` |
| SpotifyAuth.AuthorizationUrlParams | src/services/SpotifyAuth.ts:17-22 | read back, the authorization URL carries exactly `client_id`, `response_type=code`, the encoded `redirect_uri` and the encoded `scope`, in that order, for any redirect URI and scope |
| SpotifyAuth.FindCode | src/services/SpotifyAuth.ts:63 | the regex engine's scan: from each start position in turn, the first `code=` followed by a non-`&` character, with its greedy run; specified by `SpotifyAuth.FindCodeSpec` |
| SpotifyAuth.ExtractCodeFromUrl | src/services/SpotifyAuth.ts:62-65 | the captured group of the first match, or `null`; specified by `SpotifyAuth.ExtractCodeNone` and `SpotifyAuth.ExtractCodeLeftmost` |
| SpotifyAuth.ValueEnd | src/services/SpotifyAuth.ts:63 | `[^&]+` runs to the first `&` or the end of the URL |
| SpotifyAuth.MatchIsGreedyRun | src/services/SpotifyAuth.ts:63 | a match at a position is the maximal run of non-`&` characters after `code=` |
| SpotifyAuth.ValueEndUnique | src/services/SpotifyAuth.ts:63 | the end of that run is unique |
| SpotifyAuth.FindCodeSpec | src/services/SpotifyAuth.ts:63-64 | the scan from a position finds nothing iff no `code=` with a non-empty value starts there or later, and otherwise finds the first one |
| SpotifyAuth.ExtractCodeNone | src/services/SpotifyAuth.ts:62-65 | `extractCodeFromUrl` returns `null` iff no `code=` followed by a non-`&` character occurs anywhere |
| SpotifyAuth.ExtractCodeLeftmost | src/services/SpotifyAuth.ts:62-65 | it returns `code` iff `code` is the greedy run after the leftmost such `code=` (both directions) |
| SpotifyAuth.ExtractedCodeShape | src/services/SpotifyAuth.ts:62-65 | an extracted code is non-empty, holds no `&`, and stands right after a `code=` |
| SpotifyAuth.ExtractCodeExample | src/services/SpotifyAuth.ts:62-65 | `...callback?code=abc123&state=x` yields `abc123` |
| SpotifyAuth.ExtractCodeSkipsEmpty | src/services/SpotifyAuth.ts:63 | an empty `code=` is skipped: `?code=&code=xy` yields `xy` |
| SpotifyAuth.ExtractCodeUnanchored | src/services/SpotifyAuth.ts:63 | the match is not anchored to a parameter name: `?error_code=42` yields `42` |
| SpotifyAuth.ExtractCodeAbsent | src/services/SpotifyAuth.ts:62-65 | `?error=access_denied` yields `null` |
| SpotifyAuth.AccessToken | src/services/SpotifyAuth.ts:100-107 | the value `getAccessToken` returns: the stored access token, `null` for a missing key or a rejected read; `SpotifyAuth.GetAccessToken`, `SpotifyAuth.ExchangeStoresAccessToken` and `SpotifyAuth.LogoutClearsCredentials` are stated through it |
| SpotifyAuth.GetAccessToken | src/services/SpotifyAuth.ts:100-107 | the stored access token, or `null` when it is missing or the read rejects |
| SpotifyAuth.IsLoggedIn | src/services/SpotifyAuth.ts:118-121 | logged in iff the read succeeds and the access-token key is present (an empty stored string counts) |
| SpotifyAuth.ExchangeOk | src/services/SpotifyAuth.ts:84-96 | the boolean `exchangeCodeForToken` returns: true iff the reply arrived with a truthy access token and every write attempted resolved (the refresh write is attempted only for a truthy refresh token) |
| SpotifyAuth.AfterExchange | src/services/SpotifyAuth.ts:82-93 | the store after the exchange: the access token written when the reply has a truthy one and, after it, the refresh token when truthy, each write skipped after a rejection; its properties are the `SpotifyAuth.Exchange…` lemmas |
| SpotifyAuth.ExchangeCodeForToken | src/services/SpotifyAuth.ts:67-98 | sends the code with the fixed redirect URI; the result and the new store are those of the exchange specification functions |
| SpotifyAuth.ExchangeStoresAccessToken | src/services/SpotifyAuth.ts:84-90 | a successful exchange leaves the reply's access token stored, and it is truthy |
| SpotifyAuth.ExchangeStoresRefreshToken | src/services/SpotifyAuth.ts:84-90 | a successful exchange whose reply has a truthy refresh token leaves exactly that token stored, and every key other than the two credential keys keeps its presence and value |
| SpotifyAuth.ExchangeKeepsRefreshToken | src/services/SpotifyAuth.ts:87-89 | a reply without a truthy refresh token leaves the stored refresh token as it was |
| SpotifyAuth.ExchangeWithoutTokenChangesNothing | src/services/SpotifyAuth.ts:82-97 | a rejected request or a reply without a truthy access token fails and leaves the store unchanged |
| SpotifyAuth.ExchangeFailsAfterStoringAccess | src/services/SpotifyAuth.ts:86-96 | when only the refresh-token write rejects, the exchange reports failure although the access token is already stored |
| SpotifyAuth.AfterLogout | src/services/SpotifyAuth.ts:109-116 | the store after `logout`: the access key removed, then the refresh key, a rejected removal skipping the rest; stated by `SpotifyAuth.LogoutClearsCredentials` and `SpotifyAuth.LogoutStopsAtFirstFailure` |
| SpotifyAuth.Logout | src/services/SpotifyAuth.ts:109-116 | removes the access token, then the refresh token; the new store is that of the logout specification function |
| SpotifyAuth.LogoutClearsCredentials | src/services/SpotifyAuth.ts:109-116 | after a logout without failures, no access token is read back, the refresh token is gone, and every other key is kept with its value |
| SpotifyAuth.LogoutStopsAtFirstFailure | src/services/SpotifyAuth.ts:110-115 | a rejected first removal skips the second and leaves the store unchanged |
| SpotifyAuth.IsRedirect | src/services/SpotifyAuth.ts:32 | the listener acts on a URL iff it starts with the redirect URI |
| SpotifyAuth.RedirectOutcome | src/services/SpotifyAuth.ts:31-47 | what one URL event does to a pending login: ignored unless it starts with the redirect URI, then false without a code, else the exchange's success |
| SpotifyAuth.AfterRedirect | src/services/SpotifyAuth.ts:31-47 | the store after one URL event: changed only by the exchange of a redirect that carries a code |
| SpotifyAuth.RedirectWithoutCode | src/services/SpotifyAuth.ts:31-47 | a redirect without an extractable code resolves the login false and leaves the store unchanged; any other URL is ignored |
| SpotifyAuth.HandleUrl | src/services/SpotifyAuth.ts:31-47 | the listener acts only on URLs starting with the redirect URI, and then resolves with the exchange's outcome |
| SpotifyAuth.FirstRedirect | src/services/SpotifyAuth.ts:31-34 | the index of the first URL event that starts with the redirect URI: every earlier event does not |
| SpotifyAuth.Listen | src/services/SpotifyAuth.ts:30-50 | only the first redirect among the URL events is handled, after which the listener is removed; with no redirect the login stays pending and the store unchanged |
| SpotifyAuth.Launched | src/services/SpotifyAuth.ts:25-27 | the authorization URL was opened: `canOpenURL` resolved true and `openURL` resolved |
| SpotifyAuth.Login | src/services/SpotifyAuth.ts:14-60 | a URL that cannot be opened, or a rejection of `canOpenURL` or `openURL`, resolves false without touching the store; otherwise the outcome is that of the first redirect |
| SpotifyService.ConnectCalls | src/services/SpotifyService.ts:11-25 | the SDK calls `connect` makes: none without a truthy token, then `initialize`, then `setAccessToken` only when `initialize` resolved true |
| SpotifyService.ConnectResult | src/services/SpotifyService.ts:9-33 | how `connect` settles: rejected without a token or on an SDK rejection, resolved otherwise |
| SpotifyService.ConnectedAfter | src/services/SpotifyService.ts:23-26 | the flag after `connect`: set once `setAccessToken` resolved, otherwise as it was |
| SpotifyService.ConnectWithoutToken | src/services/SpotifyService.ts:11-14 | without a truthy token `connect` throws before any SDK call and the flag keeps its value |
| SpotifyService.ConnectConnects | src/services/SpotifyService.ts:17-28 | `connect` connects iff the token is truthy, `initialize` resolved true and `setAccessToken` resolved, in that order, and it then resolves |
| SpotifyService.ConnectNotInitialized | src/services/SpotifyService.ts:23-28 | an `initialize` that resolves false makes `connect` return normally without connecting and without setting the token |
| SpotifyService.PlayIssued | src/services/SpotifyService.ts:75-79 | `playURI` is reached when already connected or when the implicit `connect` returned normally |
| SpotifyService.PlayCalls | src/services/SpotifyService.ts:73-85 | the calls `playTrack` makes: those of `connect` when disconnected, then `playURI` when reached |
| SpotifyService.PlayAfterFailedConnect | src/services/SpotifyService.ts:73-84 | when the implicit `connect` throws, `playURI` is never issued |
| SpotifyService.PlayWithoutConnection | src/services/SpotifyService.ts:73-79 | when `initialize` resolved false, `playURI` is issued anyway on a service that is still not connected |
| SpotifyService.PlayWhenConnected | src/services/SpotifyService.ts:75-79 | a connected service calls `playURI` alone |
| SpotifyService.Bearer | src/services/SpotifyService.ts:57 | the `Authorization` header value, `Bearer ` followed by the token |
| SpotifyService.RandomTrackCalls | src/services/SpotifyService.ts:49-59 | the calls `getRandomTrack` makes: one fetch with the bearer token when the token is truthy, none otherwise |
| SpotifyService.RandomTrack | src/services/SpotifyService.ts:47-71 | how `getRandomTrack` settles: rejected without a token, on a failed fetch or a response that is not ok, else the parsed body; stated by `SpotifyService.RandomTrackNeedsOkResponse` |
| SpotifyService.RandomTrackNeedsOkResponse | src/services/SpotifyService.ts:47-71 | a track is returned only after a truthy token went out as `Bearer <token>` and the response was ok, and it is the parsed body; conversely an ok response yields its parsed body; without a token nothing is fetched |
| SpotifyService.PlaybackService.constructor | src/services/SpotifyService.ts:7 | the service starts disconnected, with no calls made |
| SpotifyService.PlaybackService.Connect | src/services/SpotifyService.ts:9-33 | result, flag and calls are those of the `connect` specification functions for the token read from the store |
| SpotifyService.PlaybackService.Disconnect | src/services/SpotifyService.ts:35-45 | when connected, the SDK logout is called and the flag cleared; the credentials are then cleared; a rejected SDK logout skips both and is swallowed |
| SpotifyService.PlaybackService.GetRandomTrack | src/services/SpotifyService.ts:47-71 | settles as the `getRandomTrack` specification function, fetching at most once, and leaves the flag alone |
| SpotifyService.PlaybackService.PlayTrack | src/services/SpotifyService.ts:73-85 | connects first only when disconnected; plays iff already connected or that `connect` returned normally |
| SpotifyService.PlaybackService.StopPlayback | src/services/SpotifyService.ts:87-95 | pauses iff connected, never throws, and leaves the flag alone |
| SpotifyService.PlaybackService.GetCurrentPlayerState | src/services/SpotifyService.ts:97-107 | a state is returned iff connected and the SDK resolved, and it is the SDK's; no SDK call when disconnected |
| SpotifyService.LoginConnectPlay | src/services/SpotifyService.ts:9-79 | end to end: an exchange returning `tok1` logs in; `connect` then initializes, sets `tok1` and connects; the track request carries `Bearer tok1`; the connected service plays the track without reconnecting |
| GameScreen.Initial | src/screens/GameScreen.tsx:14-19 | the screen mounts in the ready phase and satisfies the state invariant |
| GameScreen.Phase | src/screens/GameScreen.tsx:164-189 | the panel the game area shows: ready, playing or answer |
| GameScreen.Button | src/screens/GameScreen.tsx:194-206 | the one round button shown: Start, Skip or Next |
| GameScreen.AnswerLabelAsWritten | src/screens/GameScreen.tsx:184 | the answer label as the render writes it, "Correct" iff `score >= round - 1`; see the finding below |
| GameScreen.PhaseFromFlags | src/screens/GameScreen.tsx:164-206 | ready iff neither flag is set, playing iff `isPlaying`, answer otherwise; Start, Skip and Next are each offered in exactly one phase |
| GameScreen.Start | src/screens/GameScreen.tsx:54-75 | `startRound` as a step: answer hidden and 30 shown, then track loaded and playing with the interval armed only as far as the fetch and the play succeed; stated by `GameScreen.StartOutcome` |
| GameScreen.Tick | src/screens/GameScreen.tsx:80-95 | one firing of the interval as a step; stated by `GameScreen.TickOutcome` |
| GameScreen.Skip | src/screens/GameScreen.tsx:98-103 | `skipRound` as a step; stated by `GameScreen.SkipOutcome` |
| GameScreen.End | src/screens/GameScreen.tsx:105-114 | `endRound` as a step; stated by `GameScreen.EndOutcome` |
| GameScreen.Next | src/screens/GameScreen.tsx:116-120 | `nextRound` as a step; stated by `GameScreen.NextOutcome` |
| GameScreen.StartOutcome | src/screens/GameScreen.tsx:54-75 | a start hides the answer and shows 30; it plays and arms the interval iff the fetch and the play both succeed; round and score stay; the invariant is kept |
| GameScreen.TickOutcome | src/screens/GameScreen.tsx:80-95 | each firing takes one second off and shows it; the firing that reaches 0 clears the interval and ends the round with a point |
| GameScreen.SkipOutcome | src/screens/GameScreen.tsx:98-103 | a skip clears the interval and ends the round without a point, keeping the invariant |
| GameScreen.EndOutcome | src/screens/GameScreen.tsx:105-114 | ending a round stops it, shows the answer, adds a point iff one was earned, and labels the answer by that outcome |
| GameScreen.NextOutcome | src/screens/GameScreen.tsx:116-120 | the next round advances the round number by exactly one, keeps the score and then behaves as a start |
| GameScreen.TicksWhilePlaying | src/screens/GameScreen.tsx:80-90 | before the countdown is exhausted, `k` firings leave the round playing with `k` seconds less |
| GameScreen.TicksToEnd | src/screens/GameScreen.tsx:80-95 | once the countdown is exhausted the round has ended with one point, and the cleared interval changes nothing more |
| GameScreen.RunTicks | src/screens/GameScreen.tsx:80-95 | the interval firing `k` times, or until it is cleared; stated by `GameScreen.TicksWhilePlaying`, `GameScreen.TicksToEnd` and `GameScreen.RoundLastsThirtyTicks` |
| GameScreen.RunTicksSplit | src/screens/GameScreen.tsx:80 | `a + b` firings are `a` firings followed by `b` |
| GameScreen.RoundLastsThirtyTicks | src/screens/GameScreen.tsx:77-96 | a started round is playing and shows `30 - k` for `k < 30` firings, and the 30th firing ends it with one point |
| GameScreen.Apply | src/screens/GameScreen.tsx:194-206 | one event: a press reaches only the handler (lines 54-120) of the button the render shows, a firing acts only while the interval is armed, and anything else changes nothing |
| GameScreen.ApplyKeepsInvariant | src/screens/GameScreen.tsx:54-120 | every press of the shown button, and every firing, keeps the state invariant |
| GameScreen.RunKeepsInvariant | src/screens/GameScreen.tsx:54-120 | after any sequence of events the score never exceeds the round number: each round earns at most one point |
| GameScreen.AnswerLabelAfterFirstSkip | src/screens/GameScreen.tsx:184 | the answer label as written says "Correct" for a round skipped right after mounting; the corrected label says "Skipped" |
| GameScreen.AnswerLabelAfterTwoSkips | src/screens/GameScreen.tsx:184 | after two skips, a round that ran out the clock is labelled "Skipped" as written; the corrected label says "Correct" |
| GameScreen.Game.constructor | src/screens/GameScreen.tsx:14-19 | the component mounts with the initial state |
| GameScreen.Game.StartRound | src/screens/GameScreen.tsx:54-75 | performs the start step in place |
| GameScreen.Game.StartTimer | src/screens/GameScreen.tsx:77-80 | arms the interval with a countdown of 30 |
| GameScreen.Game.IntervalFired | src/screens/GameScreen.tsx:80-95 | performs one firing of the interval in place |
| GameScreen.Game.SkipRound | src/screens/GameScreen.tsx:98-103 | performs the skip step in place |
| GameScreen.Game.EndRound | src/screens/GameScreen.tsx:105-114 | performs the end step in place; it also records whether the round earned its point in `lastEarned`, a field the component does not have, which only the corrected answer label reads |
| GameScreen.Game.NextRound | src/screens/GameScreen.tsx:116-120 | performs the next-round step in place |

## Left out

- The screens' rendering itself, navigation, `Alert` dialogs, `LoginScreen` and `App`: only the choice of panel, button and answer label is modelled.
- The animated progress bar (`Animated.Value`, `timing`, `interpolate`): it is floating-point presentation and does not feed back into the game state.
- Real time and concurrency:
  - the one-second interval is an event the model applies when it fires;
  - handlers are not interleaved with pending promises;
  - the stale `score` that a `setScore(score + 1)` closure could capture is not modelled, and each step reads the current state.
- The mount effect (`initSpotify`, which calls `connect` and navigates to Login on failure) and the unmount cleanup (clearing the interval, `stopPlayback`): they only sequence service calls already modelled.
- `console` logging.
- The backend's JSON:
  - only string-or-missing `access_token`/`refresh_token` fields are modelled;
  - a track's fields are strings;
  - a `response.json()` that rejects is a `Rejected` body.
- Lone surrogate code units: Dafny's `char` is a Unicode scalar value, so the `URIError` that `encodeURIComponent` throws on them is not modelled.
- The concrete escaped forms of the two constants (`spotifymusicquiz%3A%2F%2Fcallback` and the scope with `%20`): they follow from `EncodeUnreserved`, `EncodeReservedHead` and `EncodeSpaceJoined`, but are not stated as lemmas, because unfolding the encoder over those literal strings is beyond the solver's budget.
- `login()` that never sees a redirect stays pending forever; the model returns `Pending` at the end of the event sequence.
- `lastEarned` in `GameScreen.Screen` and `GameScreen.Game` is not component state: `End` and `GameScreen.Game.EndRound` write it only so that the corrected answer label of the finding below can be stated.
- `GameScreen.Game.StartRound`: the service calls inside `startRound` (`getRandomTrack`, `playTrack`) are given as their `Settled` outcomes, not by calling `PlaybackService`. `endRound`'s `stopPlayback` is left out of the game state, because it never throws and changes no screen state.
- The model follows the code in two places where one might expect otherwise:
  - `disconnect` does not always clear the credentials: a rejected SDK logout skips `SpotifyAuth.logout()` and leaves `isConnected` set.
  - `connect` is not idempotent: on an already connected service it initializes the SDK and sets the token again.

## Findings

| source | as written | input that shows it | evidently intended | confidence | as-written member | corrected member |
|---|---|---|---|---|---|---|
| src/screens/GameScreen.tsx:184 | the answer panel shows "Correct" iff `score >= round - 1` | skip round 1 right after mounting: score 0, round 1, label "Correct"; or skip rounds 1 and 2, then let round 3 run out: score 1, round 3, label "Skipped" although the point was earned | the label says whether the round just ended earned its point (`endRound(true)` versus `endRound(false)`) | not executed | GameScreen.AnswerLabelAfterFirstSkip | GameScreen.EndOutcome |
