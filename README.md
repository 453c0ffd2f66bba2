# Loficus channel controller, modelled in Dafny

Loficus is a browser page that lists lofi YouTube channels and plays the one
the user picks in an embedded iframe, with Play, Pause and Mute controls. All
of its decision logic sits in the `DOMContentLoaded` callback of `js/main.js`.
This project models that logic:

- `youtube_id.dfy` (module `YouTubeId`): `extractYouTubeId`. Four regular
  expressions, each a literal prefix (`v=`, `youtu.be/`, `embed/`, `/live/`)
  followed by eleven `[\w-]` characters. They are tried in that order, and the
  first one that matches anywhere wins. If none matches, the last eleven
  characters are the fallback. Each regex is modelled as an explicit search for
  the leftmost match (`FindFrom`), which is what `String.prototype.match`
  without the `g` flag returns.
- `escape_html.dfy` (module `EscapeHtml`): `escapeHtml`, with a reference
  decoder `Unescape` that reverses the four substitutions.
- `embed_url.dfy` (module `EmbedUrl`): `buildEmbedUrl`, with a round trip
  back through `extractYouTubeId`.
- `controller.dfy` (module `Controller`): the playback state machine. The
  closure variables are `currentChannel`, `isPlaying`, `isMuted` and
  `currentIframe`. The page elements the script writes are held as one value
  of type `Page`: the player area, the three buttons' `disabled` flags and
  the text fields. The datatype `State` and the
  functions `Load`, `Stop`, `Toggle`, `OnPlay`, `OnPause` and `OnMute` say
  what each operation does. The class `PlayerController` holds the same
  variables as fields that its methods update in place. The methods
  `LoadChannelFromUrl`, `StopPlayback`, `ToggleMute`, `OnPlayClick`,
  `OnPauseClick` and `OnMuteClick` are each proved to leave `Snapshot()` equal
  to their transition function applied to the old state, and to preserve the
  invariant `Inv`. The helpers `SetControlsEnabled` and `UpdateMuteLabel` are
  proved to change `page` exactly as `SetControls` and `UpdateLabel` say.
  `SelectChannel` is proved to leave `Snapshot()` equal to `Select` of the old
  state. None of the three promises `Inv`: they run in the middle of an
  operation, where it does not hold. The lemmas prove the invariant
  for every sequence of user events (`Run`): something is playing exactly
  when a channel is selected, exactly when the iframe is shown and exactly
  when the controls are enabled.
- `optional.dfy` (module `Optional`): `Option`. `None` stands for JavaScript's
  `null`/`undefined`.

How the model reads the code:

- `loadChannelFromUrl` stores `{ url, videoId }` with no `title`. So
  `(currentChannel && currentChannel.title) || 'Live Stream'` is always
  "Live Stream" (js/main.js:78, 90). The card's title never reaches the
  player heading.
- `toggleMute` flips `isMuted` before it checks for a channel. With no channel
  it returns before `updateMuteLabel` (js/main.js:109-110). So the mute label
  does not always mirror the flag. `Inv` only ties the label to the flag while
  a channel is selected. Through the page this case cannot be reached: with
  no channel, the Mute button is disabled (`PressWhileIdle`).
- The Play handler's reload branch (js/main.js:153-155) is dead code. Under
  the invariant a selected channel is always playing (`PlayIsNoOp`).
- `stopPlayback` clears `currentIframe.src` but keeps the reference
  (js/main.js:100). So after a stop `iframe` is `Some("")`, not `None`.
- The page only ever mounts a plain iframe. No embedding-API player, error
  callback or fallback retry appears in `js/main.js`, so none is modelled.

## Model

| member | source | states |
|---|---|---|
| `YouTubeId.FindFrom` | js/main.js:29 | the position found is a match of `prefix` followed by eleven `[\w-]` characters, and no earlier position at or after the start matches; `None` means no position matches |
| `YouTubeId.MatchId` | js/main.js:29-30 | `url.match(p)` with `m[1]`: `None` exactly when the pattern matches nowhere, otherwise the eleven id characters captured at the leftmost match |
| `YouTubeId.MatchFirst` | js/main.js:27-31 | the pattern loop gives `None` exactly when no remaining pattern matches anywhere, and any result is an eleven-character id |
| `YouTubeId.MatchFirstReaches` | js/main.js:28-31 | the loop passes over patterns that match nowhere, in order, and returns what the first matching pattern returns |
| `YouTubeId.MatchIdAt` | js/main.js:29-30 | a leftmost match at `i` makes `m[1]` exactly the eleven characters after the prefix at `i` |
| `YouTubeId.ExtractYouTubeId` | js/main.js:24-35 | a falsy input (`null`, `undefined`, `""`) gives `null`, and every non-null result has length 11 |
| `YouTubeId.ExtractNullIff` | js/main.js:24-35 | the result is `null` exactly for a falsy input, or when no pattern matches and the input is shorter than 11; otherwise it has length 11 |
| `YouTubeId.ExtractPriority` | js/main.js:27-31 | when pattern k matches leftmost at i and no earlier pattern matches anywhere, the result is the capture at i and consists of `[\w-]` characters, even if a later pattern occurs earlier in the string |
| `YouTubeId.ExtractMatchIsVideoId` | js/main.js:27-31 | whenever some pattern matches, the result is eleven `[\w-]` characters |
| `YouTubeId.ExtractFallback` | js/main.js:32-33 | with no pattern match and at least 11 characters, the result is the input's last 11 characters |
| `YouTubeId.FallbackAcceptsAnyCharacters` | js/main.js:32-33 | the fallback does not check its guess: `https://example.com/a` yields `ample.com/a` |
| `YouTubeId.ExtractWatchForm` | js/main.js:26-31 | `https://www.youtube.com/watch?v=ID` yields `ID` for every valid id |
| `YouTubeId.ExtractShortLinkForm` | js/main.js:26-31 | `https://youtu.be/ID` yields `ID` for every valid id |
| `YouTubeId.ExtractEmbedForm` | js/main.js:26-31 | `https://www.youtube.com/embed/ID` yields `ID` for every valid id |
| `YouTubeId.ExtractLiveForm` | js/main.js:26-31 | `https://www.youtube.com/live/ID` yields `ID` for every valid id |
| `YouTubeId.NoMatchBefore` | js/main.js:28-30 | a prefix ending in a non-id character (all four do) cannot match across the boundary between a literal and id characters, so only positions inside the literal decide |
| `YouTubeId.ExtractPrefersEarlierPattern` | js/main.js:27-31 | for any valid ids A and B, `https://youtu.be/A?v=B` yields B: the `v=` pattern wins over the short link that occurs earlier |
| `EscapeHtml.EscapeChar` | js/main.js:21 | exactly the four characters `& < > "` are replaced, each by a reference that starts with `&`; no replacement contains `<`, `>` or `"` |
| `EscapeHtml.Escape` | js/main.js:21 | the output is no shorter than the input and contains no `<`, `>` or `"` |
| `EscapeHtml.EscapeHtml` | js/main.js:20-22 | `null`/`undefined` gives `''`, and the output contains no `<`, `>` or `"` |
| `EscapeHtml.UnescapeReference` | js/main.js:21 | each of the four references, in front of any text, decodes to its character |
| `EscapeHtml.UnescapeEscapeChar` | js/main.js:21 | decoding the replacement of one character, followed by any text, gives back that character |
| `EscapeHtml.UnescapeEscape` | js/main.js:21 | reversing the four substitutions recovers the input |
| `EscapeHtml.EscapeInjective` | js/main.js:21 | two texts with the same escape are equal |
| `EscapeHtml.EscapeAppend` | js/main.js:21 | the escape of a concatenation is the concatenation of the escapes |
| `EscapeHtml.EscapeUnchanged` | js/main.js:21 | a text is left unchanged exactly when it contains none of `& < > "`, so every other character, `'` included, passes through |
| `EmbedUrl.BuildEmbedUrl` | js/main.js:70-73 | the URL is `https://www.youtube.com/embed/`, then the id, then `?autoplay=1&rel=0&modestbranding=1`; its length allows for `&mute=1` after that exactly when `mute` is set, and it ends with `&mute=1` exactly when `mute` is set |
| `EmbedUrl.EmbedUrlRoundTrip` | js/main.js:70-73 | for a valid id (eleven `[\w-]` characters), extracting the id from its embed URL, muted or not, gives back the id |
| `EmbedUrl.EmbedUrlInjective` | js/main.js:70-73 | for valid ids, equal embed URLs have equal ids and equal mute flags |
| `Controller.MuteLabel` | js/main.js:118-120 | definition, no contract: the text "Muted" or "Unmuted" for the flag |
| `Controller.SetControls` | js/main.js:64-68 | definition, no contract: all three `disabled` flags set to `!enabled`; `PlayerController.SetControlsEnabled` is proved to change `page` exactly this way |
| `Controller.UpdateLabel` | js/main.js:118-120 | definition, no contract: the mute label set from the flag; `PlayerController.UpdateMuteLabel` is proved to change `page` exactly this way |
| `Controller.Init` | js/main.js:15-18 | definition, no contract: the declarations followed by the final `setControlsEnabled(false)` at line 168; the constructor is proved to produce it |
| `Controller.Load` | js/main.js:75-95 | definition, no contract: unchanged state without an id, otherwise `Select`; `PlayerController.LoadChannelFromUrl` is proved equal to it |
| `Controller.ShowFrame` | js/main.js:81-92 | definition, no contract: frame shown, title "Live Stream", empty description, URL (or "Playing") as now playing |
| `Controller.Select` | js/main.js:78-94 | definition, no contract: the part of loading after the id is known; `PlayerController.SelectChannel` is proved equal to it |
| `Controller.ShowPlaceholder` | js/main.js:101-104 | definition, no contract: placeholder and the three idle texts |
| `Controller.Stop` | js/main.js:97-106 | definition, no contract: `PlayerController.StopPlayback` is proved equal to it |
| `Controller.Reframe` | js/main.js:112-114 | definition, no contract: the iframe `src` rebuilt for the new flag when there is an iframe and a non-empty id |
| `Controller.Toggle` | js/main.js:108-116 | definition, no contract: `PlayerController.ToggleMute` is proved equal to it |
| `Controller.OnPlay` | js/main.js:151-156 | definition, no contract: `PlayerController.OnPlayClick` is proved equal to it |
| `Controller.OnPause` | js/main.js:158-161 | definition, no contract: `PlayerController.OnPauseClick` is proved equal to it |
| `Controller.OnMute` | js/main.js:163-165 | definition, no contract: `PlayerController.OnMuteClick` is proved equal to it |
| `Controller.Press` | js/main.js:64-165 | definition, no contract: a click on a control whose `disabled` flag is set fires no handler; otherwise the control's handler runs |
| `Controller.Step` | js/main.js:131-136 | definition, no contract: Play on a card (its decoded `data-url`) calls `loadChannelFromUrl`; a click on a control goes through `Press` to the handlers at lines 151-165 |
| `Controller.Run` | js/main.js:131-165 | definition, no contract: the state after a sequence of card and control clicks, each applied by `Step`; `RunInv` and `ReachableInv` range over it |
| `Controller.InitInv` | js/main.js:168 | after initialisation nothing is selected or playing, the page is unmuted, the controls are disabled, and the invariant holds |
| `Controller.LoadUnresolvable` | js/main.js:76-77 | a URL without an id leaves every variable unchanged |
| `Controller.LoadResolvable` | js/main.js:75-95 | a URL with an id selects `{url, videoId}` and starts playing; it shows the frame, enables all three controls and points the iframe at `buildEmbedUrl(videoId, isMuted)`; it sets the label from the flag, the title to "Live Stream", the description to empty and the now-playing text to the URL; the mute flag is kept |
| `Controller.LoadKeepsMute` | js/main.js:75-95 | loading never changes `isMuted` |
| `Controller.LoadInv` | js/main.js:75-95 | loading preserves the invariant |
| `Controller.StopEffect` | js/main.js:97-106 | from any state: no channel, not playing, placeholder shown, the three fixed texts, all controls disabled, mute flag and label untouched, the iframe's `src` cleared to `""` with the reference kept (still `null` if it was) |
| `Controller.StopIdempotent` | js/main.js:97-106 | stopping twice equals stopping once |
| `Controller.StopInv` | js/main.js:97-106 | stopping preserves the invariant |
| `Controller.ToggleMuteEffect` | js/main.js:108-116 | the flag always flips; only the iframe and the mute label may change besides it; with no channel neither of them changes |
| `Controller.ToggleMuteWithoutChannel` | js/main.js:108-110 | with no channel the label is not refreshed, so a label that matched the flag before no longer matches it |
| `Controller.ToggleMuteWithChannel` | js/main.js:111-120 | with a channel and an iframe, the iframe gets the embed URL of the same id with the new flag, and the label follows the flag |
| `Controller.ToggleMuteTwice` | js/main.js:108-116 | toggling twice restores the flag; in a state that satisfies the invariant it restores every variable |
| `Controller.ToggleMuteInv` | js/main.js:108-120 | toggling preserves the invariant |
| `Controller.PlayIsNoOp` | js/main.js:151-156 | under the invariant the Play handler changes nothing, so its reload branch is unreachable |
| `Controller.PauseNoOpIffIdle` | js/main.js:158-161 | under the invariant the Pause handler changes nothing exactly when nothing is playing |
| `Controller.PressWhileIdle` | js/main.js:64-68 | while nothing plays, the three controls are disabled and a press on any of them is ignored |
| `Controller.StepInv` | js/main.js:131-165 | a card's Play button and each control preserve the invariant |
| `Controller.RunInv` | js/main.js:131-165 | every sequence of events preserves the invariant |
| `Controller.ReachableInv` | js/main.js:15-18 | every state reachable from initialisation satisfies the invariant |
| `Controller.ShortLinkCardPlay` | js/main.js:133-136 | pressing Play on the card for `https://youtu.be/ID`, for any valid id, selects that id, starts playing and mounts its embed URL for the current mute flag |
| `Controller.PlayerController.constructor` | js/main.js:15-18 | the fields start as initialisation leaves them, and the invariant holds |
| `Controller.PlayerController.SetControlsEnabled` | js/main.js:64-68 | all three `disabled` flags become `!enabled`; only the page changes |
| `Controller.PlayerController.UpdateMuteLabel` | js/main.js:118-120 | the label becomes "Muted" or "Unmuted" according to the flag; only the page changes |
| `Controller.PlayerController.SelectChannel` | js/main.js:78-94 | the fields change as `Select` says: channel stored, playing, frame mounted for the current mute flag, texts set, controls enabled, label refreshed |
| `Controller.PlayerController.LoadChannelFromUrl` | js/main.js:75-95 | the fields change exactly as `Load` says; the invariant and `isMuted` are kept; a URL without an id changes nothing; a URL with one selects it and plays |
| `Controller.PlayerController.StopPlayback` | js/main.js:97-106 | the fields change exactly as `Stop` says (see `StopEffect`), and the invariant is kept |
| `Controller.PlayerController.ToggleMute` | js/main.js:108-116 | the fields change exactly as `Toggle` says (see `ToggleMuteEffect`), and the invariant is kept |
| `Controller.PlayerController.OnPlayClick` | js/main.js:151-156 | the fields change exactly as `OnPlay` says; from a valid state nothing changes |
| `Controller.PlayerController.OnPauseClick` | js/main.js:158-161 | the fields change exactly as `OnPause` says; from a valid state nothing changes exactly when nothing was playing |
| `Controller.PlayerController.OnMuteClick` | js/main.js:163-165 | the fields change exactly as `OnMute` says, and the invariant is kept |

## Left out

- js/player.js: a separate audio-element wrapper (`loadChannel`, `playChannel`, `pauseChannel`) that `js/main.js` never uses. It has no decision logic beyond storing the channel.
- The `fetch('data/channels.json')` chain and its "Failed to load channels." message (js/main.js:123-148). This is network I/O. A card's Play button is modelled as the event `CardPlay(url)`, where `url` is the decoded `data-url`.
- `buildChannelCard` (js/main.js:37-62): HTML templating, the thumbnail choice and `window.open` for the Open button. These build the page, not the controller's state.
- `encodeURIComponent`/`decodeURIComponent` on `data-url`: browser library calls. `'` is not percent-encoded while the attribute is single-quoted, so the URL round trip through the attribute is not guaranteed. This is not modelled.
- The DOM itself: the iframe's `className`, `allow` and `allowfullscreen` attributes, and the identity of the iframe node. `currentIframe` is modelled by its `src` only. So the model does not tell the new iframe of a reload from the old one.
- The initial texts and mute label of the static page are not part of this model. They are parameters of `Init` and of the constructor.
- `YouTubeId.ExtractYouTubeId` and `EscapeHtml.EscapeHtml`: the input is a string or absent. Other JavaScript values are not modelled: truthy non-strings, and `escapeHtml`'s `.toString()` of numbers or objects.
- Lengths and characters: Dafny's `char` is a Unicode scalar value, while JavaScript's `length` and `slice(-11)` count UTF-16 code units. They differ only for characters outside the Basic Multilingual Plane.
