/** The playback controller of js/main.js: the closure variables
    `currentChannel`, `isPlaying`, `isMuted` and `currentIframe`, the parts of
    the page the script writes (the player area, the three control buttons'
    `disabled` flags and the texts), and the functions and click handlers
    that update them.

    `State` and the transition functions (`Load`, `Stop`, `Toggle`, the
    handlers) state what each operation does; the class `PlayerController`
    holds the same variables as mutable fields, and each of its methods is
    proved to change them exactly as its transition function says. */
module Controller {
  import opened Optional
  import opened YouTubeId
  import opened EmbedUrl

  /** The object `{ url, videoId }` that `loadChannelFromUrl` stores. */
  datatype Channel = Channel(url: string, videoId: string)

  /** What the player area (`playerWrap`) holds. */
  datatype PlayerArea =
    | PageMarkup   // whatever the static page put there, before any load or stop
    | Frame        // the iframe `currentIframe` refers to
    | Placeholder  // the "Select a channel to play" placeholder

  /** The page elements the script writes: the player area, the `disabled`
      flags of the Play, Pause and Mute buttons, and the text of the player
      title, the player description, the "now playing" line and the mute
      button. */
  datatype Page = Page(
    area: PlayerArea,
    playDisabled: bool,
    pauseDisabled: bool,
    muteDisabled: bool,
    title: string,
    desc: string,
    nowPlaying: string,
    muteLabel: string)

  /** A snapshot of every variable the controller reads or writes. `iframe` is
      the `src` of `currentIframe`, `None` while that variable is still `null`. */
  datatype State = State(
    channel: Option<Channel>,
    playing: bool,
    muted: bool,
    iframe: Option<string>,
    page: Page)

  const LiveStreamTitle: string := "Live Stream"
  const PlayingText: string := "Playing"
  const IdleTitle: string := "Select a channel"
  const IdleDesc: string := "Click a channel on the right to start listening."
  const IdleNowPlaying: string := "Nothing playing"

  /** The text `updateMuteLabel` gives the mute button. */
  function MuteLabel(muted: bool): string {
    if muted then "Muted" else "Unmuted"
  }

  /** `setControlsEnabled(enabled)`: all three buttons get `disabled = !enabled`. */
  function SetControls(p: Page, enabled: bool): Page {
    p.(playDisabled := !enabled, pauseDisabled := !enabled, muteDisabled := !enabled)
  }

  /** `updateMuteLabel()`. */
  function UpdateLabel(p: Page, muted: bool): Page {
    p.(muteLabel := MuteLabel(muted))
  }

  /** The page once the script has run its initialisation: nothing selected,
      nothing playing, unmuted, no iframe, all three controls disabled. The
      texts are those of the static page, which is not part of this model. */
  function Init(title: string, desc: string, nowPlaying: string, muteLabel: string): State {
    State(None, false, false, None,
          SetControls(Page(PageMarkup, false, false, false, title, desc, nowPlaying, muteLabel), false))
  }

  /** `loadChannelFromUrl(url)`: nothing happens unless an id can be
      extracted. */
  function Load(s: State, url: string): State {
    match ExtractYouTubeId(Some(url))
    case None => s
    case Some(vid) => Select(s, Channel(url, vid))
  }

  /** The page writes of `loadChannelFromUrl`: the frame replaces the player
      area's content and the texts are set. The stored channel object has no
      `title`, so the title is always the fallback "Live Stream". */
  function ShowFrame(p: Page, ch: Channel): Page {
    p.(area := Frame, title := LiveStreamTitle, desc := "",
       nowPlaying := if ch.url != "" then ch.url else PlayingText)
  }

  /** The part of `loadChannelFromUrl` after the id is known. */
  function Select(s: State, ch: Channel): State {
    s.(channel := Some(ch), playing := true,
       iframe := Some(BuildEmbedUrl(ch.videoId, s.muted)),
       page := UpdateLabel(SetControls(ShowFrame(s.page, ch), true), s.muted))
  }

  /** The page writes of `stopPlayback`: the placeholder and the idle texts. */
  function ShowPlaceholder(p: Page): Page {
    p.(area := Placeholder, title := IdleTitle, desc := IdleDesc, nowPlaying := IdleNowPlaying)
  }

  /** `stopPlayback()`. `currentIframe` keeps its (now detached) iframe, whose
      `src` is cleared. */
  function Stop(s: State): State {
    s.(playing := false, channel := None,
       iframe := if s.iframe.Some? then Some("") else None,
       page := SetControls(ShowPlaceholder(s.page), false))
  }

  /** The frame after a mute toggle: rebuilt for the new flag when there is
      one and the id is non-empty, otherwise left alone. */
  function Reframe(iframe: Option<string>, videoId: string, muted: bool): Option<string> {
    if iframe.Some? && videoId != "" then Some(BuildEmbedUrl(videoId, muted)) else iframe
  }

  /** `toggleMute()`: the flag flips first; without a channel nothing else
      happens, not even the label update. */
  function Toggle(s: State): State {
    var muted := !s.muted;
    if s.channel.None? then s.(muted := muted)
    else s.(muted := muted, iframe := Reframe(s.iframe, s.channel.value.videoId, muted),
            page := UpdateLabel(s.page, muted))
  }

  /** The Play button's click handler. */
  function OnPlay(s: State): State {
    if s.channel.None? then s
    else if !s.playing then Load(s, s.channel.value.url)
    else s
  }

  /** The Pause button's click handler. */
  function OnPause(s: State): State {
    if !s.playing then s else Stop(s)
  }

  /** The Mute button's click handler. */
  function OnMute(s: State): State {
    Toggle(s)
  }

  datatype Button = PlayButton | PauseButton | MuteButton

  function Disabled(s: State, b: Button): bool {
    match b
    case PlayButton => s.page.playDisabled
    case PauseButton => s.page.pauseDisabled
    case MuteButton => s.page.muteDisabled
  }

  /** A click on a control: a disabled button fires no click event. */
  function Press(s: State, b: Button): State {
    if Disabled(s, b) then s
    else match b
      case PlayButton => OnPlay(s)
      case PauseButton => OnPause(s)
      case MuteButton => OnMute(s)
  }

  /** What the user can do once the list is rendered: press Play on a card
      (which loads that card's URL) or press one of the three controls. */
  datatype Event = CardPlay(url: string) | Control(button: Button)

  function Step(s: State, e: Event): State {
    match e
    case CardPlay(url) => Load(s, url)
    case Control(b) => Press(s, b)
  }

  /** The state after a sequence of events. */
  function Run(s: State, events: seq<Event>): State
    decreases |events|
  {
    if events == [] then s else Run(Step(s, events[0]), events[1..])
  }

  /** The controller's invariant: something is playing exactly when a channel
      is selected, exactly when the frame is shown and exactly when the three
      controls are enabled; and the selected channel's id is the one extracted
      from its URL, the frame plays that id with the current mute flag, and
      the mute label and "now playing" text match. */
  predicate Inv(s: State) {
    s.playing == s.channel.Some? &&
    s.playing == (s.page.area == Frame) &&
    s.page.playDisabled == !s.playing &&
    s.page.pauseDisabled == !s.playing &&
    s.page.muteDisabled == !s.playing &&
    (s.channel.Some? ==>
      var ch := s.channel.value;
      ExtractYouTubeId(Some(ch.url)) == Some(ch.videoId) &&
      s.iframe == Some(BuildEmbedUrl(ch.videoId, s.muted)) &&
      s.page.nowPlaying == ch.url &&
      s.page.muteLabel == MuteLabel(s.muted))
  }

  // ---- Properties of the operations ----

  /** Initialisation establishes the invariant. */
  lemma InitInv(title: string, desc: string, nowPlaying: string, muteLabel: string)
    ensures Inv(Init(title, desc, nowPlaying, muteLabel))
    ensures !Init(title, desc, nowPlaying, muteLabel).playing
    ensures !Init(title, desc, nowPlaying, muteLabel).muted
  {
  }

  /** A URL without an extractable id leaves every variable as it was. */
  lemma LoadUnresolvable(s: State, url: string)
    requires ExtractYouTubeId(Some(url)).None?
    ensures Load(s, url) == s
  {
  }

  /** A URL with an id selects that channel, starts playing, enables the
      controls and points the frame at the embed URL for the current mute
      flag; the mute flag itself never changes. */
  lemma LoadResolvable(s: State, url: string)
    requires ExtractYouTubeId(Some(url)).Some?
    ensures var vid := ExtractYouTubeId(Some(url)).value;
      var t := Load(s, url);
      t.channel == Some(Channel(url, vid)) && |vid| == IdLength &&
      t.playing && t.page.area == Frame &&
      !t.page.playDisabled && !t.page.pauseDisabled && !t.page.muteDisabled &&
      t.iframe == Some(BuildEmbedUrl(vid, s.muted)) &&
      t.muted == s.muted && t.page.muteLabel == MuteLabel(s.muted) &&
      t.page.title == LiveStreamTitle && t.page.desc == "" && t.page.nowPlaying == url
  {
  }

  /** Loading never changes the mute flag. */
  lemma LoadKeepsMute(s: State, url: string)
    ensures Load(s, url).muted == s.muted
  {
  }

  /** Loading preserves the invariant. */
  lemma LoadInv(s: State, url: string)
    requires Inv(s)
    ensures Inv(Load(s, url))
  {
  }

  /** Stopping, from any state: nothing selected, nothing playing, placeholder
      texts, all controls disabled, the mute flag and label untouched, and a
      kept iframe with its `src` cleared. */
  lemma StopEffect(s: State)
    ensures var t := Stop(s);
      t.channel.None? && !t.playing && t.page.area == Placeholder &&
      t.page.playDisabled && t.page.pauseDisabled && t.page.muteDisabled &&
      t.page.title == IdleTitle && t.page.desc == IdleDesc && t.page.nowPlaying == IdleNowPlaying &&
      t.muted == s.muted && t.page.muteLabel == s.page.muteLabel &&
      t.iframe == (if s.iframe.Some? then Some("") else None)
  {
  }

  /** Stopping twice is stopping once. */
  lemma StopIdempotent(s: State)
    ensures Stop(Stop(s)) == Stop(s)
  {
  }

  /** Stopping preserves the invariant. */
  lemma StopInv(s: State)
    requires Inv(s)
    ensures Inv(Stop(s))
  {
  }

  /** Toggling always flips the flag and never touches the channel, the
      playing flag, the controls or the title and description. */
  lemma ToggleMuteEffect(s: State)
    ensures var t := Toggle(s);
      t == s.(muted := !s.muted, iframe := t.iframe, page := s.page.(muteLabel := t.page.muteLabel))
    ensures s.channel.None? ==> Toggle(s).iframe == s.iframe && Toggle(s).page == s.page
  {
  }

  /** Without a channel the label is not refreshed: a label that matched the
      flag before the toggle no longer does. */
  lemma ToggleMuteWithoutChannel(s: State)
    requires s.channel.None? && s.page.muteLabel == MuteLabel(s.muted)
    ensures Toggle(s).page.muteLabel != MuteLabel(Toggle(s).muted)
  {
    assert "Muted"[0] != "Unmuted"[0];
  }

  /** With a channel and an iframe, the frame is rebuilt for the same id with
      the new flag, and the label follows the flag. */
  lemma ToggleMuteWithChannel(s: State)
    requires s.channel.Some? && s.iframe.Some? && s.channel.value.videoId != ""
    ensures Toggle(s).iframe == Some(BuildEmbedUrl(s.channel.value.videoId, !s.muted))
    ensures Toggle(s).page.muteLabel == MuteLabel(!s.muted)
  {
  }

  /** Toggling twice restores the flag; in a state satisfying the invariant it
      restores every variable. */
  lemma ToggleMuteTwice(s: State)
    ensures Toggle(Toggle(s)).muted == s.muted
    ensures Inv(s) ==> Toggle(Toggle(s)) == s
  {
  }

  /** Toggling preserves the invariant. */
  lemma ToggleMuteInv(s: State)
    requires Inv(s)
    ensures Inv(Toggle(s))
  {
  }

  /** The Play handler's reload branch is dead: under the invariant a selected
      channel is always playing, so Play changes nothing. */
  lemma PlayIsNoOp(s: State)
    requires Inv(s)
    ensures OnPlay(s) == s
  {
  }

  /** Pause changes nothing exactly when nothing is playing. */
  lemma PauseNoOpIffIdle(s: State)
    requires Inv(s)
    ensures OnPause(s) == s <==> !s.playing
  {
    if s.playing {
      assert !OnPause(s).playing;
    }
  }

  /** With controls disabled, a click on them is ignored; under the invariant
      this is exactly when nothing is playing, so Mute is only ever handled
      with a channel selected. */
  lemma PressWhileIdle(s: State, b: Button)
    requires Inv(s) && !s.playing
    ensures Press(s, b) == s
  {
  }

  /** Every event preserves the invariant. */
  lemma StepInv(s: State, e: Event)
    requires Inv(s)
    ensures Inv(Step(s, e))
  {
    match e
    case CardPlay(url) => LoadInv(s, url);
    case Control(b) =>
      match b
      case PlayButton => PlayIsNoOp(s);
      case PauseButton => if s.playing { StopInv(s); }
      case MuteButton => if s.playing { ToggleMuteInv(s); }
  }

  /** Any sequence of events preserves the invariant. */
  lemma {:induction false} RunInv(s: State, events: seq<Event>)
    requires Inv(s)
    ensures Inv(Run(s, events))
    decreases |events|
  {
    if events != [] {
      StepInv(s, events[0]);
      RunInv(Step(s, events[0]), events[1..]);
    }
  }

  /** Every state the page can reach satisfies the invariant, so in every
      reachable state something plays exactly when a channel is selected and
      exactly when the controls are enabled. */
  lemma ReachableInv(title: string, desc: string, nowPlaying: string, muteLabel: string, events: seq<Event>)
    ensures Inv(Run(Init(title, desc, nowPlaying, muteLabel), events))
  {
    InitInv(title, desc, nowPlaying, muteLabel);
    RunInv(Init(title, desc, nowPlaying, muteLabel), events);
  }

  /** Pressing Play on the card for a short link `https://youtu.be/ID` selects
      that video and mounts its embed URL for the current mute flag. */
  lemma ShortLinkCardPlay(s: State, id: string)
    requires IsVideoId(id)
    ensures var t := Step(s, CardPlay("https://youtu.be/" + id));
      t.playing && t.channel == Some(Channel("https://youtu.be/" + id, id)) &&
      t.iframe == Some(BuildEmbedUrl(id, s.muted))
  {
    ExtractShortLinkForm(id);
  }

  // ---- The controller as the page holds it: variables updated in place ----

  class PlayerController {
    var currentChannel: Option<Channel>
    var isPlaying: bool
    var isMuted: bool
    var currentIframe: Option<string>
    var page: Page

    /** The current values of all the variables. */
    function Snapshot(): State
      reads this
    {
      State(currentChannel, isPlaying, isMuted, currentIframe, page)
    }

    ghost predicate Valid()
      reads this
    {
      Inv(Snapshot())
    }

    /** The `DOMContentLoaded` callback's declarations and its final
        `setControlsEnabled(false)`; the initial texts come from the page. */
    constructor (title: string, desc: string, initialNowPlaying: string, initialMuteLabel: string)
      ensures Snapshot() == Init(title, desc, initialNowPlaying, initialMuteLabel)
      ensures Valid() && !isPlaying && !isMuted
    {
      currentChannel := None;
      isPlaying := false;
      isMuted := false;
      currentIframe := None;
      page := Page(PageMarkup, false, false, false, title, desc, initialNowPlaying, initialMuteLabel);
      new;
      SetControlsEnabled(false);
    }

    method SetControlsEnabled(enabled: bool)
      modifies this`page
      ensures page == SetControls(old(page), enabled)
    {
      page := page.(playDisabled := !enabled, pauseDisabled := !enabled, muteDisabled := !enabled);
    }

    method UpdateMuteLabel()
      modifies this`page
      ensures page == UpdateLabel(old(page), isMuted)
    {
      page := page.(muteLabel := MuteLabel(isMuted));
    }

    /** The part of `loadChannelFromUrl` after the id is known. */
    method SelectChannel(ch: Channel)
      modifies this
      ensures Snapshot() == Select(old(Snapshot()), ch)
    {
      currentChannel := Some(ch);
      isPlaying := true;
      currentIframe := Some(BuildEmbedUrl(ch.videoId, isMuted));
      page := ShowFrame(page, ch);
      SetControlsEnabled(true);
      UpdateMuteLabel();
    }

    method LoadChannelFromUrl(url: string)
      modifies this
      ensures Snapshot() == Load(old(Snapshot()), url)
      ensures old(Valid()) ==> Valid()
      ensures isMuted == old(isMuted)
      ensures ExtractYouTubeId(Some(url)).None? ==> Snapshot() == old(Snapshot())
      ensures ExtractYouTubeId(Some(url)).Some? ==>
                isPlaying && currentChannel == Some(Channel(url, ExtractYouTubeId(Some(url)).value))
    {
      ghost var s0 := Snapshot();
      var vid := ExtractYouTubeId(Some(url));
      LoadKeepsMute(s0, url);
      if vid.None? {
        LoadUnresolvable(s0, url);
        return;
      }
      SelectChannel(Channel(url, vid.value));
      LoadResolvable(s0, url);
      if Inv(s0) {
        LoadInv(s0, url);
      }
    }

    method StopPlayback()
      modifies this
      ensures Snapshot() == Stop(old(Snapshot()))
      ensures old(Valid()) ==> Valid()
    {
      ghost var s0 := Snapshot();
      isPlaying := false;
      currentChannel := None;
      if currentIframe.Some? {
        currentIframe := Some("");
      }
      page := ShowPlaceholder(page);
      SetControlsEnabled(false);
      if Inv(s0) {
        StopInv(s0);
      }
    }

    method ToggleMute()
      modifies this
      ensures Snapshot() == Toggle(old(Snapshot()))
      ensures old(Valid()) ==> Valid()
    {
      ghost var s0 := Snapshot();
      if Inv(s0) {
        ToggleMuteInv(s0);
      }
      isMuted := !isMuted;
      if currentChannel.None? {
        return;
      }
      if currentIframe.Some? && currentChannel.value.videoId != "" {
        currentIframe := Some(BuildEmbedUrl(currentChannel.value.videoId, isMuted));
      }
      UpdateMuteLabel();
    }

    method OnPlayClick()
      modifies this
      ensures Snapshot() == OnPlay(old(Snapshot()))
      ensures old(Valid()) ==> Valid() && Snapshot() == old(Snapshot())
    {
      ghost var s0 := Snapshot();
      if Inv(s0) {
        PlayIsNoOp(s0);
      }
      if currentChannel.None? {
        return;
      }
      if !isPlaying {
        LoadChannelFromUrl(currentChannel.value.url);
      }
    }

    method OnPauseClick()
      modifies this
      ensures Snapshot() == OnPause(old(Snapshot()))
      ensures old(Valid()) ==> Valid() && (Snapshot() == old(Snapshot()) <==> !old(isPlaying))
    {
      ghost var s0 := Snapshot();
      if Inv(s0) {
        PauseNoOpIffIdle(s0);
      }
      if !isPlaying {
        return;
      }
      StopPlayback();
    }

    method OnMuteClick()
      modifies this
      ensures Snapshot() == OnMute(old(Snapshot()))
      ensures old(Valid()) ==> Valid()
    {
      ToggleMute();
    }
  }
}
