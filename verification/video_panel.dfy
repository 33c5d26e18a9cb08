/** The state of the video panel (view/VideoPanel.tsx, `VideoPanel`) as an immutable record
    and its transitions. The promise of a resolution started by the effect on `rawUrl` settles
    later, as an explicit event; it is applied whatever the panel's URL is by then. */
module VideoPanel {
  import opened Wrappers
  import opened Collaborators
  import opened PlayItems

  /** The four state hooks, and the raw URLs whose resolution has started and not yet settled,
      oldest first. */
  datatype Panel = Panel(
    rawUrl: Option<string>,
    playItem: Option<PlayItem>,
    editingUrl: string,
    playing: bool,
    inFlight: seq<string>)

  const Initial: Panel := Panel(None, None, "", true, [])

  datatype Event =
    | SetRawUrl(url: Option<string>)        // exported `setRawUrl`
    | SetPlayItem(item: Option<PlayItem>)   // exported `setPlayItem`
    | SetPlaying(on: bool)                  // exported `setPlaying`
    | PlayerPlayed                          // the player's `onPlay`
    | PlayerPaused                          // the player's `onPause`
    | PowerClicked                          // the power button
    | UrlEdited(text: string)               // typing in the URL field
    | Settled(index: nat)                   // the resolution `inFlight[index]` settles

  /** `setRawUrl(url)` and the effect it triggers. Setting the current value again is ignored,
      and the effect does not run. A non-empty URL starts a resolution and leaves the play
      item in place until it settles; null or "" clears the play item at once. */
  function ChangeRawUrl(p: Panel, url: Option<string>): (q: Panel)
    ensures url == p.rawUrl ==> q == p
    ensures url != p.rawUrl ==> q.rawUrl == url
    ensures url != p.rawUrl && !Present(url) ==> q.playItem.None? && q.inFlight == p.inFlight
    ensures url != p.rawUrl && Present(url) ==>
      q.playItem == p.playItem && q.inFlight == p.inFlight + [url.value]
    ensures q.playing == p.playing && q.editingUrl == p.editingUrl
  {
    if url == p.rawUrl then p
    else if Present(url) then p.(rawUrl := url, inFlight := p.inFlight + [url.value])
    else p.(rawUrl := url, playItem := None)
  }

  /** The `.then` of resolution `i`: the field shows the item's display URL ("" for null) and
      the item is installed. A rejected resolution changes nothing but the pending list. */
  function Settle(host: Host, p: Panel, i: nat): (q: Panel)
    requires i < |p.inFlight|
    ensures q.inFlight == p.inFlight[..i] + p.inFlight[i + 1..]
    ensures q.rawUrl == p.rawUrl && q.playing == p.playing
    ensures match GetPlayItem(host, Some(p.inFlight[i]))
      case Rejected => q.playItem == p.playItem && q.editingUrl == p.editingUrl
      case Resolved(item) =>
        q.playItem == item && q.editingUrl == (if item.Some? then item.value.displayUrl else "")
  {
    var rest := p.inFlight[..i] + p.inFlight[i + 1..];
    match GetPlayItem(host, Some(p.inFlight[i]))
    case Rejected => p.(inFlight := rest)
    case Resolved(item) =>
      p.(editingUrl := if item.Some? then item.value.displayUrl else "", playItem := item, inFlight := rest)
  }

  function Step(host: Host, p: Panel, e: Event): Panel {
    match e
    case SetRawUrl(url) => ChangeRawUrl(p, url)
    case SetPlayItem(item) => p.(playItem := item)
    case SetPlaying(on) => p.(playing := on)
    case PlayerPlayed => p.(playing := true)
    case PlayerPaused => p.(playing := false)
    case PowerClicked => if p.playItem.Some? then ChangeRawUrl(p, None) else p
    case UrlEdited(text) => p.(editingUrl := text)
    case Settled(i) => if i < |p.inFlight| then Settle(host, p, i) else p
  }

  function Run(host: Host, p: Panel, events: seq<Event>): Panel
    decreases |events|
  {
    if |events| == 0 then p else Run(host, Step(host, p, events[0]), events[1..])
  }

  /** The player element: keyed by the display URL, loading the playing URL. */
  datatype Player = Player(key: string, url: string, playing: bool, tracks: seq<Track>)

  /** What the panel shows: the URL field, whether the power button is there, the player. */
  datatype View = View(urlField: string, powerButton: bool, player: Option<Player>)

  function Render(p: Panel): (v: View)
    ensures v.urlField == p.editingUrl
    ensures v.powerButton <==> p.playItem.Some?
    ensures v.player.Some? <==> p.playItem.Some?
    ensures v.player.Some? ==>
      v.player.value == Player(p.playItem.value.displayUrl, p.playItem.value.playingUrl,
                               p.playing, p.playItem.value.subtitles)
  {
    match p.playItem
    case None => View(p.editingUrl, false, None)
    case Some(item) =>
      View(p.editingUrl, true, Some(Player(item.displayUrl, item.playingUrl, p.playing, item.subtitles)))
  }

  /** The URL handed to `onCommitUrl` when a key is released in the URL field. */
  function Commit(p: Panel, key: string): (url: Option<string>)
    ensures url.Some? <==> key == "Enter"
    ensures url.Some? ==> url.value == p.editingUrl
  {
    if key == "Enter" then Some(p.editingUrl) else None
  }

  // ---------------------------------------------------------------------------------------

  lemma {:induction false} RunAppend(host: Host, p: Panel, events: seq<Event>, e: Event)
    ensures Run(host, p, events + [e]) == Step(host, Run(host, p, events), e)
    decreases |events|
  {
    if |events| == 0 {
      assert [e][1..] == [];
    } else {
      RunAppend(host, Step(host, p, events[0]), events[1..], e);
      assert (events + [e])[1..] == events[1..] + [e];
    }
  }

  /** The `playing` flag a sequence of events leaves: the last `onPlay`, `onPause` or
      `setPlaying` decides, and without one the flag keeps its value. */
  function LastPlaying(events: seq<Event>, initial: bool): bool
    decreases |events|
  {
    if |events| == 0 then initial
    else
      match events[|events| - 1]
      case PlayerPlayed => true
      case PlayerPaused => false
      case SetPlaying(on) => on
      case _ => LastPlaying(events[..|events| - 1], initial)
  }

  /** `playing` starts true and follows the player's play and pause events. */
  lemma {:induction false} PlayingFollowsEvents(host: Host, events: seq<Event>)
    ensures Run(host, Initial, events).playing == LastPlaying(events, true)
    decreases |events|
  {
    if |events| > 0 {
      var init := events[..|events| - 1];
      PlayingFollowsEvents(host, init);
      RunAppend(host, Initial, init, events[|events| - 1]);
      assert init + [events[|events| - 1]] == events;
    }
  }

  /** The power button, present only with a play item, clears the URL and with it the item,
      so the player disappears. */
  lemma PowerHidesPlayer(host: Host, p: Panel)
    requires p.playItem.Some? && p.rawUrl.Some?
    ensures var q := Step(host, p, PowerClicked);
      q.rawUrl.None? && q.playItem.None? && Render(q).player.None? && !Render(q).powerButton
  {
  }

  /** Setting a new non-empty URL and letting its resolution settle shows what `getPlayItem`
      resolved it to, with its display URL in the field; a rejection leaves the panel as it was. */
  lemma {:induction false} ResolveAndShow(host: Host, p: Panel, url: string)
    requires url != "" && p.rawUrl != Some(url)
    ensures var q := Run(host, p, [SetRawUrl(Some(url)), Settled(|p.inFlight|)]);
      && q.rawUrl == Some(url)
      && q.inFlight == p.inFlight
      && match GetPlayItem(host, Some(url))
         case Resolved(item) =>
           q.playItem == item && item.Some? && q.editingUrl == item.value.displayUrl
         case Rejected =>
           q.playItem == p.playItem && q.editingUrl == p.editingUrl
  {
    var p1 := Step(host, p, SetRawUrl(Some(url)));
    assert p1.inFlight == p.inFlight + [url];
    var q := Step(host, p1, Settled(|p.inFlight|));
    assert p1.inFlight[..|p.inFlight|] + p1.inFlight[|p.inFlight| + 1..] == p.inFlight;
    var events := [SetRawUrl(Some(url)), Settled(|p.inFlight|)];
    assert events[1..] == [Settled(|p.inFlight|)] && events[1..][1..] == [];
    assert Run(host, p1, events[1..]) == Run(host, q, []);
  }

  /** Every pending resolution is of a non-empty URL, and every play item shown is exactly what
      `getPlayItem` resolved some URL to: no partly built item is ever installed. */
  ghost predicate Sound(host: Host, p: Panel) {
    && (forall i :: 0 <= i < |p.inFlight| ==> p.inFlight[i] != "")
    && (p.playItem.Some? ==> exists url :: GetPlayItem(host, Some(url)) == Resolved(p.playItem))
  }

  lemma StepKeepsSound(host: Host, p: Panel, e: Event)
    requires Sound(host, p) && !e.SetPlayItem?
    ensures Sound(host, Step(host, p, e))
  {
  }

  /** Without a direct `setPlayItem`, every state reached from the initial one is sound. */
  lemma {:induction false} RunKeepsSound(host: Host, p: Panel, events: seq<Event>)
    requires Sound(host, p)
    requires forall i :: 0 <= i < |events| ==> !events[i].SetPlayItem?
    ensures Sound(host, Run(host, p, events))
    decreases |events|
  {
    if |events| > 0 {
      StepKeepsSound(host, p, events[0]);
      RunKeepsSound(host, Step(host, p, events[0]), events[1..]);
    }
  }

  /** A resolution that settles after the URL was cleared still installs its item: there is no
      comparison with the current URL. The power button is then shown but ignored, since
      setting the URL to null again changes nothing. */
  lemma LateResolutionAfterClear(host: Host, p: Panel, i: nat)
    requires p.rawUrl.None? && i < |p.inFlight|
    requires GetPlayItem(host, Some(p.inFlight[i])).Resolved?
    ensures var q := Step(host, p, Settled(i));
      && q.rawUrl.None?
      && q.playItem == GetPlayItem(host, Some(p.inFlight[i])).item
      && Render(q).player.Some? && Render(q).powerButton
      && Step(host, q, PowerClicked) == q
  {
  }
}
