/** The plugin's decisions in main.ts: the URL gate, the `video-note` block processor, the
    trigger and timestamp-insert commands, `play`'s choice of panel command and seek time, and
    the merge of stored settings over the defaults. */
module Plugin {
  import opened Wrappers
  import opened Strings
  import opened Timestamp
  import opened Collaborators
  import opened PlayItems
  import opened VideoButton

  /** The text inserted in place of a URL the gate rejects. */
  const InvalidUrlText: string :=
    "\n> [!error] Invalid Video URL\n> The highlighted link is not a valid video url. Please try again with a valid link.\n"

  const NoteFence: string := "```video-note"

  /** The settings fields the plugin reads. The defaults come from the settings module, which
      is not part of this model, so they are a parameter. */
  datatype Settings = Settings(
    noteTitle: string,
    forwardSeek: string,
    port: int,
    startAtLastPosition: bool,
    urlStartTimeMap: map<string, real>)

  /** The settings as read from disk: any field may be missing. */
  datatype StoredSettings = StoredSettings(
    noteTitle: Option<string>,
    forwardSeek: Option<string>,
    port: Option<int>,
    startAtLastPosition: Option<bool>,
    urlStartTimeMap: Option<map<string, real>>)

  /** `Object.keys` throws on stored data without a resume map. */
  datatype LoadError = ResumeMapMissing

  /** `loadSettings`: without stored data the defaults; otherwise the defaults overridden by every
      stored field, with the resume map rebuilt from the stored one. */
  function LoadSettings(defaults: Settings, data: Option<StoredSettings>): (r: Result<Settings, LoadError>)
    ensures data.None? ==> r == Success(defaults)
    ensures data.Some? ==> (r.Success? <==> data.value.urlStartTimeMap.Some?)
    ensures data.Some? && r.Success? ==>
      var stored := data.value;
      && r.value.urlStartTimeMap.Keys == stored.urlStartTimeMap.value.Keys
      && (forall url :: url in stored.urlStartTimeMap.value ==>
            r.value.urlStartTimeMap[url] == stored.urlStartTimeMap.value[url])
      && (stored.noteTitle.Some? ==> r.value.noteTitle == stored.noteTitle.value)
      && (stored.noteTitle.None? ==> r.value.noteTitle == defaults.noteTitle)
      && (stored.forwardSeek.Some? ==> r.value.forwardSeek == stored.forwardSeek.value)
      && (stored.forwardSeek.None? ==> r.value.forwardSeek == defaults.forwardSeek)
      && (stored.port.Some? ==> r.value.port == stored.port.value)
      && (stored.port.None? ==> r.value.port == defaults.port)
      && (stored.startAtLastPosition.Some? ==>
            r.value.startAtLastPosition == stored.startAtLastPosition.value)
      && (stored.startAtLastPosition.None? ==>
            r.value.startAtLastPosition == defaults.startAtLastPosition)
  {
    match data
    case None => Success(defaults)
    case Some(stored) =>
      match stored.urlStartTimeMap
      case None => Failure(ResumeMapMissing)
      case Some(positions) =>
        var resume := map url | url in positions :: positions[url];
        Success(Settings(
          stored.noteTitle.GetOr(defaults.noteTitle),
          stored.forwardSeek.GetOr(defaults.forwardSeek),
          stored.port.GetOr(defaults.port),
          stored.startAtLastPosition.GetOr(defaults.startAtLastPosition),
          resume))
  }

  /** `~~x` for a number within 32-bit range: truncation toward zero. */
  function Truncate(x: real): (n: int)
    ensures x >= 0.0 ==> n as real <= x < n as real + 1.0
    ensures x < 0.0 ==> n as real - 1.0 < x <= n as real
  {
    if x >= 0.0 then x.Floor else -((-x).Floor)
  }

  /** What `play` asks of the video panel. */
  datatype PanelCommand = PlayUrl(url: string, seekTime: int) | SeekTo(seconds: int)

  /** The seek time `play` starts a URL at: explicit seconds (0 included), else the truncated
      stored position of that URL when resuming is on, else 0. */
  function StartTime(settings: Settings, url: string, seconds: Option<int>): (t: int)
    ensures seconds.Some? ==> t == seconds.value
    ensures seconds.None? && settings.startAtLastPosition && url in settings.urlStartTimeMap ==>
      t == Truncate(settings.urlStartTimeMap[url])
    ensures seconds.None? && !(settings.startAtLastPosition && url in settings.urlStartTimeMap) ==>
      t == 0
  {
    match seconds
    case Some(s) => s
    case None =>
      if settings.startAtLastPosition then
        Truncate(if url in settings.urlStartTimeMap then settings.urlStartTimeMap[url] else 0.0)
      else 0
  }

  /** `play(url, seconds)`: a URL is played from its start time; without a URL, non-zero seconds
      seek the current video; otherwise nothing is sent. */
  function Play(settings: Settings, url: Option<string>, seconds: Option<int>): (c: Option<PanelCommand>)
    ensures Present(url) ==> c == Some(PlayUrl(url.value, StartTime(settings, url.value, seconds)))
    ensures !Present(url) ==> (c.Some? <==> seconds.Some? && seconds.value != 0)
    ensures !Present(url) && c.Some? ==> c.value == SeekTo(seconds.value)
  {
    if Present(url) then Some(PlayUrl(url.value, StartTime(settings, url.value, seconds)))
    else if seconds.Some? && seconds.value != 0 then Some(SeekTo(seconds.value))
    else None
  }

  /** The URL gate: a local file, a URL the player can play, or a Bilibili page. */
  predicate Accepted(host: Host, url: string) {
    host.isLocalFile(url) || host.canPlay(url) || host.isBiliUrl(url)
  }

  /** What the block processor does with a parsed block: an invalid-URL notice, or a button
      carrying the URL and the seconds read from the `ts` field. */
  datatype BlockOutcome =
    | InvalidUrlNotice
    | Button(view: ButtonView, url: Option<string>, seconds: Option<int>)

  /** The `video-note` block processor after YAML parsing: a present URL that fails the gate
      renders no button; otherwise the button's seconds are the first clock in `ts`. */
  function ProcessBlock(host: Host, data: ButtonData): (o: BlockOutcome)
    ensures o.InvalidUrlNotice? <==> Present(data.url) && !Accepted(host, data.url.value)
    ensures o.Button? ==> o.view == Label(data) && o.url == data.url
    ensures o.Button? ==> o.seconds == ExtractSeconds(data.ts)
  {
    if Present(data.url) && !Accepted(host, data.url.value) then InvalidUrlNotice
    else Button(Label(data), data.url, ExtractSeconds(data.ts))
  }

  /** Clicking a block's button: `play` with the block's URL and the seconds read from its `ts`
      field. A time in the block wins over a stored position; a block with neither URL nor
      time sends nothing. */
  function ClickButton(settings: Settings, button: BlockOutcome): (c: Option<PanelCommand>)
    requires button.Button?
    ensures Present(button.url) && button.seconds.Some? ==>
      c == Some(PlayUrl(button.url.value, button.seconds.value))
    ensures Present(button.url) && button.seconds.None? ==>
      c == Some(PlayUrl(button.url.value, StartTime(settings, button.url.value, None)))
    ensures !Present(button.url) ==>
      c == (if button.seconds.Some? && button.seconds.value != 0 then Some(SeekTo(button.seconds.value)) else None)
  {
    Play(settings, button.url, button.seconds)
  }

  /** The note the trigger command inserts for an accepted URL: the note title on a line of its
      own when there is one, then a `video-note` block with the URL. */
  function UrlNote(noteTitle: string, url: string): string {
    (if noteTitle != "" then noteTitle + "\n" else "")
      + Join([NoteFence, "url: " + url, "```"], '\n') + "\n"
  }

  /** The editor change and the panel command of the trigger command. */
  datatype Edit = Edit(inserted: string, command: Option<PanelCommand>)

  /** The trigger command on the selected (or copied) URL: an accepted URL is played from 0 and a
      note for it is inserted; any other text is replaced by the invalid-URL text and nothing
      is played. */
  function TriggerPlayer(host: Host, settings: Settings, url: string): (r: Edit)
    ensures !Accepted(host, url) ==> r == Edit(InvalidUrlText, None)
    ensures Accepted(host, url) ==>
      r.inserted == UrlNote(settings.noteTitle, url) && r.command == Play(settings, Some(url), Some(0))
    ensures Accepted(host, url) && url != "" ==> r.command == Some(PlayUrl(url, 0))
  {
    if Accepted(host, url) then Edit(UrlNote(settings.noteTitle, url), Play(settings, Some(url), Some(0)))
    else Edit(InvalidUrlText, None)
  }

  /** The timestamp-insert command given the panel's play item and whole-second play time:
      nothing without a play item or at time 0, otherwise a `video-note` block with the time
      and the display URL. */
  function InsertTimestamp(playItem: Option<PlayItem>, playTime: Option<nat>): (r: Option<string>)
    ensures r.Some? <==> playItem.Some? && playTime.Some? && playTime.value != 0
  {
    if playItem.Some? && playTime.Some? && playTime.value != 0 then
      Some(TimestampNote(FormatTime(playTime.value), playItem.value.displayUrl))
    else None
  }

  /** The `video-note` block of the timestamp-insert command for a time text and a URL. */
  function TimestampNote(time: string, url: string): string {
    Join([NoteFence, "ts: " + time, "url: " + url, "```"], '\n') + "\n"
  }

  // ---------------------------------------------------------------------------------------

  lemma {:induction false} JoinAppendEmpty(parts: seq<string>, sep: char)
    requires |parts| >= 1
    ensures Join(parts, sep) + [sep] == Join(parts + [""], sep)
    decreases |parts|
  {
    if |parts| == 1 {
      assert (parts + [""])[1..] == [""];
    } else {
      JoinAppendEmpty(parts[1..], sep);
      assert (parts + [""])[1..] == parts[1..] + [""];
    }
  }

  lemma NoNewlineInDigits(s: string)
    requires AllDigits(s)
    ensures '\n' !in s
  {
  }

  lemma NoNewlineInTime(t: nat)
    ensures '\n' !in FormatTime(t)
  {
    var (hours, minutes, seconds) := Components(t);
    NoNewlineInDigits(LeadingZero(hours));
    NoNewlineInDigits(LeadingZero(minutes));
    NoNewlineInDigits(LeadingZero(seconds));
    assert FormatTime(t) == TimeText(hours, minutes, seconds);
  }

  /** Splitting a text of newline-free lines joined and ended by newlines gives the lines and a
      final empty one. */
  lemma {:induction false} LinesOfText(lines: seq<string>)
    requires |lines| >= 1 && forall i :: 0 <= i < |lines| ==> '\n' !in lines[i]
    ensures Split(Join(lines, '\n') + "\n", '\n') == lines + [""]
  {
    JoinAppendEmpty(lines, '\n');
    var all := lines + [""];
    assert forall i :: 0 <= i < |all| ==> '\n' !in all[i];
    SplitJoin(all, '\n');
  }

  lemma {:induction false} TimestampNoteSplits(time: string, url: string)
    requires '\n' !in time && '\n' !in url
    ensures Split(TimestampNote(time, url), '\n') == [NoteFence, "ts: " + time, "url: " + url, "```", ""]
  {
    var tsLine := "ts: " + time;
    var urlLine := "url: " + url;
    assert '\n' !in tsLine && '\n' !in urlLine && '\n' !in NoteFence;
    var parts := [NoteFence, tsLine, urlLine, "```"];
    LinesOfText(parts);
  }

  /** The inserted note is exactly the fence line, the `ts:` line, the `url:` line with the
      display URL, the closing fence and a final newline; and the `ts:` value reads back as the
      play time. */
  lemma {:induction false} TimestampNoteLines(item: PlayItem, t: nat)
    requires t > 0 && '\n' !in item.displayUrl
    ensures InsertTimestamp(Some(item), Some(t)).Some?
    ensures var lines := Split(InsertTimestamp(Some(item), Some(t)).value, '\n');
      && lines == [NoteFence, "ts: " + FormatTime(t), "url: " + item.displayUrl, "```", ""]
      && ExtractSeconds(Some(lines[1][4..])) == Some(t)
  {
    var time := FormatTime(t);
    NoNewlineInTime(t);
    TimestampNoteSplits(time, item.displayUrl);
    assert ("ts: " + time)[4..] == time;
    FormatTimeRoundTrip(t);
  }

  /** The note the trigger command inserts has the title line (when there is a title), the
      fence line, the `url:` line, the closing fence and a final newline. */
  lemma {:induction false} UrlNoteLines(noteTitle: string, url: string)
    requires '\n' !in noteTitle && '\n' !in url
    ensures Split(UrlNote(noteTitle, url), '\n')
         == (if noteTitle != "" then [noteTitle] else []) + [NoteFence, "url: " + url, "```", ""]
  {
    var urlLine := "url: " + url;
    assert '\n' !in urlLine && '\n' !in NoteFence;
    var parts := [NoteFence, urlLine, "```"];
    LinesOfText(parts);
    var block := Join(parts, '\n') + "\n";
    if noteTitle != "" {
      assert UrlNote(noteTitle, url) == noteTitle + "\n" + block;
      SplitCons(noteTitle, block, '\n');
    } else {
      assert UrlNote(noteTitle, url) == block;
    }
  }

  /** A block written by the timestamp-insert command plays its URL from the inserted time when
      its button is clicked. */
  lemma {:induction false} InsertedNotePlaysBack(host: Host, settings: Settings, item: PlayItem, t: nat)
    requires t > 0 && item.displayUrl != "" && Accepted(host, item.displayUrl)
    ensures var block := ProcessBlock(host, ButtonData(Some(item.displayUrl), None, Some(FormatTime(t))));
      block.Button? && ClickButton(settings, block) == Some(PlayUrl(item.displayUrl, t))
  {
    FormatTimeRoundTrip(t);
  }

  /** A resume position saved in the stored settings is where `play` starts that URL after
      loading, when no time is given and resuming is on. */
  lemma LoadedPositionResumes(defaults: Settings, stored: StoredSettings, url: string)
    requires url != ""
    requires stored.urlStartTimeMap.Some? && url in stored.urlStartTimeMap.value
    requires stored.startAtLastPosition == Some(true)
    ensures LoadSettings(defaults, Some(stored)).Success?
    ensures Play(LoadSettings(defaults, Some(stored)).value, Some(url), None)
         == Some(PlayUrl(url, Truncate(stored.urlStartTimeMap.value[url])))
  {
  }
}
