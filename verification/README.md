# Timestamp Notes: video resolution and playback decisions

A Dafny model of the decision logic of the Obsidian "Timestamp Notes" plugin: how a note's
`ts` field is read as seconds and how the timestamp-insert command writes it, which command
`play` sends to the video panel and at what seek time, the URL gate, the note texts the
commands insert, how stored settings are merged over the defaults, how a raw source string is
resolved into a play item (local file, Bilibili page, any other URL), the video panel's state
transitions, and the label choice of a note's button.

Modules, one per concern:

- `Wrappers`: `Option`, `Result`, and `Present` (JavaScript truthiness of an optional string).
- `Strings`: JavaScript's `split`/`join` on one character, `parseInt` without a radix
  (leading white space, sign, `0x` prefix, longest numeral, NaN as `None`), and `toFixed(0)`
  on a whole number, with numbers exact and unbounded.
- `Timestamp`: `getSeconds`, the `ts` regular expression `/\d+:\d+:\d+|\d+:\d+/g` (leftmost
  match, three-field branch first, greedy runs), `leadingZero` and the `hh:mm:ss` formatter.
- `Collaborators`: the functions whose code is not modelled (`isLocalFile`, `isBiliUrl`,
  `cleanUrl`, `localVideoRedirect`, `getBiliInfo`, `ReactPlayer.canPlay`), held as function
  values in a `Host` record so that every property holds for all of them.
- `PlayItems`: `getPlayItem` and its quote stripping.
- `VideoPanel`: the panel's `rawUrl`, `playItem`, `editingUrl` and `playing` hooks plus the list
  of resolutions in flight, with one event per setter, player callback and button, and a
  `Settled` event for a resolution's promise.
- `VideoButton`: the title / time / URL choice of the block's button.
- `Plugin`: the parts of main.ts listed above.

The panel applies whatever resolution settles, with no comparison against its current URL, so
a resolution that settles after the URL was cleared or replaced still installs its item
(`VideoPanel.LateResolutionAfterClear`). `play` reads the resume map with the URL it is given
(main.ts:302).

## Model

| member | source | states |
|---|---|---|
| `Strings.ParseInt` | main.ts:29 | `parseInt` of a non-empty string of decimal digits is its decimal value; of "" it is NaN |
| `Strings.DecimalString` | main.ts:129 | `toFixed(0)` of a whole number: a non-empty numeral without leading zeros whose value is the number, one digit exactly below 10, at most two exactly below 100 |
| `Strings.Split` | main.ts:29 | at least one part, none containing the separator; `Strings.SplitJoin` and `Strings.JoinSplit` make it the inverse of `Join` |
| `Strings.Join` | main.ts:105-109 | `join('\n')` of the note lines, here and at main.ts:138-143: the parts with the separator between them; specified by `Strings.JoinSplit` (joining a split gives the string back) and `Strings.SplitJoin` (splitting a join of separator-free parts gives them back) |
| `Strings.SplitJoin` | main.ts:29 | splitting at ':' a join of ':'-free fields gives back exactly those fields |
| `Strings.JoinSplit` | main.ts:29 | joining the parts of a split gives back the original string |
| `Timestamp.GetSeconds` | main.ts:28-32 | the source's `getSeconds`; specified by `Timestamp.GetSecondsTwoFields`, `Timestamp.GetSecondsThreeFields` and `Timestamp.GetSecondsOneField` |
| `Timestamp.GetSecondsTwoFields` | main.ts:28-32 | `getSeconds("mm:ss")` is mm*60+ss |
| `Timestamp.GetSecondsThreeFields` | main.ts:28-32 | `getSeconds("hh:mm:ss")` is hh*3600+mm*60+ss |
| `Timestamp.GetSecondsOneField` | main.ts:28-32 | a string without ':' is read as a number of hours |
| `Timestamp.MatchAt` | main.ts:73 | a match starting at a position ends after it within the string; `Timestamp.MatchIsClock` and `Timestamp.ThreeFieldsPreferred` say what it matches |
| `Timestamp.FirstMatch` | main.ts:73-75 | the first match starts at a position where the expression matches and no earlier position matches; there is none exactly when no position matches |
| `Timestamp.FirstMatchFrom` | main.ts:73-75 | the match returned is at the leftmost position where the expression matches: no earlier position matches |
| `Timestamp.MatchIsClock` | main.ts:73 | every match is a clock of two or three digit fields and ends where its last digit run ends |
| `Timestamp.ThreeFieldsPreferred` | main.ts:73 | where a three-field clock starts, the three-field branch is taken, and it spans exactly the whole clock exactly when no digit follows the clock |
| `Timestamp.NoMatchIffNoClock` | main.ts:73-77 | the expression finds nothing exactly when the string contains no two-field clock anywhere |
| `Timestamp.ExtractSeconds` | main.ts:71-77 | seconds are set exactly when `ts` is present, non-empty and holds a match, and then are `getSeconds` of the first match |
| `Timestamp.LeadingZero` | main.ts:129 | all decimal digits reading back as the number: exactly two with a leading '0' below 10, no leading '0' from 10 on, exactly two below 100 and more from 100 on |
| `Timestamp.Components` | main.ts:130-133 | minutes and seconds below 60, hours positive exactly from 3600 seconds on, hours*3600+minutes*60+seconds is the total |
| `Timestamp.FormatTime` | main.ts:129-134 | the formatter; specified by `Timestamp.FormatTimeFields`, `Timestamp.FormatTimeParses` and `Timestamp.FormatTimeRoundTrip` |
| `Timestamp.FormatTimeFields` | main.ts:129-134 | the formatted time has three fields when there are hours and two otherwise; each field has at least two digits; minutes and seconds are below 60 and have exactly two digits |
| `Timestamp.FormatTimeParses` | main.ts:129-134 | the formatted time is a clock and `getSeconds` of it is the original number of seconds |
| `Timestamp.FormatTimeRoundTrip` | main.ts:72-77 | the block processor reads the formatted time back as the original seconds |
| `PlayItems.StripQuotes` | view/VideoPanel.tsx:80 | the result is the input unchanged, or the input is exactly that result between one pair of quotes with at least one character and no line terminator inside |
| `PlayItems.StripQuotesOfQuote` | view/VideoPanel.tsx:80 | quoting a non-empty single line and stripping gives the line back |
| `PlayItems.StripQuotesKeepsEmptyPair` | view/VideoPanel.tsx:80 | `""` is left as it is |
| `PlayItems.StripQuotesNotIdempotent` | view/VideoPanel.tsx:80 | only one pair is removed, so stripping a doubly quoted line twice differs from stripping it once |
| `PlayItems.GetPlayItem` | view/VideoPanel.tsx:74-102 | null gives null; a local file (even one that is also a Bilibili URL) plays the redirect, shows the unquoted path, no subtitles; a Bilibili page plays and subtitles from `getBiliInfo`, shows the raw URL, and rejects when it rejects; anything else plays and shows the cleaned URL; a non-null URL never resolves to null |
| `VideoPanel.ChangeRawUrl` | view/VideoPanel.tsx:123-132 | setting the same URL changes nothing; a null or empty URL clears the play item; a non-empty one starts its resolution and keeps the current item until it settles |
| `VideoPanel.Settle` | view/VideoPanel.tsx:125-128 | the settled resolution, and only it, leaves the pending list; a resolved item (null included) is installed and the field shows its display URL, or "" for null; a rejection leaves item and field alone; the URL and `playing` never change |
| `VideoPanel.Step` | view/VideoPanel.tsx:105-132 | one event on the panel; specified by `VideoPanel.PlayingFollowsEvents`, `VideoPanel.PowerHidesPlayer`, `VideoPanel.ResolveAndShow`, `VideoPanel.StepKeepsSound` and `VideoPanel.LateResolutionAfterClear` |
| `VideoPanel.Render` | view/VideoPanel.tsx:150-180 | the power button and the player are shown exactly when there is a play item; the player is keyed by the display URL, loads the playing URL with the subtitles and follows `playing` |
| `VideoPanel.Commit` | view/VideoPanel.tsx:140-145 | the field's text is committed exactly on Enter |
| `VideoPanel.PlayingFollowsEvents` | view/VideoPanel.tsx:178-179 | `playing` starts true and is whatever the last play, pause or `setPlaying` event made it |
| `VideoPanel.PowerHidesPlayer` | view/VideoPanel.tsx:150-156 | with a URL set, the power button clears the URL and the item, and the player and button disappear |
| `VideoPanel.ResolveAndShow` | view/VideoPanel.tsx:123-128 | a new non-empty URL, once resolved, shows its item with its display URL in the field; a rejection leaves the panel as it was |
| `VideoPanel.StepKeepsSound` | view/VideoPanel.tsx:123-128 | pending URLs are non-empty and a shown item is always a complete `getPlayItem` result, across any event but a direct `setPlayItem` |
| `VideoPanel.RunKeepsSound` | view/VideoPanel.tsx:123-128 | the same over any sequence of such events |
| `VideoPanel.LateResolutionAfterClear` | view/VideoPanel.tsx:123-131 | a resolution settling after the URL was cleared still shows its item, and the power button then does nothing |
| `VideoButton.Label` | view/VideoButton.tsx:42-52 | a non-empty title is the label; with neither title nor time the URL is; with a time but no title no title is shown; the time is shown exactly when `ts` is non-empty |
| `VideoButton.LabelNeverBlank` | view/VideoButton.tsx:42-52 | no empty element is shown, and something is shown exactly when the block has a title, a time or a URL |
| `Plugin.LoadSettings` | main.ts:311-320 | no stored data gives the defaults; stored data without a resume map fails; otherwise each stored field overrides its default and the resume map has exactly the stored entries with their values |
| `Plugin.Truncate` | main.ts:302 | truncation toward zero: within one of the value, never farther from zero |
| `Plugin.StartTime` | main.ts:302 | explicit seconds win, even 0; else the truncated stored position when resuming is on and one is stored; else 0 |
| `Plugin.Play` | main.ts:299-306 | a non-empty URL is played from its start time; without one, SeekTo is sent exactly for non-zero seconds, and nothing otherwise |
| `Plugin.Accepted` | main.ts:64 | the URL gate of the block processor and the trigger command; `Plugin.ProcessBlock` and `Plugin.TriggerPlayer` reject exactly the URLs it refuses |
| `Plugin.ProcessBlock` | main.ts:64-85 | the invalid-URL notice replaces the button exactly when a present URL fails all three predicates; the button carries the label, the URL and the seconds of `ts` |
| `Plugin.ClickButton` | main.ts:80-84 | a block's time wins over a stored position; with a URL and no time the URL starts at its start time; without a URL a non-zero time seeks and nothing else is sent |
| `Plugin.UrlNote` | main.ts:99-111 | the trigger's note; specified by `Plugin.UrlNoteLines` |
| `Plugin.TimestampNote` | main.ts:136-143 | the timestamp block; specified by `Plugin.TimestampNoteLines` and `Plugin.TimestampNoteSplits` |
| `Plugin.TriggerPlayer` | main.ts:97-114 | a rejected URL inserts the invalid-URL text and plays nothing; an accepted one inserts its note and calls `play(url, 0)`, so an accepted non-empty one is played from 0 even when resuming is on |
| `Plugin.InsertTimestamp` | main.ts:127-147 | text is written exactly when there is a play item and a non-zero play time |
| `Plugin.TimestampNoteLines` | main.ts:136-143 | the written text is exactly the fence, `ts:`, `url: <displayUrl>`, closing fence and a final newline, and its `ts` value reads back as the play time |
| `Plugin.UrlNoteLines` | main.ts:99-111 | the trigger's text is the title line when there is a title, the fence, `url: <url>`, the closing fence and a final newline |
| `Plugin.InsertedNotePlaysBack` | main.ts:72-83 | clicking the button of a block the timestamp-insert command wrote plays its URL from the written time, when that display URL passes the URL gate (the block's fields are taken as parsed; YAML parsing is left out) |
| `Plugin.LoadedPositionResumes` | main.ts:299-316 | a stored resume position survives loading and is where `play` starts that URL when no time is given and resuming is stored as on |

## Left out

- The local media server, URL classification, URL cleaning, path encoding and Bilibili extraction
  (handlers/server, handlers/misc, handlers/bilibili) and `ReactPlayer.canPlay` are not part of
  this model: they are the uninterpreted functions of `Collaborators.Host`.
- Play times are whole seconds: the `toFixed(2)` rounding of a fractional play time and
  `toFixed(0)` rounding of fractional seconds are not modelled.
- Strings.DecimalString: numbers are exact and unbounded here. In JavaScript `toFixed(0)` prints
  the exponent form from 10^21 on, and whole numbers above 2^53 are not exact, so
  `Strings.DecimalString`, `Timestamp.LeadingZero` and `Timestamp.FormatTimeRoundTrip` hold in
  the source only for play times below those bounds.
- Plugin.Truncate: does not model the 32-bit wrap of `~~` for positions of 2^31 seconds or more.
- Strings.ParseInt: of the Unicode space separators only U+0020 and U+00A0 are skipped, and numerals too
  large for a double are read exactly rather than rounded.
- YAML parsing of the block and the `Wrong format` notice: the processor is modelled from the
  parsed fields, each taken to be a string when present. An empty block, which the YAML parser
  returns as null and on which reading a field would throw, is not modelled.
- Settings persistence (`saveSettings`, `loadData`'s I/O), the clipboard fallback of the trigger
  command, Notices, cursor movement and workspace leaf management (`getVideoLeaf`, opening the
  right leaf) are I/O with the host application.
- The pause and seek commands and `VideoPanelGetStamp`/`VideoPanelPlay` forward to view code
  that is not part of this model; `play` is modelled up to the command it sends.
- `NO_ACTIVE_VIDEO` is never used by the live code.
- The commented-out local-media, subtitle and snapshot commands are dead code.
- view/VideoView.tsx and view/IconView.tsx are host view lifecycle and DOM rendering; the
  styled-components CSS is presentation only.
- `getFaviconUrl` (utils.ts) fetches from the network and parses HTML.
- `makeVideoNote` (VideoNote.ts) wraps `stringifyYaml`, which is not part of this model.
