/** Resolution of a raw source string into a play item (view/VideoPanel.tsx, `getPlayItem`). */
module PlayItems {
  import opened Wrappers
  import opened Collaborators

  /** What the player is given: the address it loads, the address shown and kept in notes, and
      the subtitle tracks. */
  datatype PlayItem = PlayItem(playingUrl: string, displayUrl: string, subtitles: seq<Track>)

  /** How the promise of `getPlayItem` settles: fulfilled with a play item or null, or rejected. */
  datatype Resolution = Resolved(item: Option<PlayItem>) | Rejected

  /** The characters `.` in a regular expression does not match. */
  predicate IsLineTerminator(c: char) {
    c == '\n' || c == '\r' || c == '\U{2028}' || c == '\U{2029}'
  }

  predicate SingleLine(s: string) {
    forall i :: 0 <= i < |s| ==> !IsLineTerminator(s[i])
  }

  /** `s` between double quotes. */
  function Quote(s: string): string {
    "\"" + s + "\""
  }

  /** `s.replace(/^"(.+)"$/, "$1")`: one pair of surrounding double quotes is removed when at
      least one character other than a line terminator lies between them and none of the
      characters between them is a line terminator; otherwise `s` is returned unchanged. */
  function StripQuotes(s: string): (r: string)
    ensures r == s || (s == Quote(r) && |r| > 0 && SingleLine(r))
  {
    if |s| >= 3 && s[0] == '"' && s[|s| - 1] == '"' && SingleLine(s[1..|s| - 1]) then
      assert s == Quote(s[1..|s| - 1]);
      s[1..|s| - 1]
    else s
  }

  /** Quoting a non-empty single line and stripping the quotes gives the line back. */
  lemma StripQuotesOfQuote(inner: string)
    requires |inner| > 0 && SingleLine(inner)
    ensures StripQuotes(Quote(inner)) == inner
  {
  }

  /** Without a character between them, a pair of quotes is kept: `""` stays `""`. */
  lemma StripQuotesKeepsEmptyPair()
    ensures StripQuotes("\"\"") == "\"\""
  {
  }

  /** Only one pair is removed, so stripping twice removes a second pair: the operation is not
      idempotent. */
  lemma StripQuotesNotIdempotent(inner: string)
    requires |inner| > 0 && SingleLine(inner)
    ensures StripQuotes(Quote(Quote(inner))) == Quote(inner)
    ensures StripQuotes(StripQuotes(Quote(Quote(inner)))) != StripQuotes(Quote(Quote(inner)))
  {
  }

  /** `getPlayItem(rawUrl)`: null for a null URL; otherwise an ordered case split between a
      local file, a Bilibili page and any other URL. */
  function GetPlayItem(host: Host, rawUrl: Option<string>): (r: Resolution)
    ensures rawUrl.None? ==> r == Resolved(None)
    ensures rawUrl.Some? && host.isLocalFile(rawUrl.value) ==>
      r == Resolved(Some(PlayItem(host.localVideoRedirect(rawUrl.value), StripQuotes(rawUrl.value), [])))
    ensures rawUrl.Some? && !host.isLocalFile(rawUrl.value) && host.isBiliUrl(rawUrl.value) ==>
      match host.getBiliInfo(rawUrl.value)
      case None => r == Rejected
      case Some(info) => r == Resolved(Some(PlayItem(info.url, rawUrl.value, info.subtitles)))
    ensures rawUrl.Some? && !host.isLocalFile(rawUrl.value) && !host.isBiliUrl(rawUrl.value) ==>
      r == Resolved(Some(PlayItem(host.cleanUrl(rawUrl.value), host.cleanUrl(rawUrl.value), [])))
    ensures rawUrl.Some? && r.Resolved? ==> r.item.Some?
  {
    match rawUrl
    case None => Resolved(None)
    case Some(raw) =>
      if host.isLocalFile(raw) then
        Resolved(Some(PlayItem(host.localVideoRedirect(raw), StripQuotes(raw), [])))
      else if host.isBiliUrl(raw) then
        match host.getBiliInfo(raw)
        case None => Rejected
        case Some(info) => Resolved(Some(PlayItem(info.url, raw, info.subtitles)))
      else
        var cleaned := host.cleanUrl(raw);
        Resolved(Some(PlayItem(cleaned, cleaned, [])))
  }
}
