/** The collaborators whose code is not part of this model, as uninterpreted functions held in
    a record: `isLocalFile` and `cleanUrl` (handlers/misc), `localVideoRedirect`
    (handlers/server), `isBiliUrl` and `getBiliInfo` (handlers/bilibili), and
    `ReactPlayer.canPlay`. Every property proved over a `Host` holds for all of them. */
module Collaborators {
  import opened Wrappers

  /** A subtitle track handed to the player. */
  datatype Track = Track(title: string, src: string, kind: string)

  /** What `getBiliInfo` resolves to: a directly playable stream address and its subtitles. */
  datatype BiliInfo = BiliInfo(url: string, subtitles: seq<Track>)

  datatype Host = Host(
    isLocalFile: string -> bool,
    isBiliUrl: string -> bool,
    canPlay: string -> bool,
    cleanUrl: string -> string,
    localVideoRedirect: string -> string,
    /** None when the returned promise rejects. */
    getBiliInfo: string -> Option<BiliInfo>)
}
