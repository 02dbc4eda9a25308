/** The Real-Debrid records the core reads, and the remote calls it makes.
    JSON objects become datatypes; an optional key is an `Option` field. */
module Records {
  import opened Opt
  import opened Freshness

  /** A torrent of `/torrents`: `id`, and the optional `filename`, `status`,
      `hash` keys; `links` defaults to the empty list. */
  datatype Torrent = Torrent(id: string, filename: Option<string>, status: Option<string>, hash: Option<string>, links: seq<string>)

  /** An entry of `/downloads`: `link`, `download` and `generated` are
      optional keys; `id` and `filename` are read unconditionally. */
  datatype Download = Download(id: string, link: Option<string>, download: Option<string>, generated: Option<Stamp>, filename: string)

  /** The JSON object `addMagnet` answers with. */
  datatype NewTorrent = NewTorrent(id: string)

  /** What `unrestrict_link` returns: `None` (any error, or an empty object),
      the hoster-unavailable marker it builds from a 503, or the unrestricted
      link object with its optional keys. */
  datatype Unrestricted =
    | NoResult
    | HosterUnavailable
    | Link(download: Option<string>, streamable: Option<int>, filename: Option<string>, generated: Option<Stamp>)

  /** The client calls made, with their arguments, in order. */
  datatype Call =
    | DeleteDownload(downloadId: string)
    | UnrestrictLink(link: string)
    | DeleteTorrent(torrentId: string)
    | AddMagnet(magnet: string)
    | SelectFiles(torrentId: string)

  /** The replies of the Real-Debrid client. `unrestrict(link, n)` is the reply
      to the unrestrict call for `link` that is the `n`-th (counting from 0)
      made while one torrent is reconciled, so a second call for the same link
      may answer differently from the first. */
  datatype Remote = Remote(
    deleteTorrent: string -> bool,
    addMagnet: string -> Option<NewTorrent>,
    selectFiles: string -> bool,
    unrestrict: (string, nat) -> Unrestricted)
}
