/** TorrentIndexerService as it runs on the table when nothing interferes; the interleavings are in Indexer. */
module IndexerService {
  import opened Wrappers
  import opened Torrents
  import opened Indexer

  datatype SourceType = MagnetSource | FileSource

  /** What looking a torrent up comes to: an exception, null, or some information. */
  datatype Fetch = Throws | Null | Gives(info: TorrentInfo, sourceType: SourceType)

  predicate IsHttp(url: string) {
    "http" <= url
  }

  /** How the row `r` of a torrent seen as `torrent` ends when the lookup that decides comes to `fetch`: still
      PROCESSING after an exception; READY and visible, with all that was found, if a hash, a name, files and a
      magnet link were; in error and invisible otherwise. */
  predicate Ends(r: Row, torrent: Row, fetch: Fetch) {
    match fetch
    case Throws => r == torrent.(status := PROCESSING)
    case Null => r == InError(torrent)
    case Gives(info, _) =>
      if info.infoHash.Some? && info.name.Some? && info.files.Some? && info.magnetURI.Some? then
        r == Row(torrent.feedGuid, torrent.feedURL, info.infoHash, info.name, info.files, info.magnetURI, true, READY,
                 torrent.errors, torrent.createdAt)
      else r == InError(torrent)
  }

  function InError(r: Row): (e: Row)
    ensures e.status == ERROR && e.errors == Some("Failed to get info") && !e.isVisible
    ensures e.(status := r.status, errors := r.errors, isVisible := r.isVisible) == r
  {
    r.(status := ERROR, errors := Some("Failed to get info"), isVisible := false)
  }

  class TorrentIndexerService {
    var isQueueJobRunning: bool
    const torrentsService: TorrentsService
    const concurrency: nat

    constructor (torrentsService: TorrentsService, concurrency: nat)
      ensures this.torrentsService == torrentsService && this.concurrency == concurrency && !isQueueJobRunning
    {
      this.torrentsService, this.concurrency, isQueueJobRunning := torrentsService, concurrency, false;
    }

    /** One `queueNewTorrents` call: pops a row exactly when no other call holds the flag and the queue has
        room, never overfills it, and clears the flag in either case, its own or not. */
    method QueueNewTorrents()
      modifies this`isQueueJobRunning, torrentsService
      ensures !isQueueJobRunning
      ensures old(isQueueJobRunning) || |Queued(old(torrentsService.rows))| >= concurrency
              || (forall k :: 0 <= k < |old(torrentsService.rows)| ==> old(torrentsService.rows)[k].status != NEW) ==>
                torrentsService.rows == old(torrentsService.rows)
      ensures !old(isQueueJobRunning) && |Queued(old(torrentsService.rows))| < concurrency
              && (exists k :: 0 <= k < |old(torrentsService.rows)| && old(torrentsService.rows)[k].status == NEW) ==>
                exists id: nat :: IsOldestNew(old(torrentsService.rows), id)
                  && torrentsService.rows
                     == old(torrentsService.rows)[id := old(torrentsService.rows)[id].(status := QUEUED)]
      ensures |Queued(old(torrentsService.rows))| <= concurrency ==> |Queued(torrentsService.rows)| <= concurrency
    {
      ghost var before := torrentsService.rows;
      if !isQueueJobRunning && |Queued(torrentsService.rows)| < concurrency {
        isQueueJobRunning := true;
        var popped := torrentsService.PopNewTorrent();
        if popped.Some? {
          assert torrentsService.rows == before[popped.value := before[popped.value].(status := QUEUED)];
          assert Queued(torrentsService.rows) == Queued(before) + {popped.value};
        }
      }
      isQueueJobRunning := false;
    }

    /** The marking loop of `consumedQueuedTorrents`: with a free slot every queued row is marked, and
        nothing else changes; without one, nothing does. `ids` are the rows the query returned. */
    method MarkQueued(ids: seq<nat>, pending: nat)
      requires forall k :: k in ids <==> k in Queued(torrentsService.rows)
      modifies torrentsService
      ensures torrentsService.rows == if pending >= concurrency then old(torrentsService.rows)
                                      else Marked(old(torrentsService.rows), Queued(old(torrentsService.rows)))
    {
      var before := torrentsService.rows;
      for k := 0 to |ids|
        invariant |torrentsService.rows| == |before|
        invariant pending >= concurrency ==> k == 0 && torrentsService.rows == before
        invariant forall j :: 0 <= j < |before| ==>
                    torrentsService.rows[j] == if j in ids[..k] then before[j].(status := PROCESSING) else before[j]
      {
        if pending >= concurrency {
          return;
        }
        assert ids[k] in ids;
        torrentsService.UpdateTorrentStatus(ids[k], before[ids[k]], PROCESSING);
        assert ids[..k + 1] == ids[..k] + [ids[k]];
      }
      assert ids[..|ids|] == ids;
      if pending < concurrency {
        assert torrentsService.rows == Marked(before, Queued(before));
      }
    }

    /** Writes the result over the whole row. The row becomes visible whatever is in `info`, and complete exactly
        if that is enough; its origin is the snapshot's; no other row changes, so a sound table stays sound. */
    method UpdateTorrentToReady(id: nat, torrentRec: Row, info: TorrentInfo)
      requires id < |torrentsService.rows|
      modifies torrentsService
      ensures torrentsService.rows == WithReady(old(torrentsService.rows), id, torrentRec, info)
      ensures torrentsService.rows[id].isVisible && SameOrigin(torrentRec, torrentsService.rows[id])
      ensures Complete(torrentsService.rows[id]) <==> HasEnoughInfoForReadyStatus(Some(info))
      ensures |torrentsService.rows| == |old(torrentsService.rows)|
              && forall k :: 0 <= k < |torrentsService.rows| && k != id ==>
                   torrentsService.rows[k] == old(torrentsService.rows)[k]
      ensures RowsOk(old(torrentsService.rows)) ==>
                (RowsOk(torrentsService.rows) <==> HasEnoughInfoForReadyStatus(Some(info)))
    {
      torrentsService.rows := torrentsService.rows[id := torrentRec.(
        magnetURI := info.magnetURI, infoHash := info.infoHash, name := info.name, files := info.files,
        status := READY, isVisible := true)];
      assert Complete(torrentsService.rows[id]) <==> RowOk(torrentsService.rows[id]);
    }

    /** One indexing, given how its lookups turn out. A magnet url is resolved; an http url's page is fetched, and
        if that is a magnet link, that link is resolved; whichever came last decides. A url that is neither is an
        error. Only this row changes. */
    method IndexTorrent(id: nat, torrent: Row, page: Fetch, resolve: Option<string> -> Fetch) returns (thrown: bool)
      requires id < |torrentsService.rows|
      modifies torrentsService
      ensures |torrentsService.rows| == |old(torrentsService.rows)|
      ensures forall k :: 0 <= k < |torrentsService.rows| && k != id ==>
                torrentsService.rows[k] == old(torrentsService.rows)[k]
      ensures "magnet" <= torrent.feedURL ==>
                && Ends(torrentsService.rows[id], torrent, resolve(Some(torrent.feedURL)))
                && (thrown <==> resolve(Some(torrent.feedURL)) == Throws)
      ensures "http" <= torrent.feedURL && page.Gives? && page.sourceType == MagnetSource ==>
                && Ends(torrentsService.rows[id], torrent, resolve(page.info.magnetURI))
                && (thrown <==> resolve(page.info.magnetURI) == Throws)
      ensures "http" <= torrent.feedURL && !(page.Gives? && page.sourceType == MagnetSource) ==>
                Ends(torrentsService.rows[id], torrent, page) && (thrown <==> page == Throws)
      ensures !("magnet" <= torrent.feedURL) && !("http" <= torrent.feedURL) ==>
                torrentsService.rows[id] == InError(old(torrentsService.rows)[id]) && !thrown
    {
      assert IsHttp(torrent.feedURL) ==> torrent.feedURL[0] == 'h';
      assert IsMagnet(torrent.feedURL) ==> torrent.feedURL[0] == 'm';
      var torrentInfo: Option<TorrentInfo> := None;
      var magnet := false;
      if IsHttp(torrent.feedURL) {
        torrentsService.UpdateTorrentStatus(id, torrent, PROCESSING);
        match page {
          case Throws => return true;
          case Null =>
          case Gives(info, sourceType) =>
            torrentInfo := Some(info);
            magnet := sourceType == MagnetSource;
        }
      }
      if magnet || IsMagnet(torrent.feedURL) {
        torrentsService.UpdateTorrentStatus(id, torrent, PROCESSING);
        var magnetURI := if IsMagnet(torrent.feedURL) then Some(torrent.feedURL) else torrentInfo.value.magnetURI;
        match resolve(magnetURI) {
          case Throws => return true;
          case Null => torrentInfo := None;
          case Gives(info, _) => torrentInfo := Some(info);
        }
      }
      if HasEnoughInfoForReadyStatus(torrentInfo) {
        UpdateTorrentToReady(id, torrent, torrentInfo.value);
      } else {
        torrentsService.rows := WithError(torrentsService.rows, id);
      }
      thrown := false;
    }
  }
}
