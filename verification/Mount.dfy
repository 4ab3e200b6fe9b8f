/** The indexing pipeline and the file system together. */
module Mount {
  import opened Torrents
  import opened Fuse
  import FileTree
  import Indexer
  import Paths
  import Visibility

  /** Row `id` is the only one with its info hash. */
  predicate UniqueHash(rows: Table, id: nat) {
    id < |rows| && forall k :: 0 <= k < |rows| && k != id ==> rows[k].infoHash != rows[id].infoHash
  }

  /** Whatever the indexer, the feeds and the stops have done, as long as no stop showed an incomplete row, a
      torrent the mount's root lists is served: `readdir` lists its top-level names, `getattr` sizes it by
      them, neither fails for missing data, and a walk finds each of its files with its length, and no other
      file, exactly when no path has an empty first name or the root's names repeat below that name. */
  lemma ListedTorrentIsServed(now: nat, rows: Table, steps: seq<Indexer.Step>, concurrency: nat, id: nat)
    requires Visibility.VisibleComplete(rows) && Indexer.Legal(Indexer.Start(now, rows), steps, concurrency)
    requires Visibility.NoBadShow(Indexer.Start(now, rows), steps, concurrency)
    ensures var end := Indexer.Exec(Indexer.Start(now, rows), steps, concurrency).rows;
            UniqueHash(end, id) && end[id].isVisible ==>
              && end[id].infoHash.Some? && end[id].files.Some?
              && end[id].infoHash in ReadDirReply(end, "/").hashes
              && (Paths.IsInfoHash(end[id].infoHash.value) && FileTree.PrefixFree(end[id].files.value) ==>
                    ShowsItsFiles(end, id, end[id].infoHash.value, end[id].files.value))
  {
    Visibility.AlwaysCompleteIff(now, rows, steps, concurrency);
    Visibility.AlwaysMeansAtTheEnd(Indexer.Start(now, rows), steps, concurrency);
    var end := Indexer.Exec(Indexer.Start(now, rows), steps, concurrency).rows;
    if UniqueHash(end, id) && end[id].isVisible {
      ServedWhenComplete(end, id);
    }
  }

  /** The torrent is mounted, both handlers answer for its root, and a walk finds its files. */
  ghost predicate ShowsItsFiles(rows: Table, id: nat, hash: string, files: seq<FileTree.File>) {
    && Mounts(rows, id, hash, files)
    && ReadDirReply(rows, Paths.MountedPath(hash, [])) == Listing(FileTree.NextNames(files, []))
    && GetAttrReply(rows, Paths.MountedPath(hash, [])) == Stat(Dir, |FileTree.NextNames(files, [])|)
    && ((forall parts :: WalkedRight(rows, hash, files, parts)) <==> NamedRoots(files) || RootRepeats(files))
  }

  lemma ServedWhenComplete(rows: Table, id: nat)
    requires UniqueHash(rows, id) && rows[id].isVisible && Indexer.Complete(rows[id])
    ensures rows[id].infoHash in VisibleRootIndex(rows)
    ensures var hash, files := rows[id].infoHash.value, rows[id].files.value;
            Paths.IsInfoHash(hash) && FileTree.PrefixFree(files) ==> ShowsItsFiles(rows, id, hash, files)
  {
    var hash, files := rows[id].infoHash.value, rows[id].files.value;
    if Paths.IsInfoHash(hash) && FileTree.PrefixFree(files) {
      GetAttrExact(rows, id, hash, files, []);
      ReadDirExact(rows, id, hash, files, []);
      WalkFindsExactlyTheFiles(rows, id, hash, files);
    }
  }
}
