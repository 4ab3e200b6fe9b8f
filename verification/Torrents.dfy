/** The torrent table and TorrentsService. Ids come from an autoincrement column and no row is
    deleted here, so a row's id is its index in `rows`. */
module Torrents {
  import opened Wrappers
  import FileTree

  datatype Status = NEW | QUEUED | PROCESSING | READY | TIMEOUT | ERROR

  /** A row; None is SQL's null. The `files` column is shown parsed, as the list it encodes. */
  datatype Row = Row(
    feedGuid: string,
    feedURL: string,
    infoHash: Option<string>,
    name: Option<string>,
    files: Option<seq<FileTree.File>>,
    magnetURI: Option<string>,
    isVisible: bool,
    status: Status,
    errors: Option<string>,
    createdAt: nat)

  type Table = seq<Row>

  predicate IsMagnet(url: string) {
    "magnet" <= url
  }

  /** A row as a feed creates it. */
  function NewRow(guid: string, url: string, createdAt: nat): Row {
    Row(guid, url, None, None, None, None, false, NEW, None, createdAt)
  }

  // --- Queries ---

  /** `findOneBy({ infoHash })`. */
  function FindOneByInfoHash(rows: Table, hash: string): (r: Option<nat>)
    ensures r.Some? ==> r.value < |rows| && rows[r.value].infoHash == Some(hash)
    ensures r.None? ==> forall k :: 0 <= k < |rows| ==> rows[k].infoHash != Some(hash)
  {
    if rows == [] then None
    else
      match FindOneByInfoHash(rows[..|rows| - 1], hash)
      case Some(k) => Some(k)
      case None => if rows[|rows| - 1].infoHash == Some(hash) then Some(|rows| - 1) else None
  }

  /** `findOneBy({ infoHash, isVisible: true })`. */
  function FindOneVisibleByInfoHash(rows: Table, hash: string): (r: Option<nat>)
    ensures r.Some? ==> r.value < |rows| && rows[r.value].infoHash == Some(hash) && rows[r.value].isVisible
    ensures r.None? ==> forall k :: 0 <= k < |rows| ==> !(rows[k].infoHash == Some(hash) && rows[k].isVisible)
  {
    if rows == [] then None
    else
      match FindOneVisibleByInfoHash(rows[..|rows| - 1], hash)
      case Some(k) => Some(k)
      case None =>
        var last := rows[|rows| - 1];
        if last.infoHash == Some(hash) && last.isVisible then Some(|rows| - 1) else None
  }

  /** The info hashes of the visible rows, in table order. */
  function VisibleRootIndex(rows: Table): (hashes: seq<Option<string>>)
    ensures forall h :: h in hashes <==> exists k :: 0 <= k < |rows| && rows[k].isVisible && rows[k].infoHash == h
  {
    if rows == [] then []
    else
      var init, last := rows[..|rows| - 1], rows[|rows| - 1];
      var hashes := VisibleRootIndex(init);
      assert forall k :: 0 <= k < |init| ==> rows[k] == init[k];
      if last.isVisible then hashes + [last.infoHash] else hashes
  }

  function Queued(rows: Table): (ids: set<nat>)
  {
    set k: nat | k < |rows| && rows[k].status == QUEUED
  }

  /** Whether `findOne({ status: NEW }, order createdAt ASC)` may return row `id`. */
  predicate IsOldestNew(rows: Table, id: nat) {
    && id < |rows| && rows[id].status == NEW
    && forall k :: 0 <= k < |rows| && rows[k].status == NEW ==> rows[id].createdAt <= rows[k].createdAt
  }

  /** The oldest NEW row, if there is a NEW row at all. */
  function OldestNew(rows: Table): (r: Option<nat>)
    ensures r.Some? ==> IsOldestNew(rows, r.value)
    ensures r.None? ==> forall k :: 0 <= k < |rows| ==> rows[k].status != NEW
  {
    if rows == [] then None
    else
      var init, last := rows[..|rows| - 1], |rows| - 1;
      assert forall k :: 0 <= k < |init| ==> rows[k] == init[k];
      match OldestNew(init)
      case None => if rows[last].status == NEW then Some(last) else None
      case Some(k) =>
        if rows[last].status == NEW && rows[last].createdAt < rows[k].createdAt then Some(last) else Some(k)
  }

  predicate HasGuid(rows: Table, guid: string) {
    exists k :: 0 <= k < |rows| && rows[k].feedGuid == guid
  }

  predicate DistinctGuids(rows: Table) {
    forall i, j :: 0 <= i < j < |rows| ==> rows[i].feedGuid != rows[j].feedGuid
  }

  // --- Updates: `save({ ...current, ...dto })` ---

  /** A status write: the caller's whole snapshot goes back to the table with the new status. */
  function WithStatus(rows: Table, id: nat, snapshot: Row, status: Status): Table
    requires id < |rows|
  {
    rows[id := snapshot.(status := status)]
  }

  function WithVisible(rows: Table, id: nat, visible: bool): Table
    requires id < |rows|
  {
    rows[id := rows[id].(isVisible := visible)]
  }

  /** TorrentsService: the methods that change the table. */
  class TorrentsService {
    var rows: Table

    constructor ()
      ensures rows == []
    {
      rows := [];
    }

    method Create(row: Row)
      modifies this
      ensures rows == old(rows) + [row]
    {
      rows := rows + [row];
    }

    /** A status write puts back every column as the caller last saw it, and leaves the other rows alone. */
    method UpdateTorrentStatus(id: nat, snapshot: Row, status: Status)
      requires id < |rows|
      modifies this
      ensures rows == WithStatus(old(rows), id, snapshot, status)
    {
      rows := rows[id := snapshot.(status := status)];
    }

    method SetVisible(id: nat, visible: bool)
      requires id < |rows|
      modifies this
      ensures rows == WithVisible(old(rows), id, visible)
    {
      rows := rows[id := rows[id].(isVisible := visible)];
    }

    /** Moves the oldest NEW row to QUEUED and changes nothing else; without a NEW row, changes nothing. */
    method PopNewTorrent() returns (popped: Option<nat>)
      modifies this
      ensures popped.None? <==> forall k :: 0 <= k < |old(rows)| ==> old(rows)[k].status != NEW
      ensures popped.None? ==> rows == old(rows)
      ensures popped.Some? ==>
                && IsOldestNew(old(rows), popped.value)
                && |rows| == |old(rows)| && rows[popped.value] == old(rows)[popped.value].(status := QUEUED)
                && forall k :: 0 <= k < |rows| && k != popped.value ==> rows[k] == old(rows)[k]
    {
      popped := OldestNew(rows);
      if popped.Some? {
        UpdateTorrentStatus(popped.value, rows[popped.value], QUEUED);
      }
    }
  }
}
