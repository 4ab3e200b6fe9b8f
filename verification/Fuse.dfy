/** The FUSE answers: `readdir` from the tree, `getattr` from the list first and the tree second. */
module Fuse {
  import opened Wrappers
  import opened Paths
  import opened FileTree
  import opened JsTree
  import opened Torrents

  datatype Errno = ENOENT | EIO | EBUSY

  datatype DirReply =
    | RootListing(hashes: seq<Option<string>>)  // "healthcheck", then these
    | Listing(names: set<string>)
    | Undefined                                 // success, but no array of names
    | DirError(errno: Errno)

  datatype Mode = Dir | RegularFile

  datatype AttrReply = Stat(mode: Mode, size: nat) | AttrError(errno: Errno)

  /** The number of names in a listing. */
  function Names(r: DirReply): Option<nat> {
    match r
    case RootListing(hashes) => Some(1 + |hashes|)
    case Listing(names) => Some(|names|)
    case _ => None
  }

  /** `getTorrentFilesForInfoHash`; None where it throws: no such row, or no files in it. */
  function TorrentFiles(rows: Table, hash: string): Option<seq<File>> {
    match FindOneByInfoHash(rows, hash)
    case None => None
    case Some(id) => rows[id].files
  }

  /** `getTorrentTreeForInfoHash`; None where it throws. */
  function TorrentTree(rows: Table, hash: string): Option<Index> {
    match TorrentFiles(rows, hash)
    case None => None
    case Some(files) => Build(files)
  }

  /** `files.find(f => f.path === path)`. */
  function FindPath(files: seq<File>, path: string): (r: Option<nat>)
    ensures r.None? <==> forall k :: 0 <= k < |files| ==> files[k].path != path
    ensures r.Some? ==> r.value < |files| && files[r.value].path == path
                        && forall k :: 0 <= k < r.value ==> files[k].path != path
  {
    if files == [] then None
    else if files[0].path == path then Some(0)
    else
      match FindPath(files[1..], path)
      case None => None
      case Some(k) => Some(k + 1)
  }

  function ReadDirReply(rows: Table, path: string): DirReply {
    if path == "/" then RootListing(VisibleRootIndex(rows))
    else if path == "/healthcheck" then Listing({})
    else if StartsWithTorrentHash(path) then
      match InfoHashOfPath(path)
      case None => DirError(EIO)
      case Some(hash) =>
        match TorrentTree(rows, hash)
        case None => DirError(EIO)
        case Some(t) =>
          if IsTorrentRoot(path) then Listing(Keys(t, []))
          else
            var dir := Split(TorrentFilePath(path));
            if Truthy(t, dir) then Listing(Keys(t, dir)) else Undefined
    else Undefined
  }

  function GetAttrReply(rows: Table, path: string): AttrReply {
    if path == "/" then Stat(Dir, |VisibleRootIndex(rows)|)
    else if path == "/healthcheck" then Stat(Dir, 1)
    else if StartsWithTorrentHash(path) then
      match InfoHashOfPath(path)
      case None => AttrError(ENOENT)
      case Some(hash) =>
        if FindOneVisibleByInfoHash(rows, hash) == None then AttrError(ENOENT)
        else
          match TorrentFiles(rows, hash)
          case None => AttrError(EIO)
          case Some(files) => TorrentAttr(files, path)
    else AttrError(ENOENT)
  }

  function TorrentAttr(files: seq<File>, path: string): AttrReply {
    if IsTorrentRoot(path) then
      match Build(files)
      case None => AttrError(EIO)
      case Some(t) => Stat(Dir, |Keys(t, [])|)
    else
      var filePath := TorrentFilePath(path);
      match FindPath(files, filePath)
      case Some(k) => Stat(RegularFile, files[k].length)
      case None =>
        match Build(files)
        case None => AttrError(EIO)
        case Some(t) =>
          if Truthy(t, Split(filePath)) then Stat(Dir, |Keys(t, Split(filePath))|) else AttrError(ENOENT)
  }

  /** `open`; None is success. The busy test negates a promise, which is never false, so it cannot hold
      however many torrents are ready and whether or not this one is in the client. */
  function OpenReply(rows: Table, path: string, reachedMax: bool): Option<Errno> {
    var promiseIsTruthy := true;
    if !StartsWithTorrentHash(path) then Some(ENOENT)
    else
      match InfoHashOfPath(path)
      case None => Some(ENOENT)
      case Some(hash) =>
        if FindOneVisibleByInfoHash(rows, hash) == None then Some(ENOENT)
        else if reachedMax && !promiseIsTruthy then Some(EBUSY)
        else None
  }

  // --- The two handlers, on the objects `buildTree` makes ---

  /** `curDir ? Object.keys(curDir) : undefined` for the path `dirPath` of a tree. */
  method ListDir(tree: JsObject, dirPath: string, ghost nodes: map<Path, JsObject>, ghost t: Index)
    returns (names: Option<set<string>>)
    requires Represents(nodes, t) && Closed(t) && [] in nodes && nodes[[]] == tree
    ensures names == if Truthy(t, Split(dirPath)) then Some(Keys(t, Split(dirPath))) else None
  {
    var curDir := GetDirFromFileTree(tree, dirPath, nodes, t);
    names := None;
    if IsTruthy(curDir) {
      KeysAgree(nodes, t, Split(dirPath), curDir.value);
      names := Some(ObjectKeys(curDir.value));
    }
  }

  /** Builds the tree and lists its root, or the directory `dirPath` if it is truthy; !ok: it threw. */
  method ListTree(files: seq<File>, dirPath: Option<string>) returns (ok: bool, names: Option<set<string>>)
    ensures ok <==> Build(files).Some?
    ensures ok ==> names == ListingOf(Build(files).value, dirPath)
  {
    var built, tree, nodes := BuildTree(files);
    if !built {
      return false, None;
    }
    BuildClosed(files);
    if dirPath.Some? {
      names := ListDir(tree, dirPath.value, nodes, Build(files).value);
    } else {
      KeysAgree(nodes, Build(files).value, [], Ref(tree));
      names := Some(tree.props.Keys);
    }
    ok := true;
  }

  function ListingOf(t: Index, dirPath: Option<string>): Option<set<string>>
    requires [] in t
  {
    match dirPath
    case None => Some(Keys(t, []))
    case Some(d) => if Truthy(t, Split(d)) then Some(Keys(t, Split(d))) else None
  }

  method ReadDir(rows: Table, path: string) returns (reply: DirReply)
    ensures reply == ReadDirReply(rows, path)
  {
    if path == "/" {
      return RootListing(VisibleRootIndex(rows));
    }
    if path == "/healthcheck" {
      return Listing({});
    }
    if !StartsWithTorrentHash(path) {
      return Undefined;
    }
    var hash := InfoHashOfPath(path);
    var files := if hash.Some? then TorrentFiles(rows, hash.value) else None;
    if files.None? {
      return DirError(EIO);
    }
    var ok, names := ListTree(files.value, if IsTorrentRoot(path) then None else Some(TorrentFilePath(path)));
    if !ok {
      return DirError(EIO);
    }
    reply := if names.Some? then Listing(names.value) else Undefined;
  }

  method GetAttr(rows: Table, path: string) returns (reply: AttrReply)
    ensures reply == GetAttrReply(rows, path)
  {
    if path == "/" {
      return Stat(Dir, |VisibleRootIndex(rows)|);
    }
    if path == "/healthcheck" {
      return Stat(Dir, 1);
    }
    var hash := InfoHashOfPath(path);
    if !StartsWithTorrentHash(path) || hash.None? || FindOneVisibleByInfoHash(rows, hash.value) == None {
      return AttrError(ENOENT);
    }
    var files := TorrentFiles(rows, hash.value);
    if files.None? {
      return AttrError(EIO);
    }
    if !IsTorrentRoot(path) {
      var fileInTorrent := FindPath(files.value, TorrentFilePath(path));
      if fileInTorrent.Some? {
        return Stat(RegularFile, files.value[fileInTorrent.value].length);
      }
    }
    var ok, names := ListTree(files.value, if IsTorrentRoot(path) then None else Some(TorrentFilePath(path)));
    if !ok {
      return AttrError(EIO);
    }
    reply := if names.Some? then Stat(Dir, |names.value|) else AttrError(ENOENT);
  }

  // --- What a visible torrent shows ---

  /** Row `id` is the only one with `hash`, it is visible, and it lists `files`. */
  predicate Mounts(rows: Table, id: nat, hash: string, files: seq<File>) {
    && IsInfoHash(hash) && PrefixFree(files)
    && id < |rows| && rows[id].infoHash == Some(hash) && rows[id].isVisible && rows[id].files == Some(files)
    && forall k :: 0 <= k < |rows| && rows[k].infoHash == Some(hash) ==> k == id
  }

  /** The names a path inside a torrent can have: any components, but not a lone empty one. */
  predicate Reachable(parts: Path) {
    parts == [] || (IsComponents(parts) && parts != [""])
  }

  /** `find` compares strings and the tree compares components; they agree. */
  lemma {:induction false} FindPathIsFirst(files: seq<File>, parts: Path)
    requires IsComponents(parts)
    ensures FindPath(files, Join(parts)).Some? <==> IsFile(files, parts)
    ensures IsFile(files, parts) ==> files[FindPath(files, Join(parts)).value].length == FirstLength(files, parts)
  {
    SplitJoin(parts);
    if files != [] {
      FindPathIsFirst(files[1..], parts);
      JoinSplit(files[0].path);
      assert files[0].path == Join(parts) <==> Split(files[0].path) == parts;
      var rest := files[1..];
      assert forall k :: 0 <= k < |rest| ==> rest[k] == files[k + 1];
      assert IsFile(files, parts) <==> Split(files[0].path) == parts || IsFile(rest, parts) by {
        if IsFile(files, parts) && Split(files[0].path) != parts {
          var k :| 0 <= k < |files| && Split(files[k].path) == parts;
          assert rest[k - 1] == files[k];
        }
      }
    }
  }

  lemma MountsFinds(rows: Table, id: nat, hash: string, files: seq<File>, parts: Path)
    requires Mounts(rows, id, hash, files) && (parts == [] || IsComponents(parts))
    ensures TorrentFiles(rows, hash) == Some(files)
    ensures GetAttrReply(rows, MountedPath(hash, parts)) == TorrentAttr(files, MountedPath(hash, parts))
  {
    MountedPathParses(hash, parts);
  }

  /** Everything `getattr` says inside a visible torrent, read off the file list. */
  lemma GetAttrExact(rows: Table, id: nat, hash: string, files: seq<File>, parts: Path)
    requires Mounts(rows, id, hash, files) && Reachable(parts)
    ensures GetAttrReply(rows, MountedPath(hash, parts)) ==
            if parts == [] || IsDirectory(files, parts) then Stat(Dir, |NextNames(files, parts)|)
            else if IsFile(files, parts) then Stat(RegularFile, FirstLength(files, parts))
            else if IsLengthSlot(files, parts) && FirstLength(files, parts[..|parts| - 1]) != 0 then Stat(Dir, 0)
            else AttrError(ENOENT)
  {
    MountsFinds(rows, id, hash, files, parts);
    MountedPathParses(hash, parts);
    LookupExact(files, parts);
    if parts != [] {
      SplitJoin(parts);
      FindPathIsFirst(files, parts);
      if IsDirectory(files, parts) { DirectoryIsNoFile(files, parts); }
    }
  }

  /** Everything `readdir` says inside a torrent, read off the file list. */
  lemma ReadDirExact(rows: Table, id: nat, hash: string, files: seq<File>, parts: Path)
    requires Mounts(rows, id, hash, files) && Reachable(parts)
    ensures ReadDirReply(rows, MountedPath(hash, parts)) ==
            if parts == [] || IsDirectory(files, parts) then Listing(NextNames(files, parts))
            else if IsFile(files, parts) then Listing({"length"})
            else if IsLengthSlot(files, parts) && FirstLength(files, parts[..|parts| - 1]) != 0 then Listing({})
            else Undefined
  {
    MountsFinds(rows, id, hash, files, parts);
    MountedPathParses(hash, parts);
    LookupExact(files, parts);
    if parts != [] {
      SplitJoin(parts);
    }
  }

  // --- readdir and getattr agree ---

  predicate IsDirAt(rows: Table, path: string) {
    GetAttrReply(rows, path).Stat? && GetAttrReply(rows, path).mode == Dir
  }

  predicate ListedIn(rows: Table, path: string, name: string) {
    ReadDirReply(rows, path).Listing? && name in ReadDirReply(rows, path).names
  }

  /** A recursive walk: start at the torrent's root, enter what `getattr` calls a directory,
      and follow the names `readdir` lists there. */
  predicate Walked(rows: Table, hash: string, parts: Path) {
    parts == [] ||
    var parent, name := parts[..|parts| - 1], parts[|parts| - 1];
    && Walked(rows, hash, parent)
    && IsDirAt(rows, MountedPath(hash, parent))
    && ListedIn(rows, MountedPath(hash, parent), name)
  }

  /** No path of the list starts with a slash or is empty: no first component is "". */
  predicate NamedRoots(files: seq<File>) {
    forall k :: 0 <= k < |files| ==> Split(files[k].path)[0] != ""
  }

  lemma PrefixReachable(files: seq<File>, parts: Path)
    requires parts != [""] && (parts == [] || IsPrefixOfFile(files, parts))
    ensures Reachable(parts)
  {
    if parts != [] {
      var k :| 0 <= k < |files| && parts <= Split(files[k].path);
      forall j | 0 <= j < |parts| ensures NoSlash(parts[j]) {
        assert parts[j] == Split(files[k].path)[j];
      }
    }
  }

  lemma NextIsPrefix(files: seq<File>, parent: Path, name: string)
    ensures name in NextNames(files, parent) <==> IsPrefixOfFile(files, parent + [name])
  {
    forall k | 0 <= k < |files| ensures parent + [name] <= Split(files[k].path) <==>
          parent < Split(files[k].path) && Split(files[k].path)[|parent|] == name {
      PrefixStep(parent, name, Split(files[k].path));
    }
  }

  lemma PrefixParent(files: seq<File>, parent: Path, name: string)
    requires IsPrefixOfFile(files, parent + [name])
    ensures IsDirectory(files, parent)
  {
    var k :| 0 <= k < |files| && parent + [name] <= Split(files[k].path);
    PrefixStep(parent, name, Split(files[k].path));
  }

  /** A file whose path starts with a slash hides under the empty name, which `getattr` mistakes for the
      torrent's root: the listed name "" is a directory with the root's own size. */
  lemma EmptyNameIsTheRoot(rows: Table, id: nat, hash: string, files: seq<File>)
    requires Mounts(rows, id, hash, files)
    ensures GetAttrReply(rows, MountedPath(hash, [""])) == GetAttrReply(rows, MountedPath(hash, []))
    ensures ReadDirReply(rows, MountedPath(hash, [""])) == ReadDirReply(rows, MountedPath(hash, []))
    ensures ListedIn(rows, MountedPath(hash, []), "") <==> !NamedRoots(files)
  {
    MountedPathParses(hash, [""]);
    MountedPathParses(hash, []);
    ReadDirExact(rows, id, hash, files, []);
    NextIsPrefix(files, [], "");
    assert [] + [""] == [""];
    forall k | 0 <= k < |files| ensures [""] <= Split(files[k].path) <==> Split(files[k].path)[0] == "" {
      PrefixStep([], "", Split(files[k].path));
    }
  }

  /** What starts with a slash starts with what the root shows anyway: below the empty name lie exactly the
      names of the root. */
  predicate RootRepeats(files: seq<File>) {
    NextNames(files, []) == NextNames(files, [""])
  }

  /** What `getattr` and `readdir` say at a path agrees with a walk meant to find the files. */
  predicate WalkedRight(rows: Table, hash: string, files: seq<File>, parts: Path) {
    var path := MountedPath(hash, parts);
    && (IsFile(files, parts) ==> Walked(rows, hash, parts))
    && (Walked(rows, hash, parts) ==>
          if IsFile(files, parts) then GetAttrReply(rows, path) == Stat(RegularFile, FirstLength(files, parts))
          else ReadDirReply(rows, path).Listing?
               && GetAttrReply(rows, path) == Stat(Dir, |ReadDirReply(rows, path).names|))
  }

  lemma RootReplies(rows: Table, id: nat, hash: string, files: seq<File>, parts: Path)
    requires Mounts(rows, id, hash, files) && (parts == [] || parts == [""])
    ensures ReadDirReply(rows, MountedPath(hash, parts)) == Listing(NextNames(files, []))
    ensures GetAttrReply(rows, MountedPath(hash, parts)) == Stat(Dir, |NextNames(files, [])|)
  {
    GetAttrExact(rows, id, hash, files, []);
    ReadDirExact(rows, id, hash, files, []);
    EmptyNameIsTheRoot(rows, id, hash, files);
  }

  /** What both handlers say on the walk's way, the empty name included. */
  lemma RepliesOnTheWay(rows: Table, id: nat, hash: string, files: seq<File>, parts: Path)
    requires Mounts(rows, id, hash, files) && (parts == [] || IsPrefixOfFile(files, parts))
    requires parts == [""] ==> RootRepeats(files)
    ensures var path := MountedPath(hash, parts);
            if parts != [] && IsFile(files, parts) then
              GetAttrReply(rows, path) == Stat(RegularFile, FirstLength(files, parts))
            else
              && ReadDirReply(rows, path) == Listing(NextNames(files, parts))
              && GetAttrReply(rows, path) == Stat(Dir, |NextNames(files, parts)|)
  {
    if parts == [] || parts == [""] {
      RootReplies(rows, id, hash, files, parts);
      if parts == [""] {
        EmptyNameIsADirectory(files);
        DirectoryIsNoFile(files, [""]);
      }
    } else {
      PrefixReachable(files, parts);
      GetAttrExact(rows, id, hash, files, parts);
      ReadDirExact(rows, id, hash, files, parts);
      if IsDirectory(files, parts) { DirectoryIsNoFile(files, parts); }
    }
  }

  lemma EmptyNameIsADirectory(files: seq<File>)
    requires RootRepeats(files) && IsPrefixOfFile(files, [""])
    ensures IsDirectory(files, [""])
  {
    NextIsPrefix(files, [], "");
    assert [] + [""] == [""];
    assert "" in NextNames(files, [""]);
    NextIsPrefix(files, [""], "");
    PrefixParent(files, [""], "");
  }

  lemma EmptyNamePrefix(files: seq<File>)
    ensures NamedRoots(files) <==> !IsPrefixOfFile(files, [""])
  {
    forall k | 0 <= k < |files| ensures [""] <= Split(files[k].path) <==> Split(files[k].path)[0] == "" {
      PrefixStep([], "", Split(files[k].path));
      assert [] + [""] == [""];
    }
  }

  /** The walk reaches exactly the prefixes of the listed paths. */
  lemma {:induction false} WalkIsPrefixes(rows: Table, id: nat, hash: string, files: seq<File>, parts: Path)
    requires Mounts(rows, id, hash, files) && (NamedRoots(files) || RootRepeats(files))
    ensures Walked(rows, hash, parts) <==> parts == [] || IsPrefixOfFile(files, parts)
    decreases |parts|
  {
    if parts != [] {
      var parent, name := parts[..|parts| - 1], parts[|parts| - 1];
      assert parts == parent + [name];
      WalkIsPrefixes(rows, id, hash, files, parent);
      NextIsPrefix(files, parent, name);
      EmptyNamePrefix(files);
      if IsPrefixOfFile(files, parts) {
        PrefixParent(files, parent, name);
        DirectoryIsNoFile(files, parent);
      }
      if parent == [] || IsPrefixOfFile(files, parent) {
        RepliesOnTheWay(rows, id, hash, files, parent);
      }
    }
  }

  lemma WalkIsRight(rows: Table, id: nat, hash: string, files: seq<File>, parts: Path)
    requires Mounts(rows, id, hash, files) && (NamedRoots(files) || RootRepeats(files))
    ensures WalkedRight(rows, hash, files, parts)
  {
    WalkIsPrefixes(rows, id, hash, files, parts);
    EmptyNamePrefix(files);
    if IsFile(files, parts) {
      assert IsPrefixOfFile(files, parts);
    }
    if Walked(rows, hash, parts) {
      RepliesOnTheWay(rows, id, hash, files, parts);
    }
  }

  lemma {:induction false} PrefixesAreWalked(rows: Table, hash: string, parts: Path, n: nat)
    requires n <= |parts| && Walked(rows, hash, parts)
    ensures Walked(rows, hash, parts[..n])
    decreases |parts|
  {
    if n < |parts| {
      var parent := parts[..|parts| - 1];
      PrefixesAreWalked(rows, hash, parent, n);
      assert parent[..n] == parts[..n];
    } else {
      assert parts[..n] == parts;
    }
  }

  /** Below the empty name the walk finds the root's names again. */
  lemma WalkBelowEmptyName(rows: Table, id: nat, hash: string, files: seq<File>, name: string)
    requires Mounts(rows, id, hash, files) && !NamedRoots(files)
    ensures Walked(rows, hash, [""]) && (Walked(rows, hash, ["", name]) <==> name in NextNames(files, []))
  {
    RootReplies(rows, id, hash, files, []);
    RootReplies(rows, id, hash, files, [""]);
    EmptyNameIsTheRoot(rows, id, hash, files);
    assert [""][..0] == [] && Walked(rows, hash, []);
    assert ["", name][..1] == [""];
  }

  lemma WalkGoesWrong(rows: Table, id: nat, hash: string, files: seq<File>) returns (parts: Path)
    requires Mounts(rows, id, hash, files) && !NamedRoots(files) && !RootRepeats(files)
    ensures !WalkedRight(rows, hash, files, parts)
  {
    if IsFile(files, [""]) {
      parts := [""];
      RootReplies(rows, id, hash, files, parts);
      WalkBelowEmptyName(rows, id, hash, files, "");
    } else if name :| name in NextNames(files, []) && name !in NextNames(files, [""]) {
      parts := ["", name];
      WalkBelowEmptyName(rows, id, hash, files, name);
      NothingThere(rows, id, hash, files, name);
    } else {
      var name :| name in NextNames(files, [""]) && name !in NextNames(files, []);
      NextIsPrefix(files, [""], name);
      assert [""] + [name] == ["", name];
      var k :| 0 <= k < |files| && ["", name] <= Split(files[k].path);
      parts := Split(files[k].path);
      WalkBelowEmptyName(rows, id, hash, files, name);
      assert parts[..2] == ["", name];
      if Walked(rows, hash, parts) {
        PrefixesAreWalked(rows, hash, parts, 2);
      }
    }
  }

  lemma NothingThere(rows: Table, id: nat, hash: string, files: seq<File>, name: string)
    requires Mounts(rows, id, hash, files) && !IsFile(files, [""])
    requires name in NextNames(files, []) && name !in NextNames(files, [""])
    ensures !IsFile(files, ["", name]) && GetAttrReply(rows, MountedPath(hash, ["", name])).AttrError?
  {
    var parts := ["", name];
    NextIsPrefix(files, [""], name);
    assert [""] + [name] == parts && parts[..1] == [""];
    assert IsFile(files, parts) || IsDirectory(files, parts) ==> IsPrefixOfFile(files, parts);
    NextIsPrefix(files, [], name);
    assert [] + [name] == [name];
    var k :| 0 <= k < |files| && [name] <= Split(files[k].path);
    assert name == Split(files[k].path)[0];
    GetAttrExact(rows, id, hash, files, parts);
  }

  /** Walking a visible torrent finds every file of its list, with its length, and no other file, and all else
      it meets is a directory that `getattr` sizes by its listing, if and only if no path starts with a slash
      or is empty, or below the empty name lie just the names of the root. */
  lemma WalkFindsExactlyTheFiles(rows: Table, id: nat, hash: string, files: seq<File>)
    requires Mounts(rows, id, hash, files)
    ensures (forall parts :: WalkedRight(rows, hash, files, parts)) <==> NamedRoots(files) || RootRepeats(files)
  {
    if NamedRoots(files) || RootRepeats(files) {
      forall parts ensures WalkedRight(rows, hash, files, parts) {
        WalkIsRight(rows, id, hash, files, parts);
      }
    } else {
      var parts := WalkGoesWrong(rows, id, hash, files);
    }
  }

  /** Whatever `getattr` accepts is listed by its parent, and whatever a directory lists is accepted:
      the two handlers know the same names. The one exception, in both, is a file's length of 0. */
  lemma ListedIffAccepted(rows: Table, id: nat, hash: string, files: seq<File>, parent: Path, name: string)
    requires Mounts(rows, id, hash, files) && Reachable(parent) && Reachable(parent + [name])
    ensures GetAttrReply(rows, MountedPath(hash, parent + [name])).Stat? <==>
            && ListedIn(rows, MountedPath(hash, parent), name)
            && !(IsFile(files, parent) && FirstLength(files, parent) == 0)
  {
    var child := parent + [name];
    GetAttrExact(rows, id, hash, files, child);
    ReadDirExact(rows, id, hash, files, parent);
    ChildEntry(files, parent, name);
    NextIsPrefix(files, parent, name);
    assert child[..|child| - 1] == parent && child[|child| - 1] == name;
    assert IsPrefixOfFile(files, child) <==> IsDirectory(files, child) || IsFile(files, child);
    if IsPrefixOfFile(files, child) {
      PrefixParent(files, parent, name);
      DirectoryIsNoFile(files, parent);
    }
    if IsFile(files, parent) && parent != [] {
      if IsDirectory(files, parent) { DirectoryIsNoFile(files, parent); }
    }
  }

  /** Inside a torrent a directory's size is the length of its listing. */
  lemma SizeIsListingLength(rows: Table, id: nat, hash: string, files: seq<File>, parts: Path)
    requires Mounts(rows, id, hash, files) && Reachable(parts)
    requires IsDirAt(rows, MountedPath(hash, parts))
    ensures var path := MountedPath(hash, parts);
            Names(ReadDirReply(rows, path)) == Some(GetAttrReply(rows, path).size)
  {
    GetAttrExact(rows, id, hash, files, parts);
    ReadDirExact(rows, id, hash, files, parts);
  }

  // --- Outside the torrents ---

  function VisibleIds(rows: Table): set<nat> {
    set k: nat | k < |rows| && rows[k].isVisible
  }

  function VisibleWith(rows: Table, h: Option<string>): set<nat> {
    set k: nat | k < |rows| && rows[k].isVisible && rows[k].infoHash == h
  }

  lemma OneMoreRow(init: Table, r: Row, h: Option<string>)
    ensures |VisibleIds(init + [r])| == |VisibleIds(init)| + if r.isVisible then 1 else 0
    ensures |VisibleWith(init + [r], h)| == |VisibleWith(init, h)| + if r.isVisible && r.infoHash == h then 1 else 0
  {
    var rows, id := init + [r], |init|;
    assert VisibleIds(rows) == if r.isVisible then VisibleIds(init) + {id} else VisibleIds(init);
    assert VisibleWith(rows, h) ==
           if r.isVisible && r.infoHash == h then VisibleWith(init, h) + {id} else VisibleWith(init, h);
  }

  lemma {:induction false} RootCounts(rows: Table, h: Option<string>)
    ensures |VisibleRootIndex(rows)| == |VisibleIds(rows)|
    ensures multiset(VisibleRootIndex(rows))[h] == |VisibleWith(rows, h)|
  {
    if rows != [] {
      var init, last := rows[..|rows| - 1], rows[|rows| - 1];
      assert rows == init + [last];
      RootCounts(init, h);
      OneMoreRow(init, last, h);
      hide VisibleIds, VisibleWith;
      RootIndexSnoc(rows);
    }
  }

  lemma RootIndexSnoc(rows: Table)
    requires rows != []
    ensures var init, last := VisibleRootIndex(rows[..|rows| - 1]), rows[|rows| - 1];
            && |VisibleRootIndex(rows)| == |init| + (if last.isVisible then 1 else 0)
            && multiset(VisibleRootIndex(rows))
               == multiset(init) + if last.isVisible then multiset{last.infoHash} else multiset{}
  {
  }

  /** The mount root, in both handlers: each visible row is counted once, and each hash is listed exactly as often
      as there are visible rows with it. */
  lemma RootIsExact(rows: Table)
    ensures GetAttrReply(rows, "/") == Stat(Dir, |set k: nat | k < |rows| && rows[k].isVisible|)
    ensures ReadDirReply(rows, "/").RootListing?
    ensures forall h :: multiset(ReadDirReply(rows, "/").hashes)[h]
                        == |set k: nat | k < |rows| && rows[k].isVisible && rows[k].infoHash == h|
  {
    hide VisibleRootIndex;
    RootCounts(rows, None);
    forall h ensures multiset(ReadDirReply(rows, "/").hashes)[h]
                     == |set k: nat | k < |rows| && rows[k].isVisible && rows[k].infoHash == h| {
      RootCounts(rows, h);
    }
  }

  /** A path that is neither the root nor the healthcheck and does not begin with a slash and forty hexadecimal
      digits: `readdir` succeeds without a list of names, and `getattr` and `open` say ENOENT. The healthcheck is
      an empty directory of size 1. */
  lemma OtherPaths(rows: Table, path: string, reachedMax: bool)
    ensures ReadDirReply(rows, "/healthcheck") == Listing({}) && GetAttrReply(rows, "/healthcheck") == Stat(Dir, 1)
    ensures path != "/" && path != "/healthcheck"
            && !(|path| >= 41 && path[0] == '/' && forall k :: 1 <= k < 41 ==> IsHex(path[k])) ==>
              && ReadDirReply(rows, path) == Undefined && GetAttrReply(rows, path) == AttrError(ENOENT)
              && OpenReply(rows, path, reachedMax) == Some(ENOENT)
  {
    if StartsWithTorrentHash(path) {
      forall k | 1 <= k < 41 ensures IsHex(path[k]) {
        assert path[1..41][k - 1] == path[k];
      }
    }
  }

  /** A first name that goes on after forty hexadecimal digits is taken for a hash as well, and as no row has it,
      `readdir` fails and `getattr` and `open` say ENOENT. */
  lemma LongerThanAHash(rows: Table, name: string, parts: Path, reachedMax: bool)
    requires NoSlash(name) && |name| > 40 && IsInfoHash(name[..40]) && (parts == [] || IsComponents(parts))
    requires forall k :: 0 <= k < |rows| ==> rows[k].infoHash != Some(name)
    ensures var path := MountedPath(name, parts);
            && ReadDirReply(rows, path) == DirError(EIO) && GetAttrReply(rows, path) == AttrError(ENOENT)
            && OpenReply(rows, path, reachedMax) == Some(ENOENT)
  {
    var path := MountedPath(name, parts);
    SplitMounted(name, parts);
    assert path[1..41] == name[..40];
  }

  /** Any path inside a torrent whose hash no visible row has: `getattr` and `open` say ENOENT. But `readdir` does
      not look at visibility: it fails only if no row at all has the hash, and lists the files of a single hidden
      row as if it were visible. */
  lemma HiddenOrUnknown(rows: Table, hash: string, parts: Path, reachedMax: bool)
    requires IsInfoHash(hash) && (parts == [] || IsComponents(parts))
    requires forall k :: 0 <= k < |rows| && rows[k].infoHash == Some(hash) ==> !rows[k].isVisible
    ensures var path := MountedPath(hash, parts);
            && GetAttrReply(rows, path) == AttrError(ENOENT) && OpenReply(rows, path, reachedMax) == Some(ENOENT)
            && ((forall k :: 0 <= k < |rows| ==> rows[k].infoHash != Some(hash)) ==>
                  ReadDirReply(rows, path) == DirError(EIO))
            && (forall id: nat :: HiddenMount(rows, id, hash) ==>
                  var shown := rows[id := rows[id].(isVisible := true)];
                  ReadDirReply(rows, path) == ReadDirReply(shown, path))
  {
    MountedPathParses(hash, parts);
    forall id: nat | HiddenMount(rows, id, hash)
      ensures ReadDirReply(rows, MountedPath(hash, parts))
              == ReadDirReply(rows[id := rows[id].(isVisible := true)], MountedPath(hash, parts))
    {
      SameFiles(rows, id, hash);
    }
  }

  /** Row `id` is the only one with `hash`, and hidden. */
  predicate HiddenMount(rows: Table, id: nat, hash: string) {
    && id < |rows| && rows[id].infoHash == Some(hash) && !rows[id].isVisible
    && forall k :: 0 <= k < |rows| && rows[k].infoHash == Some(hash) ==> k == id
  }

  lemma SameFiles(rows: Table, id: nat, hash: string)
    requires HiddenMount(rows, id, hash)
    ensures TorrentFiles(rows, hash) == TorrentFiles(rows[id := rows[id].(isVisible := true)], hash)
  {
    hide FindOneByInfoHash;
    var shown := rows[id := rows[id].(isVisible := true)];
    assert shown[id].infoHash == Some(hash);
    forall k | 0 <= k < |rows| && shown[k].infoHash == Some(hash) ensures k == id {
      assert rows[k].infoHash == shown[k].infoHash;
    }
  }

  /** A torrent whose one visible row holds no file list is an I/O error everywhere, and so is one whose list is no
      tree, at its root and in every listing. */
  lemma BrokenFiles(rows: Table, id: nat, hash: string, parts: Path)
    requires IsInfoHash(hash) && (parts == [] || IsComponents(parts))
    requires id < |rows| && rows[id].infoHash == Some(hash) && rows[id].isVisible
    requires forall k :: 0 <= k < |rows| && rows[k].infoHash == Some(hash) ==> k == id
    requires rows[id].files == None || Build(rows[id].files.value) == None
    ensures var path := MountedPath(hash, parts);
            && ReadDirReply(rows, path) == DirError(EIO)
            && (rows[id].files == None || parts == [] ==> GetAttrReply(rows, path) == AttrError(EIO))
  {
    MountedPathParses(hash, parts);
  }

  /** A remark: the mount root counts one name too few, the healthcheck one too many. */
  lemma SizeIsOffOutside(rows: Table)
    ensures Names(ReadDirReply(rows, "/")) == Some(GetAttrReply(rows, "/").size + 1)
    ensures Names(ReadDirReply(rows, "/healthcheck")) == Some(GetAttrReply(rows, "/healthcheck").size - 1)
  {
  }

  /** `open` accepts every path `getattr` knows inside the torrents, and also every path below a visible
      torrent that does not exist, since it looks at the hash alone; it refuses none for being busy. */
  lemma OpenFollowsVisibility(rows: Table, hash: string, parts: Path, reachedMax: bool)
    requires IsInfoHash(hash) && (parts == [] || IsComponents(parts))
    ensures var path := MountedPath(hash, parts);
            && OpenReply(rows, path, reachedMax) ==
               (if exists k :: 0 <= k < |rows| && rows[k].infoHash == Some(hash) && rows[k].isVisible then None
                else Some(ENOENT))
            && (GetAttrReply(rows, path).Stat? ==> OpenReply(rows, path, reachedMax) == None)
  {
    MountedPathParses(hash, parts);
  }
}
