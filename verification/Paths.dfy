/** Path strings: `split('/')`, `join('/')` and the path predicates of StreamarrFsService. */
module Paths {
  import opened Wrappers

  /** A path inside a torrent, as its components. */
  type Path = seq<string>

  predicate NoSlash(part: string) {
    '/' !in part
  }

  /** A list that some `split('/')` can return: at least one component, none holding a slash. */
  predicate IsComponents(parts: Path) {
    parts != [] && forall k :: 0 <= k < |parts| ==> NoSlash(parts[k])
  }

  /** JavaScript's `s.split('/')`. */
  function Split(s: string): (parts: Path)
    ensures IsComponents(parts)
  {
    if s == "" then [""]
    else
      var rest := Split(s[1..]);
      if s[0] == '/' then [""] + rest else [[s[0]] + rest[0]] + rest[1..]
  }

  /** JavaScript's `parts.join('/')`. */
  function Join(parts: Path): string {
    if parts == [] then ""
    else if |parts| == 1 then parts[0]
    else parts[0] + "/" + Join(parts[1..])
  }

  lemma {:induction false} JoinSplit(s: string)
    ensures Join(Split(s)) == s
  {
    if s != "" {
      JoinSplit(s[1..]);
      var rest := Split(s[1..]);
      if s[0] == '/' {
        assert ([""] + rest)[1..] == rest;
      } else {
        var parts := [[s[0]] + rest[0]] + rest[1..];
        assert parts[1..] == rest[1..];
        assert s == [s[0]] + s[1..];
      }
    }
  }

  lemma {:induction false} SplitPart(part: string)
    requires NoSlash(part)
    ensures Split(part) == [part]
  {
    if part != "" {
      SplitPart(part[1..]);
      assert part == [part[0]] + part[1..];
    }
  }

  lemma {:induction false} SplitPartThen(part: string, tail: string)
    requires NoSlash(part)
    ensures Split(part + "/" + tail) == [part] + Split(tail)
  {
    var s := part + "/" + tail;
    if part == "" {
      assert s[1..] == tail;
    } else {
      assert s[1..] == part[1..] + "/" + tail;
      SplitPartThen(part[1..], tail);
      assert part == [part[0]] + part[1..];
    }
  }

  lemma {:induction false} SplitJoin(parts: Path)
    requires IsComponents(parts)
    ensures Split(Join(parts)) == parts
  {
    if |parts| == 1 {
      SplitPart(parts[0]);
    } else {
      SplitJoin(parts[1..]);
      SplitPartThen(parts[0], Join(parts[1..]));
    }
  }

  lemma JoinInjective(a: Path, b: Path)
    requires IsComponents(a) && IsComponents(b) && Join(a) == Join(b)
    ensures a == b
  {
    SplitJoin(a);
    SplitJoin(b);
  }

  predicate IsHex(c: char) {
    '0' <= c <= '9' || 'a' <= c <= 'f' || 'A' <= c <= 'F'
  }

  /** Forty hexadecimal digits, either case. */
  predicate IsInfoHash(h: string) {
    |h| == 40 && forall k :: 0 <= k < 40 ==> IsHex(h[k])
  }

  /** Matches `^/[a-f0-9]{40}/?.*` (ignoring case): only the first 41 characters matter. */
  predicate StartsWithTorrentHash(path: string) {
    |path| >= 41 && path[0] == '/' && IsInfoHash(path[1..41])
  }

  /** Matches `^/[a-f0-9]{40}/?$` (ignoring case). */
  predicate IsTorrentRoot(path: string) {
    StartsWithTorrentHash(path) && (|path| == 41 || (|path| == 42 && path[41] == '/'))
  }

  /** `path.split('/')[1]`, undefined when there is no second component. */
  function InfoHashOfPath(path: string): Option<string> {
    var parts := Split(path);
    if |parts| > 1 then Some(parts[1]) else None
  }

  /** `path.split('/').splice(2).join('/')`. */
  function TorrentFilePath(path: string): string {
    var parts := Split(path);
    if |parts| > 2 then Join(parts[2..]) else ""
  }

  /** The path FUSE asks for when it means `parts` inside the torrent `hash`; [] is its root. */
  function MountedPath(hash: string, parts: Path): string {
    "/" + Join([hash] + parts)
  }

  lemma SplitMounted(hash: string, parts: Path)
    requires NoSlash(hash) && (parts == [] || IsComponents(parts))
    ensures Split(MountedPath(hash, parts)) == ["", hash] + parts
  {
    var all := [hash] + parts;
    SplitJoin(all);
    assert MountedPath(hash, parts) == "" + "/" + Join(all);
    SplitPartThen("", Join(all));
    assert [""] + all == ["", hash] + parts;
  }

  lemma HexIsNoSlash(hash: string)
    requires IsInfoHash(hash)
    ensures NoSlash(hash)
  {
    forall k | 0 <= k < |hash| ensures hash[k] != '/' {
      assert IsHex(hash[k]);
    }
  }

  lemma MountedShape(hash: string, parts: Path)
    requires IsInfoHash(hash) && (parts == [] || IsComponents(parts))
    ensures var path := MountedPath(hash, parts);
            && |path| >= 41 && path[0] == '/' && path[1..41] == hash
            && |path| == (if parts == [] then 41 else 42 + |Join(parts)|)
            && (parts != [] ==> path[41] == '/')
  {
    if parts != [] {
      assert ([hash] + parts)[1..] == parts;
      assert MountedPath(hash, parts) == "/" + (hash + "/" + Join(parts));
    }
  }

  /** What the service extracts from a mounted path: the hash and the joined components come back,
      and the root test succeeds for the root alone, except that a lone empty name is also taken for it. */
  lemma MountedPathParses(hash: string, parts: Path)
    requires IsInfoHash(hash)
    requires parts == [] || IsComponents(parts)
    ensures var path := MountedPath(hash, parts);
            && path != "/" && path != "/healthcheck"
            && StartsWithTorrentHash(path)
            && InfoHashOfPath(path) == Some(hash)
            && TorrentFilePath(path) == Join(parts)
            && (IsTorrentRoot(path) <==> parts == [] || parts == [""])
  {
    HexIsNoSlash(hash);
    SplitMounted(hash, parts);
    MountedShape(hash, parts);
    assert (["", hash] + parts)[2..] == parts;
    if parts != [] && Join(parts) == "" {
      JoinInjective(parts, [""]);
    }
  }
}
