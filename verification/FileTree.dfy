/** What `buildTree` computes, as a finite map from paths to JavaScript values, and what that
    map means for the file list it came from. The objects themselves are in JsTree. */
module FileTree {
  import opened Wrappers
  import opened Paths

  /** One entry of a torrent's `files` column. */
  datatype File = File(path: string, length: nat)

  /** A value in the nested object: another object, or the number in a file's `length` property. */
  datatype Cell = Object | Number(n: nat)

  /** A nested object, flattened: every path from the root that leads to a value. */
  type Index = map<Path, Cell>

  const EMPTY: Index := map[[] := Object]

  predicate Truthy(t: Index, p: Path) {
    p in t && t[p] != Number(0)
  }

  function Lookup(t: Index, p: Path): Option<Cell> {
    if p in t then Some(t[p]) else None
  }

  /** `Object.keys` of the value at `p`; a number has none. */
  function Keys(t: Index, p: Path): (names: set<string>)
    requires p in t
    ensures forall c :: c in names <==> t[p].Object? && p + [c] in t
  {
    if t[p].Number? then {}
    else
      var names := set q | q in t && |q| == |p| + 1 && q[..|p|] == p :: q[|p|];
      assert forall c :: p + [c] in t ==> (p + [c])[..|p|] == p && (p + [c])[|p|] == c;
      assert forall q :: q in t && |q| == |p| + 1 && q[..|p|] == p ==> q == p + [q[|p|]];
      names
  }

  /** One round of the inner `forEach` of `buildTree`, standing at `parts[..i]`.
      None: the round assigns a property of a number, a TypeError in strict mode. */
  function Enter(t: Index, parts: Path, i: nat, length: nat): (r: Option<Index>)
    requires i < |parts| && parts[..i] in t
    ensures r.Some? ==> t.Keys <= r.value.Keys && parts[..i + 1] in r.value
  {
    var child := parts[..i + 1];
    if Truthy(t, child) then Some(t)
    else if t[parts[..i]].Number? then None
    else if i == |parts| - 1 then Some(t[child := Object][child + ["length"] := Number(length)])
    else Some(t[child := Object])
  }

  /** The inner `forEach` from round `i` on. */
  function Insert(t: Index, parts: Path, i: nat, length: nat): (r: Option<Index>)
    requires i <= |parts| && parts[..i] in t
    ensures r.Some? ==> t.Keys <= r.value.Keys
    decreases |parts| - i
  {
    if i == |parts| then Some(t)
    else
      match Enter(t, parts, i, length)
      case None => None
      case Some(t') => Insert(t', parts, i + 1, length)
  }

  function Build(files: seq<File>): (r: Option<Index>)
    ensures r.Some? ==> [] in r.value
  {
    if files == [] then Some(EMPTY)
    else
      match Build(files[..|files| - 1])
      case None => None
      case Some(t) =>
        var file := files[|files| - 1];
        Insert(t, Split(file.path), 0, file.length)
  }

  // --- What the list says, without any tree ---

  predicate IsFile(files: seq<File>, p: Path) {
    exists k :: 0 <= k < |files| && Split(files[k].path) == p
  }

  predicate IsPrefixOfFile(files: seq<File>, p: Path) {
    exists k :: 0 <= k < |files| && p <= Split(files[k].path)
  }

  predicate IsDirectory(files: seq<File>, p: Path) {
    exists k :: 0 <= k < |files| && p < Split(files[k].path)
  }

  /** The length `find` returns for the path `p`: that of the first entry with it. */
  function FirstLength(files: seq<File>, p: Path): (n: nat)
    requires IsFile(files, p)
  {
    if Split(files[0].path) == p then files[0].length else FirstLength(files[1..], p)
  }

  /** The `length` property of a file's node. */
  predicate IsLengthSlot(files: seq<File>, p: Path) {
    p != [] && p[|p| - 1] == "length" && IsFile(files, p[..|p| - 1])
  }

  predicate PrefixFree(files: seq<File>) {
    forall i, j :: 0 <= i < |files| && 0 <= j < |files| ==> !(Split(files[i].path) < Split(files[j].path))
  }

  /** The tree holds exactly the components' prefixes and one length per file. */
  ghost predicate Indexes(t: Index, files: seq<File>) {
    forall p :: Lookup(t, p) == Entry(files, p)
  }

  /** The value a list calls for at `p`. */
  function Entry(files: seq<File>, p: Path): Option<Cell> {
    if IsLengthSlot(files, p) then Some(Number(FirstLength(files, p[..|p| - 1])))
    else if p == [] || IsPrefixOfFile(files, p) then Some(Object)
    else None
  }

  // --- Insertion into any tree ---

  /** Every value but the root hangs off an object. */
  ghost predicate Closed(t: Index) {
    && Lookup(t, []) == Some(Object)
    && forall p, c :: p + [c] in t ==> Lookup(t, p) == Some(Object)
  }

  /** Nothing is lost: paths stay, objects stay objects, and only a number 0 may be replaced. */
  ghost predicate Grows(t: Index, t': Index) {
    forall p :: p in t ==> p in t' && (t'[p] == t[p] || (t[p] == Number(0) && t'[p] == Object))
  }

  lemma EnterGrows(t: Index, parts: Path, i: nat, length: nat)
    requires i < |parts| && parts[..i] in t && Closed(t)
    requires Enter(t, parts, i, length).Some?
    ensures var t' := Enter(t, parts, i, length).value;
            Grows(t, t') && Closed(t')
  {
    var child := parts[..i + 1];
    assert child == parts[..i] + [parts[i]];
    var slot := child + ["length"];
    assert slot in t ==> Lookup(t, child) == Some(Object);
    var t' := Enter(t, parts, i, length).value;
    forall p, c | p + [c] in t' ensures Lookup(t', p) == Some(Object) {
      assert (p + [c])[..|p|] == p;
      if p + [c] in t { assert Lookup(t, p) == Some(Object); }
      if p + [c] == slot { assert p == child; }
      if p + [c] == child { assert p == parts[..i]; }
      assert child[..i] == parts[..i] && slot[..i + 1] == child;
    }
  }

  lemma {:induction false} InsertGrows(t: Index, parts: Path, i: nat, length: nat)
    requires i <= |parts| && parts[..i] in t && Closed(t)
    ensures var r := Insert(t, parts, i, length);
            r.Some? ==> && Grows(t, r.value) && Closed(r.value)
                        && forall j :: i <= j <= |parts| ==> parts[..j] in r.value
    decreases |parts| - i
  {
    if i < |parts| {
      var t' := Enter(t, parts, i, length);
      if t'.Some? {
        EnterGrows(t, parts, i, length);
        InsertGrows(t'.value, parts, i + 1, length);
      }
    }
  }

  /** `t'` is `t` with the prefixes of `parts` added as objects and, when `parts` is new, its length. */
  ghost predicate Inserted(t: Index, t': Index, parts: Path, length: nat) {
    var isNew := parts !in t;
    var slot := parts + ["length"];
    && (forall p :: p in t' <==> p in t || p <= parts || (isNew && p == slot))
    && (forall p :: p in t' ==>
          t'[p] == if isNew && p == slot then Number(length) else if p in t then t[p] else Object)
  }

  /** On a path that meets no number, inserting succeeds and adds exactly that path. */
  lemma {:induction false} InsertExact(t: Index, parts: Path, i: nat, length: nat)
    requires i <= |parts| && Closed(t)
    requires forall p :: p <= parts && p in t ==> t[p] == Object
    requires forall p :: p <= parts[..i] ==> p in t
    ensures Insert(t, parts, i, length).Some?
    ensures Inserted(t, Insert(t, parts, i, length).value, parts, length)
    decreases |parts| - i
  {
    if i == |parts| {
      assert parts[..i] == parts;
    } else {
      var child := parts[..i + 1];
      assert child == parts[..i] + [parts[i]];
      EnterGrows(t, parts, i, length);
      var t' := Enter(t, parts, i, length).value;
      forall p | p <= child ensures p in t' {
        if p != child { assert p <= parts[..i]; }
      }
      InsertExact(t', parts, i + 1, length);
      if i == |parts| - 1 {
        assert child == parts;
      }
    }
  }

  lemma {:induction false} BuildClosed(files: seq<File>)
    ensures Build(files).Some? ==> Closed(Build(files).value)
  {
    if files != [] && Build(files[..|files| - 1]).Some? {
      BuildClosed(files[..|files| - 1]);
      var file := files[|files| - 1];
      InsertGrows(Build(files[..|files| - 1]).value, Split(file.path), 0, file.length);
    }
  }

  // --- The tree is an exact index of a prefix-free list ---

  lemma {:induction false} FirstLengthAppend(files: seq<File>, file: File, p: Path)
    requires IsFile(files + [file], p)
    ensures FirstLength(files + [file], p) ==
            if IsFile(files, p) then FirstLength(files, p) else file.length
  {
    if files != [] && Split(files[0].path) != p {
      assert (files + [file])[1..] == files[1..] + [file];
      FirstLengthAppend(files[1..], file, p);
    }
  }

  lemma FileAppend(files: seq<File>, file: File, p: Path)
    ensures IsFile(files + [file], p) <==> IsFile(files, p) || p == Split(file.path)
    ensures IsPrefixOfFile(files + [file], p) <==> IsPrefixOfFile(files, p) || p <= Split(file.path)
    ensures IsDirectory(files + [file], p) <==> IsDirectory(files, p) || p < Split(file.path)
  {
    var all := files + [file];
    assert all[|files|] == file;
    assert forall k :: 0 <= k < |files| ==> all[k] == files[k];
  }

  lemma NoSlotOnPath(init: seq<File>, file: File, p: Path)
    requires PrefixFree(init + [file]) && p <= Split(file.path)
    ensures !IsLengthSlot(init, p)
  {
    var files := init + [file];
    if p != [] {
      forall k | 0 <= k < |init| ensures Split(init[k].path) != p[..|p| - 1] {
        assert files[k] == init[k] && files[|init|] == file;
        assert !(Split(files[k].path) < Split(files[|init|].path));
      }
    }
  }

  lemma PresentMeansFile(t: Index, init: seq<File>, file: File)
    requires Indexes(t, init) && PrefixFree(init + [file])
    ensures Split(file.path) in t <==> IsFile(init, Split(file.path))
  {
    var files, parts := init + [file], Split(file.path);
    assert Lookup(t, parts) == Entry(init, parts);
    NoSlotOnPath(init, file, parts);
    forall k | 0 <= k < |init| ensures !(parts < Split(init[k].path)) {
      assert files[k] == init[k] && files[|init|] == file;
      assert !(Split(files[|init|].path) < Split(files[k].path));
    }
  }

  lemma IndexesAppendAt(t: Index, t': Index, init: seq<File>, file: File, p: Path)
    requires Indexes(t, init) && PrefixFree(init + [file])
    requires Inserted(t, t', Split(file.path), file.length)
    ensures Lookup(t', p) == Entry(init + [file], p)
  {
    assert Lookup(t, p) == Entry(init, p);
    PresentMeansFile(t, init, file);
    EntryAppend(init, file, p);
    SlotAppend(init, file, p);
    hide Indexes, PrefixFree, IsPrefixOfFile, IsFile;
    if p <= Split(file.path) {
      NoSlotOnPath(init, file, p);
    }
  }

  lemma SlotAppend(init: seq<File>, file: File, p: Path)
    ensures IsLengthSlot(init + [file], p) <==> IsLengthSlot(init, p) || p == Split(file.path) + ["length"]
    ensures p == Split(file.path) + ["length"] ==> (IsLengthSlot(init, p) <==> IsFile(init, Split(file.path)))
  {
    if p != [] {
      var q := p[..|p| - 1];
      assert p == q + [p[|p| - 1]];
      FileAppend(init, file, q);
    }
  }

  /** What one more file changes in the index a list calls for. */
  lemma EntryAppend(init: seq<File>, file: File, p: Path)
    ensures var files, parts := init + [file], Split(file.path);
            Entry(files, p) ==
            if IsLengthSlot(files, p) then
              if IsLengthSlot(init, p) then Entry(init, p) else Some(Number(file.length))
            else if p <= parts then Some(Object)
            else Entry(init, p)
  {
    var files := init + [file];
    FileAppend(init, file, p);
    if p != [] {
      var q := p[..|p| - 1];
      FileAppend(init, file, q);
      if IsFile(files, q) { FirstLengthAppend(init, file, q); }
    }
  }

  /** Whatever the order and the duplicates, `buildTree` builds exactly the index of its list. */
  lemma {:induction false} BuildIndexes(files: seq<File>)
    requires PrefixFree(files)
    ensures Build(files).Some? && Indexes(Build(files).value, files)
  {
    if files != [] {
      var init, file := files[..|files| - 1], files[|files| - 1];
      assert files == init + [file];
      BuildIndexes(init);
      BuildClosed(init);
      var t, parts := Build(init).value, Split(file.path);
      forall p | p <= parts && p in t ensures t[p] == Object {
        NoSlotOnPath(init, file, p);
        assert Lookup(t, p) == Entry(init, p);
      }
      InsertExact(t, parts, 0, file.length);
      forall p ensures Lookup(Build(files).value, p) == Entry(files, p) {
        IndexesAppendAt(t, Build(files).value, init, file, p);
      }
    }
  }

  lemma BuildEntry(files: seq<File>, p: Path)
    requires PrefixFree(files)
    ensures Build(files).Some? && Lookup(Build(files).value, p) == Entry(files, p)
  {
    BuildIndexes(files);
  }

  /** The distinct components that follow `p` in the list. */
  function NextNames(files: seq<File>, p: Path): set<string> {
    set k | 0 <= k < |files| && p < Split(files[k].path) :: Split(files[k].path)[|p|]
  }

  lemma PrefixStep(p: Path, c: string, q: Path)
    ensures p + [c] <= q <==> p < q && q[|p|] == c
  {
    if p < q && q[|p|] == c {
      assert q[..|p| + 1] == p + [c];
    }
  }

  /** Lookup and listing, read off the list: a directory shows the distinct next components, a file
      shows its `length`, and nothing else can be looked up except that number. */
  lemma LookupExact(files: seq<File>, p: Path)
    requires PrefixFree(files)
    ensures Build(files).Some?
    ensures var t := Build(files).value;
            if p == [] || IsDirectory(files, p) then
              Lookup(t, p) == Some(Object) && Keys(t, p) == NextNames(files, p)
            else if IsFile(files, p) then
              Lookup(t, p) == Some(Object) && Keys(t, p) == {"length"}
            else if IsLengthSlot(files, p) then
              Lookup(t, p) == Some(Number(FirstLength(files, p[..|p| - 1]))) && Keys(t, p) == {}
            else
              Lookup(t, p) == None
  {
    LookupListing(files, p);
    if p == [] || IsPrefixOfFile(files, p) {
      SlotIsNoPrefix(files, p);
    }
    if IsDirectory(files, p) { DirectoryIsNoFile(files, p); }
    assert p == [] ==> !IsFile(files, p);
    assert IsPrefixOfFile(files, p) <==> IsDirectory(files, p) || IsFile(files, p);
    if !IsDirectory(files, p) && p != [] { assert NextNames(files, p) == {}; }
  }

  lemma DirectoryIsNoFile(files: seq<File>, p: Path)
    requires PrefixFree(files) && IsDirectory(files, p)
    ensures !IsFile(files, p)
  {
    var j :| 0 <= j < |files| && p < Split(files[j].path);
    forall k | 0 <= k < |files| ensures Split(files[k].path) != p {
      assert !(Split(files[k].path) < Split(files[j].path));
    }
  }

  /** The names below `p`: the next components, and `length` below a file. */
  function ListedNames(files: seq<File>, p: Path): set<string> {
    NextNames(files, p) + if IsFile(files, p) then {"length"} else {}
  }

  lemma LookupListing(files: seq<File>, p: Path)
    requires PrefixFree(files)
    ensures Build(files).Some? && Lookup(Build(files).value, p) == Entry(files, p)
    ensures Entry(files, p) == Some(Object) ==> Keys(Build(files).value, p) == ListedNames(files, p)
  {
    BuildEntry(files, p);
    forall c ensures c in ListedNames(files, p) <==> p + [c] in Build(files).value {
      ListedChild(files, p, c);
    }
    if Entry(files, p) == Some(Object) {
      KeysFrom(Build(files).value, p, ListedNames(files, p));
    }
  }

  lemma ListedChild(files: seq<File>, p: Path, c: string)
    requires PrefixFree(files)
    ensures Build(files).Some?
    ensures c in ListedNames(files, p) <==> p + [c] in Build(files).value
  {
    ChildEntry(files, p, c);
    BuildEntry(files, p + [c]);
  }

  lemma KeysFrom(t: Index, p: Path, names: set<string>)
    requires Lookup(t, p) == Some(Object)
    requires forall c :: c in names <==> p + [c] in t
    ensures Keys(t, p) == names
  {
  }

  lemma ChildEntry(files: seq<File>, p: Path, c: string)
    ensures Entry(files, p + [c]) ==
            if IsFile(files, p) && c == "length" then Some(Number(FirstLength(files, p)))
            else if c in NextNames(files, p) then Some(Object) else None
  {
    var child := p + [c];
    assert child[..|child| - 1] == p && child[|child| - 1] == c;
    forall k | 0 <= k < |files| ensures child <= Split(files[k].path) <==>
          p < Split(files[k].path) && Split(files[k].path)[|p|] == c {
      PrefixStep(p, c, Split(files[k].path));
    }
  }

  lemma SlotIsNoPrefix(files: seq<File>, p: Path)
    requires PrefixFree(files) && (p == [] || IsPrefixOfFile(files, p))
    ensures !IsLengthSlot(files, p)
  {
    if p != [] {
      var j :| 0 <= j < |files| && p <= Split(files[j].path);
      forall k | 0 <= k < |files| ensures Split(files[k].path) != p[..|p| - 1] {
        assert !(Split(files[k].path) < Split(files[j].path));
      }
    }
  }

  // --- Flattening gives the list back ---

  /** Every path of the tree that carries a numeric `length`, with that number. */
  function Leaves(t: Index): map<Path, nat> {
    map p | p in t && LeafAt(t, p).Some? :: LeafAt(t, p).value
  }

  function LeafAt(t: Index, p: Path): Option<nat> {
    match Lookup(t, p + ["length"])
    case Some(Number(n)) => if p in t then Some(n) else None
    case _ => None
  }

  /** What `find` answers for every path of the list: the first entry wins. */
  function FindAll(files: seq<File>): map<Path, nat> {
    if files == [] then map[] else FindAll(files[1..])[Split(files[0].path) := files[0].length]
  }

  lemma {:induction false} FindAllIsFirst(files: seq<File>, p: Path)
    ensures p in FindAll(files) <==> IsFile(files, p)
    ensures p in FindAll(files) ==> FindAll(files)[p] == FirstLength(files, p)
  {
    if files != [] {
      FindAllIsFirst(files[1..], p);
      var rest := files[1..];
      assert forall k :: 0 <= k < |rest| ==> rest[k] == files[k + 1];
      assert IsFile(files, p) <==> Split(files[0].path) == p || IsFile(rest, p) by {
        if IsFile(files, p) && Split(files[0].path) != p {
          var k :| 0 <= k < |files| && Split(files[k].path) == p;
          assert rest[k - 1] == files[k];
        }
      }
    }
  }

  /** The round trip: the leaves of the tree are exactly the answers of `find` on the list. */
  lemma FlattenRoundTrip(files: seq<File>)
    requires PrefixFree(files)
    ensures Build(files).Some? && Leaves(Build(files).value) == FindAll(files)
  {
    BuildEntry(files, []);
    var t := Build(files).value;
    forall p ensures LeafAt(t, p) == if p in FindAll(files) then Some(FindAll(files)[p]) else None {
      FindAllIsFirst(files, p);
      ChildEntry(files, p, "length");
      BuildEntry(files, p);
      BuildEntry(files, p + ["length"]);
    }
    assert forall p :: LeafAt(t, p) == if p in Leaves(t) then Some(Leaves(t)[p]) else None;
  }

  /** Equal paths carry equal lengths. */
  predicate Consistent(files: seq<File>) {
    forall f, g :: f in files && g in files && Split(f.path) == Split(g.path) ==> f.length == g.length
  }

  ghost predicate SameMembers(files: seq<File>, other: seq<File>) {
    forall f :: f in files <==> f in other
  }

  lemma {:induction false} FirstLengthOf(files: seq<File>, f: File)
    requires Consistent(files) && f in files
    ensures IsFile(files, Split(f.path)) && FirstLength(files, Split(f.path)) == f.length
  {
    var p := Split(f.path);
    var k :| 0 <= k < |files| && files[k] == f;
    if Split(files[0].path) != p {
      assert files[1..][k - 1] == f;
      FirstLengthOf(files[1..], f);
    }
  }

  /** The tree depends only on which entries the list has, not on their order or number. */
  lemma OrderIrrelevant(files: seq<File>, other: seq<File>)
    requires PrefixFree(files) && Consistent(files)
    requires SameMembers(files, other)
    ensures Build(files).Some? && Build(other) == Build(files)
  {
    PrefixFreeSame(files, other);
    BuildEntry(files, []);
    BuildEntry(other, []);
    var t, u := Build(files).value, Build(other).value;
    forall p ensures Lookup(t, p) == Lookup(u, p) {
      BuildEntry(files, p);
      BuildEntry(other, p);
      SameEntry(files, other, p);
    }
    SameLookups(t, u);
  }

  lemma SameLookups(t: Index, u: Index)
    requires forall p :: Lookup(t, p) == Lookup(u, p)
    ensures t == u
  {
    assert forall p :: p in t ==> Lookup(u, p) == Some(t[p]);
    assert forall p :: p in u ==> Lookup(t, p) == Some(u[p]);
  }

  lemma SameEntry(files: seq<File>, other: seq<File>, p: Path)
    requires Consistent(files) && SameMembers(files, other)
    ensures Entry(files, p) == Entry(other, p)
  {
    SameEntries(files, other, p);
    if p != [] { SameEntries(files, other, p[..|p| - 1]); }
  }

  lemma PrefixFreeSame(files: seq<File>, other: seq<File>)
    requires PrefixFree(files) && SameMembers(files, other)
    ensures PrefixFree(other)
  {
    forall i, j | 0 <= i < |other| && 0 <= j < |other|
      ensures !(Split(other[i].path) < Split(other[j].path))
    {
      assert other[i] in files && other[j] in files;
    }
  }

  lemma SameEntries(files: seq<File>, other: seq<File>, p: Path)
    requires Consistent(files) && SameMembers(files, other)
    ensures IsPrefixOfFile(files, p) <==> IsPrefixOfFile(other, p)
    ensures IsFile(files, p) <==> IsFile(other, p)
    ensures IsFile(files, p) ==> FirstLength(files, p) == FirstLength(other, p)
  {
    assert forall k :: 0 <= k < |files| ==> files[k] in other;
    assert forall k :: 0 <= k < |other| ==> other[k] in files;
    if IsPrefixOfFile(files, p) {
      var k :| 0 <= k < |files| && p <= Split(files[k].path);
      var j :| 0 <= j < |other| && other[j] == files[k];
    }
    if IsPrefixOfFile(other, p) {
      var k :| 0 <= k < |other| && p <= Split(other[k].path);
      var j :| 0 <= j < |files| && files[j] == other[k];
    }
    if IsFile(other, p) {
      var k :| 0 <= k < |other| && Split(other[k].path) == p;
      var j :| 0 <= j < |files| && files[j] == other[k];
    }
    if IsFile(files, p) {
      var k :| 0 <= k < |files| && Split(files[k].path) == p;
      var j :| 0 <= j < |other| && other[j] == files[k];
      FirstLengthOf(files, files[k]);
      FirstLengthOf(other, files[k]);
    }
  }

  // --- Exactly when the tree is faithful ---

  /** Every listed file has a node of its own that shows its length and nothing else. */
  ghost predicate Faithful(files: seq<File>) {
    Build(files).Some? &&
    var t := Build(files).value;
    forall k :: 0 <= k < |files| ==>
      ShowsLength(t, Split(files[k].path), FirstLength(files, Split(files[k].path)))
  }

  ghost predicate ShowsLength(t: Index, p: Path, n: nat) {
    Lookup(t, p) == Some(Object) && Keys(t, p) == {"length"} && Lookup(t, p + ["length"]) == Some(Number(n))
  }

  lemma {:induction false} BuildContains(files: seq<File>, j: nat, p: Path)
    requires Build(files).Some? && j < |files| && p <= Split(files[j].path)
    ensures p in Build(files).value
  {
    var init, file := files[..|files| - 1], files[|files| - 1];
    BuildClosed(init);
    InsertGrows(Build(init).value, Split(file.path), 0, file.length);
    if j == |files| - 1 {
      assert p == Split(file.path)[..|p|];
    } else {
      assert init[j] == files[j];
      BuildContains(init, j, p);
    }
  }

  lemma FaithfulIffPrefixFree(files: seq<File>)
    ensures Faithful(files) <==> PrefixFree(files)
  {
    if PrefixFree(files) {
      BuildEntry(files, []);
      forall k | 0 <= k < |files|
        ensures ShowsLength(Build(files).value, Split(files[k].path), FirstLength(files, Split(files[k].path)))
      {
        var p := Split(files[k].path);
        LookupExact(files, p);
        ChildEntry(files, p, "length");
        BuildEntry(files, p + ["length"]);
      }
    }
    if Faithful(files) {
      forall i, j | 0 <= i < |files| && 0 <= j < |files|
        ensures !(Split(files[i].path) < Split(files[j].path))
      {
        var p, q := Split(files[i].path), Split(files[j].path);
        NoFileBelowFile(files, p, FirstLength(files, p), j, FirstLength(files, q));
      }
    }
  }

  lemma ParentIsObject(files: seq<File>, p: Path, c: string)
    requires Build(files).Some? && p + [c] in Build(files).value
    ensures Lookup(Build(files).value, p) == Some(Object)
  {
    BuildClosed(files);
  }

  lemma BuildContainsChild(files: seq<File>, j: nat, p: Path)
    requires Build(files).Some? && j < |files| && p < Split(files[j].path)
    ensures p + [Split(files[j].path)[|p|]] in Build(files).value
  {
    PrefixStep(p, Split(files[j].path)[|p|], Split(files[j].path));
    BuildContains(files, j, p + [Split(files[j].path)[|p|]]);
  }

  lemma NumberInTheWay(t: Index, p: Path, n: nat, q: Path, m: nat)
    requires ShowsLength(t, p, n) && ShowsLength(t, q, m)
    requires p < q && p + [q[|p|]] in t
    ensures p + [q[|p|]] < q && Lookup(t, p + [q[|p|]]) == Some(Number(n))
  {
    var child := p + [q[|p|]];
    PrefixStep(p, q[|p|], q);
    assert q[|p|] in Keys(t, p);
    assert |q| == |p| + 1 ==> child == q;
  }

  lemma NoFileBelowFile(files: seq<File>, p: Path, n: nat, j: nat, m: nat)
    requires Build(files).Some? && j < |files|
    requires ShowsLength(Build(files).value, p, n) && ShowsLength(Build(files).value, Split(files[j].path), m)
    ensures !(p < Split(files[j].path))
  {
    var q := Split(files[j].path);
    if p < q {
      BuildContainsChild(files, j, p);
      NumberInTheWay(Build(files).value, p, n, q, m);
      BuildContainsChild(files, j, p + [q[|p|]]);
      ParentIsObject(files, p + [q[|p|]], q[|p| + 1]);
      assert false;
    }
  }
}
