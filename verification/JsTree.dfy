/** `buildTree` and `getDirFromFileTree` as they run: objects are allocated and given properties
    in place while `currentLevel` walks down, and the result is proved to be the index of FileTree. */
module JsTree {
  import opened Wrappers
  import opened Paths
  import opened FileTree

  /** A property value: a nested object, or the number a `length` property holds. */
  datatype Value = Ref(o: JsObject) | Num(n: nat)

  class JsObject {
    var props: map<string, Value>

    constructor ()
      ensures props == map[]
    {
      props := map[];
    }
  }

  /** `nodes` lists the objects of the tree by path; together they hold exactly the values of `t`. */
  ghost predicate Represents(nodes: map<Path, JsObject>, t: Index)
    reads nodes.Values
  {
    && (forall p :: p in nodes <==> Lookup(t, p) == Some(Object))
    && (forall p, q :: p in nodes && q in nodes && nodes[p] == nodes[q] ==> p == q)
    && (forall p, c :: p in nodes ==> Denotes(nodes, t, p + [c], Get(Ref(nodes[p]), c)))
  }

  /** The JavaScript value that stands for `cell` at `p`; None is `undefined`. */
  ghost predicate Denotes(nodes: map<Path, JsObject>, t: Index, p: Path, v: Option<Value>) {
    match v
    case None => p !in t
    case Some(Num(n)) => Lookup(t, p) == Some(Number(n))
    case Some(Ref(o)) => p in nodes && nodes[p] == o
  }

  predicate IsTruthy(v: Option<Value>) {
    v.Some? && v != Some(Num(0))
  }

  /** `v[name]`, where a number has no properties. */
  function Get(v: Value, name: string): Option<Value>
    reads if v.Ref? then {v.o} else {}
  {
    if v.Ref? && name in v.o.props then Some(v.o.props[name]) else None
  }

  lemma {:induction false} BuildFails(files: seq<File>, k: nat)
    requires k <= |files| && Build(files[..k]) == None
    ensures Build(files) == None
    decreases |files|
  {
    if k == |files| {
      assert files[..k] == files;
    } else {
      assert files[..|files| - 1][..k] == files[..k];
      BuildFails(files[..|files| - 1], k);
    }
  }

  /** Creates the object for `part` under `level`, with a `length` when it stands for a file. */
  method Attach(level: JsObject, part: string, last: bool, length: nat,
                ghost nodes: map<Path, JsObject>, ghost t: Index, ghost p: Path)
    returns (node: JsObject)
    requires Represents(nodes, t) && Closed(t)
    requires p in nodes && nodes[p] == level && !Truthy(t, p + [part])
    modifies level
    ensures fresh(node)
    ensures Get(Ref(level), part) == Some(Ref(node))
    ensures var child := p + [part];
            Represents(nodes[child := node],
                       if last then t[child := Object][child + ["length"] := Number(length)] else t[child := Object])
  {
    node := new JsObject();
    if last {
      node.props := node.props["length" := Num(length)];
    }
    level.props := level.props[part := Ref(node)];

    ghost var child := p + [part];
    ghost var t' := if last then t[child := Object][child + ["length"] := Number(length)] else t[child := Object];
    ghost var nodes' := nodes[child := node];
    assert Lookup(t, child) != Some(Object);
    NothingBelow(t, child);
    LastStep(child, "length", p, part);
    forall q ensures q in nodes' <==> Lookup(t', q) == Some(Object) {
      if last && q == child + ["length"] { assert q !in nodes; }
    }
    forall q, c | q in nodes'
      ensures Denotes(nodes', t', q + [c], Get(Ref(nodes'[q]), c))
    {
      LastStep(q, c, p, part);
      LastStep(q, c, child, "length");
      if q == child {
        assert child + [c] !in t;
      } else if q + [c] != child {
        assert old(Denotes(nodes, t, q + [c], Get(Ref(nodes[q]), c)));
        DenotesKept(nodes, t, child, last, length, node, q + [c], old(Get(Ref(nodes[q]), c)));
      }
    }
  }

  /** Values that stand elsewhere in the index still stand there. */
  lemma DenotesKept(nodes: map<Path, JsObject>, t: Index, child: Path, last: bool, length: nat, node: JsObject,
                    p: Path, v: Option<Value>)
    requires Denotes(nodes, t, p, v) && p != child && p != child + ["length"]
    ensures var t' := if last then t[child := Object][child + ["length"] := Number(length)] else t[child := Object];
            Denotes(nodes[child := node], t', p, v)
  {
  }

  lemma NothingBelow(t: Index, p: Path)
    requires Closed(t) && Lookup(t, p) != Some(Object)
    ensures forall c :: p + [c] !in t
  {
  }

  lemma LastStep(q: Path, c: string, p: Path, part: string)
    ensures q + [c] == p + [part] <==> q == p && c == part
  {
    assert (q + [c])[..|q|] == q && (q + [c])[|q|] == c;
    assert (p + [part])[..|p|] == p && (p + [part])[|p|] == part;
  }

  /** One round of the inner `forEach`; `ok` is false when it throws. */
  method Round(currentLevel: Value, parts: Path, i: nat, length: nat, ghost nodes: map<Path, JsObject>, ghost t: Index)
    returns (ok: bool, nextLevel: Value, ghost nodes': map<Path, JsObject>)
    requires Represents(nodes, t) && Closed(t)
    requires i < |parts| && parts[..i] in t && Denotes(nodes, t, parts[..i], Some(currentLevel))
    modifies nodes.Values
    ensures ok <==> Enter(t, parts, i, length).Some?
    ensures ok ==> && Represents(nodes', Enter(t, parts, i, length).value)
                   && Denotes(nodes', Enter(t, parts, i, length).value, parts[..i + 1], Some(nextLevel))
    ensures forall p :: p in nodes ==> p in nodes' && nodes'[p] == nodes[p]
    ensures fresh(nodes'.Values - nodes.Values)
  {
    var part := parts[i];
    ghost var child := parts[..i + 1];
    assert child == parts[..i] + [part];
    ChildValue(nodes, t, parts[..i], part, currentLevel);
    if IsTruthy(Get(currentLevel, part)) {
      return true, Get(currentLevel, part).value, nodes;
    }
    if currentLevel.Num? {
      return false, currentLevel, nodes;
    }
    var node := Attach(currentLevel.o, part, i == |parts| - 1, length, nodes, t, parts[..i]);
    nodes' := nodes[child := node];
    ok, nextLevel := true, Get(currentLevel, part).value;
  }

  /** Taking one property of the value at `p` gives the value one component further. */
  lemma ChildValue(nodes: map<Path, JsObject>, t: Index, p: Path, part: string, v: Value)
    requires Represents(nodes, t) && Closed(t) && Denotes(nodes, t, p, Some(v))
    ensures Denotes(nodes, t, p + [part], Get(v, part))
  {
    if v.Num? {
      assert Lookup(t, p) != Some(Object);
    }
  }

  /** The inner `forEach`: walks `parts` down from the root, creating what is missing. */
  method InsertFile(tree: JsObject, parts: Path, length: nat, ghost nodes: map<Path, JsObject>, ghost t: Index)
    returns (ok: bool, ghost nodes': map<Path, JsObject>)
    requires Represents(nodes, t) && Closed(t) && [] in nodes && nodes[[]] == tree
    modifies nodes.Values
    ensures ok <==> Insert(t, parts, 0, length).Some?
    ensures ok ==> Represents(nodes', Insert(t, parts, 0, length).value) && [] in nodes' && nodes'[[]] == tree
    ensures fresh(nodes'.Values - nodes.Values)
  {
    nodes' := nodes;
    ghost var t' := t;
    var currentLevel := Ref(tree);
    var i := 0;
    assert Denotes(nodes', t', parts[..i], Some(currentLevel)) && parts[..i] in t';
    hide Represents, Closed;
    while i < |parts|
      invariant 0 <= i <= |parts|
      invariant Represents(nodes', t') && Closed(t') && [] in nodes' && nodes'[[]] == tree
      invariant fresh(nodes'.Values - nodes.Values)
      invariant parts[..i] in t' && Denotes(nodes', t', parts[..i], Some(currentLevel))
      invariant Insert(t, parts, 0, length) == Insert(t', parts, i, length)
    {
      ok, currentLevel, nodes' := Round(currentLevel, parts, i, length, nodes', t');
      if !ok {
        return;
      }
      EnterGrows(t', parts, i, length);
      t' := Enter(t', parts, i, length).value;
      i := i + 1;
    }
    ok := true;
  }

  /** `buildTree`: succeeds exactly when the specification does, and then leaves its tree in the heap. */
  method BuildTree(files: seq<File>) returns (ok: bool, tree: JsObject, ghost nodes: map<Path, JsObject>)
    ensures ok <==> Build(files).Some?
    ensures ok ==> Represents(nodes, Build(files).value) && [] in nodes && nodes[[]] == tree
    ensures fresh(nodes.Values)
  {
    tree := new JsObject();
    nodes := map[[] := tree];
    var k := 0;
    while k < |files|
      invariant 0 <= k <= |files|
      invariant Build(files[..k]).Some?
      invariant Represents(nodes, Build(files[..k]).value) && [] in nodes && nodes[[]] == tree
      invariant fresh(nodes.Values)
    {
      assert files[..k + 1][..k] == files[..k];
      BuildClosed(files[..k]);
      var inserted;
      inserted, nodes :=
        InsertFile(tree, Split(files[k].path), files[k].length, nodes, Build(files[..k]).value);
      if !inserted {
        BuildFails(files, k + 1);
        return false, tree, nodes;
      }
      k := k + 1;
    }
    assert files[..k] == files;
    ok := true;
  }

  /** `getDirFromFileTree`: follows one property per component and stops at `undefined`. */
  method GetDirFromFileTree(fileTree: JsObject, dirPath: string, ghost nodes: map<Path, JsObject>, ghost t: Index)
    returns (curDir: Option<Value>)
    requires Represents(nodes, t) && Closed(t) && [] in nodes && nodes[[]] == fileTree
    ensures Denotes(nodes, t, Split(dirPath), curDir)
  {
    var dirPathSplit := Split(dirPath);
    curDir := Some(Ref(fileTree));
    var i := 0;
    while i < |dirPathSplit| && curDir.Some?
      invariant 0 <= i <= |dirPathSplit|
      invariant Denotes(nodes, t, dirPathSplit[..i], curDir)
      invariant curDir == None ==> dirPathSplit !in t
    {
      assert dirPathSplit[..i + 1] == dirPathSplit[..i] + [dirPathSplit[i]];
      ChildValue(nodes, t, dirPathSplit[..i], dirPathSplit[i], curDir.value);
      curDir := Get(curDir.value, dirPathSplit[i]);
      i := i + 1;
      if curDir == None {
        MissingBelow(t, dirPathSplit[..i], dirPathSplit);
      }
    }
    assert i == |dirPathSplit| ==> dirPathSplit[..i] == dirPathSplit;
  }

  lemma {:induction false} MissingBelow(t: Index, p: Path, q: Path)
    requires Closed(t) && p <= q && p !in t
    ensures q !in t
    decreases |q|
  {
    if p != q {
      var init, last := q[..|q| - 1], q[|q| - 1];
      assert q == init + [last];
      MissingBelow(t, p, init);
      assert init + [last] in t ==> Lookup(t, init) == Some(Object);
    }
  }

  /** `Object.keys(curDir)` for a value found in the tree. */
  function ObjectKeys(v: Value): set<string>
    reads if v.Ref? then {v.o} else {}
  {
    match v
    case Ref(o) => o.props.Keys
    case Num(_) => {}
  }

  /** The names a listing reads off the object are the ones the index has. */
  lemma KeysAgree(nodes: map<Path, JsObject>, t: Index, p: Path, v: Value)
    requires Represents(nodes, t) && Denotes(nodes, t, p, Some(v))
    ensures p in t && ObjectKeys(v) == Keys(t, p)
  {
    if v.Ref? {
      assert Lookup(t, p) == Some(Object);
      forall c ensures c in v.o.props <==> p + [c] in t {
        assert Denotes(nodes, t, p + [c], Get(Ref(nodes[p]), c));
      }
    }
  }
}
