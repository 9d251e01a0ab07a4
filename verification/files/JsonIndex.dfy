/** The flattened index of fuse_json.py as values, and its agreement with walking the tree. */
module JsonIndex {
  import opened JsonTree

  /** self.files and self.dirs. */
  datatype Index = Index(files: map<string, seq<Byte>>, dirs: map<string, seq<string>>)

  const EMPTY_INDEX: Index := Index(map[], map["/" := []])

  /** _build_tree(path, data) */
  function Build(idx: Index, path: string, data: Json): Index
    decreases data, 1, 0
  {
    if !Container(data) then idx
    else BuildChildren(idx.(dirs := idx.dirs[path := Names(data)]), path, data, 0)
  }

  /** The loop over the children of data, from the i-th on. */
  function BuildChildren(idx: Index, path: string, data: Json, i: nat): Index
    requires i <= Size(data)
    decreases data, 0, Size(data) - i
  {
    if i == Size(data) then idx
    else BuildChildren(AddChild(idx, path, data, i), path, data, i + 1)
  }

  function AddChild(idx: Index, path: string, data: Json, i: nat): Index
    requires i < Size(data)
    decreases data, 0, 0
  {
    var newPath, value := Join(path, KeyAt(data, i)), ValueAt(data, i);
    match value
    case Leaf(text) => idx.(files := idx.files[newPath := text])
    case _ => Build(idx.(dirs := idx.dirs[newPath := []]), newPath, value)
  }

  // ----- the same index keyed by component lists instead of path strings -----

  datatype TreeIndex = TreeIndex(files: map<seq<string>, seq<Byte>>, dirs: map<seq<string>, seq<string>>)

  function TBuild(t: TreeIndex, b: seq<string>, data: Json): TreeIndex
    decreases data, 1, 0
  {
    if !Container(data) then t
    else TChildren(t.(dirs := t.dirs[b := Names(data)]), b, data, 0)
  }

  function TChildren(t: TreeIndex, b: seq<string>, data: Json, i: nat): TreeIndex
    requires i <= Size(data)
    decreases data, 0, Size(data) - i
  {
    if i == Size(data) then t else TChildren(TChild(t, b, data, i), b, data, i + 1)
  }

  function TChild(t: TreeIndex, b: seq<string>, data: Json, i: nat): TreeIndex
    requires i < Size(data)
    decreases data, 0, 0
  {
    var c, value := b + [KeyAt(data, i)], ValueAt(data, i);
    match value
    case Leaf(text) => t.(files := t.files[c := text])
    case _ => TBuild(t.(dirs := t.dirs[c := []]), c, value)
  }

  /** The two indexes treat the component list c alike. */
  ghost predicate SameAt(t: TreeIndex, u: TreeIndex, c: seq<string>) {
    && (c in t.files <==> c in u.files) && (c in t.files ==> t.files[c] == u.files[c])
    && (c in t.dirs <==> c in u.dirs) && (c in t.dirs ==> t.dirs[c] == u.dirs[c])
  }

  /** u is t except that c now is the node `node`. */
  ghost predicate HoldsAt(t: TreeIndex, u: TreeIndex, c: seq<string>, node: Json) {
    match node
    case Leaf(text) =>
      && c in u.files && u.files[c] == text
      && (c in t.dirs <==> c in u.dirs) && (c in t.dirs ==> t.dirs[c] == u.dirs[c])
    case _ =>
      && c in u.dirs && u.dirs[c] == Names(node)
      && (c in t.files <==> c in u.files) && (c in t.files ==> t.files[c] == u.files[c])
  }

  /** Building the tree of `data` at b sets exactly the component lists below b that walking
      reaches, each to its own node. */
  ghost predicate Below(data: Json, b: seq<string>, c: seq<string>, i: nat)
    requires i <= Size(data)
  {
    b < c && i <= Find(data, c[|b|], 0) < Size(data) && Walk(data, c[|b|..]).Some?
  }

  lemma {:induction false} TBuildAt(t: TreeIndex, b: seq<string>, data: Json, c: seq<string>)
    requires CleanTree(data) && Container(data)
    ensures if b <= c && Walk(data, c[|b|..]).Some?
            then HoldsAt(t, TBuild(t, b, data), c, Walk(data, c[|b|..]).value)
            else SameAt(t, TBuild(t, b, data), c)
    decreases data, 1, 0
  {
    var t1 := t.(dirs := t.dirs[b := Names(data)]);
    TChildrenAt(t1, b, data, 0, c);
    if b <= c {
      if c == b {
        assert c[|b|..] == [];
      } else {
        assert c[|b|..][0] == c[|b|];
      }
    }
  }

  lemma {:induction false} TChildrenAt(t: TreeIndex, b: seq<string>, data: Json, i: nat, c: seq<string>)
    requires CleanTree(data) && i <= Size(data)
    ensures if Below(data, b, c, i)
            then HoldsAt(t, TChildren(t, b, data, i), c, Walk(data, c[|b|..]).value)
            else SameAt(t, TChildren(t, b, data, i), c)
    decreases data, 0, Size(data) - i
  {
    if i < Size(data) {
      TChildAt(t, b, data, i, c);
      TChildrenAt(TChild(t, b, data, i), b, data, i + 1, c);
    }
  }

  lemma {:induction false} TChildAt(t: TreeIndex, b: seq<string>, data: Json, i: nat, c: seq<string>)
    requires CleanTree(data) && i < Size(data)
    ensures if Below(data, b, c, i) && Find(data, c[|b|], 0) == i
            then HoldsAt(t, TChild(t, b, data, i), c, Walk(data, c[|b|..]).value)
            else SameAt(t, TChild(t, b, data, i), c)
    decreases data, 0, 0
  {
    var key, value := KeyAt(data, i), ValueAt(data, i);
    var nb := b + [key];
    CleanKeys(data);
    assert Find(data, key, 0) == i;
    if nb <= c {
      assert b < c && c[|b|] == nb[|b|] == key;
      assert c[|b|..][0] == key && c[|b|..][1..] == c[|nb|..];
      assert Walk(data, c[|b|..]) == Walk(value, c[|nb|..]);
    } else if b < c {
      assert c[..|nb|] == b + [c[|b|]];
    }
    if value.Leaf? {
      if nb <= c {
        assert c == nb <==> c[|nb|..] == [];
      }
    } else {
      TBuildAt(t.(dirs := t.dirs[nb := []]), nb, value, c);
      assert nb[|nb|..] == [];
    }
  }

  // ----- the string index corresponds to it -----

  /** m is t with every component list replaced by its path. */
  ghost predicate Image<V>(m: map<string, V>, t: map<seq<string>, V>) {
    && (forall c :: c in t ==> CleanAll(c) && Path(c) in m && m[Path(c)] == t[c])
    && (forall p :: p in m ==> exists c :: c in t && Path(c) == p)
  }

  ghost predicate Matches(idx: Index, t: TreeIndex) {
    Image(idx.files, t.files) && Image(idx.dirs, t.dirs)
  }

  lemma ImageUpdate<V>(m: map<string, V>, t: map<seq<string>, V>, c: seq<string>, v: V)
    requires Image(m, t) && CleanAll(c)
    ensures Image(m[Path(c) := v], t[c := v])
  {
    hide Path;
    var m', t' := m[Path(c) := v], t[c := v];
    forall d | d in t' ensures CleanAll(d) && Path(d) in m' && m'[Path(d)] == t'[d] {
      if Path(d) == Path(c) {
        PathInjective(d, c);
      }
    }
    forall p | p in m' ensures exists d :: d in t' && Path(d) == p {
      if p == Path(c) {
        assert c in t';
      } else {
        var d :| d in t && Path(d) == p;
        assert d in t';
      }
    }
  }

  lemma {:induction false} BuildMatches(idx: Index, t: TreeIndex, b: seq<string>, data: Json)
    requires Matches(idx, t) && CleanAll(b) && CleanTree(data)
    ensures Matches(Build(idx, Path(b), data), TBuild(t, b, data))
    decreases data, 1, 0
  {
    hide Image, Path;
    if Container(data) {
      ImageUpdate(idx.dirs, t.dirs, b, Names(data));
      ChildrenMatch(idx.(dirs := idx.dirs[Path(b) := Names(data)]), t.(dirs := t.dirs[b := Names(data)]), b, data, 0);
    }
  }

  lemma {:induction false} ChildrenMatch(idx: Index, t: TreeIndex, b: seq<string>, data: Json, i: nat)
    requires Matches(idx, t) && CleanAll(b) && CleanTree(data) && i <= Size(data)
    ensures Matches(BuildChildren(idx, Path(b), data, i), TChildren(t, b, data, i))
    decreases data, 0, Size(data) - i
  {
    hide Image, Path;
    if i < Size(data) {
      var key, value := KeyAt(data, i), ValueAt(data, i);
      var c := b + [key];
      CleanKeys(data);
      PathSnoc(b, key);
      match value
      case Leaf(text) =>
        ImageUpdate(idx.files, t.files, c, text);
        ChildrenMatch(AddChild(idx, Path(b), data, i), TChild(t, b, data, i), b, data, i + 1);
      case _ =>
        ImageUpdate(idx.dirs, t.dirs, c, []);
        BuildMatches(idx.(dirs := idx.dirs[Path(c) := []]), t.(dirs := t.dirs[c := []]), c, value);
        ChildrenMatch(AddChild(idx, Path(b), data, i), TChild(t, b, data, i), b, data, i + 1);
    }
  }

  // ----- agreement with walking -----

  /** JsonFs.__init__ */
  function FromJson(data: Json): Index {
    Build(EMPTY_INDEX, "/", data)
  }

  ghost predicate IsFile(data: Json, c: seq<string>) {
    c != [] && Walk(data, c).Some? && Walk(data, c).value.Leaf?
  }

  ghost predicate IsDir(data: Json, c: seq<string>) {
    c == [] || (Walk(data, c).Some? && Container(Walk(data, c).value))
  }

  /** p is indexed as the node that walking c reaches. */
  ghost predicate IndexedAs(idx: Index, p: string, data: Json, c: seq<string>) {
    && (p in idx.files <==> IsFile(data, c))
    && (p in idx.dirs <==> IsDir(data, c))
    && (IsFile(data, c) ==> idx.files[p] == Walk(data, c).value.text)
    && (IsDir(data, c) ==> idx.dirs[p] == Names(Walk(data, c).value))
  }

  /** A node is reached by walking exactly when its path is in the index, as the right kind of
      entry and with the right content; the index has no other paths. */
  ghost predicate Agrees(idx: Index, data: Json) {
    && (forall c :: CleanAll(c) ==> IndexedAs(idx, Path(c), data, c))
    && (forall p :: p in idx.files || p in idx.dirs ==> exists c :: CleanAll(c) && Path(c) == p)
  }

  lemma WalkIsClean(data: Json, c: seq<string>)
    requires CleanTree(data)
    ensures Walk(data, c).Some? ==> CleanTree(Walk(data, c).value) && CleanAll(c)
    decreases |c|
  {
    if c != [] {
      var k := Find(data, c[0], 0);
      if k < Size(data) {
        CleanKeys(data);
        WalkIsClean(ValueAt(data, k), c[1..]);
        assert c == [c[0]] + c[1..];
      }
    }
  }

  /** The index built from any tree with clean keys agrees with walking the tree. */
  lemma IndexAgrees(data: Json)
    requires CleanTree(data)
    ensures Agrees(FromJson(data), data)
  {
    var t0 := TreeIndex(map[], map[[] := []]);
    var idx, t := FromJson(data), TBuild(t0, [], data);
    assert Matches(EMPTY_INDEX, t0) by {
      assert Path([]) == "/" && [] in t0.dirs;
    }
    BuildMatches(EMPTY_INDEX, t0, [], data);
    forall c ensures c in t.files <==> IsFile(data, c)
             ensures c in t.dirs <==> IsDir(data, c)
             ensures IsFile(data, c) ==> t.files[c] == Walk(data, c).value.text
             ensures IsDir(data, c) ==> t.dirs[c] == Names(Walk(data, c).value)
    {
      assert c[0..] == c;
      if Container(data) {
        TBuildAt(t0, [], data, c);
      } else if c != [] {
        assert Walk(data, c) == None;
      }
    }
    Transfer(idx, t, data);
  }

  lemma Transfer(idx: Index, t: TreeIndex, data: Json)
    requires Matches(idx, t)
    requires forall c :: (c in t.files <==> IsFile(data, c)) && (c in t.dirs <==> IsDir(data, c))
    requires forall c :: IsFile(data, c) ==> c in t.files && t.files[c] == Walk(data, c).value.text
    requires forall c :: IsDir(data, c) ==> c in t.dirs && t.dirs[c] == Names(Walk(data, c).value)
    ensures Agrees(idx, data)
  {
    hide Path, Walk;
    forall c | CleanAll(c)
      ensures Path(c) in idx.files <==> IsFile(data, c)
      ensures Path(c) in idx.dirs <==> IsDir(data, c)
    {
      if Path(c) in idx.files {
        var d :| d in t.files && Path(d) == Path(c);
        PathInjective(c, d);
      }
      if Path(c) in idx.dirs {
        var d :| d in t.dirs && Path(d) == Path(c);
        PathInjective(c, d);
      }
    }
  }

  // ----- exactly when paths and nodes correspond one to one -----

  /** Every node is indexed at its path as what it is, no two nodes share a path, and every path in
      the index, split at its slashes, leads to a node. */
  ghost predicate OneToOne(idx: Index, data: Json) {
    && (forall c :: Walk(data, c).Some? ==> IndexedAs(idx, Path(c), data, c))
    && (forall c, d :: Walk(data, c).Some? && Walk(data, d).Some? && Path(c) == Path(d) ==> c == d)
    && (forall p :: p in idx.files || p in idx.dirs ==>
          exists c :: CleanAll(c) && Walk(data, c).Some? && Path(c) == p)
  }

  /** A key that is not clean is on the way to some node. */
  lemma {:induction false} UncleanNode(data: Json) returns (c: seq<string>)
    requires UniqueKeys(data) && !CleanTree(data)
    ensures Walk(data, c).Some? && !CleanAll(c)
    decreases data
  {
    DistinctNames(data);
    if i :| 0 <= i < Size(data) && !CleanTree(ValueAt(data, i)) {
      var rest := UncleanNode(ValueAt(data, i));
      c := [KeyAt(data, i)] + rest;
      assert c[1..] == rest && Find(data, c[0], 0) == i;
      assert forall k :: 0 <= k < |rest| ==> c[k + 1] == rest[k];
    } else {
      var i :| 0 <= i < Size(data) && !Clean(KeyAt(data, i));
      c := [KeyAt(data, i)];
      assert c[1..] == [] && !Clean(c[0]);
    }
  }

  /** Where the correspondence holds, only clean names lead to nodes. */
  lemma NodesAreClean(idx: Index, data: Json, c: seq<string>)
    requires OneToOne(idx, data) && Walk(data, c).Some?
    ensures CleanAll(c)
  {
    hide Path, Walk, Names;
    assert IndexedAs(idx, Path(c), data, c);
    var d :| CleanAll(d) && Walk(data, d).Some? && Path(d) == Path(c);
  }

  /** Nodes and indexed paths correspond one to one if and only if every key is non-empty and free
      of slashes. */
  lemma OneToOneIff(data: Json)
    requires UniqueKeys(data)
    ensures OneToOne(FromJson(data), data) <==> CleanTree(data)
  {
    if CleanTree(data) {
      CleanIsOneToOne(data);
    } else {
      var c := UncleanNode(data);
      if OneToOne(FromJson(data), data) {
        NodesAreClean(FromJson(data), data, c);
      }
    }
  }

  lemma CleanIsOneToOne(data: Json)
    requires CleanTree(data)
    ensures OneToOne(FromJson(data), data)
  {
    hide Path, FromJson;
    var idx := FromJson(data);
    IndexAgrees(data);
    forall c | Walk(data, c).Some? ensures IndexedAs(idx, Path(c), data, c) {
      WalkIsClean(data, c);
    }
    forall c, d | Walk(data, c).Some? && Walk(data, d).Some? && Path(c) == Path(d) ensures c == d {
      WalkIsClean(data, c);
      WalkIsClean(data, d);
      PathInjective(c, d);
    }
    forall p | p in idx.files || p in idx.dirs
      ensures exists c :: CleanAll(c) && Walk(data, c).Some? && Path(c) == p
    {
      var c :| CleanAll(c) && Path(c) == p;
      assert Walk(data, c).Some?;
    }
  }
}
