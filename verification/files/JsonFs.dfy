/** The read-only file system of fuse_json.py: the class with its two dictionaries, filled in
    place, and the three operations that look things up in them. */
module JsonFileSystem {
  import opened JsonTree
  import opened JsonIndex

  datatype Attr = FileAttr(mode: nat, nlink: nat, size: nat) | DirAttr(mode: nat, nlink: nat)
  datatype Result<+T> = Ok(value: T) | ENOENT

  const FILE_MODE: nat := 33188   // 0o100644 | 0o444
  const DIR_MODE: nat := 16877    // 0o040755 | 0o555

  /** content[offset : offset + size], or nothing past the end. */
  function Slice(content: seq<Byte>, size: nat, offset: nat): seq<Byte> {
    if offset > |content| then []
    else if offset + size > |content| then content[offset..]
    else content[offset..offset + size]
  }

  class JsonFs {
    var files: map<string, seq<Byte>>
    var dirs: map<string, seq<string>>

    constructor (json: Json)
      ensures Contents() == FromJson(json)
    {
      files, dirs := map[], map["/" := []];
      new;
      BuildTree("/", json);
    }

    function Contents(): Index
      reads this
    {
      Index(files, dirs)
    }

    /** _build_tree */
    method BuildTree(path: string, data: Json)
      modifies this
      ensures Contents() == Build(old(Contents()), path, data)
      decreases data
    {
      if data.Leaf? {
        return;
      }
      dirs := dirs[path := Names(data)];
      for i := 0 to Size(data)
        invariant BuildChildren(Contents(), path, data, i) == Build(old(Contents()), path, data)
      {
        var newPath, value := Join(path, KeyAt(data, i)), ValueAt(data, i);
        match value {
          case Leaf(text) =>
            files := files[newPath := text];
          case _ =>
            dirs := dirs[newPath := []];
            BuildTree(newPath, value);
        }
      }
    }

    function GetAttr(path: string): Result<Attr>
      reads this
    {
      if path in files then Ok(FileAttr(FILE_MODE, 1, |files[path]|))
      else if path in dirs then Ok(DirAttr(DIR_MODE, 2))
      else ENOENT
    }

    function ReadDir(path: string): seq<string>
      reads this
    {
      [".", ".."] + (if path in dirs then dirs[path] else [])
    }

    function Read(path: string, size: nat, offset: nat): Result<seq<Byte>>
      reads this
    {
      if path in files then Ok(Slice(files[path], size, offset)) else ENOENT
    }
  }

  /** Files and directories are disjoint. */
  lemma FilesAndDirsDisjoint(idx: Index, data: Json)
    requires Agrees(idx, data)
    ensures idx.files.Keys !! idx.dirs.Keys
  {
    forall p | p in idx.files ensures p !in idx.dirs {
      var c :| CleanAll(c) && Path(c) == p;
    }
  }

  lemma {:induction false} WalkSnoc(data: Json, c: seq<string>, name: string)
    ensures Walk(data, c + [name]) ==
            match Walk(data, c)
            case None => None
            case Some(node) =>
              var k := Find(node, name, 0);
              if k < Size(node) then Some(ValueAt(node, k)) else None
    decreases |c|
  {
    if c == [] {
      assert ([] + [name])[1..] == [];
    } else {
      assert (c + [name])[1..] == c[1..] + [name];
      var k := Find(data, c[0], 0);
      if k < Size(data) {
        WalkSnoc(ValueAt(data, k), c[1..], name);
      }
    }
  }

  /** After __init__, getattr answers from the tree: ENOENT exactly for what walking does not reach,
      a directory for containers and for the root, a file with its length for other leaves. */
  lemma GetAttrWalks(fs: JsonFs, data: Json, c: seq<string>)
    requires fs.Contents() == FromJson(data) && CleanTree(data) && CleanAll(c)
    ensures fs.GetAttr(Path(c)) ==
            if c == [] then Ok(DirAttr(DIR_MODE, 2))
            else match Walk(data, c)
              case None => ENOENT
              case Some(Leaf(text)) => Ok(FileAttr(FILE_MODE, 1, |text|))
              case Some(_) => Ok(DirAttr(DIR_MODE, 2))
  {
    IndexAgrees(data);
  }

  lemma NameFound(node: Json, name: string)
    ensures name in Names(node) <==> Find(node, name, 0) < Size(node)
  {
    var k := Find(node, name, 0);
    if k < Size(node) {
      assert Names(node)[k] == name;
    } else {
      assert forall i :: 0 <= i < Size(node) ==> Names(node)[i] != name;
    }
  }

  /** A name is a child's name exactly when something is indexed under it. */
  lemma ChildIndexed(idx: Index, data: Json, c: seq<string>, name: string)
    requires Agrees(idx, data) && CleanAll(c) && Clean(name)
    requires Walk(data, c).Some?
    ensures name in Names(Walk(data, c).value) <==> Join(Path(c), name) in idx.files || Join(Path(c), name) in idx.dirs
  {
    WalkSnoc(data, c, name);
    PathSnoc(c, name);
    NameFound(Walk(data, c).value, name);
    hide Walk, Path, Join, Find, Names;
    assert CleanAll(c + [name]);
  }

  /** readdir lists, besides . and .., exactly the names under which something is indexed one level
      below, each once and in order. */
  lemma ReadDirListsChildren(fs: JsonFs, data: Json, c: seq<string>)
    requires fs.Contents() == FromJson(data) && CleanTree(data) && CleanAll(c) && IsDir(data, c)
    ensures fs.ReadDir(Path(c)) == [".", ".."] + Names(Walk(data, c).value)
    ensures NoneTwice(Names(Walk(data, c).value))
    ensures forall i :: 0 <= i < Size(Walk(data, c).value) ==>
              fs.ReadDir(Path(c))[i + 2] == KeyAt(Walk(data, c).value, i)
    ensures forall name :: Clean(name) ==>
              (name in Names(Walk(data, c).value) <==>
                Join(Path(c), name) in fs.files || Join(Path(c), name) in fs.dirs)
  {
    IndexAgrees(data);
    WalkIsClean(data, c);
    CleanKeys(Walk(data, c).value);
    forall name | Clean(name)
      ensures name in Names(Walk(data, c).value) <==> Join(Path(c), name) in fs.files || Join(Path(c), name) in fs.dirs
    {
      ChildIndexed(fs.Contents(), data, c, name);
    }
  }

  ghost predicate NoneTwice(names: seq<string>) {
    forall i, j :: 0 <= i < j < |names| ==> names[i] != names[j]
  }

  /** What one read returns: the `size` bytes of the leaf from `offset` on, or as many as there are;
      nothing past the end; ENOENT where walking does not lead to a leaf. */
  lemma ReadAnswers(fs: JsonFs, data: Json, c: seq<string>, size: nat, offset: nat)
    requires fs.Contents() == FromJson(data) && CleanTree(data) && CleanAll(c)
    ensures if IsFile(data, c) then IsPiece(fs.Read(Path(c), size, offset), Walk(data, c).value.text, size, offset)
            else fs.Read(Path(c), size, offset) == ENOENT
  {
    AgreesAt(fs, data, c);
    hide Path, Walk, Names, FromJson, CleanTree, IsDir;
  }

  /** Nor does any other string name a file. */
  lemma NoOtherPaths(fs: JsonFs, data: Json, path: string, size: nat, offset: nat)
    requires fs.Contents() == FromJson(data) && CleanTree(data)
    requires forall c :: CleanAll(c) ==> Path(c) != path
    ensures fs.Read(path, size, offset) == ENOENT && fs.GetAttr(path) == ENOENT
  {
    IndexAgrees(data);
  }

  lemma AgreesAt(fs: JsonFs, data: Json, c: seq<string>)
    requires fs.Contents() == FromJson(data) && CleanTree(data) && CleanAll(c)
    ensures IndexedAs(fs.Contents(), Path(c), data, c)
  {
    IndexAgrees(data);
  }

  /** r is the part of text that starts at offset and has `size` bytes or ends with the text. */
  ghost predicate IsPiece(r: Result<seq<Byte>>, text: seq<Byte>, size: nat, offset: nat) {
    && r.Ok?
    && |r.value| == (if offset > |text| then 0 else if size <= |text| - offset then size else |text| - offset)
    && forall x :: 0 <= x < |r.value| ==> r.value[x] == text[offset + x]
  }

  /** Calls of read for `size` bytes at consecutive offsets until one returns nothing. */
  function ReadOn(fs: JsonFs, path: string, size: nat, offset: nat): seq<Byte>
    requires size > 0 && path in fs.files
    reads fs
    decreases |fs.files[path]| - offset
  {
    match fs.Read(path, size, offset)
    case ENOENT => []
    case Ok(chunk) => if chunk == [] then [] else chunk + ReadOn(fs, path, size, offset + |chunk|)
  }

  lemma {:induction false} ReadOnRest(fs: JsonFs, path: string, size: nat, offset: nat)
    requires size > 0 && path in fs.files && offset <= |fs.files[path]|
    ensures ReadOn(fs, path, size, offset) == fs.files[path][offset..]
    decreases |fs.files[path]| - offset
  {
    var chunk := fs.Read(path, size, offset).value;
    if chunk != [] {
      ReadOnRest(fs, path, size, offset + |chunk|);
    }
  }

  /** Reading a leaf from the start in pieces of any positive size yields its whole content. */
  lemma ReadsRebuildLeaf(fs: JsonFs, data: Json, c: seq<string>, size: nat)
    requires fs.Contents() == FromJson(data) && CleanTree(data) && CleanAll(c) && IsFile(data, c) && size > 0
    ensures Path(c) in fs.files && ReadOn(fs, Path(c), size, 0) == Walk(data, c).value.text
  {
    IndexAgrees(data);
    ReadOnRest(fs, Path(c), size, 0);
  }

  /** The i-th child of a directory: the entry with the i-th key, or the i-th item under the decimal
      numeral of i, is found at the directory's path, a slash and that name. */
  lemma ChildrenAreIndexed(fs: JsonFs, data: Json, c: seq<string>, i: nat)
    requires fs.Contents() == FromJson(data) && CleanTree(data) && CleanAll(c) && Walk(data, c).Some?
    requires i < Size(Walk(data, c).value)
    ensures var node := Walk(data, c).value;
      var name := if node.Obj? then node.entries[i].key else Decimal(i);
      var child := if node.Obj? then node.entries[i].value else node.items[i];
      var path := (if c == [] then "" else Path(c)) + "/" + name;
      if child.Leaf? then path in fs.files && fs.files[path] == child.text
      else path in fs.dirs && fs.dirs[path] == Names(child)
  {
    var name := KeyAt(Walk(data, c).value, i);
    ChildByName(data, c, i);
    AgreesAt(fs, data, c + [name]);
    hide Path, Walk, Names, FromJson, CleanTree;
    PathShape(c + [name]);
    assert (c + [name])[..|c|] == c && |c + [name]| == |c| + 1;
  }

  lemma ChildByName(data: Json, c: seq<string>, i: nat)
    requires CleanTree(data) && CleanAll(c) && Walk(data, c).Some? && i < Size(Walk(data, c).value)
    ensures var node := Walk(data, c).value;
      CleanAll(c + [KeyAt(node, i)]) && Walk(data, c + [KeyAt(node, i)]) == Some(ValueAt(node, i))
  {
    var node := Walk(data, c).value;
    WalkIsClean(data, c);
    CleanKeys(node);
    WalkSnoc(data, c, KeyAt(node, i));
    assert Find(node, KeyAt(node, i), 0) == i;
  }

  /** The type and permission bits of st_mode, and the link count: a regular file rw-r--r--, or a
      directory rwxr-xr-x, which is a file only where something can be read. */
  lemma AttrKinds(fs: JsonFs, path: string, size: nat, offset: nat)
    ensures match fs.GetAttr(path)
      case Ok(FileAttr(mode, nlink, _)) =>
        mode / 4096 == 8 && mode % 4096 == 6 * 64 + 4 * 8 + 4 && nlink == 1 && fs.Read(path, size, offset).Ok?
      case Ok(DirAttr(mode, nlink)) =>
        mode / 4096 == 4 && mode % 4096 == 7 * 64 + 5 * 8 + 5 && nlink == 2 && fs.Read(path, size, offset) == ENOENT
      case ENOENT => fs.Read(path, size, offset) == ENOENT && fs.ReadDir(path) == [".", ".."]
  {
  }

  /** One tree that is not clean: the index has /a/b, and walking by a and then b reaches nothing. */
  lemma SlashBreaksAgreement(text: seq<Byte>)
    ensures !Agrees(FromJson(Obj([Entry("a/b", Leaf(text))])), Obj([Entry("a/b", Leaf(text))]))
  {
    var data := Obj([Entry("a/b", Leaf(text))]);
    var idx := FromJson(data);
    assert idx.files == map["/a/b" := text] by {
      var idx1 := EMPTY_INDEX.(dirs := EMPTY_INDEX.dirs["/" := Names(data)]);
      assert BuildChildren(idx1, "/", data, 0) == BuildChildren(AddChild(idx1, "/", data, 0), "/", data, 1);
      assert Join("/", KeyAt(data, 0)) == "/a/b";
      assert AddChild(idx1, "/", data, 0).files == map["/a/b" := text];
    }
    var c := ["a", "b"];
    assert c[..1] == ["a"] && c[..1][..0] == [];
    assert Path(["a"]) == "/a" && Path(c) == "/a/b";
    assert Find(data, "a", 0) == 1;
    assert CleanAll(c) && !IsFile(data, c);
  }
}
