/** The directory tree that `flatfs::unpack` builds from the flat list of files. */
module FlatFsTree {
  import opened Bytes
  import opened FlatFs
  import opened Options

  /** Dir of the source; `filename` and `path` are the leaf name and the full path. */
  datatype Dir = Dir(filename: Name, path: Name, subdirs: map<Name, Dir>, files: map<Name, seq<Byte>>)

  function EmptyDir(filename: Name, path: Name): Dir {
    Dir(filename, path, map[], map[])
  }

  /** `split_once('/')`: the index of the first slash, or the length. */
  function FirstSlash(name: Name): (i: nat)
    ensures i <= |name|
    ensures i < |name| ==> name[i] == SLASH
    ensures forall j | 0 <= j < i :: name[j] != SLASH
  {
    if name == [] || name[0] == SLASH then 0 else 1 + FirstSlash(name[1..])
  }

  /** The directory that add_file goes on to. */
  function ChildOf(dir: Dir, left: Name): Dir {
    if left in dir.subdirs then dir.subdirs[left] else EmptyDir(left, dir.path + [SLASH] + left)
  }

  /** add_file: creates the directories of the name as needed and puts the file under the last. */
  function AddFile(dir: Dir, name: Name, bytes: seq<Byte>): Outcome<Dir>
    decreases |name|
  {
    var i := FirstSlash(name);
    if i == |name| then Ok(dir.(files := dir.files[name := bytes]))
    else
      var left, right := name[..i], name[i + 1..];
      if left == [] then AddFile(dir, right, bytes)
      else if right == [] then Err
      else
        match AddFile(ChildOf(dir, left), right, bytes)
        case Err => Err
        case Panic => Panic
        case Ok(child') => Ok(dir.(subdirs := dir.subdirs[left := child']))
  }

  /** The last loop of unpack, over the files in the order of the map. */
  method BuildTree(files: seq<File>) returns (r: Outcome<Dir>)
    ensures r == AddAll(EmptyDir([], []), files)
  {
    var root := EmptyDir([], []);
    for i := 0 to |files|
      invariant AddAll(EmptyDir([], []), files) == AddAll(root, files[i..])
    {
      match AddFile(root, files[i].name, files[i].bytes) {
        case Err => return Err;
        case Panic => return Panic;
        case Ok(dir) => root := dir;
      }
      assert files[i..][1..] == files[i + 1..];
    }
    return Ok(root);
  }

  function AddAll(dir: Dir, files: seq<File>): Outcome<Dir>
    decreases |files|
  {
    if files == [] then Ok(dir)
    else match AddFile(dir, files[0].name, files[0].bytes)
      case Err => Err
      case Panic => Panic
      case Ok(dir') => AddAll(dir', files[1..])
  }

  // ---------------------------------------------------------------------------------------
  // Paths
  // ---------------------------------------------------------------------------------------

  /**
   The path a name stands for, as add_file takes it apart: the segments between its slashes, with
   empty ones skipped but for the last; none where a segment is followed by one final slash.
   */
  function Path(name: Name): (p: Option<seq<Name>>)
    ensures p.Some? ==> p.value != []
    decreases |name|
  {
    var i := FirstSlash(name);
    if i == |name| then Some([name])
    else if i == 0 then Path(name[1..])
    else if i + 1 == |name| then None
    else match Path(name[i + 1..])
      case None => None
      case Some(p) => Some([name[..i]] + p)
  }

  /** Segments with one slash between each two. */
  function Slashed(segs: seq<Name>): Name
    requires segs != []
    decreases |segs|
  {
    if |segs| == 1 then segs[0] else segs[0] + [SLASH] + Slashed(segs[1..])
  }

  ghost predicate SlashFree(segs: seq<Name>) {
    forall k | 0 <= k < |segs| :: SLASH !in segs[k]
  }

  function NonEmpty(segs: seq<Name>): seq<Name>
    decreases |segs|
  {
    if segs == [] then [] else (if segs[0] == [] then [] else [segs[0]]) + NonEmpty(segs[1..])
  }

  /** A name that ends in a single slash after a segment. */
  predicate EndsInSlash(name: Name) {
    |name| >= 2 && name[|name| - 1] == SLASH && name[|name| - 2] != SLASH
  }

  /** Every name is slash-free segments with slashes between. */
  lemma {:induction false} SplitName(name: Name) returns (segs: seq<Name>)
    ensures segs != [] && SlashFree(segs) && Slashed(segs) == name
    decreases |name|
  {
    var i := FirstSlash(name);
    if i == |name| {
      segs := [name];
    } else {
      var rest := SplitName(name[i + 1..]);
      segs := [name[..i]] + rest;
      assert segs[1..] == rest && name == name[..i] + [SLASH] + name[i + 1..];
    }
  }

  lemma FirstOfSlashed(segs: seq<Name>)
    requires segs != [] && SlashFree(segs)
    ensures FirstSlash(Slashed(segs)) == |segs[0]|
    ensures |segs| > 1 ==> Slashed(segs)[..|segs[0]|] == segs[0] && Slashed(segs)[|segs[0]| + 1..] == Slashed(segs[1..])
  {
    var name, first := Slashed(segs), segs[0];
    var i := FirstSlash(name);
    hide FirstSlash;
    assert name[..|first|] == first;
    assert forall j | 0 <= j < |first| :: name[j] == first[j] != SLASH;
    if |segs| > 1 {
      assert name[|first|] == SLASH;
      assert name[|first| + 1..] == Slashed(segs[1..]);
    }
  }

  /**
   The path of a name given by its segments: all that are not empty, and the last in any case;
   none exactly if the last is empty and the one before it is not.
   */
  lemma {:induction false} PathOfSegments(segs: seq<Name>)
    requires segs != [] && SlashFree(segs)
    ensures var n := |segs| - 1;
            Path(Slashed(segs)) ==
              if n > 0 && segs[n] == [] && segs[n - 1] != [] then None else Some(NonEmpty(segs[..n]) + [segs[n]])
    decreases |segs|
  {
    hide FirstSlash;
    FirstOfSlashed(segs);
    if |segs| == 1 {
      assert NonEmpty(segs[..0]) + [segs[0]] == [segs[0]];
    } else {
      var n, rest := |segs| - 1, segs[1..];
      PathOfSegments(rest);
      assert segs[..n][1..] == rest[..n - 1] && segs[n] == rest[n - 1];
      assert n == 1 ==> rest == [segs[1]] && NonEmpty(rest[..0]) == [];
      assert [segs[0]] + (NonEmpty(rest[..n - 1]) + [segs[n]]) == ([segs[0]] + NonEmpty(rest[..n - 1])) + [segs[n]];
      assert [] + NonEmpty(rest[..n - 1]) == NonEmpty(rest[..n - 1]);
      if segs[0] != [] {
        assert Slashed(rest) == [] <==> n == 1 && segs[1] == [] by { SlashedEmpty(rest); }
      }
    }
  }

  lemma SlashedEmpty(segs: seq<Name>)
    requires segs != []
    ensures Slashed(segs) == [] <==> segs == [[]]
  {
  }

  lemma {:induction false} SlashedEnd(segs: seq<Name>)
    requires segs != [] && SlashFree(segs)
    ensures var n := |segs| - 1;
            EndsInSlash(Slashed(segs)) <==> n > 0 && segs[n] == [] && segs[n - 1] != []
    decreases |segs|
  {
    var name := Slashed(segs);
    if |segs| == 1 {
      assert |name| > 0 ==> name[|name| - 1] in segs[0];
    } else {
      var rest := segs[1..];
      var tail := Slashed(rest);
      SlashedEnd(rest);
      assert name == segs[0] + [SLASH] + tail;
      if |rest| == 1 {
        assert |tail| > 0 ==> name[|name| - 1] == tail[|tail| - 1] && tail[|tail| - 1] in segs[1];
        assert tail == [] && segs[0] != [] ==> name[|name| - 2] in segs[0];
      } else {
        SlashedEmpty(rest);
        assert name[|name| - 1] == tail[|tail| - 1];
        assert name[|name| - 2] == if |tail| >= 2 then tail[|tail| - 2] else SLASH;
        if |tail| == 1 {
          assert tail == segs[1] + [SLASH] + Slashed(rest[1..]);
          assert segs[1] == [] && Slashed(rest[1..]) == [];
          SlashedEmpty(rest[1..]);
        }
      }
    }
  }

  /** A name has no path exactly if it ends in a single slash after a segment. */
  lemma PathNoneIff(name: Name)
    ensures Path(name).None? <==> EndsInSlash(name)
  {
    hide Path;
    hide EndsInSlash;
    var segs := SplitName(name);
    PathOfSegments(segs);
    SlashedEnd(segs);
  }

  /** Walking the tree segment by segment, the last segment being a file. */
  function Lookup(dir: Dir, path: seq<Name>): Option<seq<Byte>>
    requires path != []
    decreases |path|
  {
    if |path| == 1 then (if path[0] in dir.files then Some(dir.files[path[0]]) else None)
    else if path[0] in dir.subdirs then Lookup(dir.subdirs[path[0]], path[1..])
    else None
  }

  /** add_file fails exactly for the names that end in a single slash after a segment. */
  lemma AddFileFailsIff(dir: Dir, name: Name, bytes: seq<Byte>)
    ensures AddFile(dir, name, bytes) == Err <==> EndsInSlash(name)
    ensures AddFile(dir, name, bytes).Ok? <==> !EndsInSlash(name)
    ensures Path(name).None? <==> EndsInSlash(name)
  {
    hide Path;
    hide AddFile;
    hide EndsInSlash;
    PathNoneIff(name);
    AddFileNeedsPath(dir, name, bytes);
  }

  lemma {:induction false} AddFileNeedsPath(dir: Dir, name: Name, bytes: seq<Byte>)
    ensures AddFile(dir, name, bytes).Ok? <==> Path(name).Some?
    ensures AddFile(dir, name, bytes).Err? <==> Path(name).None?
    decreases |name|
  {
    var i := FirstSlash(name);
    if i < |name| {
      var left, right := name[..i], name[i + 1..];
      if left == [] {
        assert right == name[1..];
        AddFileNeedsPath(dir, right, bytes);
      } else if right != [] {
        var child := ChildOf(dir, left);
        AddFileNeedsPath(child, right, bytes);
      }
    }
  }

  lemma {:induction false} EmptyLookup(filename: Name, path: Name, p: seq<Name>)
    requires p != []
    ensures Lookup(EmptyDir(filename, path), p).None?
  {
  }

  lemma ChildLookup(dir: Dir, left: Name, q: seq<Name>)
    requires q != []
    ensures Lookup(ChildOf(dir, left), q) == Lookup(dir, [left] + q)
  {
    EmptyLookup(left, dir.path + [SLASH] + left, q);
    assert ([left] + q)[1..] == q;
  }

  /** A new child is found by paths through it, every other path finds what it found before. */
  lemma LookupPut(dir: Dir, left: Name, child: Dir, p: seq<Name>)
    requires p != []
    ensures var dir' := dir.(subdirs := dir.subdirs[left := child]);
            Lookup(dir', p) == if |p| > 1 && p[0] == left then Lookup(child, p[1..]) else Lookup(dir, p)
  {
  }

  /** add_file changes the tree at its own path and nowhere else. */
  lemma {:induction false} AddFileLookup(dir: Dir, name: Name, bytes: seq<Byte>, p: seq<Name>)
    requires p != [] && Path(name).Some?
    ensures AddFile(dir, name, bytes).Ok?
    ensures Lookup(AddFile(dir, name, bytes).value, p) == if p == Path(name).value then Some(bytes) else Lookup(dir, p)
    decreases |name|
  {
    hide FirstSlash;
    hide ChildOf;
    AddFileNeedsPath(dir, name, bytes);
    var i := FirstSlash(name);
    if i < |name| {
      var left, right := name[..i], name[i + 1..];
      if left == [] {
        assert right == name[1..];
        AddFileLookup(dir, right, bytes, p);
      } else {
        hide Lookup;
        var child := ChildOf(dir, left);
        AddFileNeedsPath(child, right, bytes);
        var q := Path(right).value;
        assert Path(name).value == [left] + q && ([left] + q)[1..] == q;
        LookupPut(dir, left, AddFile(child, right, bytes).value, p);
        if |p| > 1 && p[0] == left {
          assert p == [left] + p[1..];
          AddFileLookup(child, right, bytes, p[1..]);
          ChildLookup(dir, left, p[1..]);
        }
      }
    }
  }

  /** The contents a list of files gives to path `p`: those of the last file with that path. */
  ghost function At(files: seq<File>, p: seq<Name>): Option<seq<Byte>>
    decreases |files|
  {
    if files == [] then None
    else
      var last := files[|files| - 1];
      if Path(last.name) == Some(p) then Some(last.bytes) else At(files[..|files| - 1], p)
  }

  lemma {:induction false} AddAllSplit(dir: Dir, files: seq<File>, f: File)
    ensures AddAll(dir, files + [f]) ==
            (match AddAll(dir, files) case Ok(d) => AddFile(d, f.name, f.bytes) case Err => Err case Panic => Panic)
    decreases |files|
  {
    if files == [] {
      assert files + [f] == [f] && [f][1..] == [];
    } else {
      assert (files + [f])[0] == files[0] && (files + [f])[1..] == files[1..] + [f];
      match AddFile(dir, files[0].name, files[0].bytes)
      case Ok(d) => AddAllSplit(d, files[1..], f);
      case _ =>
    }
  }

  /**
   The tree holds exactly the files: it is built unless some name ends in a single slash after a
   segment, and then walking any path finds the contents of the last file with that path, and
   nothing where there is none.
   */
  lemma {:induction false} TreeHoldsFiles(files: seq<File>)
    ensures var r := AddAll(EmptyDir([], []), files);
            if forall i | 0 <= i < |files| :: !EndsInSlash(files[i].name)
            then r.Ok? && forall p: seq<Name> | p != [] :: Lookup(r.value, p) == At(files, p)
            else r == Err
    decreases |files|
  {
    if files == [] {
      forall p: seq<Name> | p != [] ensures Lookup(EmptyDir([], []), p) == At(files, p) {
        EmptyLookup([], [], p);
      }
    } else {
      var init, last := files[..|files| - 1], files[|files| - 1];
      assert files == init + [last];
      TreeHoldsFiles(init);
      AddAllSplit(EmptyDir([], []), init, last);
      var r := AddAll(EmptyDir([], []), init);
      if r.Ok? {
        AddFileFailsIff(r.value, last.name, last.bytes);
        if Path(last.name).Some? {
          forall p: seq<Name> | p != []
            ensures Lookup(AddFile(r.value, last.name, last.bytes).value, p) == At(files, p)
          {
            AddFileLookup(r.value, last.name, last.bytes, p);
          }
        }
      }
    }
  }

  // ---------------------------------------------------------------------------------------
  // Directory paths
  // ---------------------------------------------------------------------------------------

  function Join(path: Name, segments: seq<Name>): Name
    decreases |segments|
  {
    if segments == [] then path else Join(path + [SLASH] + segments[0], segments[1..])
  }

  function Walk(dir: Dir, segments: seq<Name>): Option<Dir>
    decreases |segments|
  {
    if segments == [] then Some(dir)
    else if segments[0] in dir.subdirs then Walk(dir.subdirs[segments[0]], segments[1..])
    else None
  }

  /** Every directory below `dir` records its own name and the joined path that leads to it. */
  ghost predicate Labelled(dir: Dir) {
    forall segments: seq<Name> | Walk(dir, segments).Some? ::
      var d := Walk(dir, segments).value;
      d.path == Join(dir.path, segments) && (segments != [] ==> d.filename == segments[|segments| - 1])
  }

  lemma LabelledChild(dir: Dir, k: Name)
    requires Labelled(dir) && k in dir.subdirs
    ensures Labelled(dir.subdirs[k]) && dir.subdirs[k].path == dir.path + [SLASH] + k && dir.subdirs[k].filename == k
  {
    assert Walk(dir, [k]) == Some(dir.subdirs[k]) by { assert [k][1..] == []; }
    assert Join(dir.path, [k]) == dir.path + [SLASH] + k by { assert [k][1..] == []; }
    var child := dir.subdirs[k];
    forall segments: seq<Name> | Walk(child, segments).Some?
      ensures var d := Walk(child, segments).value;
              d.path == Join(child.path, segments) && (segments != [] ==> d.filename == segments[|segments| - 1])
    {
      var all := [k] + segments;
      assert all[1..] == segments;
      assert Walk(dir, all) == Walk(child, segments);
    }
  }

  ghost predicate ChildLabelled(dir: Dir, k: Name)
    requires k in dir.subdirs
  {
    Labelled(dir.subdirs[k]) && dir.subdirs[k].path == dir.path + [SLASH] + k && dir.subdirs[k].filename == k
  }

  lemma LabelledFromChildren(dir: Dir)
    requires forall k | k in dir.subdirs :: ChildLabelled(dir, k)
    ensures Labelled(dir)
  {
    forall segments: seq<Name> | Walk(dir, segments).Some?
      ensures var d := Walk(dir, segments).value;
              d.path == Join(dir.path, segments) && (segments != [] ==> d.filename == segments[|segments| - 1])
    {
      if segments != [] {
        assert ChildLabelled(dir, segments[0]);
        assert Walk(dir, segments) == Walk(dir.subdirs[segments[0]], segments[1..]);
        assert Join(dir.path, segments) == Join(dir.path + [SLASH] + segments[0], segments[1..]);
      }
    }
  }

  /** A labelled directory with one child replaced by a labelled one, or with other files. */
  lemma ChildPut(dir: Dir, left: Name, child: Dir, dir': Dir)
    requires Labelled(dir) && Labelled(child) && child.path == dir.path + [SLASH] + left && child.filename == left
    requires dir'.path == dir.path && (dir'.subdirs == dir.subdirs || dir'.subdirs == dir.subdirs[left := child])
    ensures Labelled(dir')
  {
    hide Labelled;
    forall k | k in dir'.subdirs ensures ChildLabelled(dir', k) {
      if k in dir.subdirs { LabelledChild(dir, k); }
    }
    LabelledFromChildren(dir');
  }

  lemma ChildOfLabelled(dir: Dir, left: Name)
    requires Labelled(dir)
    ensures var child := ChildOf(dir, left);
            Labelled(child) && child.path == dir.path + [SLASH] + left && child.filename == left
  {
    hide Labelled;
    if left in dir.subdirs {
      LabelledChild(dir, left);
    } else {
      LabelledFromChildren(EmptyDir(left, dir.path + [SLASH] + left));
    }
  }

  /** add_file keeps every recorded path right, and the directory's own path. */
  lemma {:induction false} AddFileLabels(dir: Dir, name: Name, bytes: seq<Byte>)
    requires Labelled(dir) && AddFile(dir, name, bytes).Ok?
    ensures var dir' := AddFile(dir, name, bytes).value;
            Labelled(dir') && dir'.path == dir.path && dir'.filename == dir.filename
    decreases |name|
  {
    hide Labelled;
    hide FirstSlash;
    hide EmptyDir;
    var i := FirstSlash(name);
    if i == |name| {
      ChildOfLabelled(dir, []);
      ChildPut(dir, [], ChildOf(dir, []), AddFile(dir, name, bytes).value);
    } else if i == 0 {
      AddFileLabels(dir, name[1..], bytes);
    } else {
      ChildOfLabelled(dir, name[..i]);
      AddFileLabels(ChildOf(dir, name[..i]), name[i + 1..], bytes);
      var child' := AddFile(ChildOf(dir, name[..i]), name[i + 1..], bytes).value;
      ChildPut(dir, name[..i], child', AddFile(dir, name, bytes).value);
    }
  }

  /** Every directory of a tree that is built has its name and full path right. */
  lemma {:induction false} TreeLabelled(dir: Dir, files: seq<File>)
    requires Labelled(dir) && AddAll(dir, files).Ok?
    ensures var tree := AddAll(dir, files).value; Labelled(tree) && tree.path == dir.path
    decreases |files|
  {
    hide Labelled;
    hide AddFile;
    if files != [] {
      AddFileLabels(dir, files[0].name, files[0].bytes);
      TreeLabelled(AddFile(dir, files[0].name, files[0].bytes).value, files[1..]);
    }
  }

  // ---------------------------------------------------------------------------------------
  // The whole of pack and unpack
  // ---------------------------------------------------------------------------------------

  /** `listing` is the map of unpack in some order. */
  ghost predicate Lists(m: map<Name, seq<Byte>>, listing: seq<File>) {
    && (forall i | 0 <= i < |listing| :: listing[i].name in m && m[listing[i].name] == listing[i].bytes)
    && (forall n | n in m :: Named(listing, n))
  }

  /** What At finds is the contents of a file with that path, and it finds one if there is any. */
  lemma {:induction false} AtIsAFile(files: seq<File>, p: seq<Name>)
    ensures At(files, p).Some? <==> exists i | 0 <= i < |files| :: Path(files[i].name) == Some(p)
    ensures At(files, p).Some? ==>
              exists i | 0 <= i < |files| :: Path(files[i].name) == Some(p) && At(files, p) == Some(files[i].bytes)
    decreases |files|
  {
    if files != [] {
      var init := files[..|files| - 1];
      AtIsAFile(init, p);
      assert forall i | 0 <= i < |init| :: init[i] == files[i];
    }
  }

  /** Names that all have a path, and no path twice. */
  ghost predicate DistinctPaths(files: seq<File>) {
    && (forall i | 0 <= i < |files| :: Path(files[i].name).Some?)
    && (forall i, j | 0 <= i < j < |files| :: Path(files[i].name) != Path(files[j].name))
  }

  /** The tree of a flat map finds each file by its path and nothing else. */
  ghost predicate Serves(tree: Dir, files: seq<File>)
    requires DistinctPaths(files)
  {
    && (forall i | 0 <= i < |files| :: Lookup(tree, Path(files[i].name).value) == Some(files[i].bytes))
    && (forall p: seq<Name> | p != [] && Lookup(tree, p).Some? ::
          exists i | 0 <= i < |files| :: Path(files[i].name) == Some(p))
  }

  lemma TreeOfMap(files: seq<File>, m: map<Name, seq<Byte>>, listing: seq<File>)
    requires DistinctPaths(files) && Holds(m, files) && Lists(m, listing)
    ensures var r := AddAll(EmptyDir([], []), listing); r.Ok? && Serves(r.value, files)
  {
    hide Path;
    hide Lookup;
    hide AddAll;
    hide At;
    TreeHoldsFiles(listing);
    forall i | 0 <= i < |listing| ensures !EndsInSlash(listing[i].name) {
      FileOf(m, files, listing[i].name);
      PathNoneIff(listing[i].name);
    }
    var tree := AddAll(EmptyDir([], []), listing).value;
    forall p: seq<Name> | p != [] && Lookup(tree, p).Some?
      ensures exists i | 0 <= i < |files| :: Path(files[i].name) == Some(p)
    {
      AtIsAFile(listing, p);
      var k :| 0 <= k < |listing| && Path(listing[k].name) == Some(p);
      FileOf(m, files, listing[k].name);
    }
    forall i | 0 <= i < |files| ensures Lookup(tree, Path(files[i].name).value) == Some(files[i].bytes) {
      var p := Path(files[i].name).value;
      assert Named(listing, files[i].name);
      AtIsAFile(listing, p);
      var k :| 0 <= k < |listing| && Path(listing[k].name) == Some(p) && At(listing, p) == Some(listing[k].bytes);
      FileOf(m, files, listing[k].name);
    }
  }

  /**
   Pack, unpack and build the tree, whatever the order of the map: walking the tree by the path
   of each packed file finds its bytes, every other path finds nothing, and every directory of
   the tree has its name and full path right.
   */
  lemma TreeOfPack(files: seq<File>, utf8: Name -> bool, listing: seq<File>)
    requires DistinctPaths(files) && SizeFrom(FS_HEADER, files) < U64_LIMIT
    requires files != [] && !EndsEmpty(files[|files| - 1])
    requires forall f | f in files :: utf8(f.name)
    requires UnpackFiles(Image(files), utf8).Ok? ==> Lists(UnpackFiles(Image(files), utf8).value, listing)
    ensures UnpackFiles(Image(files), utf8).Ok?
    ensures var r := AddAll(EmptyDir([], []), listing); r.Ok? && Serves(r.value, files) && Labelled(r.value)
  {
    hide Path;
    hide UnpackFiles;
    hide Image;
    hide SizeFrom;
    UnpackOfPack(files, utf8);
    TreeOfMap(files, UnpackFiles(Image(files), utf8).value, listing);
    LabelledFromChildren(EmptyDir([], []));
    TreeLabelled(EmptyDir([], []), listing);
  }

  lemma FileOf(m: map<Name, seq<Byte>>, files: seq<File>, n: Name)
    requires Holds(m, files) && n in m
    ensures exists j | 0 <= j < |files| :: files[j] == File(n, m[n])
  {
    assert Named(files, n);
  }
}
