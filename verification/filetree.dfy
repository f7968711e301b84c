/**
 * The directory tree built from the flat file list of the directory picker
 * (`buildFileTree`): each `/`-separated relative path is walked from the root,
 * creating a directory object for every component but the last, and the file
 * itself is stored under the last component.
 */
module FileTree {
  import opened Wrappers
  import opened Text

  /** A picked file: its `webkitRelativePath`, its modification time and the text a reader would decode. */
  datatype FileHandle = FileHandle(relativePath: string, lastModified: int, content: string)

  /** A directory object (child name to child) or a file stored at a name. */
  datatype Node = Dir(children: map<string, Node>) | Leaf(file: FileHandle)

  /** The components of a file's relative path, `path.split('/')`. */
  function Components(f: FileHandle): (parts: seq<string>)
    ensures |parts| >= 1
    ensures Join(parts, "/") == f.relativePath
  {
    JoinSplit(f.relativePath, "/");
    Split(f.relativePath, "/")
  }

  /**
   * Stores `f` under the component path `parts` below `t`. A missing directory
   * is created; an existing directory is reused; a file met on the way is kept
   * as it is (further writes would land on the file object itself, which the
   * tree never shows), so `f` is then lost.
   */
  function Insert(t: Node, parts: seq<string>, f: FileHandle): (r: Node)
    requires |parts| > 0
    ensures t.Dir? ==> r.Dir?
    ensures t.Leaf? ==> r == t
    decreases |parts|
  {
    match t
    case Leaf(_) => t
    case Dir(m) =>
      var name := parts[0];
      if |parts| == 1 then Dir(m[name := Leaf(f)])
      else
        var child := if name in m then m[name] else Dir(map[]);
        Dir(m[name := Insert(child, parts[1..], f)])
  }

  /** `buildFileTree(files)`: the files inserted one after another into an empty directory. */
  function Build(files: seq<FileHandle>): (r: Node)
    ensures r.Dir?
  {
    if |files| == 0 then Dir(map[])
    else
      var last := files[|files| - 1];
      Insert(Build(files[..|files| - 1]), Components(last), last)
  }

  /** The file found by following the component path `p` from `t`, if `p` ends at a file. */
  function LeafAt(t: Node, p: seq<string>): Option<FileHandle>
    decreases |p|
  {
    match t
    case Leaf(f) => if p == [] then Some(f) else None
    case Dir(m) => if p != [] && p[0] in m then LeafAt(m[p[0]], p[1..]) else None
  }

  /** The last file of `files` whose component path is `p`. */
  function Latest(files: seq<FileHandle>, p: seq<string>): Option<FileHandle> {
    if |files| == 0 then None
    else
      var last := files[|files| - 1];
      if Components(last) == p then Some(last) else Latest(files[..|files| - 1], p)
  }

  /** `Latest` finds a file exactly when one has path `p`, and then the last such file. */
  lemma LatestFacts(files: seq<FileHandle>, p: seq<string>)
    ensures Latest(files, p).None? <==> forall i :: 0 <= i < |files| ==> Components(files[i]) != p
    ensures Latest(files, p).Some? ==>
              exists i :: 0 <= i < |files| && files[i] == Latest(files, p).value && Components(files[i]) == p
                          && forall j :: i < j < |files| ==> Components(files[j]) != p
  {
    LatestNone(files, p);
    if Latest(files, p).Some? {
      var i := LatestWitness(files, p);
    }
  }

  lemma {:induction false} LatestNone(files: seq<FileHandle>, p: seq<string>)
    ensures Latest(files, p).None? <==> forall i :: 0 <= i < |files| ==> Components(files[i]) != p
    decreases |files|
  {
    if |files| > 0 {
      var init := files[..|files| - 1];
      LatestNone(init, p);
      assert forall i :: 0 <= i < |init| ==> init[i] == files[i];
    }
  }

  /** The position of the file `Latest` returns: it has path `p` and no later file does. */
  lemma {:induction false} LatestWitness(files: seq<FileHandle>, p: seq<string>) returns (i: nat)
    requires Latest(files, p).Some?
    ensures i < |files| && files[i] == Latest(files, p).value && Components(files[i]) == p
    ensures forall j :: i < j < |files| ==> Components(files[j]) != p
    decreases |files|
  {
    var init := files[..|files| - 1];
    if Components(files[|files| - 1]) == p {
      i := |files| - 1;
    } else {
      i := LatestWitness(init, p);
      assert forall j :: 0 <= j < |init| ==> init[j] == files[j];
    }
  }

  predicate ProperPrefix(a: seq<string>, b: seq<string>) {
    |a| < |b| && b[..|a|] == a
  }

  /** No file's component path is a proper prefix of another's, as in a real directory listing. */
  ghost predicate PrefixFree(files: seq<FileHandle>) {
    forall i, j :: 0 <= i < |files| && 0 <= j < |files| ==>
      !ProperPrefix(Components(files[i]), Components(files[j]))
  }

  lemma PrefixFreeInit(files: seq<FileHandle>)
    requires PrefixFree(files) && |files| > 0
    ensures PrefixFree(files[..|files| - 1])
  {
    var init := files[..|files| - 1];
    forall i, j | 0 <= i < |init| && 0 <= j < |init|
      ensures !ProperPrefix(Components(init[i]), Components(init[j]))
    {
      assert init[i] == files[i] && init[j] == files[j];
    }
  }

  /** A shared first component does not change which path is a proper prefix of the other. */
  lemma ConsPrefix(n: string, a: seq<string>, b: seq<string>)
    ensures ProperPrefix([n] + a, [n] + b) <==> ProperPrefix(a, b)
  {
    if |a| < |b| {
      var x, y := [n] + a, [n] + b;
      assert y[..|x|] == [n] + b[..|a|];
      if y[..|x|] == x {
        assert b[..|a|] == y[..|x|][1..] == x[1..] == a;
      }
    }
  }

  /**
   * Inserting at `q`, when no file blocks the way to `q`, puts `f` at `q`, leaves
   * nothing at a path above or below `q`, and changes nothing elsewhere.
   */
  lemma {:induction false} InsertLeafAt(t: Node, q: seq<string>, f: FileHandle, p: seq<string>)
    requires |q| > 0
    requires forall k :: 0 <= k < |q| ==> LeafAt(t, q[..k]) == None
    ensures p == q ==> LeafAt(Insert(t, q, f), p) == Some(f)
    ensures ProperPrefix(p, q) || ProperPrefix(q, p) ==> LeafAt(Insert(t, q, f), p) == None
    ensures p != q && !ProperPrefix(p, q) && !ProperPrefix(q, p) ==>
              LeafAt(Insert(t, q, f), p) == LeafAt(t, p)
    decreases |q|
  {
    assert q[..0] == [];
    var m := t.children;
    var n := q[0];
    var r := Insert(t, q, f);
    if |q| == 1 {
      assert r == Dir(m[n := Leaf(f)]);
      if p != [] && p[0] == n {
        assert q == p[..1];
      }
    } else {
      var child := if n in m then m[n] else Dir(map[]);
      var q' := q[1..];
      assert r == Dir(m[n := Insert(child, q', f)]);
      forall k | 0 <= k < |q'|
        ensures LeafAt(child, q'[..k]) == None
      {
        assert q[..k + 1] == [n] + q'[..k];
        assert q[..k + 1][1..] == q'[..k];
        if n !in m {
          assert child == Dir(map[]);
        }
      }
      if p != [] && p[0] == n {
        var p' := p[1..];
        InsertLeafAt(child, q', f, p');
        assert p == [n] + p';
        assert q == [n] + q';
        assert p == q <==> p' == q';
        ConsPrefix(n, p', q');
        ConsPrefix(n, q', p');
        if n !in m {
          assert LeafAt(child, p') == None;
        }
      } else if p != [] {
        assert !ProperPrefix(q, p) && !ProperPrefix(p, q);
      }
    }
  }

  /**
   * For a prefix-free listing, the file reached through any component path is
   * the last input file with that path, and no path that no input has leads to
   * a file: every input path leads through directories to its file, and a later
   * duplicate replaces an earlier one.
   */
  lemma {:induction false} BuildLeafAt(files: seq<FileHandle>, p: seq<string>)
    requires PrefixFree(files)
    ensures LeafAt(Build(files), p) == Latest(files, p)
    decreases |files|
  {
    if |files| > 0 {
      var init := files[..|files| - 1];
      var last := files[|files| - 1];
      var q := Components(last);
      PrefixFreeInit(files);
      forall k | 0 <= k < |q|
        ensures LeafAt(Build(init), q[..k]) == None
      {
        BuildLeafAt(init, q[..k]);
        LatestFacts(init, q[..k]);
        forall i | 0 <= i < |init|
          ensures Components(init[i]) != q[..k]
        {
          assert files[i] == init[i];
          assert !ProperPrefix(Components(files[i]), q);
        }
      }
      InsertLeafAt(Build(init), q, last, p);
      BuildLeafAt(init, p);
      if ProperPrefix(p, q) || ProperPrefix(q, p) {
        forall i | 0 <= i < |init|
          ensures Components(init[i]) != p
        {
          assert files[i] == init[i];
          assert !ProperPrefix(Components(files[i]), q) && !ProperPrefix(q, Components(files[i]));
        }
        LatestFacts(init, p);
      }
    }
  }

  /** The component paths at which `t` holds a file; one per file shown. */
  ghost function LeafPaths(t: Node): set<seq<string>>
    decreases t
  {
    match t
    case Leaf(_) => {[]}
    case Dir(m) => set k, p | k in m && p in LeafPaths(m[k]) :: [k] + p
  }

  lemma {:induction false} LeafPathsAt(t: Node, p: seq<string>)
    ensures p in LeafPaths(t) <==> LeafAt(t, p).Some?
    decreases t
  {
    match t
    case Leaf(_) =>
    case Dir(m) =>
      if p != [] && p[0] in m {
        LeafPathsAt(m[p[0]], p[1..]);
        assert p == [p[0]] + p[1..];
      }
      if p in LeafPaths(t) {
        var k, p' :| k in m && p' in LeafPaths(m[k]) && p == [k] + p';
        assert p[1..] == p';
        LeafPathsAt(m[k], p');
      }
  }

  /** For a prefix-free listing, the tree holds a file exactly at the component paths of the inputs. */
  lemma BuildLeafPaths(files: seq<FileHandle>, p: seq<string>)
    requires PrefixFree(files)
    ensures p in LeafPaths(Build(files)) <==> exists i :: 0 <= i < |files| && Components(files[i]) == p
  {
    LeafPathsAt(Build(files), p);
    BuildLeafAt(files, p);
    LatestFacts(files, p);
  }

  /** The component paths of the input files. */
  ghost function InputComponents(files: seq<FileHandle>): set<seq<string>> {
    set i | 0 <= i < |files| :: Components(files[i])
  }

  /** The distinct relative paths among the input files. */
  ghost function PathSet(files: seq<FileHandle>): set<string> {
    set i | 0 <= i < |files| :: files[i].relativePath
  }

  lemma InputComponentsGrow(files: seq<FileHandle>)
    requires |files| > 0
    ensures InputComponents(files) ==
              InputComponents(files[..|files| - 1]) + {Components(files[|files| - 1])}
  {
    var init := files[..|files| - 1];
    forall p | p in InputComponents(files)
      ensures p in InputComponents(init) + {Components(files[|files| - 1])}
    {
      var i :| 0 <= i < |files| && Components(files[i]) == p;
      if i < |init| { assert init[i] == files[i]; }
    }
    forall p | p in InputComponents(init)
      ensures p in InputComponents(files)
    {
      var i :| 0 <= i < |init| && Components(init[i]) == p;
      assert files[i] == init[i];
    }
  }

  lemma PathSetGrow(files: seq<FileHandle>)
    requires |files| > 0
    ensures PathSet(files) == PathSet(files[..|files| - 1]) + {files[|files| - 1].relativePath}
  {
    var init := files[..|files| - 1];
    forall x | x in PathSet(files)
      ensures x in PathSet(init) + {files[|files| - 1].relativePath}
    {
      var i :| 0 <= i < |files| && files[i].relativePath == x;
      if i < |init| { assert init[i] == files[i]; }
    }
    forall x | x in PathSet(init)
      ensures x in PathSet(files)
    {
      var i :| 0 <= i < |init| && init[i].relativePath == x;
      assert files[i] == init[i];
    }
  }

  /** Two files have the same component path exactly when they have the same relative path. */
  lemma ComponentsInjective(f: FileHandle, g: FileHandle)
    ensures Components(f) == Components(g) <==> f.relativePath == g.relativePath
  {
  }

  lemma SeenBefore(files: seq<FileHandle>, f: FileHandle)
    ensures Components(f) in InputComponents(files) <==> f.relativePath in PathSet(files)
  {
    if Components(f) in InputComponents(files) {
      var i :| 0 <= i < |files| && Components(files[i]) == Components(f);
      ComponentsInjective(files[i], f);
    }
    if f.relativePath in PathSet(files) {
      var i :| 0 <= i < |files| && files[i].relativePath == f.relativePath;
      ComponentsInjective(files[i], f);
    }
  }

  /** Distinct relative paths have distinct component paths, so both sets have the same size. */
  lemma {:induction false} ComponentsCount(files: seq<FileHandle>)
    ensures |InputComponents(files)| == |PathSet(files)|
    decreases |files|
  {
    if |files| == 0 {
      assert InputComponents(files) == {};
      assert PathSet(files) == {};
    } else {
      var init := files[..|files| - 1];
      ComponentsCount(init);
      InputComponentsGrow(files);
      PathSetGrow(files);
      SeenBefore(init, files[|files| - 1]);
    }
  }

  /**
   * For a prefix-free listing, the tree holds a file exactly at the component
   * paths of the inputs, and the number of files it holds is the number of
   * distinct input paths.
   */
  lemma BuildLeafCount(files: seq<FileHandle>)
    requires PrefixFree(files)
    ensures LeafPaths(Build(files)) == InputComponents(files)
    ensures |LeafPaths(Build(files))| == |PathSet(files)|
  {
    forall p
      ensures p in LeafPaths(Build(files)) <==> p in InputComponents(files)
    {
      BuildLeafPaths(files, p);
    }
    ComponentsCount(files);
  }

  /** Every file below `t` sits at its own component path, `t` itself being at `q`. */
  ghost predicate Placed(t: Node, q: seq<string>)
    decreases t
  {
    match t
    case Leaf(f) => Components(f) == q
    case Dir(m) => forall k :: k in m ==> Placed(m[k], q + [k])
  }

  lemma {:induction false} InsertPlaced(t: Node, q: seq<string>, rest: seq<string>, f: FileHandle)
    requires Placed(t, q) && |rest| > 0 && Components(f) == q + rest
    ensures Placed(Insert(t, rest, f), q)
    decreases |rest|
  {
    match t
    case Leaf(_) =>
    case Dir(m) =>
      var n := rest[0];
      if |rest| > 1 {
        var child := if n in m then m[n] else Dir(map[]);
        assert Placed(child, q + [n]);
        assert q + rest == (q + [n]) + rest[1..];
        InsertPlaced(child, q + [n], rest[1..], f);
      } else {
        assert rest == [n];
      }
  }

  /** Whatever the listing, every file of the built tree sits at its own path. */
  lemma {:induction false} BuildPlaced(files: seq<FileHandle>)
    ensures Placed(Build(files), [])
    decreases |files|
  {
    if |files| > 0 {
      var last := files[|files| - 1];
      BuildPlaced(files[..|files| - 1]);
      assert [] + Components(last) == Components(last);
      InsertPlaced(Build(files[..|files| - 1]), [], Components(last), last);
    }
  }
}
