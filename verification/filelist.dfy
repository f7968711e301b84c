/**
 * The file list (`updateFileList`) as a pure function from a directory node and
 * an accumulated path prefix to the rows it displays. The DOM nesting is kept:
 * a folder row holds the rows of its contents. Per directory, folders come
 * first and then files, each group sorted by name; a folder's key is
 * `prefix + name` and its contents get the prefix `prefix + name + '/'`; a
 * file's checkbox carries the data path `prefix + name`.
 */
module FileList {
  import opened Text
  import opened Ordering
  import opened FileTree
  import opened FolderStates

  datatype Row =
    | FolderRow(name: string, fullPath: string, expanded: bool, contents: seq<Row>)
    | FileRow(name: string, dataPath: string, file: FileHandle)

  /**
   * What a correct display of the directory `m` at `prefix` is: one row per
   * entry, folders before files, each group in increasing name order, and each
   * row showing its entry with the right paths and expansion state.
   */
  ghost predicate Depicts(rows: seq<Row>, m: map<string, Node>, prefix: string, states: States,
                          lt: (string, string) -> bool)
    decreases rows
  {
    && |rows| == |m|
    && (forall i :: 0 <= i < |rows| ==> rows[i].name in m)
    && (forall i, j :: 0 <= i < j < |rows| && rows[i].FileRow? ==> rows[j].FileRow?)
    && (forall i, j :: 0 <= i < j < |rows| && rows[i].FileRow? == rows[j].FileRow? ==>
          lt(rows[i].name, rows[j].name))
    && (forall i :: 0 <= i < |rows| ==> RowDepicts(rows[i], m[rows[i].name], prefix, states, lt))
  }

  /** One row showing the entry `child` of a directory displayed at `prefix`. */
  ghost predicate RowDepicts(row: Row, child: Node, prefix: string, states: States,
                             lt: (string, string) -> bool)
    decreases row
  {
    match row
    case FolderRow(name, fullPath, expanded, contents) =>
      && child.Dir?
      && fullPath == prefix + name
      && expanded == IsExpanded(states, fullPath)
      && Depicts(contents, child.children, fullPath + "/", states, lt)
    case FileRow(name, dataPath, file) =>
      child == Leaf(file) && dataPath == prefix + name
  }

  function FolderNames(m: map<string, Node>): set<string> {
    set k | k in m && m[k].Dir?
  }

  function FileNames(m: map<string, Node>): set<string> {
    set k | k in m && m[k].Leaf?
  }

  /** `updateFileList(node, container, prefix)`; only ever called on directories. */
  function Render(t: Node, prefix: string, states: States, lt: (string, string) -> bool): seq<Row>
    requires IsStrictTotalOrder(lt)
    decreases t, 1
  {
    match t
    case Leaf(_) => []
    case Dir(m) =>
      FolderRows(Sorted(FolderNames(m), lt), m, prefix, states, lt) + FileRows(Sorted(FileNames(m), lt), m, prefix)
  }

  /** The rows of the folders `names` of `m`, in the order given. */
  function FolderRows(names: seq<string>, m: map<string, Node>, prefix: string, states: States,
                      lt: (string, string) -> bool): seq<Row>
    requires IsStrictTotalOrder(lt)
    requires forall i :: 0 <= i < |names| ==> names[i] in m && m[names[i]].Dir?
    decreases Dir(m), 0, |names|
  {
    if names == [] then []
    else
      var name := names[0];
      var fullPath := prefix + name;
      [FolderRow(name, fullPath, IsExpanded(states, fullPath), Render(m[name], fullPath + "/", states, lt))]
      + FolderRows(names[1..], m, prefix, states, lt)
  }

  /**
   * The display of a directory is a correct one: every entry once, folders
   * before files, each group sorted, each row with the right paths and state.
   */
  lemma {:induction false} RenderDepicts(t: Node, prefix: string, states: States, lt: (string, string) -> bool)
    requires IsStrictTotalOrder(lt)
    ensures t.Dir? ==> Depicts(Render(t, prefix, states, lt), t.children, prefix, states, lt)
    decreases t, 1
  {
    match t
    case Leaf(_) =>
    case Dir(m) =>
      var folders := Sorted(FolderNames(m), lt);
      var files := Sorted(FileNames(m), lt);
      FolderRowsDepict(folders, m, prefix, states, lt);
      GroupsDepict(folders, files, FolderRows(folders, m, prefix, states, lt), FileRows(files, m, prefix),
                   m, prefix, states, lt);
  }

  /** Each folder row shows its folder, with the contents displayed one level deeper. */
  lemma {:induction false} FolderRowsDepict(names: seq<string>, m: map<string, Node>, prefix: string,
                                            states: States, lt: (string, string) -> bool)
    requires IsStrictTotalOrder(lt)
    requires forall i :: 0 <= i < |names| ==> names[i] in m && m[names[i]].Dir?
    ensures |FolderRows(names, m, prefix, states, lt)| == |names|
    ensures forall i :: 0 <= i < |names| ==>
              FolderRows(names, m, prefix, states, lt)[i].FolderRow? && FolderRows(names, m, prefix, states, lt)[i].name == names[i]
    ensures forall i :: 0 <= i < |names| ==>
              RowDepicts(FolderRows(names, m, prefix, states, lt)[i], m[names[i]], prefix, states, lt)
    decreases Dir(m), 0, |names|
  {
    if names != [] {
      var name := names[0];
      var rows := FolderRows(names, m, prefix, states, lt);
      var rest := FolderRows(names[1..], m, prefix, states, lt);
      RenderDepicts(m[name], prefix + name + "/", states, lt);
      FolderRowsDepict(names[1..], m, prefix, states, lt);
      assert rows == [rows[0]] + rest;
      forall i | 0 < i < |names|
        ensures rows[i].FolderRow? && rows[i].name == names[i]
        ensures RowDepicts(rows[i], m[names[i]], prefix, states, lt)
      {
        assert rows[i] == rest[i - 1] && names[i] == names[1..][i - 1];
      }
    }
  }

  /** The rows of the files `names` of `m`, in the order given. */
  function FileRows(names: seq<string>, m: map<string, Node>, prefix: string): (rows: seq<Row>)
    requires forall i :: 0 <= i < |names| ==> names[i] in m && m[names[i]].Leaf?
    ensures |rows| == |names|
    ensures forall i :: 0 <= i < |rows| ==> rows[i].FileRow? && rows[i].name == names[i]
    ensures forall i :: 0 <= i < |rows| ==>
              rows[i].dataPath == prefix + names[i] && Leaf(rows[i].file) == m[names[i]]
  {
    if names == [] then []
    else [FileRow(names[0], prefix + names[0], m[names[0]].file)] + FileRows(names[1..], m, prefix)
  }

  /** The sorted folder rows followed by the sorted file rows depict the whole directory. */
  lemma GroupsDepict(folders: seq<string>, files: seq<string>, folderRows: seq<Row>, fileRows: seq<Row>,
                     m: map<string, Node>, prefix: string, states: States, lt: (string, string) -> bool)
    requires IsStrictTotalOrder(lt)
    requires |folders| == |FolderNames(m)| && SortedBy(folders, lt)
    requires forall i :: 0 <= i < |folders| ==> folders[i] in FolderNames(m)
    requires |files| == |FileNames(m)| && SortedBy(files, lt)
    requires forall i :: 0 <= i < |files| ==> files[i] in FileNames(m)
    requires |folderRows| == |folders| && |fileRows| == |files|
    requires forall i :: 0 <= i < |folderRows| ==> folderRows[i].FolderRow? && folderRows[i].name == folders[i]
    requires forall i :: 0 <= i < |folderRows| ==> RowDepicts(folderRows[i], m[folders[i]], prefix, states, lt)
    requires forall i :: 0 <= i < |fileRows| ==> fileRows[i].FileRow? && fileRows[i].name == files[i]
    requires forall i :: 0 <= i < |fileRows| ==>
               fileRows[i].dataPath == prefix + files[i] && Leaf(fileRows[i].file) == m[files[i]]
    ensures Depicts(folderRows + fileRows, m, prefix, states, lt)
  {
    var rows := folderRows + fileRows;
    assert m.Keys == FolderNames(m) + FileNames(m);
    assert FolderNames(m) !! FileNames(m);
    assert |rows| == |m|;
    forall i | 0 <= i < |rows|
      ensures rows[i].name in m && RowDepicts(rows[i], m[rows[i].name], prefix, states, lt)
    {
      if i >= |folderRows| {
        assert rows[i] == fileRows[i - |folderRows|];
      }
    }
    forall i, j | 0 <= i < j < |rows| && rows[i].FileRow? == rows[j].FileRow?
      ensures lt(rows[i].name, rows[j].name)
    {
      if j < |folderRows| {
      } else {
        assert rows[j] == fileRows[j - |folderRows|];
        assert i >= |folderRows|;
        assert rows[i] == fileRows[i - |folderRows|];
      }
    }
  }

  /** Every file row in `rows`, at any depth, carries its own file's relative path. */
  ghost predicate DataPathsMatch(rows: seq<Row>)
    decreases rows
  {
    forall i :: 0 <= i < |rows| ==> RowDataPathMatches(rows[i])
  }

  ghost predicate RowDataPathMatches(row: Row)
    decreases row
  {
    match row
    case FileRow(_, dataPath, file) => dataPath == file.relativePath
    case FolderRow(_, _, _, contents) => DataPathsMatch(contents)
  }

  /** The prefix under which the contents of the directory at component path `q` are shown. */
  function DirPrefix(q: seq<string>): string {
    if q == [] then "" else Join(q, "/") + "/"
  }

  lemma DirPrefixAppend(q: seq<string>, name: string)
    ensures DirPrefix(q) + name == Join(q + [name], "/")
  {
    if q != [] {
      JoinLast(q + [name], "/");
      assert (q + [name])[..|q|] == q;
    }
  }

  /** A display of a directory whose files all sit at their own paths shows each file under its own path. */
  lemma {:induction false} DepictsPlaced(rows: seq<Row>, m: map<string, Node>, q: seq<string>,
                                         states: States, lt: (string, string) -> bool)
    requires Depicts(rows, m, DirPrefix(q), states, lt) && Placed(Dir(m), q)
    ensures DataPathsMatch(rows)
    decreases rows
  {
    forall i | 0 <= i < |rows|
      ensures RowDataPathMatches(rows[i])
    {
      var row := rows[i];
      var child := m[row.name];
      assert RowDepicts(row, child, DirPrefix(q), states, lt);
      assert Placed(child, q + [row.name]);
      DirPrefixAppend(q, row.name);
      match row
      case FileRow(_, _, _) =>
      case FolderRow(name, fullPath, _, contents) =>
        assert fullPath + "/" == DirPrefix(q + [name]);
        DepictsPlaced(contents, child.children, q + [name], states, lt);
    }
  }

  /**
   * The checkbox of every file row of the displayed tree carries the relative
   * path of the file it shows, so checking it stores the content under that path.
   */
  lemma RenderDataPaths(files: seq<FileHandle>, states: States, lt: (string, string) -> bool)
    requires IsStrictTotalOrder(lt)
    ensures DataPathsMatch(Render(Build(files), "", states, lt))
  {
    BuildPlaced(files);
    RenderDepicts(Build(files), "", states, lt);
    DepictsPlaced(Render(Build(files), "", states, lt), Build(files).children, [], states, lt);
  }
}
