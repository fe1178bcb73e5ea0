/**
 * The file explorer panel: the icon of each tree row, the root node built
 * from a `readDirectory` reply, the set of expanded folders, the rows the
 * tree renders, and the language handed to the editor when a file is picked.
 * The IPC replies are parameters.
 */
module FileExplorer {
  import opened Wrappers
  import opened Strings
  import FileSystem

  /** The pictures the explorer and the editor show next to a name. */
  datatype Icon =
    | OpenFolder | ClosedFolder | Snake | Scroll | BlueBook | Atom | Clipboard | Memo | Page
    | Whale | Gear | Globe | Palette | Coffee | Gopher | Crab | Gem | Elephant | Lightning


  // ---------------------------------------------------------------------------
  // Icons
  // ---------------------------------------------------------------------------

  /** The icon table of `FileIcon`, keyed by lowercased extension. */
  function ExtensionIcon(ext: string): Option<Icon> {
    match ext
    case "py" => Some(Snake)
    case "js" => Some(Scroll)
    case "ts" => Some(BlueBook)
    case "jsx" => Some(Atom)
    case "tsx" => Some(Atom)
    case "json" => Some(Clipboard)
    case "md" => Some(Memo)
    case "txt" => Some(Page)
    case "dockerfile" => Some(Whale)
    case "yml" => Some(Gear)
    case "yaml" => Some(Gear)
    case "html" => Some(Globe)
    case "css" => Some(Palette)
    case "java" => Some(Coffee)
    case "go" => Some(Gopher)
    case "rs" => Some(Crab)
    case "rb" => Some(Gem)
    case "php" => Some(Elephant)
    case "c" => Some(Lightning)
    case "cpp" => Some(Lightning)
    case "h" => Some(Lightning)
    case _ => None
  }

  predicate IsFolderIcon(icon: Icon) {
    icon == OpenFolder || icon == ClosedFolder
  }

  /**
   * `FileIcon`: a folder shows open or closed by its expansion; a file named
   * `dockerfile` in any case shows the whale; any other file is looked up by
   * the lowercased text after its last `.` (the whole name when it has none),
   * with a page as the default.
   */
  function FileIcon(name: string, isDirectory: bool, expanded: bool): (icon: Icon)
    ensures IsFolderIcon(icon) <==> isDirectory
    ensures isDirectory ==> (icon == OpenFolder <==> expanded)
    ensures !isDirectory && Lower(name) == "dockerfile" ==> icon == Whale
  {
    if isDirectory then (if expanded then OpenFolder else ClosedFolder)
    else if Lower(name) == "dockerfile" then Whale
    else ExtensionIcon(Lower(LastSegment(name, Dot))).GetOr(Page)
  }

  /** A name that lowercases to `dockerfile` has no dot in it. */
  lemma DockerfileHasNoDot(name: string)
    requires Lower(name) == "dockerfile"
    ensures NoneIn(name, Dot)
  {
    forall i | 0 <= i < |name| ensures name[i] !in Dot {
      assert Lower(name)[i] == LowerChar(name[i]);
    }
  }

  /**
   * The explicit `dockerfile` test never changes the outcome: without a dot
   * the whole name is the lookup key, and the table maps `dockerfile` to the
   * whale too.
   */
  lemma DockerfileRuleRedundant(name: string, expanded: bool)
    ensures FileIcon(name, false, expanded) == ExtensionIcon(Lower(LastSegment(name, Dot))).GetOr(Page)
  {
    if Lower(name) == "dockerfile" {
      DockerfileHasNoDot(name);
      LastSegmentUnique(name, Dot, LastSegment(name, Dot), name);
    }
  }

  /** The icon of a name does not depend on the case of its letters. */
  lemma FileIconIgnoresCase(name: string, isDirectory: bool, expanded: bool)
    ensures FileIcon(Lower(name), isDirectory, expanded) == FileIcon(name, isDirectory, expanded)
  {
    LowerIdempotent(name);
    LastSegmentLower(name, Dot);
    LowerIdempotent(LastSegment(name, Dot));
  }

  /** For `stem.ext` only the text after the last dot matters, whatever the stem. */
  lemma FileIconOfDottedName(stem: string, ext: string, expanded: bool)
    requires NoneIn(ext, Dot)
    ensures FileIcon(stem + "." + ext, false, expanded) == ExtensionIcon(Lower(ext)).GetOr(Page)
  {
    var name := stem + "." + ext;
    DockerfileRuleRedundant(name, expanded);
    assert name[|name| - |ext|..] == ext;
    assert name[|name| - |ext| - 1] == '.';
    LastSegmentUnique(name, Dot, LastSegment(name, Dot), ext);
  }

  // ---------------------------------------------------------------------------
  // Loading the workspace
  // ---------------------------------------------------------------------------

  /** The root's label: the last segment of the path on `/` or `\`, `Project` when that is empty. */
  function RootName(dirPath: string): (name: string)
    ensures name != ""
    ensures name == "Project" || (EndsWith(dirPath, name) && NoneIn(name, PathSeparators))
    ensures LastPathSegment(dirPath) != "" ==> name == LastPathSegment(dirPath)
    ensures LastPathSegment(dirPath) == "" ==> name == "Project"
  {
    var last := LastPathSegment(dirPath);
    if last == "" then "Project" else last
  }

  /** Below any parent directory, the label is the folder's own name. */
  lemma RootNameOfChild(parent: string, base: string)
    requires base != "" && NoneIn(base, PathSeparators)
    ensures RootName(parent + "/" + base) == base
  {
    assert parent + "/" + base == parent + ['/'] + base;
    LastPathSegmentOfChild(parent, '/', base);
  }

  /** A path ending with a separator is labelled `Project`. */
  lemma RootNameTrailingSeparator(dirPath: string)
    requires |dirPath| > 0 && dirPath[|dirPath| - 1] in PathSeparators
    ensures RootName(dirPath) == "Project"
  {
  }

  /** What `fs.readDirectory(dirPath, 2)` answered: a status with the files, or a thrown error. */
  datatype ReadReply = Listed(success: bool, files: Option<seq<FileSystem.FileNode>>) | Threw(message: string)

  /** The IPC handler's reply for the manager's result. */
  function ReplyOf(read: Result<seq<FileSystem.FileNode>, string>): ReadReply {
    match read
    case Success(files) => Listed(true, Some(files))
    case Failure(_) => Listed(false, None)
  }

  /** The outcome of `loadDirectory`: the tree, and the error text it recorded, if any. */
  datatype Loaded = Loaded(tree: Option<FileSystem.FileNode>, error: Option<string>)

  const ExplorerDepth: nat := 2

  /**
   * `loadDirectory(dirPath)`: a successful reply with files becomes a root
   * directory node labelled `RootName(dirPath)` holding them; anything else is
   * no tree, and only a thrown call records an error.
   */
  function LoadDirectory(dirPath: string, reply: ReadReply): (r: Loaded)
    ensures r.tree.Some? <==> reply.Listed? && reply.success && reply.files.Some?
    ensures r.tree.Some? ==>
      && r.tree.value.path == dirPath
      && r.tree.value.name == RootName(dirPath)
      && r.tree.value.isDirectory
      && r.tree.value.children == FileSystem.Present(reply.files.value)
    ensures r.error.Some? <==> reply.Threw?
    ensures reply.Threw? ==> r.error == Some(reply.message)
  {
    match reply
    case Threw(message) => Loaded(None, Some(message))
    case Listed(success, files) =>
      if success && files.Some? then Loaded(Some(FileSystem.FileNode(RootName(dirPath), dirPath, true, FileSystem.Present(files.value), None)), None)
      else Loaded(None, None)
  }

  /**
   * Through the IPC handler, the explorer gets a tree exactly when the manager
   * reads the directory, and the root's children are then in the manager's
   * order: directories first, then by name.
   */
  lemma LoadThroughManager(dirPath: string, dir: FileSystem.Dir)
    ensures var read := FileSystem.ReadDirectory(dirPath, dir, ExplorerDepth);
      var r := LoadDirectory(dirPath, ReplyOf(read));
      && (r.tree.Some? <==> read.Success?)
      && r.error.None?
      && (r.tree.Some? ==> r.tree.value.children == FileSystem.Present(read.value) && FileSystem.SortedNodes(read.value))
  {
    var read := FileSystem.ReadDirectory(dirPath, dir, ExplorerDepth);
    if read.Success? {
      FileSystem.ReadDirectorySorted(dirPath, dir, ExplorerDepth);
    }
  }

  /** The panel's state. An absent workspace path is the empty string. */
  datatype Explorer = Explorer(tree: Option<FileSystem.FileNode>, expanded: set<string>, loading: bool, error: Option<string>)

  /**
   * The effect of a new workspace path: no path clears the tree; otherwise the
   * error is cleared, the directory loaded, and when a tree arrives only its
   * root is expanded.
   */
  function OnWorkspaceChange(s: Explorer, workspace: string, reply: ReadReply): (r: Explorer)
    ensures workspace == "" ==> r == s.(tree := None)
    ensures workspace != "" ==> !r.loading && r.tree == LoadDirectory(workspace, reply).tree && r.error == LoadDirectory(workspace, reply).error
    ensures workspace != "" && r.tree.Some? ==> r.expanded == {workspace}
    ensures r.tree.None? ==> r.expanded == s.expanded
  {
    if workspace == "" then s.(tree := None)
    else
      var loaded := LoadDirectory(workspace, reply);
      Explorer(loaded.tree, if loaded.tree.Some? then {loaded.tree.value.path} else s.expanded, false, loaded.error)
  }

  /**
   * `handleRefresh`: reloads the tree but keeps the expanded folders and an
   * earlier error unless the reload throws.
   */
  function Refresh(s: Explorer, workspace: string, reply: ReadReply): (r: Explorer)
    ensures r.expanded == s.expanded
    ensures workspace == "" ==> r == s
    ensures workspace != "" ==> r.tree == LoadDirectory(workspace, reply).tree && !r.loading
    ensures workspace != "" ==> r.error == (if reply.Threw? then Some(reply.message) else s.error)
  {
    if workspace == "" then s
    else
      var loaded := LoadDirectory(workspace, reply);
      s.(tree := loaded.tree, loading := false, error := if loaded.error.Some? then loaded.error else s.error)
  }

  /** A refresh loads the same tree as opening the workspace, but unlike it keeps the expansion. */
  lemma RefreshAgreesWithOpen(s: Explorer, workspace: string, reply: ReadReply)
    requires workspace != ""
    ensures Refresh(s, workspace, reply).tree == OnWorkspaceChange(s, workspace, reply).tree
    ensures Refresh(s, workspace, reply).expanded == s.expanded
    ensures OnWorkspaceChange(s, workspace, reply).tree.Some? ==> OnWorkspaceChange(s, workspace, reply).expanded == {workspace}
  {
  }

  /** The "no project" view is shown without a path or without a tree. */
  predicate ShowsEmptyState(s: Explorer, workspace: string) {
    workspace == "" || s.tree.None?
  }

  /** What the folder dialog answered: a status with the chosen path, or a thrown error. */
  datatype DialogReply = Chosen(success: bool, path: Option<string>) | DialogThrew(message: string)

  /**
   * `handleOpenFolder`: a successful dialog with a non-empty path hands that
   * path to the parent as the new workspace; a thrown call records its message.
   */
  function HandleOpenFolder(s: Explorer, reply: DialogReply): (r: (Explorer, Option<string>))
    ensures r.1.Some? <==> reply.Chosen? && reply.success && reply.path.Some? && reply.path.value != ""
    ensures r.1.Some? ==> r.1.value == reply.path.value
    ensures reply.DialogThrew? ==> r.0 == s.(error := Some(reply.message))
    ensures reply.Chosen? ==> r.0 == s
  {
    match reply
    case DialogThrew(message) => (s.(error := Some(message)), None)
    case Chosen(success, path) =>
      if success && path.Some? && path.value != "" then (s, path) else (s, None)
  }

  /** A folder picked in the dialog always loads: the new workspace is never the empty path that clears the tree. */
  lemma OpenedFolderLoads(s: Explorer, reply: DialogReply, listing: ReadReply)
    requires HandleOpenFolder(s, reply).1.Some?
    ensures var p := HandleOpenFolder(s, reply).1.value;
      var t := OnWorkspaceChange(s, p, listing);
      && !t.loading
      && (t.tree.Some? <==> listing.Listed? && listing.success && listing.files.Some?)
      && (t.tree.Some? ==> t.expanded == {p} && t.tree.value.path == p)
  {
  }

  // ---------------------------------------------------------------------------
  // Expanding folders
  // ---------------------------------------------------------------------------

  /** `toggleFolder(path)`: the path leaves the set when present and joins it when absent. */
  function ToggleFolder(expanded: set<string>, path: string): (r: set<string>)
    ensures path in r <==> path !in expanded
    ensures forall q :: q != path ==> (q in r <==> q in expanded)
  {
    if path in expanded then expanded - {path} else expanded + {path}
  }

  /** Toggling the same folder twice restores the set. */
  lemma ToggleTwice(expanded: set<string>, path: string)
    ensures ToggleFolder(ToggleFolder(expanded, path), path) == expanded
  {
    var r := ToggleFolder(ToggleFolder(expanded, path), path);
    assert forall q :: q in r <==> q in expanded;
  }

  /** Toggles of two folders commute. */
  lemma ToggleCommutes(expanded: set<string>, p: string, q: string)
    ensures ToggleFolder(ToggleFolder(expanded, p), q) == ToggleFolder(ToggleFolder(expanded, q), p)
  {
    var a := ToggleFolder(ToggleFolder(expanded, p), q);
    var b := ToggleFolder(ToggleFolder(expanded, q), p);
    assert forall x :: x in a <==> x in b;
  }

  // ---------------------------------------------------------------------------
  // The rendered rows
  // ---------------------------------------------------------------------------

  /** One rendered line of the tree. */
  datatype Row = Row(name: string, path: string, depth: nat, indent: nat, icon: Icon, selected: bool)

  /** The left padding of a row, in pixels. */
  function Indent(depth: nat): (px: nat)
    ensures px >= 8 && (px - 8) % 16 == 0 && (px - 8) / 16 == depth
  {
    depth * 16 + 8
  }

  function RowOf(n: FileSystem.FileNode, depth: nat, expanded: set<string>, selected: Option<string>): Row {
    Row(n.name, n.path, depth, Indent(depth), FileIcon(n.name, n.isDirectory, n.path in expanded), selected == Some(n.path))
  }

  /** A directory shows its children when it is expanded and has them. */
  predicate ShowsChildren(n: FileSystem.FileNode, expanded: set<string>) {
    n.isDirectory && n.path in expanded && n.children.Present?
  }

  /** `FileTreeNode`: the node's row, then its children's rows one level deeper when it shows them. */
  function Rows(n: FileSystem.FileNode, depth: nat, expanded: set<string>, selected: Option<string>): (r: seq<Row>)
    ensures |r| >= 1 && r[0] == RowOf(n, depth, expanded, selected)
    decreases n
  {
    [RowOf(n, depth, expanded, selected)]
      + (if ShowsChildren(n, expanded) then ChildRows(n.children.nodes, depth + 1, expanded, selected) else [])
  }

  function ChildRows(ns: seq<FileSystem.FileNode>, depth: nat, expanded: set<string>, selected: Option<string>): (r: seq<Row>)
    ensures |r| >= |ns|
    decreases ns
  {
    if ns == [] then [] else Rows(ns[0], depth, expanded, selected) + ChildRows(ns[1..], depth, expanded, selected)
  }

  /** Every path in a tree. */
  function TreePaths(n: FileSystem.FileNode): set<string>
    decreases n
  {
    {n.path} + (if n.children.Present? then ForestPaths(n.children.nodes) else {})
  }

  function ForestPaths(ns: seq<FileSystem.FileNode>): set<string>
    decreases ns
  {
    if ns == [] then {} else TreePaths(ns[0]) + ForestPaths(ns[1..])
  }

  /** A collapsed folder, or a file, is a single row. */
  lemma CollapsedIsOneRow(n: FileSystem.FileNode, depth: nat, expanded: set<string>, selected: Option<string>)
    requires !ShowsChildren(n, expanded)
    ensures Rows(n, depth, expanded, selected) == [RowOf(n, depth, expanded, selected)]
  {
  }

  /** Every row is at least as deep as the node it starts from, and indented accordingly. */
  lemma {:induction false} RowsDepth(n: FileSystem.FileNode, depth: nat, expanded: set<string>, selected: Option<string>)
    ensures forall row :: row in Rows(n, depth, expanded, selected) ==> row.depth >= depth && row.indent == Indent(row.depth)
    decreases n
  {
    if ShowsChildren(n, expanded) {
      ChildRowsDepth(n.children.nodes, depth + 1, expanded, selected);
    }
  }

  lemma {:induction false} ChildRowsDepth(ns: seq<FileSystem.FileNode>, depth: nat, expanded: set<string>, selected: Option<string>)
    ensures forall row :: row in ChildRows(ns, depth, expanded, selected) ==> row.depth >= depth && row.indent == Indent(row.depth)
    decreases ns
  {
    if ns != [] {
      RowsDepth(ns[0], depth, expanded, selected);
      ChildRowsDepth(ns[1..], depth, expanded, selected);
    }
  }

  /**
   * Toggling a path that names no node of the tree leaves every rendered row
   * as it was.
   */
  lemma {:induction false} ToggleOutsideTree(n: FileSystem.FileNode, depth: nat, expanded: set<string>, selected: Option<string>, p: string)
    requires p !in TreePaths(n)
    ensures Rows(n, depth, ToggleFolder(expanded, p), selected) == Rows(n, depth, expanded, selected)
    decreases n
  {
    if n.children.Present? {
      ToggleOutsideForest(n.children.nodes, depth + 1, expanded, selected, p);
    }
  }

  lemma {:induction false} ToggleOutsideForest(ns: seq<FileSystem.FileNode>, depth: nat, expanded: set<string>, selected: Option<string>, p: string)
    requires p !in ForestPaths(ns)
    ensures ChildRows(ns, depth, ToggleFolder(expanded, p), selected) == ChildRows(ns, depth, expanded, selected)
    decreases ns
  {
    if ns != [] {
      ToggleOutsideTree(ns[0], depth, expanded, selected, p);
      ToggleOutsideForest(ns[1..], depth, expanded, selected, p);
    }
  }

  // ---------------------------------------------------------------------------
  // Opening a file
  // ---------------------------------------------------------------------------

  /**
   * `handleFileSelect`: the language from `fs.getLanguage` when it is a
   * non-empty string, `plaintext` when it is missing or empty or the call throws.
   */
  function SelectedLanguage(reply: Result<Option<string>, string>): (language: string)
    ensures language != ""
    ensures reply.Success? && reply.value.Some? && reply.value.value != "" ==> language == reply.value.value
    ensures !(reply.Success? && reply.value.Some? && reply.value.value != "") ==> language == "plaintext"
  {
    match reply
    case Success(Some(l)) => if l != "" then l else "plaintext"
    case _ => "plaintext"
  }

  /** The manager's language reaches the editor unchanged, since it is never empty. */
  lemma SelectUsesManagerLanguage(filePath: string)
    ensures SelectedLanguage(Success(Some(FileSystem.LanguageFromExtension(filePath)))) == FileSystem.LanguageFromExtension(filePath)
  {
  }
}
