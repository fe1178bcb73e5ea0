/**
 * `FileSystemManager`: the extension and image lookup tables, the tree
 * `readDirectory` builds (over an abstract directory tree instead of the
 * disk), and the guards of `setWorkspace` and `createFile`.
 */
module FileSystem {
  import opened Wrappers
  import opened Strings
  import NodePath
  import Languages

  // ---------------------------------------------------------------------------
  // Lookup tables
  // ---------------------------------------------------------------------------

  /** The extensions `getLanguageFromExtension` has an entry for. */
  const KnownExtensions: set<string> :=
    {"js", "jsx", "ts", "tsx", "py", "java", "c", "cpp", "cc", "cxx", "h", "hpp", "cs", "go", "rs", "rb",
     "php", "html", "htm", "css", "scss", "sass", "less", "json", "xml", "yaml", "yml", "md", "sql",
     "sh", "bash", "ps1", "dockerfile", "makefile", "cmake"}

  /** The languages the table names; `plaintext` is not one of them. */
  const TableLanguages: set<string> :=
    {"javascript", "typescript", "python", "java", "c", "cpp", "csharp", "go", "rust", "ruby", "php",
     "html", "css", "scss", "sass", "less", "json", "xml", "yaml", "markdown", "sql", "shell",
     "powershell", "dockerfile", "makefile", "cmake"}

  /** The editor language of a (lowercased) extension, when the table has one. */
  function ExtensionLanguage(ext: string): (language: Option<string>)
    ensures language.Some? <==> ext in KnownExtensions
    ensures language.Some? ==> language.value in TableLanguages && language.value != ""
  {
    match ext
    case "js" => Some("javascript")
    case "jsx" => Some("javascript")
    case "ts" => Some("typescript")
    case "tsx" => Some("typescript")
    case "py" => Some("python")
    case "java" => Some("java")
    case "c" => Some("c")
    case "cpp" => Some("cpp")
    case "cc" => Some("cpp")
    case "cxx" => Some("cpp")
    case "h" => Some("c")
    case "hpp" => Some("cpp")
    case "cs" => Some("csharp")
    case "go" => Some("go")
    case "rs" => Some("rust")
    case "rb" => Some("ruby")
    case "php" => Some("php")
    case "html" => Some("html")
    case "htm" => Some("html")
    case "css" => Some("css")
    case "scss" => Some("scss")
    case "sass" => Some("sass")
    case "less" => Some("less")
    case "json" => Some("json")
    case "xml" => Some("xml")
    case "yaml" => Some("yaml")
    case "yml" => Some("yaml")
    case "md" => Some("markdown")
    case "sql" => Some("sql")
    case "sh" => Some("shell")
    case "bash" => Some("shell")
    case "ps1" => Some("powershell")
    case "dockerfile" => Some("dockerfile")
    case "makefile" => Some("makefile")
    case "cmake" => Some("cmake")
    case _ => None
  }

  /**
   * `getLanguageFromExtension(filePath)`: the lowercased `extname` without its
   * dot, looked up in the table, `plaintext` when absent.
   */
  function LanguageFromExtension(filePath: string): (language: string)
    ensures language == "plaintext" || language in TableLanguages
    ensures language == "plaintext" <==> Lower(NodePath.ExtensionOf(filePath)) !in KnownExtensions
    ensures language != ""
  {
    TableLanguagesExclude();
    ExtensionLanguage(Lower(NodePath.ExtensionOf(filePath))).GetOr("plaintext")
  }

  /** Neither the fallback nor the empty name is a language of the table. */
  lemma TableLanguagesExclude()
    ensures "plaintext" !in TableLanguages && "" !in TableLanguages
  {
  }

  /** The lookup ignores case: a path and its lowercased form get the same language. */
  lemma LanguageFromExtensionIgnoresCase(filePath: string)
    ensures LanguageFromExtension(Lower(filePath)) == LanguageFromExtension(filePath)
  {
    NodePath.ExtensionOfLower(filePath);
    LowerIdempotent(NodePath.ExtensionOf(filePath));
  }

  /** The language of a path whose extension is known and already lowercase. */
  lemma LanguageOfKnownExtension(filePath: string, ext: string)
    requires NodePath.ExtensionOf(filePath) == ext
    requires forall i :: 0 <= i < |ext| ==> !('A' <= ext[i] <= 'Z')
    ensures LanguageFromExtension(filePath) == ExtensionLanguage(ext).GetOr("plaintext")
  {
    assert Lower(ext) == ext;
  }

  lemma ExtensionOfName(stem: string, ext: string)
    requires |stem| > 0 && NoneIn(stem, Slash)
    requires NoneIn(ext, Dot) && NoneIn(ext, Slash) && |ext| > 0
    ensures NodePath.ExtensionOf(stem + "." + ext) == ext
  {
    NodePath.ExtensionOfPlainName(stem, ext);
  }

  /** Every language the code runner accepts is recognised from each of its file extensions but `.mjs`. */
  lemma RunnerExtensionsRecognised(l: Languages.Language, stem: string, ext: string)
    requires ext in Languages.FileExtensions(l) && ext != "mjs"
    requires |stem| > 0 && NoneIn(stem, Slash)
    ensures LanguageFromExtension(stem + "." + ext) == Languages.Key(l)
  {
    RunnerExtensionInTable(l, ext);
    ExtensionOfName(stem, ext);
    LanguageOfKnownExtension(stem + "." + ext, ext);
  }

  lemma RunnerExtensionInTable(l: Languages.Language, ext: string)
    requires ext in Languages.FileExtensions(l) && ext != "mjs"
    ensures NoneIn(ext, Dot) && NoneIn(ext, Slash) && |ext| > 0
    ensures forall i :: 0 <= i < |ext| ==> !('A' <= ext[i] <= 'Z')
    ensures ExtensionLanguage(ext) == Some(Languages.Key(l))
  {
    RunnerExtensionShape(l, ext);
    RunnerExtensionLanguage(l, ext);
  }

  lemma RunnerExtensionShape(l: Languages.Language, ext: string)
    requires ext in Languages.FileExtensions(l)
    ensures NoneIn(ext, Dot) && NoneIn(ext, Slash) && |ext| > 0
    ensures forall i :: 0 <= i < |ext| ==> !('A' <= ext[i] <= 'Z')
  {
  }

  lemma RunnerExtensionLanguage(l: Languages.Language, ext: string)
    requires ext in Languages.FileExtensions(l) && ext != "mjs"
    ensures ExtensionLanguage(ext) == Some(Languages.Key(l))
  {
  }

  /** `mjs` is not a key of the table. */
  lemma ModuleScriptExtensionAbsent()
    ensures ExtensionLanguage("mjs") == None
  {
  }

  /** The empty extension is not a key of the table. */
  lemma EmptyExtensionAbsent()
    ensures ExtensionLanguage("") == None
  {
  }

  /** A dotted name whose lowercase extension the table lacks is plain text. */
  lemma UnknownExtensionIsPlainText(stem: string, ext: string)
    requires |stem| > 0 && NoneIn(stem, Slash)
    requires NoneIn(ext, Dot) && NoneIn(ext, Slash) && |ext| > 0
    requires forall i :: 0 <= i < |ext| ==> !('A' <= ext[i] <= 'Z')
    requires ExtensionLanguage(ext) == None
    ensures LanguageFromExtension(stem + "." + ext) == "plaintext"
  {
    ExtensionOfName(stem, ext);
    LanguageOfKnownExtension(stem + "." + ext, ext);
  }

  /** `.mjs` files run as JavaScript but the editor shows them as plain text. */
  lemma ModuleScriptsArePlainText(stem: string)
    requires |stem| > 0 && NoneIn(stem, Slash)
    ensures LanguageFromExtension(stem + "." + "mjs") == "plaintext"
  {
    ModuleScriptExtensionAbsent();
    UnknownExtensionIsPlainText(stem, "mjs");
  }

  /** A name without a dot, such as `Dockerfile`, has no extension and is plain text. */
  lemma DotlessNameIsPlainText(name: string)
    requires |name| > 0 && NoneIn(name, Slash) && NoneIn(name, Dot)
    ensures LanguageFromExtension(name) == "plaintext"
  {
    NodePath.DotlessNameHasNoExtension(name);
    LanguageOfKnownExtension(name, "");
    EmptyExtensionAbsent();
  }

  /** `getDockerImageForLanguage(language)`. */
  function DockerImageForLanguage(language: string): (image: Option<string>)
    ensures image.Some? <==> language in Languages.SupportedLanguages
  {
    match language
    case "python" => Some("python:3.11-slim")
    case "javascript" => Some("node:20-alpine")
    case "typescript" => Some("node:20-alpine")
    case "java" => Some("eclipse-temurin:17-jdk")
    case "go" => Some("golang:1.21-alpine")
    case "rust" => Some("rust:1.73-slim")
    case "ruby" => Some("ruby:3.2-slim")
    case "php" => Some("php:8.2-cli")
    case "c" => Some("gcc:13")
    case "cpp" => Some("gcc:13")
    case _ => None
  }

  /** The image table agrees with the code runner's: same keys, same image per key. */
  lemma ImageTablesAgree(language: string)
    ensures DockerImageForLanguage(language).Some? <==> Languages.LanguageConfig(language).Some?
    ensures Languages.LanguageConfig(language).Some? ==>
      DockerImageForLanguage(language).value == Languages.Image(Languages.LanguageConfig(language).value)
  {
  }

  // ---------------------------------------------------------------------------
  // setWorkspace and createFile
  // ---------------------------------------------------------------------------

  /** What `existsSync` and `statSync` report about a path. */
  datatype PathKind = Missing | Directory | NotDirectory

  /** The manager's workspace after `setWorkspace`, and the message of the error it threw, if any. */
  datatype WorkspaceUpdate = WorkspaceUpdate(workspace: Option<string>, thrown: Option<string>)

  /**
   * `setWorkspace(path)`: an existing directory becomes the workspace; any
   * other path throws, naming the path, and the previous workspace stays.
   */
  function SetWorkspace(current: Option<string>, path: string, kind: PathKind): (r: WorkspaceUpdate)
    ensures r.thrown.None? <==> kind == Directory
    ensures kind == Directory ==> r.workspace == Some(path)
    ensures kind != Directory ==> r.workspace == current && r.thrown == Some("Invalid workspace path: " + path)
  {
    if kind == Directory then WorkspaceUpdate(Some(path), None)
    else WorkspaceUpdate(current, Some("Invalid workspace path: " + path))
  }

  /** A call to `setWorkspace`: the path and what the file system says it is. */
  datatype WorkspaceAttempt = WorkspaceAttempt(path: string, kind: PathKind)

  /** The workspace after a series of `setWorkspace` calls, errors caught by the caller. */
  function SetWorkspaces(current: Option<string>, attempts: seq<WorkspaceAttempt>): Option<string>
    decreases |attempts|
  {
    if attempts == [] then current
    else SetWorkspaces(SetWorkspace(current, attempts[0].path, attempts[0].kind).workspace, attempts[1..])
  }

  /** Call `i` named a directory and no later call did. */
  predicate LastDirectoryAt(attempts: seq<WorkspaceAttempt>, i: int) {
    && 0 <= i < |attempts| && attempts[i].kind == Directory
    && forall j :: i < j < |attempts| ==> attempts[j].kind != Directory
  }

  /**
   * After any series of calls the workspace is the path of the last call that
   * named a directory; when none did, it is the workspace from before.
   */
  lemma {:induction false} LastDirectoryWins(current: Option<string>, attempts: seq<WorkspaceAttempt>)
    ensures (forall i :: 0 <= i < |attempts| ==> attempts[i].kind != Directory) ==>
      SetWorkspaces(current, attempts) == current
    ensures forall i :: LastDirectoryAt(attempts, i) ==> SetWorkspaces(current, attempts) == Some(attempts[i].path)
    decreases |attempts|
  {
    if attempts != [] {
      var next := SetWorkspace(current, attempts[0].path, attempts[0].kind).workspace;
      LastDirectoryWins(next, attempts[1..]);
      assert forall j :: 1 <= j < |attempts| ==> attempts[j] == attempts[1..][j - 1];
    }
  }

  /** The file-system calls of `writeFile`: create the parent directories, then write. */
  datatype FsCall = MakeParentDirectories(filePath: string) | WriteFile(filePath: string, content: string)

  /** `createFile(path, content)`: refuse an existing path, otherwise write through `writeFile`. */
  function CreateFile(path: string, content: string, present: bool): (r: Result<seq<FsCall>, string>)
    ensures r.Failure? <==> present
    ensures r.Failure? ==> r.error == "File already exists: " + path
    ensures r.Success? ==> |r.value| == 2 && r.value[0] == MakeParentDirectories(path)
    ensures r.Success? ==> r.value[|r.value| - 1] == WriteFile(path, content)
  {
    if present then Failure("File already exists: " + path)
    else Success([MakeParentDirectories(path), WriteFile(path, content)])
  }

  // ---------------------------------------------------------------------------
  // readDirectory
  // ---------------------------------------------------------------------------

  /** What a directory entry reports: `isDirectory()`, `isFile()`, or neither (a link, a socket…). */
  datatype Kind = DirectoryEntry | FileEntry | OtherEntry

  /** A directory on disk: unreadable (reading it throws) or its entries in `readdir` order. */
  datatype Dir = Unreadable(error: string) | Listing(entries: seq<Item>)

  /** One entry; `contents` is what a sub-directory holds and is ignored for other kinds. */
  datatype Item = Item(name: string, kind: Kind, contents: Dir)

  /** A node's `children` field: absent (files, and directories below the depth limit) or a list. */
  datatype Children = Absent | Present(nodes: seq<FileNode>)

  datatype FileNode = FileNode(
    name: string,
    path: string,
    isDirectory: bool,
    children: Children,
    extension: Option<string>)

  /** `path.join(dir, name)` for a plain name. */
  function JoinPath(dir: string, name: string): string {
    if |dir| > 0 && dir[|dir| - 1] == '/' then dir + name else dir + "/" + name
  }

  /** Names `readDirectory` skips: hidden names and the usual dependency folders. */
  predicate Ignored(name: string) {
    StartsWith(name, ".") || name == "node_modules" || name == "__pycache__" || name == "venv" || name == ".git"
  }

  // --- the order of the sort ---------------------------------------------------

  /** Code-point order on names, the stand-in for `localeCompare`. */
  predicate NameLe(a: string, b: string)
    decreases |a|
  {
    |a| == 0 || (|b| > 0 && (a[0] < b[0] || (a[0] == b[0] && NameLe(a[1..], b[1..]))))
  }

  lemma {:induction false} NameLeTotal(a: string, b: string)
    ensures NameLe(a, b) || NameLe(b, a)
    decreases |a|
  {
    if |a| > 0 && |b| > 0 && a[0] == b[0] {
      NameLeTotal(a[1..], b[1..]);
    }
  }

  lemma {:induction false} NameLeTrans(a: string, b: string, c: string)
    requires NameLe(a, b) && NameLe(b, c)
    ensures NameLe(a, c)
    decreases |a|
  {
    if |a| > 0 && a[0] == b[0] && b[0] == c[0] {
      NameLeTrans(a[1..], b[1..], c[1..]);
    }
  }

  /** The sort key: directories first, then by name. */
  datatype SortKey = SortKey(isDirectory: bool, name: string)

  predicate Before(a: SortKey, b: SortKey) {
    (a.isDirectory && !b.isDirectory) || (a.isDirectory == b.isDirectory && NameLe(a.name, b.name))
  }

  lemma BeforeTotal(a: SortKey, b: SortKey)
    ensures Before(a, b) || Before(b, a)
  {
    NameLeTotal(a.name, b.name);
  }

  lemma BeforeTrans(a: SortKey, b: SortKey, c: SortKey)
    requires Before(a, b) && Before(b, c)
    ensures Before(a, c)
  {
    if a.isDirectory == b.isDirectory == c.isDirectory {
      NameLeTrans(a.name, b.name, c.name);
    }
  }

  function KeyOf(e: Item): SortKey {
    SortKey(e.kind == DirectoryEntry, e.name)
  }

  function NodeKey(n: FileNode): SortKey {
    SortKey(n.isDirectory, n.name)
  }

  predicate SortedItems(es: seq<Item>) {
    forall i, j :: 0 <= i < j < |es| ==> Before(KeyOf(es[i]), KeyOf(es[j]))
  }

  /** Every directory before every file, and names in order within each kind. */
  predicate SortedNodes(ns: seq<FileNode>) {
    forall i, j :: 0 <= i < j < |ns| ==> Before(NodeKey(ns[i]), NodeKey(ns[j]))
  }

  function Insert(e: Item, sorted: seq<Item>): (r: seq<Item>)
    requires SortedItems(sorted)
    ensures SortedItems(r)
    ensures multiset(r) == multiset(sorted) + multiset{e}
    decreases |sorted|
  {
    if |sorted| == 0 then [e]
    else if Before(KeyOf(e), KeyOf(sorted[0])) then
      BeforeAll(e, sorted);
      PrependSorted(e, sorted);
      [e] + sorted
    else
      HeadBeforeRest(sorted);
      var rest := Insert(e, sorted[1..]);
      BeforeTotal(KeyOf(e), KeyOf(sorted[0]));
      HeadBeforeInserted(sorted, e, rest);
      PrependSorted(sorted[0], rest);
      assert sorted == [sorted[0]] + sorted[1..];
      [sorted[0]] + rest
  }

  /** An element before the head of a sorted sequence is before all of it. */
  lemma BeforeAll(e: Item, sorted: seq<Item>)
    requires SortedItems(sorted) && |sorted| > 0
    requires Before(KeyOf(e), KeyOf(sorted[0]))
    ensures forall y :: y in sorted ==> Before(KeyOf(e), KeyOf(y))
  {
    forall y | y in sorted ensures Before(KeyOf(e), KeyOf(y)) {
      var k :| 0 <= k < |sorted| && sorted[k] == y;
      if k > 0 {
        BeforeTrans(KeyOf(e), KeyOf(sorted[0]), KeyOf(sorted[k]));
      }
    }
  }

  /** The head stays before the tail once an element that follows it is inserted there. */
  lemma HeadBeforeInserted(sorted: seq<Item>, e: Item, rest: seq<Item>)
    requires |sorted| > 0
    requires forall x :: x in sorted[1..] ==> Before(KeyOf(sorted[0]), KeyOf(x))
    requires Before(KeyOf(sorted[0]), KeyOf(e))
    requires multiset(rest) == multiset(sorted[1..]) + multiset{e}
    ensures forall y :: y in rest ==> Before(KeyOf(sorted[0]), KeyOf(y))
  {
    forall y | y in rest ensures Before(KeyOf(sorted[0]), KeyOf(y)) {
      assert y in multiset(rest);
      if y != e {
        assert y in multiset(sorted[1..]);
      }
    }
  }

  /** `entries.sort(...)`: a stable insertion sort by `Before`. */
  function SortItems(es: seq<Item>): (r: seq<Item>)
    ensures SortedItems(r)
    ensures multiset(r) == multiset(es)
    decreases |es|
  {
    if |es| == 0 then []
    else
      assert es == [es[0]] + es[1..];
      Insert(es[0], SortItems(es[1..]))
  }

  /** The entries the loop keeps, in order. */
  function Visible(es: seq<Item>): (r: seq<Item>)
    ensures forall i :: 0 <= i < |r| ==> !Ignored(r[i].name)
    ensures forall e :: e in r <==> e in es && !Ignored(e.name)
    decreases |es|
  {
    if |es| == 0 then []
    else if Ignored(es[0].name) then Visible(es[1..])
    else [es[0]] + Visible(es[1..])
  }

  lemma HeadBeforeRest(es: seq<Item>)
    requires SortedItems(es) && |es| > 0
    ensures SortedItems(es[1..])
    ensures forall x :: x in es[1..] ==> Before(KeyOf(es[0]), KeyOf(x))
  {
    forall x | x in es[1..] ensures Before(KeyOf(es[0]), KeyOf(x)) {
      var k :| 0 <= k < |es[1..]| && es[1..][k] == x;
      assert es[k + 1] == x;
    }
  }

  /** An element before everything in a sorted sequence can lead it. */
  lemma PrependSorted(x: Item, rest: seq<Item>)
    requires SortedItems(rest)
    requires forall y :: y in rest ==> Before(KeyOf(x), KeyOf(y))
    ensures SortedItems([x] + rest)
  {
    var r := [x] + rest;
    forall i, j | 0 <= i < j < |r| ensures Before(KeyOf(r[i]), KeyOf(r[j])) {
      assert r[j] == rest[j - 1];
      if i > 0 {
        assert r[i] == rest[i - 1];
      }
    }
  }

  lemma {:induction false} VisibleKeepsOrder(es: seq<Item>)
    requires SortedItems(es)
    ensures SortedItems(Visible(es))
    decreases |es|
  {
    if |es| > 0 {
      HeadBeforeRest(es);
      VisibleKeepsOrder(es[1..]);
      if !Ignored(es[0].name) {
        PrependSorted(es[0], Visible(es[1..]));
      }
    }
  }

  // --- the tree ----------------------------------------------------------------

  /**
   * The node built for entry `e` of the directory at `path`: its name, joined
   * path and type; the extension (without dot) for files only; and children
   * for directories while depth remains.
   */
  ghost predicate NodeFor(n: FileNode, e: Item, path: string, depth: nat) {
    && n.name == e.name
    && n.path == JoinPath(path, e.name)
    && n.isDirectory == (e.kind == DirectoryEntry)
    && n.extension == (if e.kind == FileEntry then Some(NodePath.ExtensionOf(e.name)) else None)
    && (n.children.Present? <==> e.kind == DirectoryEntry && depth > 0)
  }

  /**
   * `readDirectory(path, depth)`: reading fails when the directory cannot be
   * read; otherwise one node per visible entry, in sorted order.
   */
  function ReadDirectory(path: string, dir: Dir, depth: nat): (r: Result<seq<FileNode>, string>)
    ensures dir.Unreadable? ==> r == Failure(dir.error)
    ensures r.Success? ==> dir.Listing? && |r.value| == |Visible(SortItems(dir.entries))|
    ensures r.Success? ==> forall i :: 0 <= i < |r.value| ==> NodeFor(r.value[i], Visible(SortItems(dir.entries))[i], path, depth)
    decreases depth, 1, 0
  {
    match dir
    case Unreadable(error) => Failure(error)
    case Listing(entries) => ReadEntries(path, Visible(SortItems(entries)), depth)
  }

  /**
   * The loop over the kept entries: each becomes a node, the first error from
   * a sub-directory propagates.
   */
  function ReadEntries(path: string, es: seq<Item>, depth: nat): (r: Result<seq<FileNode>, string>)
    ensures r.Success? ==> |r.value| == |es|
    ensures r.Success? ==> forall i :: 0 <= i < |es| ==> NodeFor(r.value[i], es[i], path, depth)
    decreases depth, 0, |es|
  {
    if |es| == 0 then Success([])
    else
      var e := es[0];
      var full := JoinPath(path, e.name);
      var extension := if e.kind == FileEntry then Some(NodePath.ExtensionOf(e.name)) else None;
      var children: Result<Children, string> :=
        if e.kind == DirectoryEntry && depth > 0 then
          match ReadDirectory(full, e.contents, depth - 1)
          case Success(nodes) => Success(Present(nodes))
          case Failure(error) => Failure(error)
        else Success(Absent);
      match children
      case Failure(error) => Failure(error)
      case Success(kids) =>
        var node := FileNode(e.name, full, e.kind == DirectoryEntry, kids, extension);
        match ReadEntries(path, es[1..], depth)
        case Failure(error) => Failure(error)
        case Success(rest) =>
          ConsNodes(node, rest, es, path, depth);
          Success([node] + rest)
  }

  /** The node list of `es` is the head's node followed by the tail's. */
  lemma ConsNodes(node: FileNode, rest: seq<FileNode>, es: seq<Item>, path: string, depth: nat)
    requires |es| > 0 && |rest| == |es| - 1
    requires NodeFor(node, es[0], path, depth)
    requires forall i :: 0 <= i < |rest| ==> NodeFor(rest[i], es[1..][i], path, depth)
    ensures forall i :: 0 <= i < |es| ==> NodeFor(([node] + rest)[i], es[i], path, depth)
  {
    var r := [node] + rest;
    assert r[0] == node;
    forall i | 0 < i < |es| ensures NodeFor(r[i], es[i], path, depth) {
      assert r[i] == rest[i - 1];
      assert es[i] == es[1..][i - 1];
    }
  }

  /** The sort rule holds for the nodes read: directories first, then by name. */
  lemma ReadDirectorySorted(path: string, dir: Dir, depth: nat)
    requires ReadDirectory(path, dir, depth).Success?
    ensures SortedNodes(ReadDirectory(path, dir, depth).value)
  {
    var vs := Visible(SortItems(dir.entries));
    VisibleKeepsOrder(SortItems(dir.entries));
    var ns := ReadDirectory(path, dir, depth).value;
    forall i, j | 0 <= i < j < |ns| ensures Before(NodeKey(ns[i]), NodeKey(ns[j])) {
      assert NodeFor(ns[i], vs[i], path, depth) && NodeFor(ns[j], vs[j], path, depth);
      assert NodeKey(ns[i]) == KeyOf(vs[i]) && NodeKey(ns[j]) == KeyOf(vs[j]);
    }
  }

  /** No node read is hidden or an ignored folder, and the nodes are exactly the visible entries. */
  lemma ReadDirectorySkipsIgnored(path: string, dir: Dir, depth: nat)
    requires ReadDirectory(path, dir, depth).Success?
    ensures forall n :: n in ReadDirectory(path, dir, depth).value ==> !Ignored(n.name)
    ensures forall e :: e in dir.entries && !Ignored(e.name) ==>
      exists n :: n in ReadDirectory(path, dir, depth).value && n.name == e.name
  {
    ReadDirectoryNames(path, dir, depth);
    NodesNotIgnored(path, dir, depth);
    VisibleEntriesHaveNodes(path, dir, depth);
  }

  /** The nodes read carry the names of the visible entries, position by position. */
  lemma ReadDirectoryNames(path: string, dir: Dir, depth: nat)
    requires ReadDirectory(path, dir, depth).Success?
    ensures var ns := ReadDirectory(path, dir, depth).value;
      var vs := Visible(SortItems(dir.entries));
      |ns| == |vs| && forall i :: 0 <= i < |ns| ==> ns[i].name == vs[i].name
  {
    var vs := Visible(SortItems(dir.entries));
    var ns := ReadDirectory(path, dir, depth).value;
    forall i | 0 <= i < |ns| ensures ns[i].name == vs[i].name {
      assert NodeFor(ns[i], vs[i], path, depth);
    }
  }

  lemma NodesNotIgnored(path: string, dir: Dir, depth: nat)
    requires ReadDirectory(path, dir, depth).Success?
    requires var ns := ReadDirectory(path, dir, depth).value;
      var vs := Visible(SortItems(dir.entries));
      |ns| == |vs| && forall i :: 0 <= i < |ns| ==> ns[i].name == vs[i].name
    ensures forall n :: n in ReadDirectory(path, dir, depth).value ==> !Ignored(n.name)
  {
    var vs := Visible(SortItems(dir.entries));
    var ns := ReadDirectory(path, dir, depth).value;
    forall n | n in ns ensures !Ignored(n.name) {
      var i :| 0 <= i < |ns| && ns[i] == n;
      assert !Ignored(vs[i].name);
    }
  }

  /** Sorting keeps every entry, so each entry that is not ignored is visible. */
  lemma EntryIsVisible(es: seq<Item>, e: Item)
    requires e in es && !Ignored(e.name)
    ensures e in Visible(SortItems(es))
  {
    assert e in multiset(es);
    assert e in multiset(SortItems(es));
  }

  lemma VisibleEntriesHaveNodes(path: string, dir: Dir, depth: nat)
    requires ReadDirectory(path, dir, depth).Success?
    requires var ns := ReadDirectory(path, dir, depth).value;
      var vs := Visible(SortItems(dir.entries));
      |ns| == |vs| && forall i :: 0 <= i < |ns| ==> ns[i].name == vs[i].name
    ensures forall e :: e in dir.entries && !Ignored(e.name) ==>
      exists n :: n in ReadDirectory(path, dir, depth).value && n.name == e.name
  {
    var vs := Visible(SortItems(dir.entries));
    var ns := ReadDirectory(path, dir, depth).value;
    forall e | e in dir.entries && !Ignored(e.name) ensures exists n :: n in ns && n.name == e.name {
      EntryIsVisible(dir.entries, e);
      var i :| 0 <= i < |vs| && vs[i] == e;
      assert ns[i] in ns;
    }
  }

  /** Some visible sub-directory, read one level down, fails. */
  ghost predicate FailingSubdirectory(path: string, es: seq<Item>, depth: nat) {
    exists i :: 0 <= i < |es| && es[i].kind == DirectoryEntry && depth > 0 &&
      ReadDirectory(JoinPath(path, es[i].name), es[i].contents, depth - 1).Failure?
  }

  /** The loop fails exactly when reading one of the sub-directories it descends into fails. */
  lemma {:induction false} ReadEntriesFails(path: string, es: seq<Item>, depth: nat)
    ensures ReadEntries(path, es, depth).Failure? <==> FailingSubdirectory(path, es, depth)
    decreases |es|
  {
    if |es| > 0 {
      ReadEntriesFails(path, es[1..], depth);
      if FailingSubdirectory(path, es[1..], depth) {
        var i :| 0 <= i < |es[1..]| && es[1..][i].kind == DirectoryEntry && depth > 0 &&
          ReadDirectory(JoinPath(path, es[1..][i].name), es[1..][i].contents, depth - 1).Failure?;
        assert es[i + 1] == es[1..][i];
      }
      if FailingSubdirectory(path, es, depth) {
        var i :| 0 <= i < |es| && es[i].kind == DirectoryEntry && depth > 0 &&
          ReadDirectory(JoinPath(path, es[i].name), es[i].contents, depth - 1).Failure?;
        if i > 0 {
          assert es[1..][i - 1] == es[i];
        }
      }
    }
  }

  /** Every node with children holds exactly what reading its entry one level down gives. */
  lemma {:induction false} ReadEntriesChildren(path: string, es: seq<Item>, depth: nat)
    requires ReadEntries(path, es, depth).Success?
    ensures var ns := ReadEntries(path, es, depth).value;
      forall i :: 0 <= i < |es| && depth > 0 && ns[i].children.Present? ==>
        ReadDirectory(ns[i].path, es[i].contents, depth - 1) == Success(ns[i].children.nodes)
    decreases |es|
  {
    if |es| > 0 {
      var ns := ReadEntries(path, es, depth).value;
      var rest := ReadEntries(path, es[1..], depth).value;
      ReadEntriesChildren(path, es[1..], depth);
      assert ns == [ns[0]] + rest;
      forall i | 0 < i < |es| && depth > 0 && ns[i].children.Present?
        ensures ReadDirectory(ns[i].path, es[i].contents, depth - 1) == Success(ns[i].children.nodes)
      {
        assert ns[i] == rest[i - 1] && es[i] == es[1..][i - 1];
      }
    }
  }

  /**
   * Reading fails exactly when the directory is unreadable or one of the
   * visible sub-directories it descends into fails.
   */
  lemma ReadDirectoryFails(path: string, dir: Dir, depth: nat)
    ensures ReadDirectory(path, dir, depth).Failure? <==>
      dir.Unreadable? || FailingSubdirectory(path, Visible(SortItems(dir.entries)), depth)
  {
    if dir.Listing? {
      ReadEntriesFails(path, Visible(SortItems(dir.entries)), depth);
    }
  }

  /** The children of a node are the tree read from that sub-directory with one level less. */
  lemma ReadDirectoryChildren(path: string, dir: Dir, depth: nat)
    requires ReadDirectory(path, dir, depth).Success?
    ensures var ns := ReadDirectory(path, dir, depth).value;
      forall i :: 0 <= i < |ns| && depth > 0 && ns[i].children.Present? ==>
        ReadDirectory(ns[i].path, Visible(SortItems(dir.entries))[i].contents, depth - 1) == Success(ns[i].children.nodes)
  {
    ReadEntriesChildren(path, Visible(SortItems(dir.entries)), depth);
  }

  /** At depth 0 no directory node has children, and a read of the root alone never fails below it. */
  lemma DepthZeroIsFlat(path: string, entries: seq<Item>)
    ensures ReadDirectory(path, Listing(entries), 0).Success?
    ensures forall n :: n in ReadDirectory(path, Listing(entries), 0).value ==> n.children.Absent?
  {
    var es := Visible(SortItems(entries));
    ReadEntriesFails(path, es, 0);
    var r := ReadEntries(path, es, 0);
    var ns := r.value;
    forall n | n in ns ensures n.children.Absent? {
      var i :| 0 <= i < |ns| && ns[i] == n;
      assert NodeFor(ns[i], es[i], path, 0);
    }
  }
}
