/**
 * The editor pane: the welcome view when no file is open, otherwise the
 * toolbar (icon of the language, full file path), the editor's value and
 * language, and the status bar (line count, upper-cased language, modified
 * badge). The file name is computed as well, but nothing displays it.
 * Monaco itself is not modelled; the view record lists what is handed to it.
 */
module Editor {
  import opened Wrappers
  import opened Strings
  import FileSystem
  import NodePath
  import FileExplorer

  type Icon = FileExplorer.Icon

  /** The language names `getFileIcon` has an icon for. */
  const IconLanguages: set<string> :=
    {"python", "javascript", "typescript", "json", "markdown", "html", "css", "java", "go", "rust",
     "ruby", "php", "c", "cpp", "dockerfile"}

  /**
   * `getFileIcon(language)`: the icon of a language name. The page is the
   * fallback and no listed language has it; C and C++ are the only two that
   * share an icon.
   */
  function LanguageIcon(language: string): (icon: Icon)
    ensures icon == FileExplorer.Page <==> language !in IconLanguages
    ensures icon == FileExplorer.Lightning <==> language in {"c", "cpp"}
    ensures icon == FileExplorer.Whale <==> language == "dockerfile"
  {
    match language
    case "python" => FileExplorer.Snake
    case "javascript" => FileExplorer.Scroll
    case "typescript" => FileExplorer.BlueBook
    case "json" => FileExplorer.Clipboard
    case "markdown" => FileExplorer.Memo
    case "html" => FileExplorer.Globe
    case "css" => FileExplorer.Palette
    case "java" => FileExplorer.Coffee
    case "go" => FileExplorer.Gopher
    case "rust" => FileExplorer.Crab
    case "ruby" => FileExplorer.Gem
    case "php" => FileExplorer.Elephant
    case "c" => FileExplorer.Lightning
    case "cpp" => FileExplorer.Lightning
    case "dockerfile" => FileExplorer.Whale
    case _ => FileExplorer.Page
  }

  /** Extensions for which the explorer's table and the editor's map name the same kind of file. */
  const SharedExtensions: set<string> :=
    {"py", "js", "ts", "json", "md", "html", "css", "java", "go", "rs", "rb", "php", "c", "cpp", "h"}

  /** Every shared extension is a plain, non-empty, lowercase name. */
  lemma SharedExtensionShape(ext: string)
    requires ext in SharedExtensions
    ensures NoneIn(ext, Dot) && NoneIn(ext, Slash) && |ext| > 0
    ensures forall i :: 0 <= i < |ext| ==> !('A' <= ext[i] <= 'Z')
  {
  }

  lemma SharedExtensionIcons(ext: string)
    requires ext in SharedExtensions
    ensures LanguageIcon(FileSystem.ExtensionLanguage(ext).GetOr("plaintext")) == FileExplorer.ExtensionIcon(ext).GetOr(FileExplorer.Page)
  {
    if ext in {"py", "js", "ts", "json", "md"} {
      ScriptIconsAgree(ext);
    } else if ext in {"html", "css", "java", "go", "rs"} {
      WebAndSystemIconsAgree(ext);
    } else {
      assert ext in {"rb", "php", "c", "cpp", "h"};
      NativeIconsAgree(ext);
    }
  }

  lemma ScriptIconsAgree(ext: string)
    requires ext in {"py", "js", "ts", "json", "md"}
    ensures LanguageIcon(FileSystem.ExtensionLanguage(ext).GetOr("plaintext")) == FileExplorer.ExtensionIcon(ext).GetOr(FileExplorer.Page)
  {
  }

  lemma WebAndSystemIconsAgree(ext: string)
    requires ext in {"html", "css", "java", "go", "rs"}
    ensures LanguageIcon(FileSystem.ExtensionLanguage(ext).GetOr("plaintext")) == FileExplorer.ExtensionIcon(ext).GetOr(FileExplorer.Page)
  {
  }

  lemma NativeIconsAgree(ext: string)
    requires ext in {"rb", "php", "c", "cpp", "h"}
    ensures LanguageIcon(FileSystem.ExtensionLanguage(ext).GetOr("plaintext")) == FileExplorer.ExtensionIcon(ext).GetOr(FileExplorer.Page)
  {
  }

  /**
   * For a lowercase extension both tables know, the toolbar icon of an open
   * file (through the language the explorer asked for) is the icon the
   * explorer shows next to it.
   */
  lemma EditorIconMatchesExplorer(stem: string, ext: string)
    requires ext in SharedExtensions
    requires |stem| > 0 && NoneIn(stem, Slash)
    ensures LanguageIcon(FileSystem.LanguageFromExtension(stem + "." + ext)) == FileExplorer.FileIcon(stem + "." + ext, false, false)
  {
    var name := stem + "." + ext;
    SharedExtensionShape(ext);
    assert FileSystem.LanguageFromExtension(name) == FileSystem.ExtensionLanguage(ext).GetOr("plaintext") by {
      FileSystem.ExtensionOfName(stem, ext);
      FileSystem.LanguageOfKnownExtension(name, ext);
    }
    assert FileExplorer.FileIcon(name, false, false) == FileExplorer.ExtensionIcon(ext).GetOr(FileExplorer.Page) by {
      assert Lower(ext) == ext;
      FileExplorer.FileIconOfDottedName(stem, ext, false);
    }
    SharedExtensionIcons(ext);
  }

  /**
   * The tables part ways on `Dockerfile`, in any case: the explorer shows the
   * whale, but the file has no extension, so the editor gets `plaintext` and
   * shows a page.
   */
  lemma DockerfileIconsDiffer(name: string)
    requires Lower(name) == "dockerfile"
    ensures FileExplorer.FileIcon(name, false, false) == FileExplorer.Whale
    ensures LanguageIcon(FileSystem.LanguageFromExtension(name)) == FileExplorer.Page
  {
    DockerfileIsPlainText(name);
    PlainTextIcon();
  }

  /** Whatever its case, a file named `dockerfile` gets `plaintext` from the manager. */
  lemma DockerfileIsPlainText(name: string)
    requires Lower(name) == "dockerfile"
    ensures FileSystem.LanguageFromExtension(name) == "plaintext"
  {
    FileExplorer.DockerfileHasNoDot(name);
    forall i | 0 <= i < |name| ensures name[i] !in Slash {
      assert Lower(name)[i] == LowerChar(name[i]);
    }
    FileSystem.DotlessNameIsPlainText(name);
  }

  lemma PlainTextIcon()
    ensures LanguageIcon("plaintext") == FileExplorer.Page
  {
  }

  /**
   * `fileName`: the text after the last `/` or `\` of the path. The component
   * computes it but renders nothing from it; the toolbar shows the full path.
   */
  function FileName(filePath: string): (name: string)
    ensures EndsWith(filePath, name) && NoneIn(name, PathSeparators)
    ensures |name| == |filePath| || filePath[|filePath| - |name| - 1] in PathSeparators
  {
    LastPathSegment(filePath)
  }

  /** After either separator, the name is the last component. */
  lemma FileNameOfChild(dir: string, sep: char, base: string)
    requires sep in PathSeparators
    requires NoneIn(base, PathSeparators)
    ensures FileName(dir + [sep] + base) == base
  {
    LastPathSegmentOfChild(dir, sep, base);
  }

  /** `content.split('\n').length`: one more than the number of newlines. */
  function LineCount(content: string): (n: nat)
    ensures n == CountIn(content, {'\n'}) + 1
  {
    |Split(content, {'\n'})|
  }

  /** Empty content still counts as one line. */
  lemma EmptyIsOneLine()
    ensures LineCount("") == 1
  {
  }

  /** Joining `k` newline-free lines with `\n` gives content of `k` lines. */
  lemma LineCountOfLines(lines: seq<string>)
    requires |lines| >= 1
    requires forall i :: 0 <= i < |lines| ==> NoneIn(lines[i], {'\n'})
    ensures LineCount(Join(lines, '\n')) == |lines|
  {
    SplitJoin(lines, '\n');
  }

  /** Two texts glued by a newline have the lines of both. */
  lemma LineCountAppend(a: string, b: string)
    ensures LineCount(a + "\n" + b) == LineCount(a) + LineCount(b)
  {
    CountInAppend(a, "\n" + b, {'\n'});
    CountInAppend("\n", b, {'\n'});
    assert a + "\n" + b == a + ("\n" + b);
  }

  /** `String.prototype.toUpperCase` restricted to ASCII letters. */
  function UpperChar(c: char): (d: char)
    ensures 'a' <= c <= 'z' ==> 'A' <= d <= 'Z' && LowerChar(d) == c
    ensures !('a' <= c <= 'z') ==> d == c
  {
    if 'a' <= c <= 'z' then (c as int - 32) as char else c
  }

  function Upper(s: string): (r: string)
    ensures |r| == |s|
    ensures forall i :: 0 <= i < |s| ==> r[i] == UpperChar(s[i])
  {
    seq(|s|, i requires 0 <= i < |s| => UpperChar(s[i]))
  }

  /** The status-bar label loses nothing a lowercase comparison can see. */
  lemma UpperThenLower(s: string)
    ensures Lower(Upper(s)) == Lower(s)
  {
    forall i | 0 <= i < |s| ensures Lower(Upper(s))[i] == Lower(s)[i] {
      assert Upper(s)[i] == UpperChar(s[i]);
    }
  }

  /** The props the editor receives; absent ones are `None`. */
  datatype Props = Props(filePath: Option<string>, content: Option<string>, language: Option<string>, isModified: Option<bool>)

  /**
   * What the editor produces: on screen, the icon and full path in the
   * toolbar, the editor's value and language, and the status bar; `fileName`
   * is computed alongside but not displayed.
   */
  datatype View =
    | Welcome
    | Open(
        icon: Icon,
        path: string,
        fileName: string,
        value: string,
        editorLanguage: string,
        lineCount: nat,
        statusLanguage: string,
        saveEnabled: bool,
        modifiedBadge: bool)

  /**
   * The editor: the welcome view for an absent or empty path; otherwise the
   * open file, where only an absent content or language takes its default
   * (`""`, `plaintext`) and the save button is enabled exactly when the
   * modified badge shows.
   */
  function Render(p: Props): (v: View)
    ensures v.Welcome? <==> p.filePath.None? || p.filePath.value == ""
    ensures v.Open? ==>
      && v.path == p.filePath.value
      && v.value == p.content.GetOr("")
      && v.editorLanguage == p.language.GetOr("plaintext")
      && v.lineCount == CountIn(v.value, {'\n'}) + 1
      && v.statusLanguage == Upper(v.editorLanguage)
      && |v.statusLanguage| == |v.editorLanguage|
      && v.icon == LanguageIcon(v.editorLanguage)
      && v.fileName == FileName(v.path)
      && (v.saveEnabled <==> p.isModified == Some(true))
      && (v.modifiedBadge <==> v.saveEnabled)
  {
    if p.filePath.None? || p.filePath.value == "" then Welcome
    else
      var content := p.content.GetOr("");
      var language := p.language.GetOr("plaintext");
      var modified := p.isModified.GetOr(false);
      Open(LanguageIcon(language), p.filePath.value, FileName(p.filePath.value), content, language,
        LineCount(content), Upper(language), modified, modified)
  }

  /** With no language given, the file is edited as plain text under a page icon. */
  lemma DefaultLanguageIsPlainText(path: string, content: Option<string>, modified: Option<bool>)
    requires path != ""
    ensures var v := Render(Props(Some(path), content, None, modified));
      v.editorLanguage == "plaintext" && v.icon == FileExplorer.Page && v.statusLanguage == "PLAINTEXT"
  {
    PlainTextIcon();
  }

  /** `handleEditorChange`: an undefined value is reported as empty text. */
  function ChangedContent(value: Option<string>): (text: string)
    ensures value.Some? ==> text == value.value
    ensures value.None? ==> text == ""
  {
    value.GetOr("")
  }

  /** Reporting a change and rendering it back keeps the text and its line count. */
  lemma ChangeRoundTrip(p: Props, value: Option<string>)
    requires p.filePath.Some? && p.filePath.value != ""
    ensures var v := Render(p.(content := Some(ChangedContent(value))));
      v.value == value.GetOr("") && v.lineCount == LineCount(value.GetOr(""))
  {
  }
}
