/**
 * The code runner's language table (`LANGUAGE_CONFIGS`): for each language
 * key, the image it runs in, the command built for a file, and the file
 * extensions it claims.
 */
module Languages {
  import opened Wrappers
  import opened Strings
  import NodePath

  datatype Language = Python | JavaScript | TypeScript | Java | Go | Rust | Ruby | Php | C | Cpp

  function Key(l: Language): string {
    match l
    case Python => "python"
    case JavaScript => "javascript"
    case TypeScript => "typescript"
    case Java => "java"
    case Go => "go"
    case Rust => "rust"
    case Ruby => "ruby"
    case Php => "php"
    case C => "c"
    case Cpp => "cpp"
  }

  /** `getSupportedLanguages()`: the table's keys in declaration order. */
  const SupportedLanguages: seq<string> :=
    ["python", "javascript", "typescript", "java", "go", "rust", "ruby", "php", "c", "cpp"]

  /** `getLanguageConfig(key)`: the entry for `key`, or none. */
  function LanguageConfig(key: string): (r: Option<Language>)
    ensures r.Some? <==> key in SupportedLanguages
    ensures r.Some? ==> Key(r.value) == key
  {
    match key
    case "python" => Some(Python)
    case "javascript" => Some(JavaScript)
    case "typescript" => Some(TypeScript)
    case "java" => Some(Java)
    case "go" => Some(Go)
    case "rust" => Some(Rust)
    case "ruby" => Some(Ruby)
    case "php" => Some(Php)
    case "c" => Some(C)
    case "cpp" => Some(Cpp)
    case _ => None
  }

  /** Every language is found under its own key, and the key list names each language once. */
  lemma KeyRoundTrip(l: Language)
    ensures LanguageConfig(Key(l)) == Some(l)
    ensures Key(l) in SupportedLanguages
  {
  }

  lemma SupportedLanguagesDistinct()
    ensures forall i, j :: 0 <= i < j < |SupportedLanguages| ==> SupportedLanguages[i] != SupportedLanguages[j]
  {
  }

  function Image(l: Language): string {
    match l
    case Python => "python:3.11-slim"
    case JavaScript => "node:20-alpine"
    case TypeScript => "node:20-alpine"
    case Java => "eclipse-temurin:17-jdk"
    case Go => "golang:1.21-alpine"
    case Rust => "rust:1.73-slim"
    case Ruby => "ruby:3.2-slim"
    case Php => "php:8.2-cli"
    case C => "gcc:13"
    case Cpp => "gcc:13"
  }

  function FileExtensions(l: Language): seq<string> {
    match l
    case Python => ["py"]
    case JavaScript => ["js", "mjs"]
    case TypeScript => ["ts"]
    case Java => ["java"]
    case Go => ["go"]
    case Rust => ["rs"]
    case Ruby => ["rb"]
    case Php => ["php"]
    case C => ["c"]
    case Cpp => ["cpp", "cc", "cxx"]
  }

  /** No extension is claimed by two languages. */
  lemma FileExtensionsDisjoint(l1: Language, l2: Language, ext: string)
    requires ext in FileExtensions(l1) && ext in FileExtensions(l2)
    ensures l1 == l2
  {
  }

  /** Languages whose command compiles first and then runs the result through `sh -c`. */
  predicate Compiles(l: Language) {
    l in {Java, Rust, C, Cpp}
  }

  /** The source suffix `basename` strips to name a compiled program. */
  function CompiledSuffix(l: Language): string
    requires Compiles(l)
  {
    match l
    case Java => ".java"
    case Rust => ".rs"
    case C => ".c"
    case Cpp => ".cpp"
  }

  /** The name of the program built from `file`: `path.basename(file, suffix)`. */
  function ProgramName(l: Language, file: string): string
    requires Compiles(l)
  {
    NodePath.Basename(file, CompiledSuffix(l))
  }

  /** The `sh -c` line of a compiled language: compiler, file, then the rest. */
  function CompileLine(compiler: string, file: string, rest: string): (line: string)
    ensures StartsWith(line, compiler + " " + file + " ")
    ensures EndsWith(line, rest)
    ensures |line| == |compiler| + |file| + 2 + |rest|
  {
    var head := compiler + " " + file + " ";
    assert (head + rest)[..|head|] == head;
    assert (head + rest)[|head|..] == rest;
    head + rest
  }

  /** The fixed words an interpreted language puts before the file. */
  function Interpreter(l: Language): seq<string>
    requires !Compiles(l)
  {
    match l
    case Python => ["python"]
    case JavaScript => ["node"]
    case TypeScript => ["npx", "ts-node"]
    case Go => ["go", "run"]
    case Ruby => ["ruby"]
    case Php => ["php"]
  }

  /** What follows the compile step: Java runs the class, the others build into `/tmp` and run from there. */
  function RunStep(l: Language, program: string): string
    requires Compiles(l)
  {
    if l == Java then "&& java " + program else RunFromTmp(program)
  }

  /**
   * The command built for a container file path. Interpreted languages run
   * their fixed interpreter words on the path; compiled ones hand `sh -c` a
   * line that compiles the path and then runs the program built from it.
   */
  function Command(l: Language, file: string): (argv: seq<string>)
    ensures !Compiles(l) ==> |argv| >= 2 && argv == Interpreter(l) + [file]
    ensures Compiles(l) ==>
      && |argv| == 3 && argv[0] == "sh" && argv[1] == "-c"
      && StartsWith(argv[2], Compiler(l) + " " + file + " ")
      && EndsWith(argv[2], RunStep(l, ProgramName(l, file)))
      && |argv[2]| == |Compiler(l)| + |file| + 2 + |RunStep(l, ProgramName(l, file))|
  {
    match l
    case Python => ["python", file]
    case JavaScript => ["node", file]
    case TypeScript => ["npx", "ts-node", file]
    case Go => ["go", "run", file]
    case Ruby => ["ruby", file]
    case Php => ["php", file]
    case Java => ["sh", "-c", CompileLine(Compiler(l), file, "&& java " + ProgramName(l, file))]
    case Rust => ["sh", "-c", CompileLine(Compiler(l), file, RunFromTmp(ProgramName(l, file)))]
    case C => ["sh", "-c", CompileLine(Compiler(l), file, RunFromTmp(ProgramName(l, file)))]
    case Cpp => ["sh", "-c", CompileLine(Compiler(l), file, RunFromTmp(ProgramName(l, file)))]
  }

  /** `-o /tmp/<out> && /tmp/<out>`: build into `/tmp` and run from there. */
  function RunFromTmp(out: string): string {
    "-o /tmp/" + out + " && /tmp/" + out
  }

  function Compiler(l: Language): string {
    match l
    case Java => "javac"
    case Rust => "rustc"
    case C => "gcc"
    case Cpp => "g++"
    case _ => ""
  }

  /**
   * For a file `dir + stem + suffix` whose stem is a plain name, the program
   * the compiled languages build and run is named `stem`: the suffix is
   * stripped and the directory dropped.
   */
  lemma ProgramNameIsStem(l: Language, dir: string, stem: string)
    requires Compiles(l)
    requires dir == [] || dir[|dir| - 1] == '/'
    requires |stem| > 0 && NoneIn(stem, Slash)
    ensures ProgramName(l, dir + stem + CompiledSuffix(l)) == stem
  {
    NodePath.BasenameStripsSuffix(dir, stem, CompiledSuffix(l));
  }

  /**
   * For a file `dir + stem + suffix` with a plain stem, the compiled command
   * runs what it built: Rust, C and C++ write `/tmp/<stem>` and execute that
   * same path, and Java runs the class named after the stem.
   */
  lemma RunsBuiltProgram(l: Language, dir: string, stem: string)
    requires Compiles(l)
    requires dir == [] || dir[|dir| - 1] == '/'
    requires |stem| > 0 && NoneIn(stem, Slash)
    ensures l == Java ==> EndsWith(Command(l, dir + stem + CompiledSuffix(l))[2], "&& java " + stem)
    ensures l != Java ==> EndsWith(Command(l, dir + stem + CompiledSuffix(l))[2], RunFromTmp(stem))
  {
    ProgramNameIsStem(l, dir, stem);
  }
}
