/**
 * The new-project wizard: three steps (language, template, location), the
 * project-name sanitiser, the checks before creation, the directory and files
 * it writes, the image probe that follows, and the reset on close.
 */
module ProjectCreator {
  import opened Wrappers
  import opened Strings
  import Languages

  /** A file of a template; its contents are not part of this model. */
  datatype TemplateFile = TemplateFile(path: string)

  datatype ProjectTemplate = ProjectTemplate(id: string, name: string, description: string, files: seq<TemplateFile>)

  datatype LanguageTemplate = LanguageTemplate(id: string, name: string, image: string, description: string, templates: seq<ProjectTemplate>)

  const LanguageTemplates: seq<LanguageTemplate> := [
    LanguageTemplate("python", "Python", "python:3.11-slim", "Python 3.11 avec pip", [
      ProjectTemplate("python-basic", "Projet basique", "Un fichier main.py simple",
        [TemplateFile("main.py"), TemplateFile("README.md")]),
      ProjectTemplate("python-flask", "Application Web Flask", "Serveur web avec Flask",
        [TemplateFile("app.py"), TemplateFile("requirements.txt")])
    ]),
    LanguageTemplate("javascript", "JavaScript", "node:20-alpine", "Node.js 20 LTS", [
      ProjectTemplate("js-basic", "Projet basique", "Un fichier index.js simple",
        [TemplateFile("index.js"), TemplateFile("package.json")]),
      ProjectTemplate("js-express", "Serveur Express", "API REST avec Express.js",
        [TemplateFile("server.js"), TemplateFile("package.json")])
    ]),
    LanguageTemplate("java", "Java", "eclipse-temurin:17-jdk", "Java 17 LTS (Eclipse Temurin)", [
      ProjectTemplate("java-basic", "Projet basique", "Classe Main simple", [TemplateFile("Main.java")])
    ]),
    LanguageTemplate("go", "Go", "golang:1.21-alpine", "Go 1.21", [
      ProjectTemplate("go-basic", "Projet basique", "Package main simple",
        [TemplateFile("main.go"), TemplateFile("go.mod")])
    ]),
    LanguageTemplate("rust", "Rust", "rust:1.73-slim", "Rust stable", [
      ProjectTemplate("rust-basic", "Projet basique", "Fichier main.rs simple", [TemplateFile("main.rs")])
    ])
  ]

  /** Every language offers a template, and every language is one the runner knows, with the same image. */
  lemma TemplatesWellFormed()
    ensures forall i :: 0 <= i < |LanguageTemplates| ==> |LanguageTemplates[i].templates| > 0
    ensures forall i :: 0 <= i < |LanguageTemplates| ==>
      && Languages.LanguageConfig(LanguageTemplates[i].id).Some?
      && Languages.Image(Languages.LanguageConfig(LanguageTemplates[i].id).value) == LanguageTemplates[i].image
  {
  }

  // ---------------------------------------------------------------------------
  // The project name
  // ---------------------------------------------------------------------------

  /** The characters `[a-zA-Z0-9-_]` the name field keeps. */
  predicate NameChar(c: char) {
    ('a' <= c <= 'z') || ('A' <= c <= 'Z') || ('0' <= c <= '9') || c == '-' || c == '_'
  }

  /**
   * What the name field's regex leaves in place of one UTF-16 code unit: the
   * unit itself when it is an allowed character, `-` otherwise.
   */
  function UnitReplacement(unit: int): char {
    if 0 <= unit < 0x80 && NameChar(unit as char) then unit as char else '-'
  }

  /**
   * `value.replace(/[^a-zA-Z0-9-_]/g, '-')` as JavaScript runs it: the regex
   * has no `u` flag, so it steps over the string one code unit at a time.
   */
  function ReplaceUnits(units: seq<int>): string {
    seq(|units|, i requires 0 <= i < |units| => UnitReplacement(units[i]))
  }

  /** The replacement for one character: itself if allowed, else one `-` per code unit. */
  function CharReplacement(c: char): string {
    if NameChar(c) then [c] else if IsAstral(c) then "--" else "-"
  }

  /**
   * The sanitised project name, character by character. It has as many
   * characters as the typed name has UTF-16 code units, holds only allowed
   * characters, and equals the typed name exactly when that name was valid.
   */
  function Sanitize(s: string): (r: string)
    ensures |r| == |CodeUnits(s)|
    ensures forall i :: 0 <= i < |r| ==> NameChar(r[i])
    ensures (forall i :: 0 <= i < |s| ==> NameChar(s[i])) <==> r == s
  {
    if s == [] then []
    else
      var r := CharReplacement(s[0]) + Sanitize(s[1..]);
      assert (forall i :: 0 <= i < |s| ==> NameChar(s[i])) ==> s == [s[0]] + s[1..];
      r
  }

  lemma UnitsOfCharReplaced(c: char)
    ensures ReplaceUnits(CharCodeUnits(c)) == CharReplacement(c)
  {
    if !IsAstral(c) {
      assert NameChar(c) ==> c as int < 0x80 && (c as int) as char == c;
    }
  }

  lemma ReplaceUnitsAppend(a: seq<int>, b: seq<int>)
    ensures ReplaceUnits(a + b) == ReplaceUnits(a) + ReplaceUnits(b)
  {
  }

  /** Character by character and code unit by code unit give the same name. */
  lemma {:induction false} SanitizeIsPerCodeUnit(s: string)
    ensures Sanitize(s) == ReplaceUnits(CodeUnits(s))
  {
    if s != [] {
      SanitizeIsPerCodeUnit(s[1..]);
      UnitsOfCharReplaced(s[0]);
      ReplaceUnitsAppend(CharCodeUnits(s[0]), CodeUnits(s[1..]));
    }
  }

  /** Sanitising works piecewise on a concatenation. */
  lemma {:induction false} SanitizeAppend(a: string, b: string)
    ensures Sanitize(a + b) == Sanitize(a) + Sanitize(b)
  {
    if a != [] {
      assert (a + b)[1..] == a[1..] + b;
      SanitizeAppend(a[1..], b);
    } else {
      assert a + b == b;
    }
  }

  /** A character outside the Basic Multilingual Plane turns into two dashes, one per surrogate. */
  lemma AstralCharGivesTwoDashes(prefix: string, c: char)
    requires forall i :: 0 <= i < |prefix| ==> NameChar(prefix[i])
    requires IsAstral(c)
    ensures Sanitize(prefix + [c]) == prefix + "--"
  {
    SanitizeAppend(prefix, [c]);
    SanitizeKeepsValidNames(prefix);
    SanitizeAstral(c);
  }

  lemma SanitizeAstral(c: char)
    requires IsAstral(c)
    ensures Sanitize([c]) == "--"
  {
    assert !NameChar(c);
    assert [c][1..] == [];
  }

  /** Sanitising twice changes nothing more. */
  lemma SanitizeIdempotent(s: string)
    ensures Sanitize(Sanitize(s)) == Sanitize(s)
  {
  }

  /** A name made only of allowed characters is kept as typed. */
  lemma SanitizeKeepsValidNames(s: string)
    requires forall i :: 0 <= i < |s| ==> NameChar(s[i])
    ensures Sanitize(s) == s
  {
  }

  // ---------------------------------------------------------------------------
  // The steps
  // ---------------------------------------------------------------------------

  datatype Step = LanguageStep | TemplateStep | LocationStep

  datatype Wizard = Wizard(
    step: Step,
    projectName: string,
    language: Option<LanguageTemplate>,
    template: Option<ProjectTemplate>,
    projectPath: string,
    creating: bool,
    error: Option<string>)

  const DefaultName: string := "mon-projet"

  const Initial: Wizard := Wizard(LanguageStep, DefaultName, None, None, "", false, None)

  /** `handleSelectLanguage`: remember the language, preselect its first template, go to the template step. */
  function SelectLanguage(w: Wizard, lang: LanguageTemplate): (w': Wizard)
    ensures w'.step == TemplateStep && w'.language == Some(lang)
    ensures w'.template.Some? <==> |lang.templates| > 0
    ensures w'.template.Some? ==> w'.template.value == lang.templates[0]
    ensures w' == w.(step := w'.step, language := w'.language, template := w'.template)
  {
    w.(step := TemplateStep, language := Some(lang),
       template := if |lang.templates| > 0 then Some(lang.templates[0]) else None)
  }

  /** Choosing any language of the table leaves a template selected. */
  lemma SelectingTableLanguagePreselects(w: Wizard, i: nat)
    requires i < |LanguageTemplates|
    ensures SelectLanguage(w, LanguageTemplates[i]).template == Some(LanguageTemplates[i].templates[0])
  {
    TemplatesWellFormed();
  }

  /** `handleSelectTemplate`: remember the template and go to the location step. */
  function SelectTemplate(w: Wizard, t: ProjectTemplate): (w': Wizard)
    ensures w'.step == LocationStep && w'.template == Some(t)
    ensures w' == w.(step := w'.step, template := w'.template)
  {
    w.(template := Some(t), step := LocationStep)
  }

  /** `handleBack`: one step back; nothing at the first step. */
  function Back(w: Wizard): (w': Wizard)
    ensures w.step == LanguageStep ==> w' == w
    ensures w.step != LanguageStep ==> w' == w.(step := w'.step)
    ensures w.step == TemplateStep ==> w'.step == LanguageStep
    ensures w.step == LocationStep ==> w'.step == TemplateStep
  {
    match w.step
    case LanguageStep => w
    case TemplateStep => w.(step := LanguageStep)
    case LocationStep => w.(step := TemplateStep)
  }

  /** Back undoes the step change of a selection. */
  lemma BackUndoesSelection(w: Wizard, lang: LanguageTemplate, t: ProjectTemplate)
    ensures Back(SelectLanguage(w, lang)).step == LanguageStep
    ensures Back(SelectTemplate(SelectLanguage(w, lang), t)).step == TemplateStep
    ensures Back(Back(SelectTemplate(SelectLanguage(w, lang), t))).step == LanguageStep
  {
  }

  /** Typing in the name field stores the sanitised text. */
  function SetName(w: Wizard, typed: string): (w': Wizard)
    ensures w'.projectName == Sanitize(typed)
    ensures w' == w.(projectName := w'.projectName)
  {
    w.(projectName := Sanitize(typed))
  }

  /** `handleBrowseFolder`: a chosen (non-empty) folder becomes the location; a cancelled or failed dialog changes nothing. */
  function Browse(w: Wizard, chosen: Option<string>): (w': Wizard)
    ensures chosen.Some? && chosen.value != "" ==> w' == w.(projectPath := chosen.value)
    ensures chosen.None? || chosen.value == "" ==> w' == w
  {
    match chosen
    case Some(path) => if path != "" then w.(projectPath := path) else w
    case None => w
  }

  /** `handleClose`: every field but the creating flag goes back to its initial value. */
  function Close(w: Wizard): (w': Wizard)
    ensures w' == Initial.(creating := w.creating)
    ensures w'.step == LanguageStep && w'.projectName == DefaultName && w'.language.None? && w'.template.None?
    ensures w'.projectPath == "" && w'.error.None?
  {
    Wizard(LanguageStep, DefaultName, None, None, "", w.creating, None)
  }

  // ---------------------------------------------------------------------------
  // handleCreateProject
  // ---------------------------------------------------------------------------

  /** The calls creation makes, in order. */
  datatype Call =
    | CreateDirectory(path: string)
    | WriteFile(path: string, file: TemplateFile)
    | GetLanguageConfig(language: string)
    | CheckImage(image: string)
    | PullInBackground(image: string)

  const MissingFieldsText: string := "Veuillez remplir tous les champs"
  const CreationFailedText: string := "Erreur lors de la création du projet"

  function ProjectDirectory(path: string, name: string): (dir: string)
    ensures StartsWith(dir, path + "/") && dir[|path| + 1..] == name
  {
    path + "/" + name
  }

  /** One write per template file, in template order, under the project directory. */
  function Writes(dir: string, files: seq<TemplateFile>): (calls: seq<Call>)
    ensures |calls| == |files|
    ensures forall i :: 0 <= i < |files| ==> calls[i] == WriteFile(dir + "/" + files[i].path, files[i])
  {
    seq(|files|, i requires 0 <= i < |files| => WriteFile(dir + "/" + files[i].path, files[i]))
  }

  /** The image probe: ask for the language's configuration; if known, check its image and pull it, unawaited, when missing. */
  function ImageProbe(language: string, imageAvailable: bool): (calls: seq<Call>)
    ensures |calls| > 0 && calls[0] == GetLanguageConfig(language)
    ensures Languages.LanguageConfig(language).None? ==> |calls| == 1
    ensures Languages.LanguageConfig(language).Some? ==>
      var image := Languages.Image(Languages.LanguageConfig(language).value);
      && |calls| >= 2 && calls[1] == CheckImage(image)
      && (PullInBackground(image) in calls <==> !imageAvailable)
  {
    match Languages.LanguageConfig(language)
    case None => [GetLanguageConfig(language)]
    case Some(l) =>
      var image := Languages.Image(l);
      [GetLanguageConfig(language), CheckImage(image)] + (if imageAvailable then [] else [PullInBackground(image)])
  }

  /** What an attempt to create led to. */
  datatype Creation = Creation(wizard: Wizard, calls: seq<Call>, created: Option<string>)

  /**
   * `handleCreateProject()`: with a field missing, an error and no call;
   * otherwise the directory, the files and the image probe, then the project is
   * reported and the wizard closed. The file-system calls answer with a status
   * the wizard does not read; only a call that rejects (`rejectedAt`: its index
   * among the awaited calls and its message) stops creation with an error.
   */
  function CreateProject(w: Wizard, rejectedAt: Option<(nat, string)>, imageAvailable: bool): (r: Creation)
    ensures (w.language.None? || w.template.None? || w.projectPath == "" || w.projectName == "") ==>
      r == Creation(w.(error := Some(MissingFieldsText)), [], None)
    ensures r.created.Some? ==>
      && w.language.Some? && w.template.Some? && w.projectPath != "" && w.projectName != ""
      && r.created.value == ProjectDirectory(w.projectPath, w.projectName)
      && |r.calls| == |w.template.value.files| + 1 + |ImageProbe(w.language.value.id, imageAvailable)|
      && r.calls[0] == CreateDirectory(ProjectDirectory(w.projectPath, w.projectName))
      && r.calls[1..|w.template.value.files| + 1] == Writes(ProjectDirectory(w.projectPath, w.projectName), w.template.value.files)
      && r.calls[|w.template.value.files| + 1..] == ImageProbe(w.language.value.id, imageAvailable)
      && r.wizard == Initial
    ensures rejectedAt.None? ==> (r.created.Some? <==> w.language.Some? && w.template.Some? && w.projectPath != "" && w.projectName != "")
    ensures r.created.None? && |r.calls| > 0 ==>
      && rejectedAt.Some? && |r.calls| == rejectedAt.value.0 + 1
      && r.wizard == w.(creating := false, error := Some(if rejectedAt.value.1 != "" then rejectedAt.value.1 else CreationFailedText))
  {
    if w.language.None? || w.template.None? || w.projectPath == "" || w.projectName == "" then
      Creation(w.(error := Some(MissingFieldsText)), [], None)
    else
      var dir := ProjectDirectory(w.projectPath, w.projectName);
      var probe := ImageProbe(w.language.value.id, imageAvailable);
      var calls := [CreateDirectory(dir)] + Writes(dir, w.template.value.files) + probe;
      // the background pull, always last when present, is not awaited
      var awaited := if probe[|probe| - 1].PullInBackground? then |calls| - 1 else |calls|;
      match rejectedAt
      case Some((k, message)) =>
        if k < awaited then
          Creation(w.(creating := false, error := Some(if message != "" then message else CreationFailedText)), calls[..k + 1], None)
        else
          Creation(Close(w.(creating := false, error := None)), calls, Some(dir))
      case None =>
        assert calls[1..|w.template.value.files| + 1] == Writes(dir, w.template.value.files);
        Creation(Close(w.(creating := false, error := None)), calls, Some(dir))
  }

  /** Without a location nothing is created and nothing is called, whatever else is set. */
  lemma NoLocationNoCall(w: Wizard, rejectedAt: Option<(nat, string)>, imageAvailable: bool)
    requires w.projectPath == ""
    ensures CreateProject(w, rejectedAt, imageAvailable).calls == []
    ensures CreateProject(w, rejectedAt, imageAvailable).created.None?
  {
  }

  /** The whole happy path: pick a language of the table, its first template, a folder and a name; the project is written there. */
  lemma WizardCreatesProject(i: nat, folder: string, typed: string, imageAvailable: bool)
    requires i < |LanguageTemplates| && folder != "" && typed != ""
    ensures var lang := LanguageTemplates[i];
      var w := SetName(Browse(SelectTemplate(SelectLanguage(Initial, lang), lang.templates[0]), Some(folder)), typed);
      var r := CreateProject(w, None, imageAvailable);
      && r.created == Some(folder + "/" + Sanitize(typed))
      && r.calls[0] == CreateDirectory(folder + "/" + Sanitize(typed))
      && r.wizard == Initial
  {
    TemplatesWellFormed();
  }
}
