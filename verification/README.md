# DockerIDE core, modelled in Dafny

DockerIDE is an Electron IDE. Its main process runs the user's code and
interactive shells in Docker containers. Its renderer shows:

- a file explorer;
- a Monaco editor;
- a terminal;
- an extensions panel for language images;
- a new-project wizard.

This project models the core of both sides:

- the main process: `CodeRunner`, `InteractiveShell` with `ShellManager`, `FileSystemManager` and `DockerManager`;
- the renderer components: `Terminal`, `ExtensionsPanel`, `ProjectCreatorModal`, `FileExplorer` and `Editor`.

Each model is written as pure functions over immutable state. Docker calls, IPC replies, dialogs and file-system answers are inputs. What an operation does to the outside world (the Docker calls it makes, the lines it shows, the events it emits) is part of its result.

Modules, one per file:

| file | models |
|---|---|
| `wrappers.dfy` | `Option` and `Result` |
| `strings.dfy` | the JavaScript string operations the code uses: `split` on a character class, `pop()`/`[0]` of it, `join`, `trim`, ASCII `toLowerCase`, `replace` of a first occurrence, `${n}` |
| `node_path.dfy` | Node's POSIX `path.basename` and `path.extname` |
| `languages.dfy` | the runner's `LANGUAGE_CONFIGS` table |
| `images.dfy` | the image listing |
| `demux.dfy` | the parser of Docker's multiplexed attach stream |
| `code_runner.dfy` | `isImageAvailable`, `ensureImage`, `runCode` |
| `interactive_shell.dfy` | `InteractiveShell` |
| `shell_manager.dfy` | `ShellManager` |
| `file_system.dfy` | `FileSystemManager` |
| `docker_connection.dfy` | `DockerManager` |
| `terminal.dfy`, `extensions_panel.dfy`, `project_creator.dfy`, `file_explorer.dfy`, `editor.dfy` | the renderer components |

Behaviours of the code a reader may not expect, kept as written:

- **Demultiplexing.** The attach-stream parser keeps no cursor across chunks: every chunk is parsed from offset 0 on its own. A frame cut by a chunk boundary is lost (`Demux.StraddledFrameLost`).
- **Image availability.** `isImageAvailable` accepts any local tag that merely starts with the repository part of the name, so it is not an exact-tag match (`CodeRunner.OtherTagOfRepositoryCounts`).
- **`createShell`.** It replaces a shell already stored under the id; it does not return the existing one (`ShellManager.CreateShell`).
- **The replaced shell's close hook.** That hook still deletes the id, so it drops the replacement (`ShellManager.StaleCloseDropsReplacement`).

## Model

| member | source | states |
|---|---|---|
| Strings.Split | src/renderer/components/ide/Terminal.tsx:247 | `split` on a character class yields one more piece than there are separators, none containing a separator |
| Strings.JoinSplit | src/renderer/components/ide/Terminal.tsx:247 | joining the pieces of a split with the same separator gives the text back |
| Strings.SplitJoin | src/renderer/components/ide/Terminal.tsx:247 | splitting a join of separator-free pieces gives the pieces back |
| Strings.LastSegment | src/renderer/components/ide/FileExplorer.tsx:132 | `split(re).pop()` is the longest separator-free suffix |
| Strings.LastPathSegment | src/renderer/components/ide/Editor.tsx:89 | `split(/[/\\]/).pop()` is the separator-free suffix that starts the path or follows a separator |
| Strings.LastPathSegmentOfChild | src/renderer/components/ide/Editor.tsx:89 | after either separator, the last segment is the final component |
| Strings.LastSegmentUnique | src/renderer/components/ide/FileExplorer.tsx:132 | that suffix is unique, so any candidate with the defining properties is it |
| Strings.FirstSegment | src/main/runner/CodeRunner.ts:123 | `split(re)[0]` is the longest separator-free prefix |
| Strings.LastSegmentLower | src/renderer/components/ide/FileExplorer.tsx:29 | lowercasing commutes with taking the last segment on letter-free separators |
| Strings.Lower | src/renderer/components/ide/ExtensionsPanel.tsx:172 | `toLowerCase` maps every ASCII capital to its small letter and keeps every other character |
| Strings.LowerIdempotent | src/renderer/components/ide/ExtensionsPanel.tsx:172 | lowercasing twice is lowercasing once |
| Strings.TrimEmptyIffBlank | src/renderer/components/ide/Terminal.tsx:285 | `trim()` is empty exactly when every character is JavaScript whitespace |
| Strings.ReplaceFirst | src/renderer/components/ide/Terminal.tsx:324 | `replace(pat, rep)` rewrites an occurrence at the start, and leaves text without one unchanged |
| Strings.ReplaceFirstOccurrence | src/renderer/components/ide/Terminal.tsx:324 | wherever the first occurrence of the pattern sits, exactly it is replaced and the text around it is kept |
| Strings.NatToString | src/renderer/components/ide/Terminal.tsx:265 | the decimal text of a number is digits only, has no leading zero and denotes the number |
| Strings.CountInAppend | src/renderer/components/ide/Editor.tsx:90 | separators of a concatenation are those of its parts |
| NodePath.StripTrailingSlashes | src/main/runner/CodeRunner.ts:44 | `basename` ignores trailing slashes: the result is a prefix, and only `/` was removed |
| NodePath.Extname | src/main/fs/FileSystemManager.ts:80 | `extname` is empty or a dot plus a dot-free, slash-free suffix of the last component, shorter than it |
| NodePath.ExtensionOf | src/main/fs/FileSystemManager.ts:80 | `extname(...).slice(1)` contains no dot and no slash |
| NodePath.ExtensionOfDotted | src/main/fs/FileSystemManager.ts:80 | for `dir/stem.ext` with a non-empty stem, the extension is `ext` |
| NodePath.DotlessNameHasNoExtension | src/main/fs/FileSystemManager.ts:80 | a name without a dot has no extension |
| NodePath.BasenameStripsSuffix | src/main/runner/CodeRunner.ts:44 | `basename(dir/stem + suffix, suffix)` is the stem |
| NodePath.ExtensionOfLower | src/main/fs/FileSystemManager.ts:205-206 | lowercasing a path lowercases its extension and changes nothing else about it |
| Languages.LanguageConfig | src/main/runner/CodeRunner.ts:112-114 | a configuration exists exactly for the supported keys, and it is the language of that key |
| Languages.KeyRoundTrip | src/main/runner/CodeRunner.ts:289-291 | every language is found under its own key, which is among the supported keys |
| Languages.SupportedLanguagesDistinct | src/main/runner/CodeRunner.ts:289-291 | the supported keys are listed once each |
| Languages.FileExtensionsDisjoint | src/main/runner/CodeRunner.ts:21-88 | no file extension belongs to two languages |
| Languages.Command | src/main/runner/CodeRunner.ts:26-87 | interpreted languages run their fixed interpreter words on the file; compiled ones run `sh -c` with a line that compiles the file and ends by running the program built from it |
| Languages.RunsBuiltProgram | src/main/runner/CodeRunner.ts:41-85 | for `dir/stem.ext`, Rust, C and C++ build `/tmp/stem` and execute that same path, and Java runs class `stem` |
| Languages.CompileLine | src/main/runner/CodeRunner.ts:45 | the compile line is compiler, file and a space, followed by exactly the given rest |
| Languages.ProgramNameIsStem | src/main/runner/CodeRunner.ts:44 | the compiled program is named after the file's stem |
| Images.AllTags | src/main/runner/CodeRunner.ts:122-123 | a tag is listed exactly when some image carries it |
| Images.AllTagsAppend | src/main/runner/CodeRunner.ts:122-123 | more images only append their tags |
| Demux.ReadUInt32BE | src/main/runner/CodeRunner.ts:230 | the big-endian length field is below 2^32 |
| Demux.UInt32BERoundTrip | src/main/runner/CodeRunner.ts:230 | reading back four encoded bytes gives the length |
| Demux.DemuxFrom | src/main/runner/CodeRunner.ts:225-242 | parsing only appends to the two accumulators |
| Demux.ParseChunk | src/main/runner/CodeRunner.ts:221-243 | the `while` loop over a chunk computes the functional parser and only appends |
| Demux.EncodeFrame | src/main/runner/CodeRunner.ts:222-224 | a frame is an 8-byte header plus its payload |
| Demux.DemuxAfterPrefix | src/main/runner/CodeRunner.ts:225-242 | parsing past a prefix is parsing the rest alone |
| Demux.DemuxFrameThen | src/main/runner/CodeRunner.ts:229-241 | a whole frame at the head is delivered to its stream, then parsing resumes after it |
| Demux.DemuxFramesThen | src/main/runner/CodeRunner.ts:226-242 | whole frames are delivered in order before the tail is parsed |
| Demux.DemuxWholeFrames | src/main/runner/CodeRunner.ts:221-243 | a chunk of whole frames yields each stream's payloads in order |
| Demux.PartialFrameDropped | src/main/runner/CodeRunner.ts:227-233 | a strict prefix of a frame yields nothing |
| Demux.TruncatedChunk | src/main/runner/CodeRunner.ts:227-233 | whole frames are kept and a trailing partial frame is dropped |
| Demux.AlignedChunks | src/main/runner/CodeRunner.ts:221-243 | chunks holding whole frames lose nothing across the stream |
| Demux.StraddledFrameLost | src/main/runner/CodeRunner.ts:225-233 | one chunk delivers both payloads, but the same bytes cut inside the first header deliver nothing |
| CodeRunner.IsImageAvailable | src/main/runner/CodeRunner.ts:119-128 | available exactly when the listing succeeded and some tag equals the name or starts with its repository |
| CodeRunner.RepositoryBeforeColon | src/main/runner/CodeRunner.ts:123 | the repository is the text before the first colon |
| CodeRunner.OtherTagOfRepositoryCounts | src/main/runner/CodeRunner.ts:123 | `repo:v1` counts as available when only `repo:v2` is present |
| CodeRunner.EnsureImage | src/main/runner/CodeRunner.ts:133-148 | ready exactly when available or the pull succeeds; it pulls only when unavailable, and reports downloading, then ready |
| CodeRunner.ContainerFilePath | src/main/runner/CodeRunner.ts:180-181 | the container path is `/workspace/` plus the relative path with every `\` turned into `/` |
| CodeRunner.BuildRunSpec | src/main/runner/CodeRunner.ts:187-204 | the container is sandboxed: read-only mount, no network, 256 MiB without swap, half a CPU, auto-removed, no TTY; it runs the language's command |
| CodeRunner.RunCommandNamesFile | src/main/runner/CodeRunner.ts:180-190 | the command names the file at its container path |
| CodeRunner.CaughtError | src/main/runner/CodeRunner.ts:265-283 | `Timeout` becomes the time-limit error, an empty message the unknown error, anything else is shown as is |
| CodeRunner.Caught | src/main/runner/CodeRunner.ts:265-283 | a caught failure has no output and no exit code but keeps the duration |
| CodeRunner.AssembleResult | src/main/runner/CodeRunner.ts:245-263 | success exactly on status 0; stdout is the demultiplexed output; stderr only when non-empty; a timeout becomes the time-limit error |
| CodeRunner.RunContainer | src/main/runner/CodeRunner.ts:206-253 | the container is created first; when create, attach and start all complete it waits and assembles the result, otherwise the run fails with no output, no exit code and no wait |
| CodeRunner.RunCode | src/main/runner/CodeRunner.ts:153-284 | unknown language fails without Docker calls; an unready image fails before any container; success iff every step completes and the exit status is 0; every container created is sandboxed |
| InteractiveShell.ProfileFor | src/main/runner/InteractiveShell.ts:44-46 | a truthy known language gets its profile; anything else gets `default`, whose command and image are non-empty |
| InteractiveShell.ShellImagesMatchRunner | src/main/runner/InteractiveShell.ts:17-24 | the REPL images equal the runner's images for the same languages |
| InteractiveShell.BuildShellSpec | src/main/runner/InteractiveShell.ts:48-97 | an explicit image replaces only the image; the workspace is bound and used as working directory only when given; TTY with open stdin |
| InteractiveShell.ImageOverrideKeepsCommand | src/main/runner/InteractiveShell.ts:48 | overriding the image changes neither command nor working directory |
| InteractiveShell.FilterControl | src/main/runner/InteractiveShell.ts:117 | the output filter removes every C0 control except tab, newline and carriage return, and never lengthens the text |
| InteractiveShell.FilterControlAppend | src/main/runner/InteractiveShell.ts:117 | the filter distributes over concatenation |
| InteractiveShell.FilterControlKeepsClean | src/main/runner/InteractiveShell.ts:117 | clean text passes unchanged |
| InteractiveShell.FilterControlIdempotent | src/main/runner/InteractiveShell.ts:117 | filtering twice is filtering once |
| InteractiveShell.FilteredBlankIff | src/main/runner/InteractiveShell.ts:117-120 | filtered text is blank exactly when the raw text has no visible character |
| InteractiveShell.Start | src/main/runner/InteractiveShell.ts:42-154 | ok exactly when every step succeeds; first event announces the image; last is ready or an error; no close; a failed image or create step leaves the shell alone |
| InteractiveShell.FailedAttachLeavesShellActive | src/main/runner/InteractiveShell.ts:102-111 | an attach failure after `start()` answers false while the shell stays active with its container |
| InteractiveShell.OnStreamEvent | src/main/runner/InteractiveShell.ts:114-139 | data is forwarded filtered exactly when it has a visible character; end and wait stop the shell; end and a resolved wait emit close |
| InteractiveShell.Write | src/main/runner/InteractiveShell.ts:159-163 | input is sent unchanged exactly when a stream is attached and the shell runs |
| InteractiveShell.WriteLineAddsNewline | src/main/runner/InteractiveShell.ts:168-170 | `writeLine` sends the data plus a newline under the same guard |
| InteractiveShell.Resize | src/main/runner/InteractiveShell.ts:175-183 | a resize is requested exactly when a container exists and the shell runs |
| InteractiveShell.Stop | src/main/runner/InteractiveShell.ts:188-211 | the shell ends inactive, without stream or container, and keeps its id; it stops then force-removes the container and emits one close |
| InteractiveShell.StopIdempotent | src/main/runner/InteractiveShell.ts:188-211 | a second stop makes no Docker call and changes nothing |
| InteractiveShell.StoppedShellIgnoresInput | src/main/runner/InteractiveShell.ts:159-183 | after stop or end of stream, writes and resizes are dropped |
| ShellManager.Find | src/main/runner/InteractiveShell.ts:260-262 | lookup fails exactly for absent ids, and a found shell is stored under the id |
| ShellManager.FindUnique | src/main/runner/InteractiveShell.ts:260-262 | with distinct ids the stored shell is the one found |
| ShellManager.Put | src/main/runner/InteractiveShell.ts:247 | `Map.set` replaces in place or appends a new key last |
| ShellManager.Remove | src/main/runner/InteractiveShell.ts:251 | `Map.delete` removes exactly the id's entry, keeping the order |
| ShellManager.PutKeepsOthers | src/main/runner/InteractiveShell.ts:247 | setting keeps ids distinct and other ids' shells unchanged |
| ShellManager.RemoveKeepsOthers | src/main/runner/InteractiveShell.ts:251 | deleting keeps ids distinct and other ids' shells unchanged |
| ShellManager.ActiveShells | src/main/runner/InteractiveShell.ts:288-290 | the listed ids are exactly those with a shell |
| ShellManager.CreateShell | src/main/runner/InteractiveShell.ts:245-255 | a fresh shell is stored under the id, replacing any other, with other ids untouched and a new id appended |
| ShellManager.OnClose | src/main/runner/InteractiveShell.ts:250-252 | a close hook deletes the id the shell was created under, and nothing else |
| ShellManager.StopShell | src/main/runner/InteractiveShell.ts:267-273 | an absent id changes nothing; otherwise its shell is stopped and only that id is removed |
| ShellManager.CloseOfFirstRemovesIt | src/main/runner/InteractiveShell.ts:250-252 | in a valid registry the first shell's close hook deletes exactly the first entry |
| ShellManager.StopLoop | src/main/runner/InteractiveShell.ts:279-281 | the loop over the live `Map`, with each stop's close hook deleting the visited entry, visits every stored shell in insertion order and ends with no entries, hooks unchanged |
| ShellManager.StopAll | src/main/runner/InteractiveShell.ts:278-283 | every stored shell is stopped in insertion order and the registry ends empty with the hooks kept |
| ShellManager.ClearAfterLoopIsNoOp | src/main/runner/InteractiveShell.ts:282 | the final `clear()` finds nothing the loop left |
| ShellManager.StaleCloseDropsReplacement | src/main/runner/InteractiveShell.ts:245-252 | when a replaced shell closes, the still-open replacement is deregistered |
| ShellManager.OwnCloseDeregisters | src/main/runner/InteractiveShell.ts:250-273 | a stored shell closing has the same effect on the registry as `stopShell` of its id |
| FileSystem.LanguageFromExtension | src/main/fs/FileSystemManager.ts:204-244 | the answer is a language of the table or `plaintext`, and `plaintext` exactly when the lowercased extension has no entry; never empty |
| FileSystem.LanguageFromExtensionIgnoresCase | src/main/fs/FileSystemManager.ts:205-206 | a path and its lowercase form get the same language |
| FileSystem.RunnerExtensionsRecognised | src/main/fs/FileSystemManager.ts:204-244 | every extension the runner claims, except `mjs`, maps to the runner's language |
| FileSystem.ModuleScriptsArePlainText | src/main/fs/FileSystemManager.ts:207-242 | `.mjs` files are plain text in the editor |
| FileSystem.DotlessNameIsPlainText | src/main/fs/FileSystemManager.ts:205-243 | names without a dot, such as `Dockerfile`, are plain text |
| FileSystem.DockerImageForLanguage | src/main/fs/FileSystemManager.ts:249-263 | an image exists exactly for the supported languages |
| FileSystem.ImageTablesAgree | src/main/fs/FileSystemManager.ts:249-263 | this image table equals the runner's, key by key |
| FileSystem.SetWorkspace | src/main/fs/FileSystemManager.ts:34-40 | only an existing directory becomes the workspace; anything else throws naming the path and keeps the previous workspace |
| FileSystem.LastDirectoryWins | src/main/fs/FileSystemManager.ts:34-40 | after any series of calls the workspace is the last path that was a directory, or the earlier one if none was |
| FileSystem.CreateFile | src/main/fs/FileSystemManager.ts:118-139 | an existing path is refused; otherwise the parent directories are made first and the content is written last |
| FileSystem.NameLeTotal | src/main/fs/FileSystemManager.ts:62 | the name order is total |
| FileSystem.NameLeTrans | src/main/fs/FileSystemManager.ts:62 | the name order is transitive |
| FileSystem.BeforeTotal | src/main/fs/FileSystemManager.ts:59-63 | the sort order is total |
| FileSystem.BeforeTrans | src/main/fs/FileSystemManager.ts:59-63 | the sort order is transitive |
| FileSystem.Insert | src/main/fs/FileSystemManager.ts:59-63 | inserting keeps the entries sorted and adds exactly one |
| FileSystem.SortItems | src/main/fs/FileSystemManager.ts:59-63 | the sort yields a sorted permutation of the entries |
| FileSystem.Visible | src/main/fs/FileSystemManager.ts:65-73 | exactly the entries not hidden or ignored are kept |
| FileSystem.VisibleKeepsOrder | src/main/fs/FileSystemManager.ts:59-73 | skipping entries keeps a sorted list sorted |
| FileSystem.ReadDirectory | src/main/fs/FileSystemManager.ts:52-96 | an unreadable directory throws its error; otherwise there is one node per visible entry in sorted order, with name, joined path, type and extension |
| FileSystem.ReadEntries | src/main/fs/FileSystemManager.ts:65-89 | the loop makes one node per entry, in order |
| FileSystem.ReadDirectorySorted | src/main/fs/FileSystemManager.ts:59-63 | the nodes read are directories first, then by name |
| FileSystem.ReadDirectorySkipsIgnored | src/main/fs/FileSystemManager.ts:65-73 | no node is ignored, and every visible entry has a node |
| FileSystem.ReadEntriesFails | src/main/fs/FileSystemManager.ts:84-93 | the loop fails exactly when a sub-directory it descends into fails |
| FileSystem.ReadEntriesChildren | src/main/fs/FileSystemManager.ts:84-86 | a node's children are its sub-directory read one level down |
| FileSystem.ReadDirectoryFails | src/main/fs/FileSystemManager.ts:52-96 | reading fails exactly for an unreadable directory or a failing visible sub-directory within depth |
| FileSystem.ReadDirectoryChildren | src/main/fs/FileSystemManager.ts:84-86 | children are the tree read from that sub-directory with one level less |
| FileSystem.DepthZeroIsFlat | src/main/fs/FileSystemManager.ts:84 | at depth 0 a readable directory never fails and no node has children |
| DockerConnection.SocketPath | src/main/docker/DockerManager.ts:21-25 | the named pipe exactly on Windows, the Unix socket elsewhere |
| DockerConnection.NewManager | src/main/docker/DockerManager.ts:18-26 | a new manager holds a client on the platform socket |
| DockerConnection.Probe | src/main/docker/DockerManager.ts:40-55 | an attempt succeeds exactly when `info` and `version` both do, else carries the first error |
| DockerConnection.ErrorMessage | src/main/docker/DockerManager.ts:109-117 | ENOENT and ECONNREFUSED mean not running, EACCES means permissions; else the message or a default |
| DockerConnection.ErrorMessageNeverEmpty | src/main/docker/DockerManager.ts:109-117 | the error text is never empty |
| DockerConnection.UsedHost | src/main/docker/DockerManager.ts:54 | only an unset `DOCKER_HOST` falls back to the socket |
| DockerConnection.CheckConnection | src/main/docker/DockerManager.ts:38-85 | connected iff some attempt succeeds; the fallback is tried only after a failure; the manager adopts the client that answered; when both fail, the first error is shown |
| DockerConnection.FirstAttemptDecides | src/main/docker/DockerManager.ts:40-56 | when the first attempt answers, the fallback has no effect |
| DockerConnection.FallbackErrorDiscarded | src/main/docker/DockerManager.ts:57-84 | the fallback's own error never shows |
| DockerConnection.ClientReplacedOnlyOnSuccess | src/main/docker/DockerManager.ts:38-85 | the client changes only on success, to the one that answered |
| DockerConnection.PingUsesConnectedClient | src/main/docker/DockerManager.ts:90-97 | after a successful check, `ping` asks the client that answered |
| Terminal.LineTypeOf | src/renderer/components/ide/Terminal.tsx:159-161 | `error` and `system` keep their type; every other type is output |
| Terminal.HandleMessage | src/renderer/components/ide/Terminal.tsx:157-166 | only messages of the panel's own shell add exactly one line |
| Terminal.HandleClosed | src/renderer/components/ide/Terminal.tsx:168-173 | only the own shell closing marks it inactive and adds the closed line; nothing else changes |
| Terminal.SignalsOnlyAppend | src/renderer/components/ide/Terminal.tsx:155-182 | over any run of shell signals, earlier lines stay a prefix, one line is added per signal of the own shell, the shell never becomes active again and no other field changes |
| Terminal.StaleSignalsIgnored | src/renderer/components/ide/Terminal.tsx:155-182 | signals from other shells leave the panel unchanged |
| Terminal.KeepNonBlank | src/renderer/components/ide/Terminal.tsx:247-259 | exactly the non-blank pieces are kept |
| Terminal.KeepNonBlankAppend | src/renderer/components/ide/Terminal.tsx:247-259 | the filter keeps order and distributes over concatenation |
| Terminal.TextLines | src/renderer/components/ide/Terminal.tsx:247-259 | every shown line is non-blank and newline-free |
| Terminal.TextLinesRoundTrip | src/renderer/components/ide/Terminal.tsx:247-259 | text without blank lines is shown exactly: joining the lines gives it back |
| Terminal.BlankTextShowsNothing | src/renderer/components/ide/Terminal.tsx:247-259 | blank text shows no line |
| Terminal.FileName | src/renderer/components/ide/Terminal.tsx:230 | the shown name is a suffix of the path, empty only for the empty path; with a non-empty last segment it has no separator and starts the path or follows a separator, otherwise it is the whole path |
| Terminal.FileNameOfChild | src/renderer/components/ide/Terminal.tsx:230 | a file below any directory is shown by its own name |
| Terminal.FileNameOfTrailingSeparator | src/renderer/components/ide/Terminal.tsx:230 | a path ending in a separator is shown whole |
| Terminal.ReplyLines | src/renderer/components/ide/Terminal.tsx:244-279 | a successful run shows its output lines, its error-stream lines and, when timed, a last line with the duration and exit code; a failed run shows one error line with its error or `Erreur inconnue`; a rejection one with its message or its string form |
| Terminal.ReplyShowsWholeOutput | src/renderer/components/ide/Terminal.tsx:245-252 | when no output line is blank, the output lines shown rejoin to the whole output |
| Terminal.FailureNamesReason | src/renderer/components/ide/Terminal.tsx:268-279 | a failure shows exactly one error line, ending with the runner's error or the rejection's message when there is one |
| Terminal.ExecuteInDocker | src/renderer/components/ide/Terminal.tsx:221-282 | without a project only an error line is shown and no request is sent; otherwise the runner gets the file, workspace and language |
| Terminal.LangMap | src/renderer/components/ide/Terminal.tsx:327-338 | every language `run` maps to is supported by the runner |
| Terminal.LangMapAgreesWithEditor | src/renderer/components/ide/Terminal.tsx:327-338 | where the terminal maps an extension, the editor's table agrees |
| Terminal.RunLanguagesAreRunnable | src/renderer/components/ide/Terminal.tsx:327-339 | every requested language has a runner configuration |
| Terminal.RunExtension | src/renderer/components/ide/Terminal.tsx:326 | the extension is dot-free and no longer than the name |
| Terminal.DotlessFileIsItsOwnExtension | src/renderer/components/ide/Terminal.tsx:326 | a dot-free name is its own lowercased extension |
| Terminal.RunPath | src/renderer/components/ide/Terminal.tsx:349 | the run path is the file, under the project when one is open |
| Terminal.RunTargetIsTrimmedRest | src/renderer/components/ide/Terminal.tsx:324 | the target is the text after `run `, trimmed |
| Terminal.RunCommand | src/renderer/components/ide/Terminal.tsx:323-355 | a run is requested exactly for a mapped extension; otherwise the extension is reported |
| Terminal.LangMapNeverPlaintext | src/renderer/components/ide/Terminal.tsx:339-340 | the `plaintext` fallback appears exactly for unmapped extensions |
| Terminal.Interpret | src/renderer/components/ide/Terminal.tsx:298-357 | `clear` empties the history to one line; `help` and `shell` echo then act; `run ` dispatches a run; anything else is unknown |
| Terminal.ExecuteCommand | src/renderer/components/ide/Terminal.tsx:284-358 | blank input is ignored; an active shell tab forwards the input; otherwise the built-ins interpret it |
| Terminal.IgnoredIffTrimEmpty | src/renderer/components/ide/Terminal.tsx:285 | input is ignored exactly when `trim()` is empty |
| Terminal.OnlyClearForgets | src/renderer/components/ide/Terminal.tsx:284-358 | every command but `clear` keeps earlier lines as a prefix |
| Terminal.SubmitCallsRunnerOnlyForRuns | src/renderer/components/ide/Terminal.tsx:323-351 | the runner is called only for `run` of a mapped extension in an open project, with that language and path |
| ExtensionsPanel.CatalogueWellFormed | src/renderer/components/ide/ExtensionsPanel.tsx:15-88 | catalogue ids are distinct and colon-free, and each entry offers a version |
| ExtensionsPanel.FindTag | src/renderer/components/ide/ExtensionsPanel.tsx:118 | `find` yields the first tag with the prefix, or none exactly when no tag has it |
| ExtensionsPanel.SecondField | src/renderer/components/ide/ExtensionsPanel.tsx:122 | `split(':')[1]` exists exactly when there is a colon, and is colon-free |
| ExtensionsPanel.SecondFieldOfRepoTag | src/renderer/components/ide/ExtensionsPanel.tsx:122 | the second field of `id:version` is the version |
| ExtensionsPanel.WithStatus | src/renderer/components/ide/ExtensionsPanel.tsx:117-124 | an entry is installed exactly when some tag starts with `id:`, then with a version; nothing else changes |
| ExtensionsPanel.InstalledVersionFromTag | src/renderer/components/ide/ExtensionsPanel.tsx:117-124 | the first `id:v` tag sets version `v` |
| ExtensionsPanel.Refresh | src/renderer/components/ide/ExtensionsPanel.tsx:116-125 | every entry's status is recomputed, keeping order |
| ExtensionsPanel.LoadInstalledImages | src/renderer/components/ide/ExtensionsPanel.tsx:102-129 | a failed listing changes nothing; otherwise the tags are stored and statuses recomputed |
| ExtensionsPanel.Select | src/renderer/components/ide/ExtensionsPanel.tsx:171-177 | `filter` keeps exactly the passing elements |
| ExtensionsPanel.SelectPartition | src/renderer/components/ide/ExtensionsPanel.tsx:176-177 | a test and its negation split a list without loss or overlap |
| ExtensionsPanel.Filtered | src/renderer/components/ide/ExtensionsPanel.tsx:171-174 | exactly the entries whose lowercased name or description contains the lowercased term are kept |
| ExtensionsPanel.EmptySearchKeepsAll | src/renderer/components/ide/ExtensionsPanel.tsx:171-174 | an empty search shows everything in order |
| ExtensionsPanel.InstalledList | src/renderer/components/ide/ExtensionsPanel.tsx:176 | exactly the filtered installed entries |
| ExtensionsPanel.AvailableList | src/renderer/components/ide/ExtensionsPanel.tsx:177 | exactly the filtered not-installed entries |
| ExtensionsPanel.ListsPartitionFiltered | src/renderer/components/ide/ExtensionsPanel.tsx:176-177 | each filtered entry is in exactly one of the two lists |
| ExtensionsPanel.InstallTag | src/renderer/components/ide/ExtensionsPanel.tsx:134 | installing pulls `id:version` |
| ExtensionsPanel.FindEntry | src/renderer/components/ide/ExtensionsPanel.tsx:154 | the entry found has the id, none exactly when absent |
| ExtensionsPanel.UninstallTag | src/renderer/components/ide/ExtensionsPanel.tsx:151-157 | removal targets `id:installedVersion` exactly when that entry is installed with a version |
| ExtensionsPanel.UninstallRemovesInstalledTag | src/renderer/components/ide/ExtensionsPanel.tsx:131-160 | after pulling `id:v`, uninstall removes exactly `id:v` |
| ProjectCreator.TemplatesWellFormed | src/renderer/components/ide/ProjectCreatorModal.tsx:25-316 | every language offers a template and is a runner language with the same image |
| ProjectCreator.Sanitize | src/renderer/components/ide/ProjectCreatorModal.tsx:473 | the name has one character per UTF-16 code unit of the typed name, only allowed characters, and equals the typed name exactly when it was valid |
| ProjectCreator.SanitizeIsPerCodeUnit | src/renderer/components/ide/ProjectCreatorModal.tsx:473 | sanitising character by character equals the regex replacing code unit by code unit |
| ProjectCreator.SanitizeAppend | src/renderer/components/ide/ProjectCreatorModal.tsx:473 | sanitising works piecewise on a concatenation |
| ProjectCreator.AstralCharGivesTwoDashes | src/renderer/components/ide/ProjectCreatorModal.tsx:473 | a character above U+FFFF becomes two dashes, one per surrogate |
| Strings.CharCodeUnits | src/renderer/components/ide/ProjectCreatorModal.tsx:473 | a character takes one code unit below U+10000 and a high-then-low surrogate pair above |
| Strings.SurrogatePairRoundTrip | src/renderer/components/ide/ProjectCreatorModal.tsx:473 | a surrogate pair decodes back to its character |
| Strings.CodeUnitsAppend | src/renderer/components/ide/ProjectCreatorModal.tsx:473 | the code units of a concatenation are those of its parts |
| ProjectCreator.SanitizeIdempotent | src/renderer/components/ide/ProjectCreatorModal.tsx:473 | sanitising twice changes nothing more |
| ProjectCreator.SanitizeKeepsValidNames | src/renderer/components/ide/ProjectCreatorModal.tsx:473 | a valid name is kept as typed |
| ProjectCreator.SelectLanguage | src/renderer/components/ide/ProjectCreatorModal.tsx:331-335 | picking a language preselects its first template and moves to the template step, nothing else |
| ProjectCreator.SelectingTableLanguagePreselects | src/renderer/components/ide/ProjectCreatorModal.tsx:331-335 | every table language preselects a template |
| ProjectCreator.SelectTemplate | src/renderer/components/ide/ProjectCreatorModal.tsx:337-340 | picking a template moves to the location step, nothing else |
| ProjectCreator.Back | src/renderer/components/ide/ProjectCreatorModal.tsx:402-408 | back moves one step, and none at the first |
| ProjectCreator.BackUndoesSelection | src/renderer/components/ide/ProjectCreatorModal.tsx:331-408 | back undoes the step change of each selection |
| ProjectCreator.SetName | src/renderer/components/ide/ProjectCreatorModal.tsx:473 | typing stores the sanitised name only |
| ProjectCreator.Browse | src/renderer/components/ide/ProjectCreatorModal.tsx:342-351 | a chosen folder becomes the location; a cancelled dialog changes nothing |
| ProjectCreator.Close | src/renderer/components/ide/ProjectCreatorModal.tsx:392-400 | close resets everything but the creating flag |
| ProjectCreator.ProjectDirectory | src/renderer/components/ide/ProjectCreatorModal.tsx:364 | the project directory is `path/name` |
| ProjectCreator.Writes | src/renderer/components/ide/ProjectCreatorModal.tsx:368-371 | one write per template file, in order, under the project directory |
| ProjectCreator.ImageProbe | src/renderer/components/ide/ProjectCreatorModal.tsx:374-381 | the language configuration is asked for first; a known language's image is checked and pulled when missing |
| ProjectCreator.CreateProject | src/renderer/components/ide/ProjectCreatorModal.tsx:353-390 | missing inputs call nothing; otherwise created exactly when no write is rejected, with the files written in order |
| ProjectCreator.NoLocationNoCall | src/renderer/components/ide/ProjectCreatorModal.tsx:354-356 | without a location nothing is called or created |
| ProjectCreator.WizardCreatesProject | src/renderer/components/ide/ProjectCreatorModal.tsx:331-390 | language, first template, folder and name lead to the project written at `folder/name` |
| FileExplorer.FileIcon | src/renderer/components/ide/FileExplorer.tsx:19-56 | folders, and only folders, get the open or closed folder, open exactly when expanded; a file named `dockerfile` in any case gets the whale |
| FileExplorer.DockerfileRuleRedundant | src/renderer/components/ide/FileExplorer.tsx:29-55 | the explicit `dockerfile` test never changes the icon: the table lookup gives the same |
| FileExplorer.FileIconIgnoresCase | src/renderer/components/ide/FileExplorer.tsx:29-55 | the icon does not depend on letter case |
| FileExplorer.FileIconOfDottedName | src/renderer/components/ide/FileExplorer.tsx:29-55 | for `stem.ext` only the lowercased `ext` decides the icon |
| FileExplorer.RootName | src/renderer/components/ide/FileExplorer.tsx:132 | the root label is non-empty: the path's last path segment when there is one, otherwise `Project` |
| FileExplorer.RootNameOfChild | src/renderer/components/ide/FileExplorer.tsx:132 | under a parent, the label is the folder's own name |
| FileExplorer.LoadDirectory | src/renderer/components/ide/FileExplorer.tsx:128-147 | a tree exactly for a successful reply with files, rooted at the path; an error exactly when the call throws |
| FileExplorer.LoadThroughManager | src/renderer/components/ide/FileExplorer.tsx:128-147 | through the IPC handler, a tree exists exactly when the manager reads the directory, and its children are sorted |
| FileExplorer.OnWorkspaceChange | src/renderer/components/ide/FileExplorer.tsx:149-165 | no path clears the tree; otherwise a loaded tree expands only its root, and no tree keeps the expansion |
| FileExplorer.Refresh | src/renderer/components/ide/FileExplorer.tsx:201-208 | refresh keeps the expansion and an earlier error unless the reload throws |
| FileExplorer.RefreshAgreesWithOpen | src/renderer/components/ide/FileExplorer.tsx:149-208 | refresh loads the same tree as opening, but keeps the expansion |
| FileExplorer.HandleOpenFolder | src/renderer/components/ide/FileExplorer.tsx:189-199 | a successful dialog with a path hands it on; a throw records the error |
| FileExplorer.OpenedFolderLoads | src/renderer/components/ide/FileExplorer.tsx:149-199 | a folder picked in the dialog is loaded with only its root expanded |
| FileExplorer.ToggleFolder | src/renderer/components/ide/FileExplorer.tsx:168-177 | toggling flips only that path's membership |
| FileExplorer.ToggleTwice | src/renderer/components/ide/FileExplorer.tsx:168-177 | toggling twice restores the set |
| FileExplorer.ToggleCommutes | src/renderer/components/ide/FileExplorer.tsx:168-177 | toggles of two folders commute |
| FileExplorer.Indent | src/renderer/components/ide/FileExplorer.tsx:90 | padding is 8 px plus 16 px per level, from which the level can be recovered |
| FileExplorer.Rows | src/renderer/components/ide/FileExplorer.tsx:67-112 | a node renders its own row first, at its depth |
| FileExplorer.RowsDepth | src/renderer/components/ide/FileExplorer.tsx:87-108 | no row is shallower than its node, and each is indented for its depth |
| FileExplorer.ToggleOutsideTree | src/renderer/components/ide/FileExplorer.tsx:76-108 | toggling a path outside the tree changes no rendered row |
| FileExplorer.SelectedLanguage | src/renderer/components/ide/FileExplorer.tsx:179-186 | a non-empty language is passed on; missing, empty or thrown gives `plaintext` |
| FileExplorer.SelectUsesManagerLanguage | src/renderer/components/ide/FileExplorer.tsx:179-186 | the manager's language always reaches the editor unchanged |
| Editor.LanguageIcon | src/renderer/components/ide/Editor.tsx:14-34 | a page exactly for languages outside the map, the lightning exactly for C and C++, the whale exactly for `dockerfile` |
| Editor.EditorIconMatchesExplorer | src/renderer/components/ide/Editor.tsx:14-34 | for extensions both tables know, the toolbar icon equals the explorer icon |
| Editor.DockerfileIconsDiffer | src/renderer/components/ide/Editor.tsx:14-34 | a `Dockerfile` shows the whale in the explorer but a page in the editor |
| Editor.FileName | src/renderer/components/ide/Editor.tsx:89 | the name is the path's longest separator-free suffix; it is computed but not displayed, the toolbar shows the full path |
| Editor.FileNameOfChild | src/renderer/components/ide/Editor.tsx:89 | after either separator, the name is the last component |
| Editor.LineCount | src/renderer/components/ide/Editor.tsx:90 | lines are one more than the newlines |
| Editor.LineCountOfLines | src/renderer/components/ide/Editor.tsx:90 | `k` newline-free lines joined by newlines count `k` lines |
| Editor.LineCountAppend | src/renderer/components/ide/Editor.tsx:90 | texts glued by a newline count the lines of both |
| Editor.Upper | src/renderer/components/ide/Editor.tsx:149 | `toUpperCase` maps ASCII small letters to capitals and keeps everything else |
| Editor.UpperThenLower | src/renderer/components/ide/Editor.tsx:149 | lowercasing the label gives the lowercased language |
| Editor.Render | src/renderer/components/ide/Editor.tsx:36-155 | welcome view exactly without a path; only absent content or language take defaults; the toolbar shows the language's icon and the full path, the status bar the upper-cased language; save is enabled exactly when the modified badge shows |
| Editor.DefaultLanguageIsPlainText | src/renderer/components/ide/Editor.tsx:39 | without a language the file is plain text with a page icon and `PLAINTEXT` label |
| Editor.ChangedContent | src/renderer/components/ide/Editor.tsx:45-49 | an undefined change is reported as empty text |
| Editor.ChangeRoundTrip | src/renderer/components/ide/Editor.tsx:45-90 | a reported change renders back with its text and line count |

## Left out

- Text encoding is not modelled. Payloads stay bytes in the runner, and the shell's chunks are taken as already-decoded text. JavaScript's UTF-16 code units are modelled only where the project-name regex depends on them (`ProjectCreator.Sanitize`).
- The real file system is not modelled. `path.relative(workspacePath, filePath)` is an input. `path.join` is approximated by `JoinPath`, which does not normalise `..`, `.` or repeated slashes. Windows path rules are not modelled.
- `localeCompare` is replaced by code-point order on names. Case mapping covers ASCII letters only. JavaScript prototype keys, such as `constructor` looked up in a `Record`, are not modelled.
- The 30-second timer, `Date.now()` and the container names it yields, and the event loop's interleavings are not modelled. Durations and names are inputs, and each awaited call is an outcome given in advance.
- Progress callbacks of the pull in `InteractiveShell.start`, the `runner.onProgress` feed of the terminal, and the console logging are not modelled.
- Emoji and the rest of the UI text are not modelled. Icons are the `Icon` datatype; messages keep their wording as strings.
- The contents of the project templates are not modelled. A template file is its relative path only.
- Terminal's `connectToProject`, `startShell` and `stopShell` are not modelled, nor the parsing of `.docker-ide.json`. They only chain IPC calls whose behaviour the shell model already gives.
- `readFile`, `writeFile`, `createDirectory`, `delete`, `rename`, `exists`, `getStats` and `getWorkspace` of `FileSystemManager` are not modelled. Each is a thin wrapper over one `fs` call.
- `getDockerInstance` and the container and image managers outside the core are not modelled.
- DockerConnection.Ping: has no contract of its own. It answers the client's reply, and `PingUsesConnectedClient` states what matters.
- Strings.IntToString: has no contract. It is used only to render the exit code in a message.
- FileExplorer.Rows: states only the first row. What children add is stated by `RowsDepth` and `ToggleOutsideTree`, not as a full description of the rendered list.
