# Gosu lab: experiment build and editor helpers, in Dafny

This project models two pieces of the Gosu lab editor (`gosu-lab`).

**The experiment build orchestrator** (`editor/shipit/ExperimentBuild.java`) is a class. Its state is:
- the set of errant types of the last build;
- the list of classes compiled without errors during the build in progress;
- the file change finder, of which only its resets are modelled.

`make` does the following:
- wraps the caller's compile consumer in a not-debugging or a debugging lambda, depending on whether a debugger is attached;
- rebuilds everything when the change finder asks for it;
- otherwise compiles the types that the usage search finds for the changed files, plus the errant types of the previous build. Changed files without a type are copied to the output directory, when they are files and an output directory is set.

`build` works as follows:
- It recreates the errant set.
- It runs the incremental pass over types, or the full pass over file trees.
- It hands the clean classes to an attached debugger.
- It puts a summary line at the top of the messages.
- Its `finally` block resets the change finder and empties the clean list.

**Helpers of the editor panel** (`editor/GosuPanel.java`):
- which files the file chooser accepts as Gosu sources;
- which editing mode a freshly opened editor gets;
- which classpath entries are upper-level;
- which class-loader URLs come before the first Gosu-protocol URL;
- the "mark phase" for Gosu language tests. It groups the parse issues by line, cuts old `  //## issuekeys:` markers off every line, appends a fresh marker with the issue keys to each line that has issues, and rebuilds the text.

## How the model is built

- `common.dfy` holds an `Option` type and the elements of a sequence. It also picks the elements of a set one by one (`Pick`, `Enumerate`); that stands for a `HashSet` iterator, whose order is left open.
- `strings.dfy` models the `java.lang.String` operations the code uses: `indexOf`, `contains`, `startsWith`, `endsWith`, `replace(char, char)`, and `toLowerCase` restricted to ASCII.
- `file_kinds.dfy`, `classpath.dfy` and `issue_markers.dfy` model the editor panel.
  - Pure checks are predicates.
  - The loops over arrays and lists are methods. Each is proved against a function that says what it computes.
  - `GosuEditor` is a class with the four mode flags.
- `build_model.dfy` holds the values a build works with: compiled classes, file trees, compilations. It also holds the functions that say what a build computes: errant types, the clean list, types to compile, copy targets, and the summary text.
  - The consumer lambdas are a datatype of nested wrappers around the caller's consumer.
  - Several collaborators are given as data: the compiler, the usage searcher, the change finder and the debugger.
    - The compiler is given as what each call hands to the consumer and returns, plus its final error and warning counts.
    - The usage search is a function from a type to a set of types.
    - The change finder is given as a refresh-all flag and a list of changed files.
    - The debugger is a flag saying whether one is attached.
- `experiment_build.dfy` holds the class `ExperimentBuild`. Its methods update the errant set and the clean list in place, exactly as the lambdas and the passes do.
  - Each method's `ensures` ties the new state to the functions of `build_model.dfy`.
  - Lemmas there and in `build_model.dfy` state what the chains mean:
    - the errant set ends up as the types of the errant results;
    - the clean list is the non-errant results, in order, when a debugger is attached, and empty otherwise.

## Model

| member | source | states |
|---|---|---|
| ExperimentBuilds.ExperimentBuild.constructor | gosu-lab/src/main/java/editor/shipit/ExperimentBuild.java:40-52 | a new build starts with no errant types, an empty clean list and a fresh change finder |
| ExperimentBuilds.ExperimentBuild.Make | gosu-lab/src/main/java/editor/shipit/ExperimentBuild.java:54-67 | full rebuild of the root exactly when the finder asks for refresh-all; otherwise the compiled types are the usage-search results of the changed typed files plus the previous build's errant types (errant types are retried), each compiled once; afterwards the errant set is exactly the types of the errant results; the debugger receives exactly the non-errant results, in order, when attached and there are any; the summary reflects the compiler's counts |
| ExperimentBuilds.ExperimentBuild.Rebuild | gosu-lab/src/main/java/editor/shipit/ExperimentBuild.java:69-76 | the whole tree from the root is compiled (progress length = its file count), the flag is the tree compile's answer, and the errant set is recomputed from this pass alone, whatever it held before |
| ExperimentBuilds.ExperimentBuild.FindTypesToCompile | gosu-lab/src/main/java/editor/shipit/ExperimentBuild.java:121-140 | types = union of the usage searches of the changed typed files, plus the current errant set; the copies are one per changed untyped file, and only when there is an output directory |
| BuildModel.UsageTypesMembership | gosu-lab/src/main/java/editor/shipit/ExperimentBuild.java:125-132 | a type is compiled iff the usage search of some changed typed file found it |
| BuildModel.UntypedFilesAddNoTypes | gosu-lab/src/main/java/editor/shipit/ExperimentBuild.java:125-137 | a changed file without a type contributes no type, wherever it is in the change list |
| BuildModel.CopyTarget | gosu-lab/src/main/java/editor/shipit/ExperimentBuild.java:142-159 | the target lies below the output directory and ends with the file's own name; when the parent's qualified name is null, the file goes directly into the output directory |
| BuildModel.PackageDirRecoversFqn | gosu-lab/src/main/java/editor/shipit/ExperimentBuild.java:144-149 | the directory between the output directory and the file name holds no '.', and turning its separators back into '.' gives the parent's qualified name (when that name holds no separator) |
| BuildModel.CopiesAreUntypedFiles | gosu-lab/src/main/java/editor/shipit/ExperimentBuild.java:133-136 | every copy is of a changed file that is a file and has no type, to its `CopyTarget`, and there are none without an output directory; conversely, with an output directory every changed untyped file is copied to its `CopyTarget` |
| ExperimentBuilds.ExperimentBuild.ChainForDebugging | gosu-lab/src/main/java/editor/shipit/ExperimentBuild.java:166-179 | a clean result is appended to the clean list, an errant one adds its type to the errant set, then the wrapped consumer decides and its answer is returned unchanged |
| ExperimentBuilds.ExperimentBuild.ChainForNotDebugging | gosu-lab/src/main/java/editor/shipit/ExperimentBuild.java:181-190 | an errant result adds its type to the errant set, a clean one is not collected, then the wrapped consumer's answer is returned unchanged |
| ExperimentBuilds.ExperimentBuild.Accept | gosu-lab/src/main/java/editor/shipit/ExperimentBuild.java:166-190 | a result passed through a chain of lambdas: the caller's consumer answers, each lambda records its effect, outermost first |
| BuildModel.ErrantRecordedByChain | gosu-lab/src/main/java/editor/shipit/ExperimentBuild.java:166-190 | through any non-empty chain a result adds its own type to the errant set iff it is errant |
| BuildModel.ErrantOfChain | gosu-lab/src/main/java/editor/shipit/ExperimentBuild.java:166-190 | over a stream of results, a wrapped consumer collects exactly the types of the errant results |
| BuildModel.CleanRecordedByChain | gosu-lab/src/main/java/editor/shipit/ExperimentBuild.java:166-190 | with at most one debugging lambda, a result joins the clean list iff it is clean and a debugging lambda is present |
| BuildModel.CleanOfChain | gosu-lab/src/main/java/editor/shipit/ExperimentBuild.java:166-190 | with at most one debugging lambda (as make builds it), the clean list is the non-errant results in order, or empty without a debugging lambda |
| BuildModel.NonErrant | gosu-lab/src/main/java/editor/shipit/ExperimentBuild.java:169-172 | a class is in the clean list iff it is one of the stream's results and is not errant |
| ExperimentBuilds.CleanOfNotDebugging | gosu-lab/src/main/java/editor/shipit/ExperimentBuild.java:181-190 | wrapping a consumer in one more not-debugging lambda (as rebuild does) leaves the clean list unchanged |
| ExperimentBuilds.ErrantOfAppend | gosu-lab/src/main/java/editor/shipit/ExperimentBuild.java:238-241 | the errant types of two result streams one after the other are the union of each stream's |
| ExperimentBuilds.CleanOfAppend | gosu-lab/src/main/java/editor/shipit/ExperimentBuild.java:238-241 | the clean list of two result streams one after the other is the concatenation of each stream's |
| ExperimentBuilds.ExperimentBuild.Deliver | gosu-lab/src/main/java/editor/shipit/ExperimentBuild.java:238-241 | the results of one compiler call, each handed to the consumer: the errant set and the clean list grow by exactly what the chain records for them |
| ExperimentBuilds.ExperimentBuild.CompileEach | gosu-lab/src/main/java/editor/shipit/ExperimentBuild.java:238-241 | every unit compiled once in the order given; the flag is its start value OR-ed with every unit's answer; state grows by the chain's records of all results |
| ExperimentBuilds.ExperimentBuild.FullCompileSources | gosu-lab/src/main/java/editor/shipit/ExperimentBuild.java:235-244 | progress length is the sum of the trees' file counts; each tree compiled exactly once; the flag is true iff some tree compile returned true; then the debugger receives the clean list if attached and non-empty |
| ExperimentBuilds.ExperimentBuild.IncrementalCompileSources | gosu-lab/src/main/java/editor/shipit/ExperimentBuild.java:246-263 | progress length is the number of types and each type is ticked once, by name; each type compiled exactly once; the flag is always true; then the debugger receives the clean list if attached and non-empty |
| ExperimentBuilds.ExperimentBuild.RedefineClassInDebugger | gosu-lab/src/main/java/editor/shipit/ExperimentBuild.java:265-272 | classes are redefined iff a debugger is attached and the clean list is non-empty, and then exactly the clean list is sent |
| ExperimentBuilds.ExperimentBuild.RunPass | gosu-lab/src/main/java/editor/shipit/ExperimentBuild.java:203-207 | the job build starts is the incremental pass for types and the full pass for trees, with that pass's outcome |
| ExperimentBuilds.ExperimentBuild.Build | gosu-lab/src/main/java/editor/shipit/ExperimentBuild.java:192-233 | the errant set afterwards is what this build's chain recorded (the old set is dropped first); the debugger gets this build's clean list; the summary matches the pass's flag and the compiler's counts; the finder is reset once and the clean list is empty again |
| ExperimentBuilds.SingleTree | gosu-lab/src/main/java/editor/shipit/ExperimentBuild.java:73 | a pass over the single root compiles just the root: its results, answer and file count are the root's |
| BuildModel.Summary | gosu-lab/src/main/java/editor/shipit/ExperimentBuild.java:209-223 | after a completed pass the node is an error iff there are errors, a warning iff there are warnings but no errors, information otherwise, and its text gives both counts; otherwise a failure node "Compilation failed to complete" |
| BuildModel.SummaryRoundTrip | gosu-lab/src/main/java/editor/shipit/ExperimentBuild.java:213-223 | the error and warning counts can be read back from the summary text of any completed pass, and the failure text yields none |
| BuildModel.NatToStringValue | gosu-lab/src/main/java/editor/shipit/ExperimentBuild.java:215-217 | the decimal text of a count denotes that count |
| BuildModel.SummaryTextSingular | gosu-lab/src/main/java/editor/shipit/ExperimentBuild.java:215-217 | one error and no warning read "1 error  and 0 warnings " (singular, double space, trailing space) |
| BuildModel.SummaryTextPlural | gosu-lab/src/main/java/editor/shipit/ExperimentBuild.java:215-217 | two errors and one warning read "2 errors  and 1 warning " |
| FileKinds.IsValidGosuSourceFile | gosu-lab/src/main/java/editor/GosuPanel.java:1594-1605 | false for no file; otherwise true iff the ASCII-lower-cased name ends with .gs, .gsx, .gst or .gsp; so an accepted name always holds a '.' |
| FileKinds.ValidityIgnoresCase | gosu-lab/src/main/java/editor/GosuPanel.java:1594-1605 | a name is accepted as a Gosu source iff its lower-cased form is |
| FileKinds.SourceKindsAreValidSources | gosu-lab/src/main/java/editor/GosuPanel.java:375-409 | every file that opens as a class, template or enhancement is also offered by the file chooser |
| FileKinds.UpperCaseExtensionOpensAsProgram | gosu-lab/src/main/java/editor/GosuPanel.java:377-400 | the converse fails: "A.GS" is accepted as a source but opens as a program, because the mode tests are case-sensitive |
| FileKinds.SuffixesExclusive | gosu-lab/src/main/java/editor/GosuPanel.java:379-399 | no name ends in two of .gsx, .gs and .gst, so at most one mode test can succeed |
| FileKinds.InitEditorMode | gosu-lab/src/main/java/editor/GosuPanel.java:375-409 | with a file, exactly one flag is set: enhancement iff .gsx, class iff .gs, template iff .gst, program iff none of them; without one the editor is unchanged; the same editor is returned |
| Classpath.IsUpperLevelClasspath | gosu-lab/src/main/java/editor/GosuPanel.java:245-258 | false when the entry, with '\\' turned into '/', contains gosu-lab/src/main/resources; otherwise true iff it starts with the lower-cased java.home, contains a gosu-lang directory, or ends with a separator followed by tools.jar or idea_rt.jar; an upper-level entry never holds the '/'-written sample path |
| Classpath.SampleResourcesAreLocal | gosu-lab/src/main/java/editor/GosuPanel.java:245-258 | an entry in the sample-experiment resources is never upper-level, whether written with '/' or '\\' |
| Classpath.JdkEntriesAreUpperLevel | gosu-lab/src/main/java/editor/GosuPanel.java:245-258 | an entry under java.home, lower-cased as the caller does, is upper-level unless it is a sample-experiment path |
| Classpath.ToolJarsAreUpperLevel | gosu-lab/src/main/java/editor/GosuPanel.java:254-257 | a tools.jar entry is upper-level unless it is a sample-experiment path |
| Classpath.UrlsAboveGosuclassProtocol | gosu-lab/src/main/java/editor/GosuPanel.java:1746-1759 | the result is the longest prefix of the loader's URLs with no "gosu" protocol: a prefix, all non-Gosu, and the URL after it (if any) is a Gosu one |
| IssueMarkers.JoinLines | gosu-lab/src/main/java/editor/GosuPanel.java:2224-2232 | the lines concatenated, each followed by a newline |
| IssueMarkers.SplitLines | gosu-lab/src/main/java/editor/GosuPanel.java:2211 | `text.split("\n")` under Java's rule: text with no newline is the only piece (even when empty), otherwise the pieces with trailing empty ones dropped; no piece holds a newline |
| IssueMarkers.SplitJoin | gosu-lab/src/main/java/editor/GosuPanel.java:2211-2215 | splitting the joined text at newlines gives the lines back, when they hold no newline and the last is not empty |
| IssueMarkers.Strip | gosu-lab/src/main/java/editor/GosuPanel.java:2234-2244 | the line is cut at the first occurrence of the marker: the result is the prefix before it, which holds no marker, and a line without a marker is kept whole |
| IssueMarkers.RemoveOldIssueKeyMarkers | gosu-lab/src/main/java/editor/GosuPanel.java:2234-2244 | every entry of the array is cut at its first marker, in place |
| IssueMarkers.StripAllIdempotent | gosu-lab/src/main/java/editor/GosuPanel.java:2234-2244 | removing markers twice is removing them once |
| IssueMarkers.MakeIssueString | gosu-lab/src/main/java/editor/GosuPanel.java:2253-2260 | the marker with one space, then the keys joined with ", " in list order when the first key is not empty |
| IssueMarkers.IssueStringJoinsKeys | gosu-lab/src/main/java/editor/GosuPanel.java:2253-2260 | the builder loop equals the plain ", " join of the keys, unless the first key is empty |
| IssueMarkers.EmptyFirstKeySwallowsSeparator | gosu-lab/src/main/java/editor/GosuPanel.java:2256-2257 | with an empty first key, no ", " goes before the second key |
| IssueMarkers.StripMarked | gosu-lab/src/main/java/editor/GosuPanel.java:2234-2260 | a marker appended to a line without one is found again exactly where it was appended |
| IssueMarkers.StripIssueString | gosu-lab/src/main/java/editor/GosuPanel.java:2234-2260 | removing markers from a line with a fresh marker gives back the line |
| IssueMarkers.AddIssueKeyMarkers | gosu-lab/src/main/java/editor/GosuPanel.java:2246-2251 | succeeds iff every listed line is within the array; then each listed 1-based line has its keys' marker appended, in list order; on failure the lines listed before the first out-of-range one already carry their markers |
| IssueMarkers.AppendMarkersMarks | gosu-lab/src/main/java/editor/GosuPanel.java:2246-2251 | for distinct lines, appending along the list marks exactly the listed lines, whatever the list's order |
| IssueMarkers.GroupIssues | gosu-lab/src/main/java/editor/GosuPanel.java:2188-2201 | the map sends each line that has a keyed issue to its keys in encounter order, skips issues without a key, and holds no empty list |
| IssueMarkers.KeysOnLineNonEmpty | gosu-lab/src/main/java/editor/GosuPanel.java:2188-2201 | a line is in the map iff its list of keys is non-empty |
| IssueMarkers.SortedLines | gosu-lab/src/main/java/editor/GosuPanel.java:2202-2203 | the map's lines in strictly increasing order, each exactly once |
| IssueMarkers.MarkErrorsForGosuLanguageTest | gosu-lab/src/main/java/editor/GosuPanel.java:2181-2222 | nothing changes without parse errors or warnings; otherwise the text becomes the split lines, stripped of old markers and marked anew, joined; an issue line outside the split lines aborts without a change |
| IssueMarkers.StripMarkedLines | gosu-lab/src/main/java/editor/GosuPanel.java:2211-2213 | removing markers from marked lines gives the stripped lines, so old markers never pile up |
| IssueMarkers.MarkingIdempotent | gosu-lab/src/main/java/editor/GosuPanel.java:2211-2213 | marking lines that were already marked with the same issues gives the same lines |
| IssueMarkers.MarkedLinesNoNewline | gosu-lab/src/main/java/editor/GosuPanel.java:2211-2215 | the marked lines hold no newline when no issue key does |
| IssueMarkers.RemarkingIsStable | gosu-lab/src/main/java/editor/GosuPanel.java:2181-2222 | running the mark phase again on its own output, with the same issues, gives the same lines again |

## Left out

- Swing and the UI:
  - message panels, dialogs and selection of the summary node;
  - the progress dialog and its worker thread, and the modal event queue that waits for it;
  - the undo atom around the document replacement.
- Threads: the pass runs to completion and then returns. Nothing cancels it, because the code offers no cancellation.
- `ExperimentBuilds.ExperimentBuild.Build`: exceptions thrown by `Compiler`, `MessagesPanel` or the progress machinery are not modelled; every pass completes. What an exception inside a pass does in the source depends on `ProgressFeedback.runWithProgress`, which is not part of this model:
  - if it lets the exception out into `build`, the summary is never shown, and the `finally` of `build` still resets the change finder and empties the clean list;
  - if it keeps the exception inside the progress job, `build` waits until `bFinished` is set. `incrementalCompileSources` sets it in its own `finally`, so `build` then goes on. Every exception after `bRes[0] = true` (line 251 of `ExperimentBuild.java`) finds the flag already true, and `build` reports "Compilation completed with …"; one from `progress.setLength` leaves it false, and `build` reports "Compilation failed to complete"; `fullCompileSources` has no `finally`, so `bFinished` stays false and `build` waits for ever.
- `ExperimentBuilds.ExperimentBuild.IncrementalCompileSources`: an exception from `Compiler.compile` is not modelled. In the source it skips the remaining types and the debugger redefinition; what `build` does next is one of the two cases above.
- `ExperimentBuilds.ExperimentBuild.Deliver`: the answer of the caller's consumer goes back into `Compiler.compile` and `compileTree` in the source, which may act on it. The model drops it in `Deliver`; what the compiler does is fixed in the given `Compilation` data, which is sound because the caller's consumer is a fixed function.
- `ExperimentBuilds.ExperimentBuild.IncrementalCompileSources`: a null type in the compile set, and its empty progress tick `""`, cannot occur; a `TypeName` is never null.
- The file system:
  - `cleanCompileOutput` and `copySources` in `rebuild`;
  - `TypeSystem.refresh`;
  - `mkdirs` and the copy itself in `copySourceFileToOutputDir`.
  - `copySourceFileToOutputDir` is modelled as the target path it computes. `PathUtil` is taken to join with one separator and not to normalise.
- `CompilerSettings.getCompilerOutputDir()` is an optional string parameter.
- The collaborators are inputs, and their internals are not modelled: `FileChangeFinder`, `IncrementalCompilerUsageSearcher`, `Compiler`, `Debugger`, `LabFrame`.
  - Whether the usage search finds transitive users is up to the searcher. The model takes whatever set it returns.
- The debugger is queried once per `make`. The source queries it again in `redefineClassInDebugger`; in the model both queries give the same answer.
- `ExperimentBuild.instance()`: the singleton accessor is not modelled.
- The constructor's `rebuild` flag goes to the `FileChangeFinder`, which is not modelled.
- `ExperimentBuilds.ExperimentBuild.FullCompileSources`: the progress ticks of the full pass are not modelled. They happen inside `Compiler.compileTree`.
- `String.toLowerCase` is modelled on ASCII letters only.
- `IsValidGosuSourceFile` and `InitEditorMode` take a file by its name. A `File` whose name is null is not modelled.
- `Classpath.UrlsAboveGosuclassProtocol` returns a sequence, not a `URL[]` array.
- `IssueMarkers.MarkErrorsForGosuLanguageTest`:
  - takes the document text as a parameter and returns the new text, instead of reading and replacing the `GosuDocument`;
  - does not model `BadLocationException`.
  - An issue line outside the split lines makes Java throw `ArrayIndexOutOfBoundsException` out of the method. The model returns `LineOutOfBounds` and leaves the document unchanged.
- `IssueMarkers.AddIssueKeyMarkers` requires every listed line to be a key of the map. Its only caller lists the map's own keys; a missing key would make the source throw `NullPointerException`.
- The spaces in the summary text are kept exactly as the source writes them: two spaces before "and", and a trailing space.
