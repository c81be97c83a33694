# ddlgen-maven-plugin in Dafny

This project models `DatabaseSchemaGenerator`, the single Maven goal of
ddlgen-maven-plugin (`generate-ddl`), and proves what it does. For every configured
Hibernate dialect the goal writes a create script and a drop script into the output
directory. Each script holds an optional header comment, rendered from a template,
followed by what Hibernate's `SchemaExport` produces from the configured sources. The
sources are the XML mapping files found below the mapping directories and the
`@Entity` classes found in the configured packages.

The model has one module per concern:

- `Text`: the JDK and commons-lang string operations the goal relies on: `trim`,
  `isBlank`, `toLowerCase`, `endsWith`, `endsWithIgnoreCase`, `lastIndexOf` and
  `replace`.
- `FileNames`: `createFileName` and `createDropFileName` as a partial function, plus a
  checked variant that reports a dialect without a database name.
- `Header`: `getInitialComment`, with `replaceEachRepeatedly` written out pass by pass;
  `generatedOn` is filled in from the clock.
- `Validation`: `validateParameters`, its four checks in order.
- `FileTree`, `MappingFiles`: a directory tree as a datatype, the depth-first walk of
  `Files.find`, and its filter for mapping files.
- `EntityDiscovery`: `getAllEntityClasses` and `findClasses` over that tree. Loading a
  class and testing it for `@Entity` is a parameter (`Loader`).
- `Orchestration`: `createDDLScript` and the dialect loop of `execute`, as functions
  from one state to the next. The state is the `generatedOn` field and the output
  directory, a map from file name to content. The mapping directories, the class path,
  the metadata build and the exporter are parameters (`Env`). A null mapping-directory or
  package list is read as empty, the corrected reading of the finding below.
- `Generator`: class `SchemaGenerator`, which holds the configuration, `generatedOn`
  and the output directory. Its methods follow the Java methods that change them. Each
  method is proved equal to the matching function in `Orchestration` or `Header`.

Assumptions the model makes about code outside this repository:

- `replaceEachRepeatedly` behaves as in commons-lang3 3.x. It runs passes while a
  search string whose replacement is not null still occurs. It starts with a
  time-to-live of the search list's length, 3, and when that falls below zero it fails
  if some replacement is itself a search string.
- `SchemaExport` appends its script to the output file.
- `Files.write` with only `CREATE` writes from the start of the file without truncating
  it. Since both scripts are deleted first, each script holds the header followed by
  the exporter's output. When the create and drop names coincide, that one file holds
  the header once, then the create script, then the drop script (`Orchestration.StepFiles`).

Values that hold no complete placeholder are not enough for one substitution pass to
suffice: a value can complete a placeholder around it (`Header.StraddlingTokenNeedsSecondPass`).
The one-pass result (`Header.OnePassSuffices`) is therefore proved for literal text and
values without '$'.

## Model

| member | source | states |
|---|---|---|
| Text.Trim | src/main/java/org/r7c/maven/tools/DatabaseSchemaGenerator.java:320 | `StringUtils.trim`: the result neither starts nor ends with a character up to U+0020 |
| Text.TrimIsInnerSlice | src/main/java/org/r7c/maven/tools/DatabaseSchemaGenerator.java:116 | trimming only removes characters at the two ends: the result is a slice of the input |
| Text.TrimIdempotent | src/main/java/org/r7c/maven/tools/DatabaseSchemaGenerator.java:320 | trimming twice is trimming once |
| Text.Lower | src/main/java/org/r7c/maven/tools/DatabaseSchemaGenerator.java:273 | `toLowerCase` maps each character on its own and keeps the length; no upper-case ASCII letter remains |
| Text.LastIndexOfChar | src/main/java/org/r7c/maven/tools/DatabaseSchemaGenerator.java:273 | `lastIndexOf('.')` is -1 exactly when there is no '.', and otherwise a '.' with none after it |
| Text.LastIndexOf | src/main/java/org/r7c/maven/tools/DatabaseSchemaGenerator.java:273 | `lastIndexOf("Dialect")` is -1 exactly when the text never occurs, and otherwise the last position where it occurs |
| Text.EndsWithIgnoreCaseIsLowerEndsWith | src/main/java/org/r7c/maven/tools/DatabaseSchemaGenerator.java:210-211 | ignoring case is comparing the lower-cased endings |
| Text.ReplaceChar | src/main/java/org/r7c/maven/tools/DatabaseSchemaGenerator.java:328 | `replace('.', '/')` changes each '.' and nothing else, keeping the length |
| Text.LowerChar | src/main/java/org/r7c/maven/tools/DatabaseSchemaGenerator.java:273 | one character of `toLowerCase`: the result is never an upper-case ASCII letter, and any other character is kept |
| Text.LowerKeepsNonCapitals | src/main/java/org/r7c/maven/tools/DatabaseSchemaGenerator.java:273 | `toLowerCase` of a string without upper-case ASCII letters is the string itself |
| Text.IsBlank | src/main/java/org/r7c/maven/tools/DatabaseSchemaGenerator.java:140 | definition only, no contract: `StringUtils.isBlank`, null, empty or only `Character.isWhitespace` characters; `Validation.WhitespaceSuffixRejected` and `Header.InitialComment` state what depends on it |
| Text.EndsWithIgnoreCase | src/main/java/org/r7c/maven/tools/DatabaseSchemaGenerator.java:210-211 | definition only, no contract: the last characters equal the suffix after ASCII lower-casing; `Text.EndsWithIgnoreCaseIsLowerEndsWith` relates it to `endsWith` |
| FileTree.Entries | src/main/java/org/r7c/maven/tools/DatabaseSchemaGenerator.java:208 | the walk starts with the start directory itself at the empty path; every other entry's path ends with its own name |
| FileTree.UnderMembership | src/main/java/org/r7c/maven/tools/DatabaseSchemaGenerator.java:208 | seen from the parent, an entry of a sub-directory is exactly an entry of the sub-directory with its name put in front of the path |
| FileNames.DbName | src/main/java/org/r7c/maven/tools/DatabaseSchemaGenerator.java:273 | the database name has no '.', no upper-case ASCII letter, and the length of the cut between the last '.' and the last "Dialect" |
| FileNames.CreateFileName | src/main/java/org/r7c/maven/tools/DatabaseSchemaGenerator.java:272-275 | defined only for a dialect with a database name; the name ends with the create suffix |
| FileNames.CreateDropFileName | src/main/java/org/r7c/maven/tools/DatabaseSchemaGenerator.java:277-280 | defined only for a dialect with a database name; the name ends with the drop suffix |
| FileNames.CheckedFileNames | src/main/java/org/r7c/maven/tools/DatabaseSchemaGenerator.java:155-156 | fails, naming the dialect, exactly when `substring` would throw; otherwise gives both file names |
| FileNames.FileNamesShareDbName | src/main/java/org/r7c/maven/tools/DatabaseSchemaGenerator.java:272-280 | both names are the same dot-free database name followed by their own suffix |
| FileNames.DbNameOfQualified | src/main/java/org/r7c/maven/tools/DatabaseSchemaGenerator.java:273 | for `p.CDialect` with a dot-free `C`, the database name is `C` lower-cased |
| FileNames.DbNameOfUnqualified | src/main/java/org/r7c/maven/tools/DatabaseSchemaGenerator.java:273 | for `CDialect` without a package, the database name is `C` lower-cased |
| FileNames.DefaultDialectIsDerby | src/main/java/org/r7c/maven/tools/DatabaseSchemaGenerator.java:77 | the default dialect `org.hibernate.dialect.DerbyDialect` gives `derby` |
| FileNames.DefaultDialectFileNames | src/test/java/org/r7c/maven/tools/DatabaseSchemaGeneratorTest.java:78-80 | the default dialect's scripts are `derby` followed by each suffix |
| FileNames.LowerCaseMarkerDoesNotCount | src/main/java/org/r7c/maven/tools/DatabaseSchemaGenerator.java:273 | the match is case-sensitive: the package segment `dialect` does not count, so `org.hibernate.dialect.Derby` has no name |
| FileNames.MarkerBeforeLastDotFails | src/main/java/org/r7c/maven/tools/DatabaseSchemaGenerator.java:273 | "Dialect" before the last '.' (`com.acme.MyDialect.v2`) leaves no name |
| Header.TokenAt | src/main/java/org/r7c/maven/tools/DatabaseSchemaGenerator.java:258-260 | a match is a search token with a value at the current position; none means no valued token starts there |
| Header.ReplaceOnce | src/main/java/org/r7c/maven/tools/DatabaseSchemaGenerator.java:258-260 | definition only, no contract: one left-to-right pass of `replaceEach`; `ReplaceOnceAtToken`, `ReplaceOnceSkipsPlainText`, `ReplaceOnceWithoutMatch` and `ChangedTextHadMatch` state what it does |
| Header.HasMatch | src/main/java/org/r7c/maven/tools/DatabaseSchemaGenerator.java:258-260 | definition only, no contract: the test that starts another pass; `Header.HasMatchIffOccurs` proves it holds exactly when a valued token occurs |
| Header.Cycle | src/main/java/org/r7c/maven/tools/DatabaseSchemaGenerator.java:258-260 | definition only, no contract: a replacement that is itself a search string; `Header.SelfReplacingValueLoops` shows it makes the call fail |
| Header.ReplaceEachRepeatedly | src/main/java/org/r7c/maven/tools/DatabaseSchemaGenerator.java:258-260 | the call fails only when some replacement is itself a search string; `Header.OnePassSuffices` gives its result for templates and values without '$' |
| Header.OnlyOneTokenStarts | src/main/java/org/r7c/maven/tools/DatabaseSchemaGenerator.java:259 | the three placeholders never overlap: at most one starts at any position |
| Header.InitialComment | src/main/java/org/r7c/maven/tools/DatabaseSchemaGenerator.java:253-263 | a blank template gives no header and leaves `generatedOn`; otherwise `generatedOn` becomes the old value or the clock's, and the result is a header or the cycle error, never no header; a header is produced only for a non-blank template |
| Header.ReplaceOnceAtToken | src/main/java/org/r7c/maven/tools/DatabaseSchemaGenerator.java:258-260 | a placeholder is replaced by its value, or kept when the value is null |
| Header.ReplaceOnceSkipsPlainText | src/main/java/org/r7c/maven/tools/DatabaseSchemaGenerator.java:258-260 | text without '$' is copied unchanged and holds no match |
| Header.ReplaceOnceRenders | src/main/java/org/r7c/maven/tools/DatabaseSchemaGenerator.java:258-260 | one pass over a template of '$'-free text and placeholders gives its intended rendering |
| Header.RenderHasNoMatch | src/main/java/org/r7c/maven/tools/DatabaseSchemaGenerator.java:258-260 | with '$'-free values the rendering holds no further match |
| Header.OnePassSuffices | src/main/java/org/r7c/maven/tools/DatabaseSchemaGenerator.java:258-260 | substitution is complete and literal: every placeholder with a value is replaced, all other text is kept, and the loop stops after one pass |
| Header.InitialCommentRenders | src/main/java/org/r7c/maven/tools/DatabaseSchemaGenerator.java:253-260 | for a non-blank template of '$'-free text and placeholders with '$'-free values, the header is its rendering with the stamp in place of `${generatedOn}`: the old `generatedOn`, or the clock when it was null; that stamp is the field's new value |
| Header.HasMatchIffOccurs | src/main/java/org/r7c/maven/tools/DatabaseSchemaGenerator.java:258-260 | the loop's continue test holds exactly when some valued token occurs somewhere |
| Header.TemplateWithoutTokensUnchanged | src/main/java/org/r7c/maven/tools/DatabaseSchemaGenerator.java:258-260 | a template with no placeholder is returned as it is |
| Header.ReplaceOnceWithoutMatch | src/main/java/org/r7c/maven/tools/DatabaseSchemaGenerator.java:258-260 | a pass over text without a match changes nothing |
| Header.ChangedTextHadMatch | src/main/java/org/r7c/maven/tools/DatabaseSchemaGenerator.java:258-260 | a pass changes text only when a match occurs |
| Header.ThreePlaceholderTemplate | src/main/java/org/r7c/maven/tools/DatabaseSchemaGenerator.java:258-260 | a template of three placeholders between '$'-free text renders with each value in place |
| Header.CommentTestRenders | src/test/java/org/r7c/maven/tools/DatabaseSchemaGeneratorTest.java:104-112 | the project's comment test renders exactly as asserted, and keeps the given date |
| Header.StraddlingTokenNeedsSecondPass | src/main/java/org/r7c/maven/tools/DatabaseSchemaGenerator.java:258-260 | a value can complete a placeholder across its own: `${schema${application}sion}` with application `Ver` becomes the version after a second pass |
| Header.SelfReplacingValueLoops | src/main/java/org/r7c/maven/tools/DatabaseSchemaGenerator.java:258-260 | a value that is itself a placeholder makes `replaceEachRepeatedly` fail |
| Validation.Validate | src/main/java/org/r7c/maven/tools/DatabaseSchemaGenerator.java:131-146 | passes exactly when all four conditions hold; otherwise reports a violated condition with every earlier one met; a pass means at least one dialect |
| Validation.FirstViolatedIsReported | src/main/java/org/r7c/maven/tools/DatabaseSchemaGenerator.java:131-146 | the first violated condition, in checking order, is the one reported |
| Validation.OneSourceListSuffices | src/main/java/org/r7c/maven/tools/DatabaseSchemaGenerator.java:135-137 | a null package list passes when mapping directories are given |
| Validation.WhitespaceSuffixRejected | src/main/java/org/r7c/maven/tools/DatabaseSchemaGenerator.java:140-142 | a whitespace-only create suffix is blank and rejected |
| MappingFiles.SelectedPaths | src/main/java/org/r7c/maven/tools/DatabaseSchemaGenerator.java:208-212 | a path is kept exactly when its entry passes the filter; no more paths than entries |
| MappingFiles.IsMappingName | src/main/java/org/r7c/maven/tools/DatabaseSchemaGenerator.java:210-211 | definition only, no contract: a name ending with `hbm.xml` or `orm.xml`, ignoring case; `MappingNameIsLowerCaseEnding` and `MixedCaseEndingAccepted` state its meaning |
| MappingFiles.Selected | src/main/java/org/r7c/maven/tools/DatabaseSchemaGenerator.java:209-212 | definition only, no contract: the `Files.find` filter, a regular file with a mapping name other than the start; `FoundIsRegularMappingFile` and `RegularMappingFileIsFound` state what it selects |
| MappingFiles.Found | src/main/java/org/r7c/maven/tools/DatabaseSchemaGenerator.java:208-212 | definition only, no contract: the filter applied to the walk; `FoundIsRegularMappingFile` and `RegularMappingFileIsFound` state exactly what it holds |
| MappingFiles.FoundIsRegularMappingFile | src/main/java/org/r7c/maven/tools/DatabaseSchemaGenerator.java:208-212 | every found path is a regular file strictly below the start whose name has a mapping ending |
| MappingFiles.RegularMappingFileIsFound | src/main/java/org/r7c/maven/tools/DatabaseSchemaGenerator.java:208-212 | every regular file below the start with a mapping ending is found |
| MappingFiles.MappingNameIsLowerCaseEnding | src/main/java/org/r7c/maven/tools/DatabaseSchemaGenerator.java:210-211 | a mapping name is one whose lower-cased form ends with `hbm.xml` or `orm.xml` |
| MappingFiles.MixedCaseEndingAccepted | src/main/java/org/r7c/maven/tools/DatabaseSchemaGenerator.java:210-211 | `Example.HBM.XML` is accepted |
| MappingFiles.PlainXmlNameRejected | src/main/java/org/r7c/maven/tools/DatabaseSchemaGenerator.java:210-211 | `example.xml`, with neither mapping ending, is not accepted |
| MappingFiles.MappingFileAsStartYieldsNothing | src/main/java/org/r7c/maven/tools/DatabaseSchemaGenerator.java:212 | a mapping directory that is itself a mapping file gives nothing |
| EntityDiscovery.BaseName | src/main/java/org/r7c/maven/tools/DatabaseSchemaGenerator.java:360 | the base name followed by `.class` is the file name |
| EntityDiscovery.LoadAll | src/main/java/org/r7c/maven/tools/DatabaseSchemaGenerator.java:360-363 | fails exactly when some name cannot be loaded, with the first such name; otherwise keeps exactly the entity classes |
| EntityDiscovery.ClassesOf | src/main/java/org/r7c/maven/tools/DatabaseSchemaGenerator.java:355-364 | the walk below one entry keeps only entity classes; a failure names a class the loader cannot find |
| EntityDiscovery.ClassesIn | src/main/java/org/r7c/maven/tools/DatabaseSchemaGenerator.java:353-366 | the walk of a listing keeps only entity classes; a failure names a class the loader cannot find |
| EntityDiscovery.FindIn | src/main/java/org/r7c/maven/tools/DatabaseSchemaGenerator.java:347-352 | a directory that does not exist gives nothing; otherwise only entity classes, and a failure names a class that cannot be found |
| EntityDiscovery.ClassesInDirs | src/main/java/org/r7c/maven/tools/DatabaseSchemaGenerator.java:340-342 | the walk of every package directory keeps only entity classes; a failure names a class that cannot be found |
| EntityDiscovery.EntityClasses | src/main/java/org/r7c/maven/tools/DatabaseSchemaGenerator.java:318-345 | a name blank after trimming gives nothing; otherwise the walk of the directories of the '/'-separated path, in order (no directory gives nothing); `EntityClassesMembership` states which classes that is |
| EntityDiscovery.CandidatesUnder | src/main/java/org/r7c/maven/tools/DatabaseSchemaGenerator.java:356-358 | walking a sub-directory extends the package by "." and its name |
| EntityDiscovery.ClassesOfIsLoadAll | src/main/java/org/r7c/maven/tools/DatabaseSchemaGenerator.java:347-367 | the recursive walk below one entry equals loading its flattened class-file names in walk order |
| EntityDiscovery.ClassesInIsLoadAll | src/main/java/org/r7c/maven/tools/DatabaseSchemaGenerator.java:347-367 | the recursive walk equals loading the class-file names of the flattened tree in walk order |
| EntityDiscovery.CandidateIsClassFileName | src/main/java/org/r7c/maven/tools/DatabaseSchemaGenerator.java:359-360 | every candidate comes from a `.class` file, as the package, its directories with "." and the base name |
| EntityDiscovery.DiscoveredClassShape | src/main/java/org/r7c/maven/tools/DatabaseSchemaGenerator.java:355-364 | every class found is an entity and is named `pkg.` + `dir.`* + base name of a `.class` file |
| EntityDiscovery.ClassFileIsCandidate | src/main/java/org/r7c/maven/tools/DatabaseSchemaGenerator.java:356-360 | every `.class` file of the listing is loaded under its qualified name |
| EntityDiscovery.CandidatesAreClassFiles | src/main/java/org/r7c/maven/tools/DatabaseSchemaGenerator.java:356-360 | the names loaded are exactly the qualified names of the `.class` files |
| EntityDiscovery.ClassesInMembership | src/main/java/org/r7c/maven/tools/DatabaseSchemaGenerator.java:347-367 | a successful walk returns exactly the entity classes named after the `.class` files of the listing: none is missed and none is added |
| EntityDiscovery.ClassesInDirsMembership | src/main/java/org/r7c/maven/tools/DatabaseSchemaGenerator.java:340-367 | over all package directories, exactly the entity classes named after `.class` files of the existing directories |
| EntityDiscovery.EntityClassesMembership | src/main/java/org/r7c/maven/tools/DatabaseSchemaGenerator.java:318-345 | a successful `getAllEntityClasses` returns exactly the entity classes named after `.class` files in an existing directory of the trimmed, non-blank package name |
| EntityDiscovery.UnknownClassAborts | src/main/java/org/r7c/maven/tools/DatabaseSchemaGenerator.java:360 | the walk fails exactly when a candidate cannot be loaded, and names the first one |
| EntityDiscovery.ClassesInDirsAppend | src/main/java/org/r7c/maven/tools/DatabaseSchemaGenerator.java:340-342 | the classes of several directories are concatenated in order |
| EntityDiscovery.FindClasses | src/main/java/org/r7c/maven/tools/DatabaseSchemaGenerator.java:347-367 | the loop with recursion computes the walk; a missing directory gives nothing |
| EntityDiscovery.AllEntityClasses | src/main/java/org/r7c/maven/tools/DatabaseSchemaGenerator.java:318-345 | the loop over the package directories computes `EntityClasses` |
| Orchestration.TagMembership | src/main/java/org/r7c/maven/tools/DatabaseSchemaGenerator.java:214-217 | the sources handed on from a directory are exactly its found paths, each with that directory |
| Orchestration.MappingSources | src/main/java/org/r7c/maven/tools/DatabaseSchemaGenerator.java:206-222 | fails only on a mapping directory that does not exist; success means every directory exists |
| Orchestration.MappingSourcesMembership | src/main/java/org/r7c/maven/tools/DatabaseSchemaGenerator.java:206-217 | a successful result holds exactly the found mapping files of every directory, each tagged with its directory |
| Orchestration.PackageSources | src/main/java/org/r7c/maven/tools/DatabaseSchemaGenerator.java:230-236 | fails only with a class that cannot be loaded; success means every package was searched |
| Orchestration.PackageSourcesMembership | src/main/java/org/r7c/maven/tools/DatabaseSchemaGenerator.java:230-235 | the classes added are exactly those some package's `getAllEntityClasses` returns, so by `EntityClassesMembership` the entity classes of its `.class` files |
| Orchestration.CollectSourcesAsWritten | src/main/java/org/r7c/maven/tools/DatabaseSchemaGenerator.java:201-237 | the sources as written: a null mapping-directory list fails with the null-list error, and so does a null package list once the mapping directories are read; a null-list failure happens only with a null list; every other failure is a missing mapping directory or a class not found |
| Orchestration.CollectSources | src/main/java/org/r7c/maven/tools/DatabaseSchemaGenerator.java:201-237 | the corrected sources fail only for a missing mapping directory or a class not found, never on a null list |
| Orchestration.WriteFromStart | src/main/java/org/r7c/maven/tools/DatabaseSchemaGenerator.java:246 | the data is written over the start and a longer old content keeps its tail |
| Orchestration.WrittenScript | src/main/java/org/r7c/maven/tools/DatabaseSchemaGenerator.java:239-251 | the directory gains the script's name and keeps every other file as it was; the script starts with the header (nothing when blank) and ends with the exporter's output |
| Orchestration.WriteFromStartOverSameHeader | src/main/java/org/r7c/maven/tools/DatabaseSchemaGenerator.java:246 | writing a header over a file that starts with it changes nothing |
| Orchestration.WrittenScriptFresh | src/main/java/org/r7c/maven/tools/DatabaseSchemaGenerator.java:239-251 | into a missing file the script writes the header, if not blank, then the exporter's output |
| Orchestration.WrittenScriptAfterSameHeader | src/main/java/org/r7c/maven/tools/DatabaseSchemaGenerator.java:239-251 | into a file starting with the same header the script appends the exporter's output |
| Orchestration.Prepare | src/main/java/org/r7c/maven/tools/DatabaseSchemaGenerator.java:149-171 | fails only for a dialect without a database name, a missing mapping directory, a class not found or a failed metadata build, never on a null list; `PreparePlan` gives the plan |
| Orchestration.Emit | src/main/java/org/r7c/maven/tools/DatabaseSchemaGenerator.java:180-198 | definition only, no contract: deletions, header, both scripts; `EmitFiles`, `EmitFrame` and `EmitHeaderFailure` state its result |
| Orchestration.Step | src/main/java/org/r7c/maven/tools/DatabaseSchemaGenerator.java:149-198 | definition only, no contract: `createDDLScript`; `StepFiles`, `StepFrame`, `StepRejectsDialect`, `HeaderFailureClearsScripts`, `StepGeneratedOn` and `StepIdempotent` state its result |
| Orchestration.PreparePlan | src/main/java/org/r7c/maven/tools/DatabaseSchemaGenerator.java:155-171 | the step reaches the files exactly when the names, the sources and the build succeed, with those names and sources |
| Orchestration.StepFiles | src/main/java/org/r7c/maven/tools/DatabaseSchemaGenerator.java:182-198 | a step passes exactly when its sources and header succeed; both scripts are then the header followed by the exporter's output, no prior content survives, and other files are kept |
| Orchestration.EmitFiles | src/main/java/org/r7c/maven/tools/DatabaseSchemaGenerator.java:182-198 | the delete-then-write sequence leaves exactly the closed-form directory |
| Orchestration.EmitHeaderFailure | src/main/java/org/r7c/maven/tools/DatabaseSchemaGenerator.java:182-194 | a header failure happens after both deletions and after `generatedOn` is set |
| Orchestration.EmitFrame | src/main/java/org/r7c/maven/tools/DatabaseSchemaGenerator.java:182-198 | the write phase touches only the two scripts |
| Orchestration.StepFrame | src/main/java/org/r7c/maven/tools/DatabaseSchemaGenerator.java:149-198 | a step changes no file but its two scripts, and changes nothing when it fails before the deletions |
| Orchestration.StepRejectsDialect | src/main/java/org/r7c/maven/tools/DatabaseSchemaGenerator.java:155-156 | a dialect without a database name fails before anything else |
| Orchestration.HeaderFailureClearsScripts | src/main/java/org/r7c/maven/tools/DatabaseSchemaGenerator.java:182-194 | a header cycle ends the step with both scripts deleted and `generatedOn` set |
| Orchestration.StepGeneratedOn | src/main/java/org/r7c/maven/tools/DatabaseSchemaGenerator.java:253-257 | after a step `generatedOn` is unchanged for a blank template and otherwise set |
| Orchestration.StepIdempotent | src/main/java/org/r7c/maven/tools/DatabaseSchemaGenerator.java:149-198 | running a dialect again reproduces the same directory and `generatedOn` |
| Orchestration.ScriptsAfterIgnoresTargets | src/main/java/org/r7c/maven/tools/DatabaseSchemaGenerator.java:182-191 | what the two scripts held before has no effect on the result |
| Orchestration.ScriptsAfterFrame | src/main/java/org/r7c/maven/tools/DatabaseSchemaGenerator.java:182-198 | writing the scripts leaves all other files as they were |
| Orchestration.RunDialects | src/main/java/org/r7c/maven/tools/DatabaseSchemaGenerator.java:114-122 | definition only, no contract: the dialect loop; `RunDialectsHead`, `RunDialectsAppend`, `FirstFailureEndsRun` and `RunDialectsCreatesScripts` state its result |
| Orchestration.Run | src/main/java/org/r7c/maven/tools/DatabaseSchemaGenerator.java:107-123 | definition only, no contract: `execute`; `InvalidConfigChangesNothing` and `RunCreatesAllScripts` state its result |
| Orchestration.RunDialectsHead | src/main/java/org/r7c/maven/tools/DatabaseSchemaGenerator.java:114-122 | the loop runs the first dialect, trimmed, and continues only when it passed |
| Orchestration.RunDialectsAppend | src/main/java/org/r7c/maven/tools/DatabaseSchemaGenerator.java:114-122 | dialects run in list order: the run over `a + b` is the run over `a`, then `b` only if `a` passed |
| Orchestration.FirstFailureEndsRun | src/main/java/org/r7c/maven/tools/DatabaseSchemaGenerator.java:114-122 | the first failing dialect ends the run with its failure and state; later dialects never run |
| Orchestration.FailingHeadEndsRun | src/main/java/org/r7c/maven/tools/DatabaseSchemaGenerator.java:114-122 | a failing first dialect is the whole run |
| Orchestration.StepKeepsNames | src/main/java/org/r7c/maven/tools/DatabaseSchemaGenerator.java:180-198 | a passing step keeps every existing file and adds exactly its two script names |
| Orchestration.RunDialectsCreatesScripts | src/main/java/org/r7c/maven/tools/DatabaseSchemaGenerator.java:114-122 | a passing loop leaves both scripts of every dialect, trimmed, in the directory |
| Orchestration.InvalidConfigChangesNothing | src/main/java/org/r7c/maven/tools/DatabaseSchemaGenerator.java:107-111 | a configuration that fails validation ends the run with that error and no change |
| Orchestration.RunCreatesAllScripts | src/test/java/org/r7c/maven/tools/DatabaseSchemaGeneratorTest.java:77-82 | after a passing run the configuration is valid and both scripts of every dialect exist |
| Orchestration.AsWrittenAgreesWithoutNulls | src/main/java/org/r7c/maven/tools/DatabaseSchemaGenerator.java:201-237 | with both lists present the source's behaviour and the corrected one agree |
| Orchestration.NullPackagesPassValidationThenFail | src/main/java/org/r7c/maven/tools/DatabaseSchemaGenerator.java:225-230 | a configuration with mapping directories and no packages passes validation, and the sources as written then fail on the null list |
| Orchestration.CorrectedSourcesTreatNullAsEmpty | src/main/java/org/r7c/maven/tools/DatabaseSchemaGenerator.java:201-237 | the corrected sources read a null list as empty and never fail on a null list |
| Generator.SchemaGenerator.constructor | src/main/java/org/r7c/maven/tools/DatabaseSchemaGenerator.java:73-105 | the object holds the given parameters, `generatedOn` and directory |
| Generator.SchemaGenerator.InitialComment | src/main/java/org/r7c/maven/tools/DatabaseSchemaGenerator.java:253-263 | returns the rendered header and updates `generatedOn` as `Header.InitialComment` says; the files are untouched |
| Generator.SchemaGenerator.MappingFilesToMetadata | src/main/java/org/r7c/maven/tools/DatabaseSchemaGenerator.java:201-223 | the loop over the directories computes `MappingSources`, a null list read as empty |
| Generator.SchemaGenerator.PackagesToMetadata | src/main/java/org/r7c/maven/tools/DatabaseSchemaGenerator.java:225-237 | the loop over the packages computes `PackageSources`, a null list read as empty |
| Generator.SchemaGenerator.GenerateScript | src/main/java/org/r7c/maven/tools/DatabaseSchemaGenerator.java:239-251 | the file becomes what `WrittenScript` gives; `generatedOn` is untouched |
| Generator.SchemaGenerator.PrepareScripts | src/main/java/org/r7c/maven/tools/DatabaseSchemaGenerator.java:155-171 | computes `Prepare` without writing anything |
| Generator.SchemaGenerator.EmitScripts | src/main/java/org/r7c/maven/tools/DatabaseSchemaGenerator.java:180-198 | deletes, renders and writes, ending in the state `Emit` gives |
| Generator.SchemaGenerator.CreateDdlScript | src/main/java/org/r7c/maven/tools/DatabaseSchemaGenerator.java:149-199 | ends in the outcome and state `Step` gives |
| Generator.SchemaGenerator.CreateDdlScripts | src/main/java/org/r7c/maven/tools/DatabaseSchemaGenerator.java:114-122 | the loop with early return ends in the outcome and state `RunDialects` gives |
| Generator.SchemaGenerator.Execute | src/main/java/org/r7c/maven/tools/DatabaseSchemaGenerator.java:107-123 | validation, then the dialects, ending in the outcome and state `Run` gives |

## Left out

- Maven plumbing is not modelled: the plugin lifecycle, parameter injection and their
  defaults, and `MavenProject`. The configuration is a value.
- `addProjectsResourcesToClassLoader` is not modelled. It changes the thread's context
  class loader by reflection; the effect it has on discovery is the `resources` and
  `load` parameters.
- `validateParameters` creating the missing output directory (`mkdirs`) is not
  modelled; the output directory is a map that always exists.
- `System.setProperty` for the audit table suffix is not modelled, because it is
  process-global state with no effect on the model.
- `scriptFormat` and `scriptLineDelimiter` are not modelled separately. They only
  configure the exporter, which the model treats as an opaque function (`Env.exporter`).
- Hibernate's metadata building and SQL generation are not modelled: foreign code, so
  they are the parameters `Env.build` and `Env.exporter`.
- Real I/O is replaced: `Files.find`, `listFiles` and `getResources` by trees, and the
  file writes by map updates.
- Orchestration.Prepare, and with it Orchestration.Step, Orchestration.RunDialects,
  Orchestration.Run and the methods `MappingFilesToMetadata`, `PackagesToMetadata`,
  `PrepareScripts`, `CreateDdlScript`, `CreateDdlScripts` and `Execute` of
  `Generator.SchemaGenerator`, model the corrected program, in which a null mapping-directory
  or package list contributes no sources. As written, both loops throw
  `NullPointerException` on a null list (:206, :230). Only
  `Orchestration.CollectSourcesAsWritten` models that behaviour, and the Findings row
  relates the two readings.
- Orchestration.MappingSources: the path of a mapping file that cannot be read, whose
  error is logged and the file skipped, is not modelled. Every found file reaches the
  sources.
- A `Files.delete` or write that fails is not modelled, because the model has no I/O
  errors other than a missing mapping directory.
- `LocalDateTime.now().format(...)` is the parameter `now`, because it is the clock.
- Text.Lower and Text.LowerChar: only ASCII letters are lower-cased, and
  `endsWithIgnoreCase` is modelled the same way. Full Unicode case mapping, and the
  dependence of `toLowerCase()` on the default locale (the Turkish dotless 'i' for
  'I'), are out of scope.
- Text: a Dafny `string` is a sequence of Unicode scalar values, while a Java string is
  a sequence of UTF-16 code units, so a character outside the Basic Multilingual Plane
  counts once here and twice in Java. No modelled length or index depends on that: the
  only length-based cut removes the ASCII suffix `.class`.
- The header's bytes (`getBytes` in the platform charset) are modelled as its
  characters, because charsets are out of scope.
- The tree has no symbolic links and no file attributes other than "regular".
- `findClasses` on an existing non-directory, where `listFiles` returns null, is not
  modelled: a directory given to `findClasses` either does not exist or has its
  children.
- Java `assert` statements are not modelled, because assertions are off by default.
- `null` entries inside the dialect or package lists are not modelled; the lists hold
  strings.
- An output directory that lies inside a mapping directory is not modelled: the
  mapping trees and the output map are independent.
- Logging is not modelled, because it has no effect on the result.

## Findings

| source | as written | input that shows it | evidently intended | confidence | as-written member | corrected member |
|---|---|---|---|---|---|---|
| src/main/java/org/r7c/maven/tools/DatabaseSchemaGenerator.java:225-230 | `setPackagesToMetadata` logs "No packages defined!" on a null list and then iterates the null list. `setMappingsToMetadata` does the same at :202-206. Validation (:135-137) lets `packages == null` through whenever mapping directories are set. A mapping-only configuration therefore throws `NullPointerException`. | dialects `[org.hibernate.dialect.DerbyDialect]`, packages null, mapping directories `["hbm"]` (an existing directory), suffixes `.ddl` and `-drop.ddl` | a null list contributes no sources | not executed | Orchestration.NullPackagesPassValidationThenFail | Orchestration.CorrectedSourcesTreatNullAsEmpty |
