/** The goal itself (`execute`, `createDDLScript` and the helpers they call): validate,
    then for each dialect derive the two file names, gather the mapping files and entity
    classes, delete the old scripts and write header and exporter output to each. The
    output directory is a map from file name to contents; Hibernate's metadata build and
    `SchemaExport` are opaque functions of the environment. */
module Orchestration {
  import opened Wrappers
  import opened Text
  import opened FileTree
  import opened FileNames
  import opened Header
  import opened Validation
  import opened MappingFiles
  import opened EntityDiscovery

  datatype Action = Create | Drop

  /** What reaches `MetadataSources`: each selected mapping file with its mapping
      directory, then the entity classes. */
  datatype Sources = Sources(mappings: seq<(string, RelPath)>, classes: seq<string>)

  /** Everything outside the plugin's own logic. */
  datatype Env = Env(
    mappingTree: string -> Option<Node>,           // the tree below a mapping directory; None: it does not exist
    resources: Resources,                          // `getResources` of the context class loader
    load: Loader,                                  // `loadClass` and the `@Entity` test
    build: (string, Sources) -> bool,              // `buildMetadata` for a dialect succeeds
    exporter: (Action, string, Sources) -> string) // the script `SchemaExport` produces

  /** Why a run stops: the exception that leaves `execute`. */
  datatype RunError =
    | Invalid(reason: ConfigError)       // `IllegalArgumentException` of `validateParameters`
    | BadDialect(dialect: string)        // `substring` out of bounds in the file names
    | NullList                           // iterating a null list
    | UnreadableMappingDir(dir: string)  // `Files.find` on a missing directory
    | ClassNotFound(className: string)   // `loadClass` failed
    | MetadataFailed(dialect: string)    // Hibernate rejected the sources
    | HeaderFailed(cause: HeaderError)   // `replaceEachRepeatedly` found a cycle

  /** The mutable part: the `generatedOn` field and the output directory. */
  datatype State = State(generatedOn: Option<string>, files: map<string, string>)

  datatype Ran = Ran(outcome: Outcome<RunError>, state: State)

  // ---------------------------------------------------------------------------
  // Sources

  /** Each path found below `dir`, tagged with `dir`. */
  function Tag(dir: string, ps: seq<RelPath>): (r: seq<(string, RelPath)>)
    ensures |r| == |ps| && forall i :: 0 <= i < |r| ==> r[i] == (dir, ps[i])
  {
    seq(|ps|, i requires 0 <= i < |ps| => (dir, ps[i]))
  }

  /** The tagged sources are exactly the found paths, each with its directory. */
  lemma TagMembership(dir: string, ps: seq<RelPath>, d: string, p: RelPath)
    ensures (d, p) in Tag(dir, ps) <==> d == dir && p in ps
  {
    var t := Tag(dir, ps);
    if d == dir && p in ps {
      var i :| 0 <= i < |ps| && ps[i] == p;
      assert t[i] == (d, p);
    }
  }

  /** The selected mapping files of one directory. */
  function MappingsOf(dir: string, env: Env): Result<seq<(string, RelPath)>, RunError> {
    match env.mappingTree(dir)
    case None => Failure(UnreadableMappingDir(dir))
    case Some(root) => Success(Tag(dir, Found(root)))
  }

  /** The loop of `setMappingsToMetadata` over the mapping directories. */
  function MappingSources(dirs: seq<string>, env: Env): (r: Result<seq<(string, RelPath)>, RunError>)
    ensures r.Failure? ==> r.error.UnreadableMappingDir? && r.error.dir in dirs && env.mappingTree(r.error.dir).None?
    ensures r.Success? ==> forall i :: 0 <= i < |dirs| ==> env.mappingTree(dirs[i]).Some?
  {
    if dirs == [] then Success([]) else Combine(MappingsOf(dirs[0], env), MappingSources(dirs[1..], env))
  }

  /** The entity classes of one package. */
  function ClassesOfPackage(pkg: string, env: Env): Result<seq<string>, RunError> {
    match EntityClasses(pkg, env.resources, env.load)
    case Failure(c) => Failure(ClassNotFound(c))
    case Success(cs) => Success(cs)
  }

  /** The loop of `setPackagesToMetadata` over the packages. */
  function PackageSources(pkgs: seq<string>, env: Env): (r: Result<seq<string>, RunError>)
    ensures r.Failure? ==> r.error.ClassNotFound?
    ensures r.Success? ==> forall i :: 0 <= i < |pkgs| ==> EntityClasses(pkgs[i], env.resources, env.load).Success?
  {
    if pkgs == [] then Success([]) else Combine(ClassesOfPackage(pkgs[0], env), PackageSources(pkgs[1..], env))
  }

  /** The mapping sources of several directories are each directory's found mapping
      files, tagged with that directory. */
  lemma {:induction false} MappingSourcesMembership(dirs: seq<string>, env: Env, d: string, p: RelPath)
    requires MappingSources(dirs, env).Success?
    ensures (d, p) in MappingSources(dirs, env).value
            <==> d in dirs && env.mappingTree(d).Some? && p in Found(env.mappingTree(d).value)
    decreases |dirs|
  {
    if dirs != [] {
      MappingSourcesMembership(dirs[1..], env, d, p);
      TagMembership(dirs[0], Found(env.mappingTree(dirs[0]).value), d, p);
      if d in dirs && d != dirs[0] {
        assert d in dirs[1..];
      }
    }
  }

  /** `c` is among the entity classes `getAllEntityClasses` returns for `pkg`. */
  predicate InPackage(pkg: string, env: Env, c: string) {
    var r := EntityClasses(pkg, env.resources, env.load);
    r.Success? && c in r.value
  }

  /** `c` is among the entity classes of some package of `pkgs`. */
  predicate InSomePackage(pkgs: seq<string>, env: Env, c: string) {
    exists k :: 0 <= k < |pkgs| && InPackage(pkgs[k], env, c)
  }

  lemma InSomePackageCons(pkgs: seq<string>, env: Env, c: string)
    requires pkgs != []
    ensures InSomePackage(pkgs, env, c) <==> InPackage(pkgs[0], env, c) || InSomePackage(pkgs[1..], env, c)
  {
    if InSomePackage(pkgs, env, c) {
      var k :| 0 <= k < |pkgs| && InPackage(pkgs[k], env, c);
      if k > 0 {
        assert pkgs[1..][k - 1] == pkgs[k];
      }
    }
    if InSomePackage(pkgs[1..], env, c) {
      var k :| 0 <= k < |pkgs[1..]| && InPackage(pkgs[1..][k], env, c);
      assert pkgs[1..][k] == pkgs[k + 1];
    }
  }

  /** The entity classes of several packages are those of each package, and so, by
      `EntityClassesMembership`, exactly the entity classes of their `.class` files. */
  lemma {:induction false} PackageSourcesMembership(pkgs: seq<string>, env: Env, c: string)
    requires PackageSources(pkgs, env).Success?
    ensures c in PackageSources(pkgs, env).value <==> InSomePackage(pkgs, env, c)
    decreases |pkgs|
  {
    if pkgs != [] {
      var head, rest := ClassesOfPackage(pkgs[0], env), PackageSources(pkgs[1..], env);
      assert PackageSources(pkgs, env) == Combine(head, rest);
      assert PackageSources(pkgs, env).value == head.value + rest.value;
      assert c in head.value <==> InPackage(pkgs[0], env, c);
      PackageSourcesMembership(pkgs[1..], env, c);
      InSomePackageCons(pkgs, env, c);
    }
  }

  /** The sources as the code is written: a null list is iterated and fails. */
  function CollectSourcesAsWritten(cfg: Config, env: Env): (r: Result<Sources, RunError>)
    ensures r.Failure? && r.error.NullList? ==> cfg.mappingDirs.None? || cfg.packages.None?
    ensures cfg.mappingDirs.None? ==> r == Failure(NullList)
    ensures cfg.mappingDirs.Some? && MappingSources(cfg.mappingDirs.value, env).Success? && cfg.packages.None?
            ==> r == Failure(NullList)
    ensures r.Failure? ==> r.error.NullList? || r.error.UnreadableMappingDir? || r.error.ClassNotFound?
  {
    if cfg.mappingDirs.None? then Failure(NullList)
    else match MappingSources(cfg.mappingDirs.value, env)
    case Failure(e) => Failure(e)
    case Success(ms) =>
      if cfg.packages.None? then Failure(NullList)
      else match PackageSources(cfg.packages.value, env)
      case Failure(e) => Failure(e)
      case Success(cs) => Success(Sources(ms, cs))
  }

  /** The sources as the log messages intend: a null list contributes nothing. */
  function CollectSources(cfg: Config, env: Env): (r: Result<Sources, RunError>)
    ensures r.Failure? ==> r.error.UnreadableMappingDir? || r.error.ClassNotFound?
  {
    match MappingSources(cfg.mappingDirs.GetOr([]), env)
    case Failure(e) => Failure(e)
    case Success(ms) =>
      match PackageSources(cfg.packages.GetOr([]), env)
      case Failure(e) => Failure(e)
      case Success(cs) => Success(Sources(ms, cs))
  }

  // ---------------------------------------------------------------------------
  // Files

  /** Java string concatenation renders a null suffix as "null". */
  function SuffixText(suffix: Option<string>): string {
    suffix.GetOr("null")
  }

  function Content(files: map<string, string>, name: string): string {
    if name in files then files[name] else ""
  }

  /** `Files.write(path, data, CREATE)`: creates the file if needed and writes from the
      start; it does not truncate, so a longer old content keeps its tail. */
  function WriteFromStart(prior: string, data: string): (r: string)
    ensures |r| == if |data| <= |prior| then |prior| else |data|
    ensures r[..|data|] == data && r[|data|..] == (if |data| <= |prior| then prior[|data|..] else [])
  {
    if |data| <= |prior| then data + prior[|data|..] else data
  }

  /** `generateScript`: a header that is not blank is written, then the exporter, which
      appends to the file, adds its script. */
  function WrittenScript(files: map<string, string>, name: string, header: Option<string>, output: string): (r: map<string, string>)
    ensures r.Keys == files.Keys + {name}
    ensures forall k :: k in files && k != name ==> r[k] == files[k]
    ensures HeaderText(header) <= r[name] && EndsWith(r[name], output)
  {
    var withHeader := if IsBlank(header) then files else files[name := WriteFromStart(Content(files, name), header.value)];
    withHeader[name := Content(withHeader, name) + output]
  }

  /** The text a header contributes: nothing when blank. */
  function HeaderText(header: Option<string>): string {
    if IsBlank(header) then "" else header.value
  }

  // ---------------------------------------------------------------------------
  // One dialect and the whole run

  /** What `createDDLScript` settles before touching the output directory: the two file
      names and the sources Hibernate accepted. */
  datatype Plan = Plan(file: string, fileDrop: string, sources: Sources)

  /** The first half of `createDDLScript`: file names, mapping files, entity classes and
      the metadata build, in that order. */
  function Prepare(cfg: Config, env: Env, dialect: string): (r: Result<Plan, RunError>)
    ensures r.Failure? ==> r.error.BadDialect? || r.error.UnreadableMappingDir? || r.error.ClassNotFound? || r.error.MetadataFailed?
  {
    match CheckedFileNames(dialect, SuffixText(cfg.suffixCreate), SuffixText(cfg.suffixDrop))
    case Failure(d) => Failure(BadDialect(d))
    case Success(names) =>
      match CollectSources(cfg, env)
      case Failure(e) => Failure(e)
      case Success(src) =>
        if !env.build(dialect, src) then Failure(MetadataFailed(dialect))
        else Success(Plan(names.0, names.1, src))
  }

  /** The second half: delete both scripts, render the header, write both scripts. */
  function Emit(cfg: Config, env: Env, now: string, dialect: string, plan: Plan, st: State): Ran {
    var cleared := st.files - {plan.file, plan.fileDrop};
    var comment := Header.InitialComment(cfg.commentTemplate, cfg.schemaVersion, st.generatedOn, cfg.application, now);
    match comment.0
    case Failure(e) => Ran(Fail(HeaderFailed(e)), State(comment.1, cleared))
    case Success(header) =>
      var created := WrittenScript(cleared, plan.file, header, env.exporter(Create, dialect, plan.sources));
      Ran(Pass, State(comment.1, WrittenScript(created, plan.fileDrop, header, env.exporter(Drop, dialect, plan.sources))))
  }

  /** `createDDLScript` for an already trimmed dialect. */
  function Step(cfg: Config, env: Env, now: string, dialect: string, st: State): Ran {
    match Prepare(cfg, env, dialect)
    case Failure(e) => Ran(Fail(e), st)
    case Success(plan) => Emit(cfg, env, now, dialect, plan, st)
  }

  /** The dialect loop of `execute`: in list order, each trimmed; the first failure ends
      the run. */
  function RunDialects(cfg: Config, env: Env, now: string, dialects: seq<string>, st: State): Ran
    decreases |dialects|
  {
    if dialects == [] then Ran(Pass, st)
    else
      var r := Step(cfg, env, now, Trim(dialects[0]), st);
      if r.outcome.Fail? then r else RunDialects(cfg, env, now, dialects[1..], r.state)
  }

  /** One dialect of the loop: its step, then the rest unless the step failed. */
  lemma RunDialectsHead(cfg: Config, env: Env, now: string, dialects: seq<string>, st: State)
    requires dialects != []
    ensures RunDialects(cfg, env, now, dialects, st)
            == var r := Step(cfg, env, now, Trim(dialects[0]), st);
               if r.outcome.Fail? then r else RunDialects(cfg, env, now, dialects[1..], r.state)
  {
  }

  /** `execute`: validation first, then the dialects. */
  function Run(cfg: Config, env: Env, now: string, st: State): Ran {
    match Validate(cfg)
    case Fail(e) => Ran(Fail(Invalid(e)), st)
    case Pass => RunDialects(cfg, env, now, cfg.dialects.value, st)
  }

  // ---------------------------------------------------------------------------
  // What a step does to the output directory

  /** Writing a header over a content that already starts with it changes nothing. */
  lemma WriteFromStartOverSameHeader(h: string, rest: string)
    ensures WriteFromStart(h + rest, h) == h + rest
  {
    assert (h + rest)[|h|..] == rest;
  }

  /** A script written to a name that does not exist holds the header, then the output. */
  lemma WrittenScriptFresh(files: map<string, string>, name: string, header: Option<string>, output: string)
    requires name !in files
    ensures WrittenScript(files, name, header, output) == files[name := HeaderText(header) + output]
  {
    if !IsBlank(header) {
      assert WriteFromStart("", header.value) == header.value;
    } else {
      assert "" + output == output;
    }
  }

  /** A script written again to a file that starts with the same header gains the output
      at its end. */
  lemma WrittenScriptAfterSameHeader(files: map<string, string>, name: string, header: Option<string>, rest: string, output: string)
    requires name in files && files[name] == HeaderText(header) + rest
    ensures WrittenScript(files, name, header, output) == files[name := HeaderText(header) + rest + output]
  {
    if !IsBlank(header) {
      WriteFromStartOverSameHeader(header.value, rest);
    } else {
      assert files[name := files[name]] == files;
    }
  }

  /** What a successful step needs: its plan and its header. */
  predicate StepSucceeds(cfg: Config, env: Env, now: string, dialect: string, st: State) {
    Prepare(cfg, env, dialect).Success?
    && Header.InitialComment(cfg.commentTemplate, cfg.schemaVersion, st.generatedOn, cfg.application, now).0.Success?
  }

  /** The header a step writes for the given `generatedOn`. */
  function StepHeader(cfg: Config, now: string, generatedOn: Option<string>): string
    requires Header.InitialComment(cfg.commentTemplate, cfg.schemaVersion, generatedOn, cfg.application, now).0.Success?
  {
    HeaderText(Header.InitialComment(cfg.commentTemplate, cfg.schemaVersion, generatedOn, cfg.application, now).0.value)
  }

  /** The plan records the derived names and the collected sources. */
  lemma PreparePlan(cfg: Config, env: Env, dialect: string)
    ensures Prepare(cfg, env, dialect).Success? <==>
            HasDbName(dialect) && CollectSources(cfg, env).Success? && env.build(dialect, CollectSources(cfg, env).value)
    ensures Prepare(cfg, env, dialect).Success? ==>
            var p := Prepare(cfg, env, dialect).value;
            p.file == CreateFileName(dialect, SuffixText(cfg.suffixCreate))
            && p.fileDrop == CreateDropFileName(dialect, SuffixText(cfg.suffixDrop))
            && p.sources == CollectSources(cfg, env).value
  {
  }

  /** The closed form of the write phase. */
  function ScriptsAfter(files: map<string, string>, c: string, dr: string, h: string, createOut: string, dropOut: string): map<string, string> {
    if c != dr then (files - {c, dr})[c := h + createOut][dr := h + dropOut]
    else (files - {c})[c := h + createOut + dropOut]
  }

  /** A step passes exactly when its plan and header succeed. Both scripts are then
      deleted and rewritten: each holds the header (when not blank) followed by the
      exporter's script, whatever it held before, and nothing else in the directory
      changes. When the two names coincide, that file holds the header once, the create
      script and then the drop script. */
  lemma StepFiles(cfg: Config, env: Env, now: string, dialect: string, st: State)
    ensures Step(cfg, env, now, dialect, st).outcome.Pass? <==> StepSucceeds(cfg, env, now, dialect, st)
    ensures StepSucceeds(cfg, env, now, dialect, st) ==>
      var p := Prepare(cfg, env, dialect).value;
      Step(cfg, env, now, dialect, st).state.files
        == ScriptsAfter(st.files, p.file, p.fileDrop, StepHeader(cfg, now, st.generatedOn),
                        env.exporter(Create, dialect, p.sources), env.exporter(Drop, dialect, p.sources))
  {
    if StepSucceeds(cfg, env, now, dialect, st) {
      var p := Prepare(cfg, env, dialect).value;
      EmitFiles(cfg, env, now, dialect, p, st);
    }
  }

  lemma EmitFiles(cfg: Config, env: Env, now: string, dialect: string, p: Plan, st: State)
    requires Header.InitialComment(cfg.commentTemplate, cfg.schemaVersion, st.generatedOn, cfg.application, now).0.Success?
    ensures Emit(cfg, env, now, dialect, p, st).outcome.Pass?
    ensures Emit(cfg, env, now, dialect, p, st).state.files
            == ScriptsAfter(st.files, p.file, p.fileDrop, StepHeader(cfg, now, st.generatedOn),
                            env.exporter(Create, dialect, p.sources), env.exporter(Drop, dialect, p.sources))
  {
    var (c, dr) := (p.file, p.fileDrop);
    var header := Header.InitialComment(cfg.commentTemplate, cfg.schemaVersion, st.generatedOn, cfg.application, now).0.value;
    var createOut, dropOut := env.exporter(Create, dialect, p.sources), env.exporter(Drop, dialect, p.sources);
    var cleared := st.files - {c, dr};
    WrittenScriptFresh(cleared, c, header, createOut);
    var created := cleared[c := HeaderText(header) + createOut];
    if c != dr {
      WrittenScriptFresh(created, dr, header, dropOut);
    } else {
      assert cleared == st.files - {c};
      WrittenScriptAfterSameHeader(created, c, header, createOut, dropOut);
    }
  }

  /** A header that cannot be rendered ends the write phase right after both deletions. */
  lemma EmitHeaderFailure(cfg: Config, env: Env, now: string, dialect: string, p: Plan, st: State)
    requires Header.InitialComment(cfg.commentTemplate, cfg.schemaVersion, st.generatedOn, cfg.application, now).0.Failure?
    ensures Emit(cfg, env, now, dialect, p, st)
            == Ran(Fail(HeaderFailed(EndlessLoop)), State(Some(st.generatedOn.GetOr(now)), st.files - {p.file, p.fileDrop}))
  {
  }

  /** The write phase touches only the two scripts. */
  lemma EmitFrame(cfg: Config, env: Env, now: string, dialect: string, p: Plan, st: State)
    ensures Emit(cfg, env, now, dialect, p, st).state.files - {p.file, p.fileDrop} == st.files - {p.file, p.fileDrop}
  {
    if Header.InitialComment(cfg.commentTemplate, cfg.schemaVersion, st.generatedOn, cfg.application, now).0.Success? {
      EmitFiles(cfg, env, now, dialect, p, st);
      ScriptsAfterFrame(st.files, p.file, p.fileDrop, StepHeader(cfg, now, st.generatedOn),
                        env.exporter(Create, dialect, p.sources), env.exporter(Drop, dialect, p.sources));
    } else {
      EmitHeaderFailure(cfg, env, now, dialect, p, st);
    }
  }

  /** A step leaves every file other than its two scripts as it was, whether it passes or
      not; a step that fails before the deletions changes nothing at all. */
  lemma StepFrame(cfg: Config, env: Env, now: string, dialect: string, st: State)
    requires HasDbName(dialect)
    ensures var c := CreateFileName(dialect, SuffixText(cfg.suffixCreate));
            var dr := CreateDropFileName(dialect, SuffixText(cfg.suffixDrop));
            Step(cfg, env, now, dialect, st).state.files - {c, dr} == st.files - {c, dr}
    ensures Prepare(cfg, env, dialect).Failure? ==> Step(cfg, env, now, dialect, st).state == st
  {
    if Prepare(cfg, env, dialect).Success? {
      PreparePlan(cfg, env, dialect);
      var p := Prepare(cfg, env, dialect).value;
      assert Step(cfg, env, now, dialect, st) == Emit(cfg, env, now, dialect, p, st);
      EmitFrame(cfg, env, now, dialect, p, st);
    }
  }

  /** A dialect whose file names cannot be derived stops the step before any file is
      touched. */
  lemma StepRejectsDialect(cfg: Config, env: Env, now: string, dialect: string, st: State)
    requires !HasDbName(dialect)
    ensures Step(cfg, env, now, dialect, st) == Ran(Fail(BadDialect(dialect)), st)
  {
  }

  /** A header that cannot be rendered stops the step after both scripts were deleted,
      with `generatedOn` already filled in. */
  lemma HeaderFailureClearsScripts(cfg: Config, env: Env, now: string, dialect: string, st: State)
    requires Prepare(cfg, env, dialect).Success?
    requires Header.InitialComment(cfg.commentTemplate, cfg.schemaVersion, st.generatedOn, cfg.application, now).0.Failure?
    ensures var p := Prepare(cfg, env, dialect).value;
            var r := Step(cfg, env, now, dialect, st);
            r.outcome == Fail(HeaderFailed(EndlessLoop)) && p.file !in r.state.files && p.fileDrop !in r.state.files
            && r.state.generatedOn == Some(st.generatedOn.GetOr(now))
  {
    var p := Prepare(cfg, env, dialect).value;
    assert Step(cfg, env, now, dialect, st) == Emit(cfg, env, now, dialect, p, st);
    EmitHeaderFailure(cfg, env, now, dialect, p, st);
  }

  /** `generatedOn` after a successful step: filled in from the clock unless the template
      is blank. */
  lemma StepGeneratedOn(cfg: Config, env: Env, now: string, dialect: string, st: State)
    requires StepSucceeds(cfg, env, now, dialect, st)
    ensures Step(cfg, env, now, dialect, st).state.generatedOn
            == if IsBlank(cfg.commentTemplate) then st.generatedOn else Some(st.generatedOn.GetOr(now))
  {
  }

  /** Running a dialect again with the same inputs changes nothing: the scripts are
      recreated from scratch and the header keeps the `generatedOn` of the first run. */
  lemma StepIdempotent(cfg: Config, env: Env, now: string, dialect: string, st: State)
    requires Step(cfg, env, now, dialect, st).outcome.Pass?
    ensures Step(cfg, env, now, dialect, Step(cfg, env, now, dialect, st).state) == Step(cfg, env, now, dialect, st)
  {
    var r1 := Step(cfg, env, now, dialect, st);
    StepFiles(cfg, env, now, dialect, st);
    StepGeneratedOn(cfg, env, now, dialect, st);
    var tpl, sv, app := cfg.commentTemplate, cfg.schemaVersion, cfg.application;
    assert Header.InitialComment(tpl, sv, r1.state.generatedOn, app, now) == Header.InitialComment(tpl, sv, st.generatedOn, app, now);
    StepFiles(cfg, env, now, dialect, r1.state);
    StepGeneratedOn(cfg, env, now, dialect, r1.state);
    var p := Prepare(cfg, env, dialect).value;
    var h := StepHeader(cfg, now, st.generatedOn);
    var createOut, dropOut := env.exporter(Create, dialect, p.sources), env.exporter(Drop, dialect, p.sources);
    ScriptsAfterFrame(st.files, p.file, p.fileDrop, h, createOut, dropOut);
    ScriptsAfterIgnoresTargets(st.files, r1.state.files, p.file, p.fileDrop, h, createOut, dropOut);
  }

  /** The write phase does not look at what the two scripts held. */
  lemma ScriptsAfterIgnoresTargets(f1: map<string, string>, f2: map<string, string>, c: string, dr: string, h: string, createOut: string, dropOut: string)
    requires f1 - {c, dr} == f2 - {c, dr}
    ensures ScriptsAfter(f1, c, dr, h, createOut, dropOut) == ScriptsAfter(f2, c, dr, h, createOut, dropOut)
  {
    if c == dr {
      assert f1 - {c} == f1 - {c, dr};
      assert f2 - {c} == f2 - {c, dr};
    }
  }

  /** The write phase leaves the other files as they were. */
  lemma ScriptsAfterFrame(f: map<string, string>, c: string, dr: string, h: string, createOut: string, dropOut: string)
    ensures ScriptsAfter(f, c, dr, h, createOut, dropOut) - {c, dr} == f - {c, dr}
  {
  }

  // ---------------------------------------------------------------------------
  // The dialect loop

  /** The dialects run in list order: a run over `a + b` is the run over `a` and, only if
      that passed, the run over `b` from where it left off. */
  lemma {:induction false} RunDialectsAppend(cfg: Config, env: Env, now: string, a: seq<string>, b: seq<string>, st: State)
    ensures var ra := RunDialects(cfg, env, now, a, st);
            RunDialects(cfg, env, now, a + b, st) == if ra.outcome.Fail? then ra else RunDialects(cfg, env, now, b, ra.state)
    decreases |a|
  {
    if a == [] {
      assert a + b == b;
    } else {
      assert (a + b)[0] == a[0] && (a + b)[1..] == a[1..] + b;
      RunDialectsHead(cfg, env, now, a, st);
      RunDialectsHead(cfg, env, now, a + b, st);
      var r := Step(cfg, env, now, Trim(a[0]), st);
      if r.outcome.Pass? {
        RunDialectsAppend(cfg, env, now, a[1..], b, r.state);
      }
    }
  }

  /** The first dialect that fails ends the run with its failure and state: the dialects
      after it are never processed. */
  lemma FirstFailureEndsRun(cfg: Config, env: Env, now: string, done: seq<string>, d: string, rest: seq<string>, st: State)
    requires RunDialects(cfg, env, now, done, st).outcome.Pass?
    requires Step(cfg, env, now, Trim(d), RunDialects(cfg, env, now, done, st).state).outcome.Fail?
    ensures RunDialects(cfg, env, now, done + ([d] + rest), st)
            == Step(cfg, env, now, Trim(d), RunDialects(cfg, env, now, done, st).state)
  {
    var mid := RunDialects(cfg, env, now, done, st).state;
    RunDialectsAppend(cfg, env, now, done, [d] + rest, st);
    FailingHeadEndsRun(cfg, env, now, [d] + rest, mid);
  }

  lemma FailingHeadEndsRun(cfg: Config, env: Env, now: string, dialects: seq<string>, st: State)
    requires dialects != []
    requires Step(cfg, env, now, Trim(dialects[0]), st).outcome.Fail?
    ensures RunDialects(cfg, env, now, dialects, st) == Step(cfg, env, now, Trim(dialects[0]), st)
  {
  }

  /** A step that passes keeps every existing file name and adds its two scripts. */
  lemma StepKeepsNames(cfg: Config, env: Env, now: string, dialect: string, st: State)
    requires Step(cfg, env, now, dialect, st).outcome.Pass?
    ensures HasDbName(dialect)
    ensures var files := Step(cfg, env, now, dialect, st).state.files;
            files.Keys == st.files.Keys + {CreateFileName(dialect, SuffixText(cfg.suffixCreate)),
                                           CreateDropFileName(dialect, SuffixText(cfg.suffixDrop))}
  {
    StepFiles(cfg, env, now, dialect, st);
    PreparePlan(cfg, env, dialect);
  }

  /** A run over dialects that passes keeps every existing file and leaves both scripts of
      every dialect in the directory. */
  lemma {:induction false} RunDialectsCreatesScripts(cfg: Config, env: Env, now: string, dialects: seq<string>, st: State)
    requires RunDialects(cfg, env, now, dialects, st).outcome.Pass?
    ensures var files := RunDialects(cfg, env, now, dialects, st).state.files;
            st.files.Keys <= files.Keys
            && forall d :: d in dialects ==>
                 HasDbName(Trim(d))
                 && CreateFileName(Trim(d), SuffixText(cfg.suffixCreate)) in files
                 && CreateDropFileName(Trim(d), SuffixText(cfg.suffixDrop)) in files
    decreases |dialects|
  {
    if dialects != [] {
      var r := Step(cfg, env, now, Trim(dialects[0]), st);
      StepKeepsNames(cfg, env, now, Trim(dialects[0]), st);
      RunDialectsCreatesScripts(cfg, env, now, dialects[1..], r.state);
      forall d | d in dialects
        ensures d == dialects[0] || d in dialects[1..]
      {
        var k :| 0 <= k < |dialects| && dialects[k] == d;
        if k > 0 {
          assert dialects[1..][k - 1] == d;
        }
      }
    }
  }

  /** An invalid configuration stops `execute` before any dialect: nothing changes. */
  lemma InvalidConfigChangesNothing(cfg: Config, env: Env, now: string, st: State)
    requires Validate(cfg).Fail?
    ensures Run(cfg, env, now, st) == Ran(Fail(Invalid(Validate(cfg).error)), st)
  {
  }

  /** A run that passes was valid and left both scripts of every configured dialect. */
  lemma RunCreatesAllScripts(cfg: Config, env: Env, now: string, st: State)
    requires Run(cfg, env, now, st).outcome.Pass?
    ensures Validate(cfg) == Pass
    ensures forall d :: d in cfg.dialects.value ==>
              HasDbName(Trim(d))
              && CreateFileName(Trim(d), SuffixText(cfg.suffixCreate)) in Run(cfg, env, now, st).state.files
              && CreateDropFileName(Trim(d), SuffixText(cfg.suffixDrop)) in Run(cfg, env, now, st).state.files
  {
    RunDialectsCreatesScripts(cfg, env, now, cfg.dialects.value, st);
  }

  // ---------------------------------------------------------------------------
  // Null source lists

  /** With both lists present the two readings agree. */
  lemma AsWrittenAgreesWithoutNulls(cfg: Config, env: Env)
    requires cfg.mappingDirs.Some? && cfg.packages.Some?
    ensures CollectSourcesAsWritten(cfg, env) == CollectSources(cfg, env)
  {
  }

  /** The code as written: a configuration with mapping directories but no packages
      passes validation, and then iterating the null package list fails. */
  lemma NullPackagesPassValidationThenFail(cfg: Config, env: Env)
    requires cfg == Config(Some([DefaultDialect]), None, Some(["hbm"]), Some(".ddl"), Some("-drop.ddl"), None, None, None)
    requires env.mappingTree("hbm").Some?
    ensures Validate(cfg) == Pass
    ensures CollectSourcesAsWritten(cfg, env) == Failure(NullList)
  {
    assert !IsWhitespace(cfg.suffixCreate.value[0]) && !IsWhitespace(cfg.suffixDrop.value[0]);
    var dirs := cfg.mappingDirs.value;
    assert dirs[0] == "hbm" && dirs[1..] == [];
    assert MappingSources(dirs, env).Success?;
  }

  /** The corrected reading: a null list is an empty one, so validation's promise that one
      source list suffices is kept and the null-list failure never occurs. */
  lemma CorrectedSourcesTreatNullAsEmpty(cfg: Config, env: Env)
    ensures CollectSources(cfg, env)
            == CollectSourcesAsWritten(cfg.(mappingDirs := Some(cfg.mappingDirs.GetOr([])), packages := Some(cfg.packages.GetOr([]))), env)
    ensures CollectSources(cfg, env) != Failure(NullList)
  {
  }
}
