/** The plugin object itself (`DatabaseSchemaGenerator`): its parameters, the
    `generatedOn` field that `getInitialComment` fills in, and the output directory that
    `createDDLScript` rewrites. Each method is proved against the function of the same
    step in `Orchestration`. */
module Generator {
  import opened Wrappers
  import opened Text
  import opened FileTree
  import opened FileNames
  import opened Header
  import opened Validation
  import opened MappingFiles
  import opened EntityDiscovery
  import opened Orchestration

  class SchemaGenerator {
    const cfg: Config
    var generatedOn: Option<string>
    var files: map<string, string>

    constructor(cfg: Config, generatedOn: Option<string>, files: map<string, string>)
      ensures this.cfg == cfg && this.generatedOn == generatedOn && this.files == files
    {
      this.cfg := cfg;
      this.generatedOn := generatedOn;
      this.files := files;
    }

    function Current(): State
      reads this
    {
      State(generatedOn, files)
    }

    /** `getInitialComment`: a blank template gives no header; otherwise a null
        `generatedOn` is set from the clock and the three placeholders are replaced. */
    method InitialComment(now: string) returns (r: Result<Option<string>, HeaderError>)
      modifies this
      ensures (r, generatedOn) == Header.InitialComment(cfg.commentTemplate, cfg.schemaVersion, old(generatedOn), cfg.application, now)
      ensures files == old(files)
    {
      ghost var prior := generatedOn;
      if IsBlank(cfg.commentTemplate) {
        return Success(None);
      }
      if generatedOn.None? {
        generatedOn := Some(now);
      }
      assert generatedOn == Some(prior.GetOr(now));
      var values: Values := [cfg.schemaVersion, generatedOn, cfg.application];
      var replaced := ReplaceEachRepeatedly(cfg.commentTemplate.value, values, TimeToLive);
      assert replaced == ReplaceEachRepeatedly(cfg.commentTemplate.value, [cfg.schemaVersion, Some(prior.GetOr(now)), cfg.application], TimeToLive);
      if replaced.Success? {
        r := Success(Some(replaced.value));
      } else {
        r := Failure(replaced.error);
      }
    }

    /** `setMappingsToMetadata` with a null list read as empty: the mapping files of every
        directory, in order. */
    method MappingFilesToMetadata(env: Env) returns (r: Result<seq<(string, RelPath)>, RunError>)
      ensures r == MappingSources(cfg.mappingDirs.GetOr([]), env)
    {
      var dirs := cfg.mappingDirs.GetOr([]);
      var added: seq<(string, RelPath)> := [];
      assert dirs[0..] == dirs;
      CombineEmpty(MappingSources(dirs, env));
      for i := 0 to |dirs|
        invariant MappingSources(dirs, env) == Combine(Success(added), MappingSources(dirs[i..], env))
      {
        assert dirs[i..][1..] == dirs[i + 1..];
        CombineAssociative(Success(added), MappingsOf(dirs[i], env), MappingSources(dirs[i + 1..], env));
        match env.mappingTree(dirs[i])
        case None =>
          return Failure(UnreadableMappingDir(dirs[i]));
        case Some(root) =>
          added := added + Tag(dirs[i], Found(root));
      }
      assert added + [] == added;
      return Success(added);
    }

    /** `setPackagesToMetadata` with a null list read as empty: the entity classes of
        every package, in order. */
    method PackagesToMetadata(env: Env) returns (r: Result<seq<string>, RunError>)
      ensures r == PackageSources(cfg.packages.GetOr([]), env)
    {
      var packages := cfg.packages.GetOr([]);
      var added: seq<string> := [];
      assert packages[0..] == packages;
      CombineEmpty(PackageSources(packages, env));
      for i := 0 to |packages|
        invariant PackageSources(packages, env) == Combine(Success(added), PackageSources(packages[i..], env))
      {
        assert packages[i..][1..] == packages[i + 1..];
        CombineAssociative(Success(added), ClassesOfPackage(packages[i], env), PackageSources(packages[i + 1..], env));
        var found := AllEntityClasses(packages[i], env.resources, env.load);
        if found.Failure? {
          return Failure(ClassNotFound(found.error));
        }
        added := added + found.value;
      }
      assert added + [] == added;
      return Success(added);
    }

    /** `generateScript`: the header unless blank, then the exporter's script appended. */
    method GenerateScript(env: Env, action: Action, dialect: string, sources: Sources, name: string, header: Option<string>)
      modifies this
      ensures files == WrittenScript(old(files), name, header, env.exporter(action, dialect, sources))
      ensures generatedOn == old(generatedOn)
    {
      if !IsBlank(header) {
        files := files[name := WriteFromStart(Content(files, name), header.value)];
      }
      files := files[name := Content(files, name) + env.exporter(action, dialect, sources)];
    }

    /** The first half of `createDDLScript`: file names, mapping files, entity classes and
        the metadata build; nothing is written yet. */
    method PrepareScripts(env: Env, dialect: string) returns (r: Result<Plan, RunError>)
      ensures r == Prepare(cfg, env, dialect)
    {
      var names := CheckedFileNames(dialect, SuffixText(cfg.suffixCreate), SuffixText(cfg.suffixDrop));
      if names.Failure? {
        return Failure(BadDialect(names.error));
      }
      var mappings := MappingFilesToMetadata(env);
      if mappings.Failure? {
        return Failure(mappings.error);
      }
      var classes := PackagesToMetadata(env);
      if classes.Failure? {
        return Failure(classes.error);
      }
      var sources := Sources(mappings.value, classes.value);
      if !env.build(dialect, sources) {
        return Failure(MetadataFailed(dialect));
      }
      return Success(Plan(names.value.0, names.value.1, sources));
    }

    /** The second half of `createDDLScript`: delete both scripts if present, render the
        header, then write the create and the drop script. */
    method EmitScripts(env: Env, now: string, dialect: string, plan: Plan) returns (r: Outcome<RunError>)
      modifies this
      ensures Ran(r, Current()) == Emit(cfg, env, now, dialect, plan, old(Current()))
    {
      if plan.file in files {
        files := files - {plan.file};
      }
      if plan.fileDrop in files {
        files := files - {plan.fileDrop};
      }
      assert files == old(files) - {plan.file, plan.fileDrop};
      var comment := InitialComment(now);
      if comment.Failure? {
        return Fail(HeaderFailed(comment.error));
      }
      GenerateScript(env, Create, dialect, plan.sources, plan.file, comment.value);
      GenerateScript(env, Drop, dialect, plan.sources, plan.fileDrop, comment.value);
      return Pass;
    }

    /** `createDDLScript` for an already trimmed dialect. */
    method CreateDdlScript(env: Env, now: string, dialect: string) returns (r: Outcome<RunError>)
      modifies this
      ensures Ran(r, Current()) == Step(cfg, env, now, dialect, old(Current()))
    {
      var plan := PrepareScripts(env, dialect);
      if plan.Failure? {
        return Fail(plan.error);
      }
      r := EmitScripts(env, now, dialect, plan.value);
    }

    /** The dialect loop of `execute`: each dialect trimmed and in order until one fails. */
    method CreateDdlScripts(env: Env, now: string, dialects: seq<string>) returns (r: Outcome<RunError>)
      modifies this
      ensures Ran(r, Current()) == RunDialects(cfg, env, now, dialects, old(Current()))
    {
      ghost var start := Current();
      assert dialects[0..] == dialects;
      for i := 0 to |dialects|
        invariant RunDialects(cfg, env, now, dialects, start) == RunDialects(cfg, env, now, dialects[i..], Current())
      {
        ghost var before := Current();
        assert dialects[i..][0] == dialects[i] && dialects[i..][1..] == dialects[i + 1..];
        var outcome := CreateDdlScript(env, now, Trim(dialects[i]));
        ghost var after := Current();
        assert Ran(outcome, after) == Step(cfg, env, now, Trim(dialects[i]), before);
        RunDialectsHead(cfg, env, now, dialects[i..], before);
        if outcome.Fail? {
          return outcome;
        }
        assert RunDialects(cfg, env, now, dialects[i..], before) == RunDialects(cfg, env, now, dialects[i + 1..], after);
      }
      return Pass;
    }

    /** `execute`: validate, then run the dialects. */
    method Execute(env: Env, now: string) returns (r: Outcome<RunError>)
      modifies this
      ensures Ran(r, Current()) == Run(cfg, env, now, old(Current()))
    {
      var valid := Validate(cfg);
      if valid.Fail? {
        return Fail(Invalid(valid.error));
      }
      r := CreateDdlScripts(env, now, cfg.dialects.value);
    }
  }
}
