/** The plugin's parameters and `validateParameters`: an ordered list of checks that
    stops at the first one violated. */
module Validation {
  import opened Wrappers
  import opened Text

  /** The parameters the modelled code reads; `None` is a null reference. The lists keep
      the order of the plugin configuration. */
  datatype Config = Config(
    dialects: Option<seq<string>>,
    packages: Option<seq<string>>,
    mappingDirs: Option<seq<string>>,
    suffixCreate: Option<string>,
    suffixDrop: Option<string>,
    commentTemplate: Option<string>,
    schemaVersion: Option<string>,
    application: Option<string>)

  /** The `List.isEmpty` test guarded by a null check. */
  predicate NullOrEmpty<T>(l: Option<seq<T>>) {
    l.None? || |l.value| == 0
  }

  /** The four `IllegalArgumentException`s, in the order they are checked. */
  datatype ConfigError = NoDialect | NoSource | BlankCreateSuffix | BlankDropSuffix

  function Rank(e: ConfigError): nat {
    match e
    case NoDialect => 0
    case NoSource => 1
    case BlankCreateSuffix => 2
    case BlankDropSuffix => 3
  }

  /** The condition whose violation raises `e`. */
  predicate Meets(c: Config, e: ConfigError) {
    match e
    case NoDialect => !NullOrEmpty(c.dialects)
    case NoSource => !NullOrEmpty(c.packages) || !NullOrEmpty(c.mappingDirs)
    case BlankCreateSuffix => !IsBlank(c.suffixCreate)
    case BlankDropSuffix => !IsBlank(c.suffixDrop)
  }

  /** `validateParameters`: it passes exactly when every condition holds, and otherwise
      reports the violated condition that comes first. */
  function Validate(c: Config): (r: Outcome<ConfigError>)
    ensures r.Pass? <==> forall e :: Meets(c, e)
    ensures r.Fail? ==> !Meets(c, r.error) && forall e :: Rank(e) < Rank(r.error) ==> Meets(c, e)
    ensures r.Pass? ==> c.dialects.Some? && |c.dialects.value| > 0
  {
    if NullOrEmpty(c.dialects) then assert !Meets(c, NoDialect); Fail(NoDialect)
    else if NullOrEmpty(c.packages) && NullOrEmpty(c.mappingDirs) then assert !Meets(c, NoSource); Fail(NoSource)
    else if IsBlank(c.suffixCreate) then assert !Meets(c, BlankCreateSuffix); Fail(BlankCreateSuffix)
    else if IsBlank(c.suffixDrop) then assert !Meets(c, BlankDropSuffix); Fail(BlankDropSuffix)
    else Pass
  }

  /** The error reported is determined: any violated condition with only satisfied
      conditions before it is the one `Validate` reports. */
  lemma FirstViolatedIsReported(c: Config, e: ConfigError)
    requires !Meets(c, e)
    requires forall e' :: Rank(e') < Rank(e) ==> Meets(c, e')
    ensures Validate(c) == Fail(e)
  {
  }

  /** A single source list suffices: packages may be null when mapping directories are
      present and the other way round. */
  lemma OneSourceListSuffices(c: Config)
    requires !NullOrEmpty(c.dialects) && !IsBlank(c.suffixCreate) && !IsBlank(c.suffixDrop)
    requires c.packages.None? && !NullOrEmpty(c.mappingDirs)
    ensures Validate(c) == Pass
  {
  }

  /** Whitespace-only suffixes are rejected like missing ones. */
  lemma WhitespaceSuffixRejected(c: Config)
    requires !NullOrEmpty(c.dialects) && !NullOrEmpty(c.packages)
    requires c.suffixCreate == Some(" \t")
    ensures Validate(c) == Fail(BlankCreateSuffix)
  {
    assert IsBlank(c.suffixCreate) by {
      assert forall i :: 0 <= i < |c.suffixCreate.value| ==> IsWhitespace(c.suffixCreate.value[i]);
    }
  }
}
