/**
  * The rule set of the review tool (internal/config): the records read from
  * `miso.yml`, the built-in default configuration, the validation applied
  * after decoding, and the search for a configuration file that falls back
  * to the default.
  */
module Config {
  import opened Wrappers

  /** Global content-scanning defaults: a strategy name and a line count. */
  datatype ContentDefaults = ContentDefaults(strategy: string, lines: int)

  /**
    * One matching rule. Empty strings stand for "not given", as in the YAML
    * decoding; `contentLines` holds one count for first_lines and
    * [first, last, random] for smart.
    */
  datatype Pattern = Pattern(
    name: string,
    filename: string,
    content: string,
    contentStrategy: string,
    contentLines: seq<int>,
    context: seq<string>,
    diffContext: seq<string>,
    stop: bool)

  datatype Config = Config(contentDefaults: ContentDefaults, patterns: seq<Pattern>)

  const FirstLines: string := "first_lines"
  const FullFile: string := "full_file"
  const Smart: string := "smart"

  /** The three strategy names `validate` accepts. */
  predicate ValidStrategy(s: string) {
    s == FirstLines || s == FullFile || s == Smart
  }

  /** The configuration used when no file is found. */
  function DefaultConfig(): (c: Config)
    ensures c.contentDefaults.strategy == FirstLines
    ensures c.contentDefaults.lines == 50
    ensures c.patterns == []
  {
    Config(ContentDefaults(FirstLines, 50), [])
  }

  /** The reasons `validate` gives, one per check, in the order it makes them. */
  datatype ValidationError =
    | InvalidDefaultStrategy(strategy: string)
    | NameRequired(index: nat)
    | NoRegex(name: string)
    | InvalidContentStrategy(name: string, strategy: string)
    | SmartNeedsThreeLines(name: string)
    | NoGuides(name: string)

  /** Everything `validate` demands of one rule. */
  predicate WellFormed(p: Pattern) {
    && p.name != ""
    && (p.filename != "" || p.content != "")
    && (p.contentStrategy == "" || ValidStrategy(p.contentStrategy))
    && (p.contentStrategy == Smart ==> |p.contentLines| == 3)
    && (|p.context| > 0 || |p.diffContext| > 0)
  }

  /** The first check that rule number `i` fails, if any. */
  function PatternError(p: Pattern, i: nat): (e: Option<ValidationError>)
    ensures e.None? <==> WellFormed(p)
  {
    if p.name == "" then Some(NameRequired(i))
    else if p.filename == "" && p.content == "" then Some(NoRegex(p.name))
    else if p.contentStrategy != "" && !ValidStrategy(p.contentStrategy) then
      Some(InvalidContentStrategy(p.name, p.contentStrategy))
    else if p.contentStrategy == Smart && |p.contentLines| != 3 then Some(SmartNeedsThreeLines(p.name))
    else if |p.context| == 0 && |p.diffContext| == 0 then Some(NoGuides(p.name))
    else None
  }

  /** The loop over the rules from index `i` on, stopping at the first failure. */
  function CheckPatterns(ps: seq<Pattern>, i: nat): Result<(), ValidationError>
    requires i <= |ps|
    decreases |ps| - i
  {
    if i == |ps| then Ok(())
    else match PatternError(ps[i], i)
      case Some(e) => Err(e)
      case None => CheckPatterns(ps, i + 1)
  }

  /** `Parser.validate`: the default strategy first, then each rule in order. */
  function Validate(c: Config): Result<(), ValidationError> {
    if !ValidStrategy(c.contentDefaults.strategy) then
      Err(InvalidDefaultStrategy(c.contentDefaults.strategy))
    else CheckPatterns(c.patterns, 0)
  }

  /** A configuration passes validation exactly when it is well formed throughout. */
  predicate Valid(c: Config) {
    && ValidStrategy(c.contentDefaults.strategy)
    && forall i :: 0 <= i < |c.patterns| ==> WellFormed(c.patterns[i])
  }

  lemma {:induction false} CheckPatternsSound(ps: seq<Pattern>, i: nat)
    requires i <= |ps|
    ensures CheckPatterns(ps, i).Ok? <==> forall j :: i <= j < |ps| ==> WellFormed(ps[j])
    ensures CheckPatterns(ps, i).Err? ==>
      exists j :: i <= j < |ps| && (forall k :: i <= k < j ==> WellFormed(ps[k]))
        && PatternError(ps[j], j) == Some(CheckPatterns(ps, i).error)
    decreases |ps| - i
  {
    if i < |ps| {
      if WellFormed(ps[i]) {
        CheckPatternsSound(ps, i + 1);
        if CheckPatterns(ps, i + 1).Err? {
          var j :| i + 1 <= j < |ps| && (forall k :: i + 1 <= k < j ==> WellFormed(ps[k]))
            && PatternError(ps[j], j) == Some(CheckPatterns(ps, i + 1).error);
          assert forall k :: i <= k < j ==> WellFormed(ps[k]);
        }
      } else {
        assert PatternError(ps[i], i) == Some(CheckPatterns(ps, i).error);
        assert !WellFormed(ps[i]);
      }
    }
  }

  /** `validate` succeeds iff the default strategy and every rule pass every check. */
  lemma ValidateSucceedsIff(c: Config)
    ensures Validate(c).Ok? <==> Valid(c)
  {
    CheckPatternsSound(c.patterns, 0);
  }

  /**
    * A failure is the default strategy's, or the first failing check of the
    * first rule that fails one, every earlier rule passing all of them.
    */
  lemma ValidateReportsFirstFailure(c: Config)
    requires Validate(c).Err?
    ensures !ValidStrategy(c.contentDefaults.strategy) ==>
      Validate(c).error == InvalidDefaultStrategy(c.contentDefaults.strategy)
    ensures ValidStrategy(c.contentDefaults.strategy) ==>
      exists j :: 0 <= j < |c.patterns| && (forall k :: 0 <= k < j ==> WellFormed(c.patterns[k]))
        && PatternError(c.patterns[j], j) == Some(Validate(c).error)
  {
    CheckPatternsSound(c.patterns, 0);
  }

  /** The default line count plays no part in validation. */
  lemma ValidateIgnoresLines(c: Config, n: int)
    ensures Validate(c.(contentDefaults := c.contentDefaults.(lines := n))) == Validate(c)
  {
  }

  /** The built-in default configuration passes validation. */
  lemma DefaultConfigValid()
    ensures Validate(DefaultConfig()) == Ok(())
  {
  }

  /** What reading and decoding one candidate file gave. */
  datatype FileOutcome = Missing | Unreadable | Malformed | Decoded(config: Config)

  datatype LoadError =
    | NotFound(path: string)
    | ReadFailed(path: string)
    | ParseFailed(path: string)
    | Invalid(path: string, reason: ValidationError)

  /** The file names `NewParser` searches, in order. */
  const ConfigPaths: seq<string> := ["miso.yml", "miso.yaml", ".miso.yml", ".miso.yaml"]

  /**
    * `Parser.LoadFile`: the file system and the YAML decoder are the oracle
    * `fs`; a decoded configuration is returned only if it validates.
    */
  function LoadFile(path: string, fs: string -> FileOutcome): (r: Result<Config, LoadError>)
    ensures r.Ok? <==> fs(path).Decoded? && Validate(fs(path).config).Ok?
    ensures r.Ok? ==> r.value == fs(path).config
  {
    match fs(path)
    case Missing => Err(NotFound(path))
    case Unreadable => Err(ReadFailed(path))
    case Malformed => Err(ParseFailed(path))
    case Decoded(c) =>
      match Validate(c)
      case Err(e) => Err(Invalid(path, e))
      case Ok(_) => Ok(c)
  }

  /** The loop of `Parser.Load` over the candidate paths from `i` on. */
  function LoadFrom(paths: seq<string>, i: nat, fs: string -> FileOutcome): Config
    requires i <= |paths|
    decreases |paths| - i
  {
    if i == |paths| then DefaultConfig()
    else match LoadFile(paths[i], fs)
      case Ok(c) => c
      case Err(_) => LoadFrom(paths, i + 1, fs)
  }

  /** `Parser.Load`: never fails. */
  function Load(fs: string -> FileOutcome): Config {
    LoadFrom(ConfigPaths, 0, fs)
  }

  lemma {:induction false} LoadFromFirst(paths: seq<string>, i: nat, fs: string -> FileOutcome)
    requires i <= |paths|
    ensures (forall j :: i <= j < |paths| ==> LoadFile(paths[j], fs).Err?) ==>
      LoadFrom(paths, i, fs) == DefaultConfig()
    ensures forall j ::
      (i <= j < |paths| && LoadFile(paths[j], fs).Ok?
       && (forall k :: i <= k < j ==> LoadFile(paths[k], fs).Err?))
      ==> LoadFrom(paths, i, fs) == LoadFile(paths[j], fs).value
    ensures Validate(LoadFrom(paths, i, fs)).Ok?
    decreases |paths| - i
  {
    if i == |paths| {
      DefaultConfigValid();
    } else {
      var lf := LoadFile(paths[i], fs);
      if lf.Ok? {
        assert LoadFrom(paths, i, fs) == lf.value;
        LoadedValid(paths[i], fs);
      } else {
        assert LoadFrom(paths, i, fs) == LoadFrom(paths, i + 1, fs);
        LoadFromFirst(paths, i + 1, fs);
      }
    }
  }

  /** A configuration that loads from a file has passed validation. */
  lemma LoadedValid(path: string, fs: string -> FileOutcome)
    requires LoadFile(path, fs).Ok?
    ensures Validate(LoadFile(path, fs).value).Ok?
  {
    match fs(path)
    case Decoded(c) =>
      assert Validate(c).Ok?;
  }

  /**
    * `Load` returns the configuration of the first candidate path that loads
    * and validates, and the default configuration when none does; either way
    * the result passes validation.
    */
  lemma LoadPicksFirstValid(fs: string -> FileOutcome)
    ensures (forall j :: 0 <= j < |ConfigPaths| ==> LoadFile(ConfigPaths[j], fs).Err?) ==>
      Load(fs) == DefaultConfig()
    ensures forall j ::
      (0 <= j < |ConfigPaths| && LoadFile(ConfigPaths[j], fs).Ok?
       && (forall k :: 0 <= k < j ==> LoadFile(ConfigPaths[k], fs).Err?))
      ==> Load(fs) == LoadFile(ConfigPaths[j], fs).value
    ensures Valid(Load(fs))
  {
    LoadFromFirst(ConfigPaths, 0, fs);
    ValidateSucceedsIff(Load(fs));
  }
}
