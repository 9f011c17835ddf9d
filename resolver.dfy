/**
  * The guide resolver (internal/resolver/resolver.go): which review guides
  * apply to a file, for a full review and for a diff review, and whether a
  * file is to be reviewed at all. It works through a `Matcher` and reads
  * the file only when content rules can make a difference; the read is an
  * input here.
  */
module Resolver {
  import opened Wrappers
  import opened Config
  import opened Matcher
  import M = Matcher

  /** What reading the file gave: its content, or a read error. */
  datatype FileRead = Content(text: string) | ReadError

  datatype GuideError = MatchFailed(error: MatchError) | CannotRead

  /** The guides (or error), the matcher's cache and the random values used so far. */
  datatype GuideScan = GuideScan(result: Result<seq<string>, GuideError>, cache: Cache, pos: nat)

  /** `needsContentScan`: some matched rule has a content regex. */
  function NeedsContentScan(ms: seq<Pattern>): (b: bool)
    ensures b <==> exists k :: 0 <= k < |ms| && ms[k].content != ""
  {
    if |ms| == 0 then false
    else if ms[0].content != "" then true
    else
      var b := NeedsContentScan(ms[1..]);
      assert forall k :: 1 <= k < |ms| ==> ms[k] == ms[1..][k - 1];
      b
  }

  /** `hasContentPatterns`: some rule of the configuration has a content regex and no file-name regex. */
  function HasContentPatterns(ps: seq<Pattern>): (b: bool)
    ensures b <==> exists k :: 0 <= k < |ps| && ps[k].filename == "" && ps[k].content != ""
  {
    if |ps| == 0 then false
    else if ps[0].filename == "" && ps[0].content != "" then true
    else
      var b := HasContentPatterns(ps[1..]);
      assert forall k :: 1 <= k < |ps| ==> ps[k] == ps[1..][k - 1];
      b
  }

  /** `GetMatchedGuides` as a value. */
  function Guides(ms: seq<Pattern>, isDiff: bool): seq<string> {
    Dedup(AllGuides(ms, isDiff))
  }

  /**
    * `GetGuides`: file-name matches first; the file is read only when the
    * configuration has a content-only rule and the file-name matches are
    * empty or include a rule with a content regex.
    */
  function GetGuidesSpec(config: Config, filename: string, read: FileRead, eng: RegexEngine,
                         rand: Random, cache: Cache, pos: nat): GuideScan
  {
    var s := MatchFileFrom(config.patterns, 0, filename, eng, cache);
    match s.result
    case Err(e) => GuideScan(Err(MatchFailed(e)), s.cache, pos)
    case Ok(ms) =>
      if |ms| > 0 && !NeedsContentScan(ms) then GuideScan(Ok(Guides(ms, false)), s.cache, pos)
      else if !HasContentPatterns(config.patterns) then GuideScan(Ok(Guides(ms, false)), s.cache, pos)
      else match read
        case ReadError =>
          if |ms| > 0 then GuideScan(Ok(Guides(ms, false)), s.cache, pos)
          else GuideScan(Err(CannotRead), s.cache, pos)
        case Content(text) =>
          var c := MatchFileContentSpec(config, filename, text, eng, rand, s.cache, pos);
          match c.result
          case Err(e) => GuideScan(Err(MatchFailed(e)), c.cache, c.pos)
          case Ok(cm) => GuideScan(Ok(Guides(cm, false)), c.cache, c.pos)
  }

  /** The diff guides (or error) and the matcher's cache; no random value is drawn on this path. */
  datatype DiffGuideScan = DiffGuideScan(result: Result<seq<string>, GuideError>, cache: Cache)

  /** `GetDiffGuides`: the diff guides of the file-name matches; content is never looked at. */
  function GetDiffGuidesSpec(config: Config, filename: string, eng: RegexEngine, cache: Cache): DiffGuideScan {
    var s := MatchFileFrom(config.patterns, 0, filename, eng, cache);
    match s.result
    case Err(e) => DiffGuideScan(Err(MatchFailed(e)), s.cache)
    case Ok(ms) => DiffGuideScan(Ok(Guides(ms, true)), s.cache)
  }

  /** `ShouldReview`: `GetGuides` succeeds with at least one guide. */
  predicate ShouldReviewSpec(config: Config, filename: string, read: FileRead, eng: RegexEngine,
                             rand: Random, cache: Cache, pos: nat)
  {
    var g := GetGuidesSpec(config, filename, read, eng, rand, cache, pos);
    g.result.Ok? && |g.result.value| > 0
  }

  // ---------------------------------------------------------------------------
  // Properties
  // ---------------------------------------------------------------------------

  /** Errors of `MatchFile` come out of both `GetGuides` and `GetDiffGuides` unchanged. */
  lemma MatchErrorsPropagate(config: Config, filename: string, read: FileRead, eng: RegexEngine,
                             rand: Random, cache: Cache, pos: nat)
    requires MatchFileFrom(config.patterns, 0, filename, eng, cache).result.Err?
    ensures var e := MatchFileFrom(config.patterns, 0, filename, eng, cache).result.error;
      && GetGuidesSpec(config, filename, read, eng, rand, cache, pos).result == Err(MatchFailed(e))
      && GetDiffGuidesSpec(config, filename, eng, cache).result == Err(MatchFailed(e))
      && !ShouldReviewSpec(config, filename, read, eng, rand, cache, pos)
  {
  }

  /**
    * A file whose name matches rules none of which has a content regex gets
    * the context guides of those rules, whatever reading the file would give.
    */
  lemma FilenameMatchesSuffice(config: Config, filename: string, read: FileRead, eng: RegexEngine,
                               rand: Random, cache: Cache, pos: nat)
    requires var s := MatchFileFrom(config.patterns, 0, filename, eng, cache);
      && s.result.Ok? && |s.result.value| > 0
      && forall k :: 0 <= k < |s.result.value| ==> s.result.value[k].content == ""
    ensures var s := MatchFileFrom(config.patterns, 0, filename, eng, cache);
      GetGuidesSpec(config, filename, read, eng, rand, cache, pos) == GuideScan(Ok(Guides(s.result.value, false)), s.cache, pos)
  {
  }

  /**
    * Without content-only rules the file is never read: the guides are
    * those of the file-name matches, even for rules that also have a
    * content regex, which then goes untried.
    */
  lemma NoContentOnlyRules(config: Config, filename: string, read: FileRead, eng: RegexEngine,
                           rand: Random, cache: Cache, pos: nat)
    requires forall k :: 0 <= k < |config.patterns| ==> config.patterns[k].filename != "" || config.patterns[k].content == ""
    requires MatchFileFrom(config.patterns, 0, filename, eng, cache).result.Ok?
    ensures var s := MatchFileFrom(config.patterns, 0, filename, eng, cache);
      GetGuidesSpec(config, filename, read, eng, rand, cache, pos) == GuideScan(Ok(Guides(s.result.value, false)), s.cache, pos)
  {
  }

  /**
    * When the file has to be read and cannot be, the file-name matches'
    * guides are used if there are any, and the read error is returned
    * otherwise.
    */
  lemma ReadFailureFallsBack(config: Config, filename: string, eng: RegexEngine,
                             rand: Random, cache: Cache, pos: nat)
    requires MatchFileFrom(config.patterns, 0, filename, eng, cache).result.Ok?
    ensures var ms := MatchFileFrom(config.patterns, 0, filename, eng, cache).result.value;
      var g := GetGuidesSpec(config, filename, ReadError, eng, rand, cache, pos).result;
      && (|ms| > 0 ==> g == Ok(Guides(ms, false)))
      && (|ms| == 0 ==> (g == Err(CannotRead) <==> HasContentPatterns(config.patterns)))
      && (|ms| == 0 && !HasContentPatterns(config.patterns) ==> g == Ok([]))
  {
  }

  /**
    * When the file is read, the guides are the context guides of what
    * `MatchFileContent` returns; with unique names and an agreeing cache,
    * its own call of `MatchFile` sees the same file-name matches as the
    * resolver's.
    */
  lemma ContentPathUsesContentMatches(config: Config, filename: string, text: string, eng: RegexEngine,
                                      rand: Random, cache: Cache, pos: nat)
    requires UniqueNames(config.patterns) && Agrees(cache, config.patterns, eng)
    requires HasContentPatterns(config.patterns)
    requires var s := MatchFileFrom(config.patterns, 0, filename, eng, cache);
      s.result.Ok? && (|s.result.value| == 0 || NeedsContentScan(s.result.value))
    ensures var s := MatchFileFrom(config.patterns, 0, filename, eng, cache);
      var again := MatchFileFrom(config.patterns, 0, filename, eng, s.cache);
      var c := MatchContentFrom(config.patterns, 0, Names(s.result.value), text, config.contentDefaults,
                                eng, rand, again.cache, pos);
      && MatchFileFrom(config.patterns, 0, filename, eng, s.cache).result == s.result
      && GetGuidesSpec(config, filename, Content(text), eng, rand, cache, pos).result
         == (match c.result
             case Err(e) => Err(MatchFailed(e))
             case Ok(cm) => Ok(Guides(cm, false)))
  {
    var s := MatchFileFrom(config.patterns, 0, filename, eng, cache);
    MatchFileAgrees(config.patterns, 0, filename, eng, cache);
    MatchFileCacheIndependent(config.patterns, 0, filename, eng, cache, s.cache);
  }

  /**
    * The rules whose context guides `GetGuides` returns: the file-name
    * matches, or what `MatchFileContent` returns when the file is read.
    */
  function GuideRules(config: Config, filename: string, read: FileRead, eng: RegexEngine,
                      rand: Random, cache: Cache, pos: nat): Result<seq<Pattern>, GuideError>
  {
    var s := MatchFileFrom(config.patterns, 0, filename, eng, cache);
    match s.result
    case Err(e) => Err(MatchFailed(e))
    case Ok(ms) =>
      if |ms| > 0 && !NeedsContentScan(ms) then Ok(ms)
      else if !HasContentPatterns(config.patterns) then Ok(ms)
      else match read
        case ReadError => if |ms| > 0 then Ok(ms) else Err(CannotRead)
        case Content(text) =>
          match MatchFileContentSpec(config, filename, text, eng, rand, s.cache, pos).result
          case Err(e) => Err(MatchFailed(e))
          case Ok(cm) => Ok(cm)
  }

  /** A list of rules has some context guide exactly when one of the rules has a non-empty context. */
  lemma GuidesNonEmpty(ms: seq<Pattern>)
    ensures |Guides(ms, false)| > 0 <==> exists k :: 0 <= k < |ms| && |ms[k].context| > 0
  {
    var gs := Guides(ms, false);
    MatchedGuidesMeaning(ms, false);
    if |gs| > 0 {
      assert gs[0] in gs;
      var k :| 0 <= k < |ms| && gs[0] in GuidesOf(ms[k], false);
      assert |ms[k].context| > 0;
    }
    if k :| 0 <= k < |ms| && |ms[k].context| > 0 {
      assert ms[k].context[0] in GuidesOf(ms[k], false);
      assert ms[k].context[0] in gs;
    }
  }

  /**
    * `ShouldReview` holds exactly when `GetGuides` gets its rules without
    * error and one of them has a context guide: a file matched only by
    * rules with diff guides alone, or by none, is not reviewed, and any
    * error gives false.
    */
  lemma ShouldReviewIff(config: Config, filename: string, read: FileRead, eng: RegexEngine,
                        rand: Random, cache: Cache, pos: nat)
    ensures var rs := GuideRules(config, filename, read, eng, rand, cache, pos);
      && (ShouldReviewSpec(config, filename, read, eng, rand, cache, pos)
          <==> rs.Ok? && exists k :: 0 <= k < |rs.value| && |rs.value[k].context| > 0)
      && (GetGuidesSpec(config, filename, read, eng, rand, cache, pos).result.Err?
          ==> !ShouldReviewSpec(config, filename, read, eng, rand, cache, pos))
  {
    var rs := GuideRules(config, filename, read, eng, rand, cache, pos);
    var g := GetGuidesSpec(config, filename, read, eng, rand, cache, pos).result;
    assert g == (match rs case Err(e) => Err(e) case Ok(ms) => Ok(Guides(ms, false)));
    if rs.Ok? {
      GuidesNonEmpty(rs.value);
    }
  }

  /**
    * A file whose name matches rules with no content regex and no context
    * guides (diff guides only) is not reviewed, although it matches.
    */
  lemma DiffOnlyMatchNotReviewed(config: Config, filename: string, read: FileRead, eng: RegexEngine,
                                 rand: Random, cache: Cache, pos: nat)
    requires var s := MatchFileFrom(config.patterns, 0, filename, eng, cache);
      && s.result.Ok? && |s.result.value| > 0
      && forall k :: 0 <= k < |s.result.value| ==> s.result.value[k].content == "" && s.result.value[k].context == []
    ensures !ShouldReviewSpec(config, filename, read, eng, rand, cache, pos)
  {
    var ms := MatchFileFrom(config.patterns, 0, filename, eng, cache).result.value;
    FilenameMatchesSuffice(config, filename, read, eng, rand, cache, pos);
    GuidesNonEmpty(ms);
  }

  /** Rule `k` is reached by `MatchFile`, its file-name regex matches, and `g` is one of its diff-review guides. */
  predicate DiffSource(ps: seq<Pattern>, k: nat, filename: string, eng: RegexEngine, g: string) {
    k < |ps| && FileReached(ps, 0, k, filename, eng) && FileHit(ps[k], filename, eng) && g in GuidesOf(ps[k], true)
  }

  /**
    * With unique names and an agreeing cache, every diff guide comes from
    * a rule `MatchFile` reaches whose file-name regex matches (its diff
    * guides where it has some, else its context guides), and none is
    * listed twice.
    */
  lemma DiffGuidesSound(config: Config, filename: string, eng: RegexEngine, cache: Cache)
    requires UniqueNames(config.patterns) && Agrees(cache, config.patterns, eng)
    requires GetDiffGuidesSpec(config, filename, eng, cache).result.Ok?
    ensures var gs := GetDiffGuidesSpec(config, filename, eng, cache).result.value;
      && NoDuplicates(gs)
      && forall g :: g in gs ==> exists k :: DiffSource(config.patterns, k, filename, eng, g)
  {
    var ps := config.patterns;
    var ms := MatchFileFrom(ps, 0, filename, eng, cache).result.value;
    var idx := MatchFileExact(ps, 0, filename, eng, cache);
    MatchedGuidesMeaning(ms, true);
    forall g | g in Guides(ms, true)
      ensures exists k :: DiffSource(ps, k, filename, eng, g)
    {
      var t :| 0 <= t < |ms| && g in GuidesOf(ms[t], true);
      assert ms[t] == ps[idx[t]];
      ReachedBeforeStop(ps, idx, filename, eng, t);
      assert DiffSource(ps, idx[t], filename, eng, g);
    }
  }

  /**
    * With unique names and an agreeing cache, every guide of a rule
    * `MatchFile` reaches whose file-name regex matches is among the diff
    * guides.
    */
  lemma DiffGuidesComplete(config: Config, filename: string, eng: RegexEngine, cache: Cache, k: nat, g: string)
    requires UniqueNames(config.patterns) && Agrees(cache, config.patterns, eng)
    requires GetDiffGuidesSpec(config, filename, eng, cache).result.Ok?
    requires DiffSource(config.patterns, k, filename, eng, g)
    ensures g in GetDiffGuidesSpec(config, filename, eng, cache).result.value
  {
    var ps := config.patterns;
    var ms := MatchFileFrom(ps, 0, filename, eng, cache).result.value;
    var idx := MatchFileExact(ps, 0, filename, eng, cache);
    MatchedGuidesMeaning(ms, true);
    var t :| 0 <= t < |idx| && idx[t] == k;
    assert ms[t] == ps[k];
  }

  /** Every rule `MatchFile` returns was reached: no matched stop rule comes before it. */
  lemma ReachedBeforeStop(ps: seq<Pattern>, idx: seq<nat>, filename: string, eng: RegexEngine, t: nat)
    requires t < |idx|
    requires forall u :: 0 <= u < |idx| ==> idx[u] < |ps| && FileHit(ps[idx[u]], filename, eng)
    requires forall u, v :: 0 <= u < v < |idx| ==> idx[u] < idx[v]
    requires forall u :: 0 <= u < |idx| - 1 ==> !ps[idx[u]].stop
    requires forall k :: (0 <= k < |ps| && FileReached(ps, 0, k, filename, eng) && FileHit(ps[k], filename, eng)) ==> k in idx
    ensures FileReached(ps, 0, idx[t], filename, eng)
  {
    forall j | 0 <= j < idx[t] ensures !(FileHit(ps[j], filename, eng) && ps[j].stop) {
      if FileHit(ps[j], filename, eng) && ps[j].stop {
        var m := FirstFileStop(ps, filename, eng, j);
        assert false;
      }
    }
  }

  // ---------------------------------------------------------------------------
  // The Resolver object
  // ---------------------------------------------------------------------------

  class Resolver {
    const config: Config
    const matcher: M.Matcher

    /** `NewResolver`: a fresh matcher over the same configuration. */
    constructor (config: Config, engine: RegexEngine)
      ensures this.config == config && matcher.config == config && matcher.engine == engine
      ensures matcher.cache == map[] && fresh(matcher)
    {
      this.config := config;
      matcher := new M.Matcher(config, engine);
    }

    method NeedsContentScanLoop(ms: seq<Pattern>) returns (b: bool)
      ensures b == NeedsContentScan(ms)
    {
      for k := 0 to |ms|
        invariant forall j :: 0 <= j < k ==> ms[j].content == ""
      {
        if ms[k].content != "" {
          return true;
        }
      }
      return false;
    }

    method HasContentPatternsLoop() returns (b: bool)
      ensures b == HasContentPatterns(config.patterns)
    {
      var ps := config.patterns;
      for k := 0 to |ps|
        invariant forall j :: 0 <= j < k ==> !(ps[j].filename == "" && ps[j].content != "")
      {
        if ps[k].filename == "" && ps[k].content != "" {
          return true;
        }
      }
      return false;
    }

    method GetGuides(filename: string, read: FileRead, rand: Random, pos: nat)
      returns (r: Result<seq<string>, GuideError>, drawn: nat)
      requires matcher.config == config
      modifies matcher
      ensures GuideScan(r, matcher.cache, drawn)
        == GetGuidesSpec(config, filename, read, matcher.engine, rand, old(matcher.cache), pos)
    {
      var fm := matcher.MatchFile(filename);
      if fm.Err? {
        return Err(MatchFailed(fm.error)), pos;
      }
      var filenameMatches := fm.value;
      var needs := NeedsContentScanLoop(filenameMatches);
      if |filenameMatches| > 0 && !needs {
        var guides := matcher.GetMatchedGuides(filenameMatches, false);
        return Ok(guides), pos;
      }
      var hasContent := HasContentPatternsLoop();
      if hasContent {
        if read.ReadError? {
          if |filenameMatches| > 0 {
            var guides := matcher.GetMatchedGuides(filenameMatches, false);
            return Ok(guides), pos;
          }
          return Err(CannotRead), pos;
        }
        var cm;
        cm, drawn := matcher.MatchFileContent(filename, read.text, rand, pos);
        if cm.Err? {
          return Err(MatchFailed(cm.error)), drawn;
        }
        var guides := matcher.GetMatchedGuides(cm.value, false);
        return Ok(guides), drawn;
      }
      var guides := matcher.GetMatchedGuides(filenameMatches, false);
      return Ok(guides), pos;
    }

    method GetDiffGuides(filename: string) returns (r: Result<seq<string>, GuideError>)
      requires matcher.config == config
      modifies matcher
      ensures DiffGuideScan(r, matcher.cache) == GetDiffGuidesSpec(config, filename, matcher.engine, old(matcher.cache))
    {
      var fm := matcher.MatchFile(filename);
      if fm.Err? {
        return Err(MatchFailed(fm.error));
      }
      var guides := matcher.GetMatchedGuides(fm.value, true);
      return Ok(guides);
    }

    method ShouldReview(filename: string, read: FileRead, rand: Random, pos: nat)
      returns (b: bool, drawn: nat)
      requires matcher.config == config
      modifies matcher
      ensures b == ShouldReviewSpec(config, filename, read, matcher.engine, rand, old(matcher.cache), pos)
      ensures GetGuidesSpec(config, filename, read, matcher.engine, rand, old(matcher.cache), pos).cache == matcher.cache
    {
      var guides;
      guides, drawn := GetGuides(filename, read, rand, pos);
      if guides.Err? {
        return false, drawn;
      }
      return |guides.value| > 0, drawn;
    }
  }
}
