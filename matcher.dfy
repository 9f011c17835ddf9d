/**
  * The pattern matcher (internal/matcher/matcher.go): which rules of the
  * configuration match a file by name, by name and content, which part of
  * the content a content rule looks at, and which guides the matched rules
  * bring in. A `Matcher` object keeps a cache of compiled regular
  * expressions that its methods fill as they go.
  *
  * Go's regular expressions are left abstract: a `RegexEngine` says which
  * pattern strings compile and which texts a compiled pattern matches.
  */
module Matcher {
  import opened Wrappers
  import opened Text
  import opened Config

  datatype RegexEngine = RegexEngine(compiles: string -> bool, matches: (string, string) -> bool)

  /** A compiled expression remembers the pattern string it came from. */
  datatype Regex = Regex(source: string)

  /** `compiledRegexes`, keyed by rule name and the side the regex is for. */
  type Cache = map<string, Regex>

  datatype Side = FilenameSide | ContentSide

  /** The cache key of a rule's regex: `name + "_filename"` or `name + "_content"`. */
  function KeyOf(p: Pattern, side: Side): string {
    match side
    case FilenameSide => p.name + "_filename"
    case ContentSide => p.name + "_content"
  }

  /** The pattern string a rule gives for one side. */
  function SourceOf(p: Pattern, side: Side): string {
    match side
    case FilenameSide => p.filename
    case ContentSide => p.content
  }

  /** Two cache keys are the same only for the same rule name and side. */
  lemma KeysDistinct(p: Pattern, q: Pattern, s: Side, t: Side)
    requires KeyOf(p, s) == KeyOf(q, t)
    ensures p.name == q.name && s == t
  {
    var a, b := KeyOf(p, s), KeyOf(q, t);
    assert a[|a| - 1] == (if s == FilenameSide then 'e' else 't');
    assert b[|b| - 1] == (if t == FilenameSide then 'e' else 't');
    if s == t == FilenameSide {
      assert p.name == a[..|a| - 9] == b[..|b| - 9] == q.name;
    } else if s == t == ContentSide {
      assert p.name == a[..|a| - 8] == b[..|b| - 8] == q.name;
    }
  }

  // ---------------------------------------------------------------------------
  // getRegex
  // ---------------------------------------------------------------------------

  datatype Lookup = Lookup(regex: Option<Regex>, cache: Cache)

  /** `getRegex(key, pattern)`: the cached regex for `key`, or `pattern` compiled and cached. */
  function CachedCompile(cache: Cache, eng: RegexEngine, key: string, pattern: string): Lookup {
    if key in cache then Lookup(Some(cache[key]), cache)
    else if !eng.compiles(pattern) then Lookup(None, cache)
    else Lookup(Some(Regex(pattern)), cache[key := Regex(pattern)])
  }

  /**
    * A successful lookup leaves its key cached, and every later lookup of
    * that key returns the same regex whatever pattern string it is given;
    * a failed lookup changes nothing. Entries already cached are kept.
    */
  lemma CacheSticky(cache: Cache, eng: RegexEngine, key: string, pattern: string, later: string)
    ensures var first := CachedCompile(cache, eng, key, pattern);
      && (first.regex.Some? ==>
            key in first.cache && CachedCompile(first.cache, eng, key, later) == Lookup(first.regex, first.cache))
      && (first.regex.None? ==> first.cache == cache && key !in cache && !eng.compiles(pattern))
      && (forall k :: k in cache ==> k in first.cache && first.cache[k] == cache[k])
      && first.cache.Keys <= cache.Keys + {key}
  {
  }

  /**
    * The cache agrees with the rules: every cached regex compiles, and the
    * entry under a rule's key is that rule's own pattern.
    */
  predicate Agrees(cache: Cache, ps: seq<Pattern>, eng: RegexEngine) {
    && (forall k :: k in cache ==> eng.compiles(cache[k].source))
    && (forall i, side :: 0 <= i < |ps| && KeyOf(ps[i], side) in cache ==>
          cache[KeyOf(ps[i], side)] == Regex(SourceOf(ps[i], side)))
  }

  predicate UniqueNames(ps: seq<Pattern>) {
    forall i, j :: 0 <= i < j < |ps| ==> ps[i].name != ps[j].name
  }

  /**
    * With rule names unique and the cache agreeing with the rules, looking
    * up a rule's regex gives that rule's own pattern exactly when it
    * compiles, and the cache still agrees afterwards.
    */
  lemma AgreedLookup(cache: Cache, ps: seq<Pattern>, eng: RegexEngine, i: nat, side: Side)
    requires Agrees(cache, ps, eng) && UniqueNames(ps) && i < |ps|
    ensures var lk := CachedCompile(cache, eng, KeyOf(ps[i], side), SourceOf(ps[i], side));
      && (lk.regex.Some? <==> eng.compiles(SourceOf(ps[i], side)))
      && (lk.regex.Some? ==> lk.regex.value == Regex(SourceOf(ps[i], side)))
      && Agrees(lk.cache, ps, eng)
  {
    var key := KeyOf(ps[i], side);
    var lk := CachedCompile(cache, eng, key, SourceOf(ps[i], side));
    if key !in cache && eng.compiles(SourceOf(ps[i], side)) {
      forall j, s | 0 <= j < |ps| && KeyOf(ps[j], s) in lk.cache
        ensures lk.cache[KeyOf(ps[j], s)] == Regex(SourceOf(ps[j], s))
      {
        if KeyOf(ps[j], s) == key {
          KeysDistinct(ps[j], ps[i], s, side);
        }
      }
    }
  }

  // ---------------------------------------------------------------------------
  // MatchFile
  // ---------------------------------------------------------------------------

  datatype MatchError = BadFilenameRegex(name: string) | BadContentRegex(name: string) | SampleOutOfRange(name: string)

  /** What checking one rule against a file name gave, and the cache after it. */
  datatype FileCheck = FileCheck(hit: Result<bool, MatchError>, cache: Cache)

  /** The body of `MatchFile`'s loop for one rule; content-only rules are passed over. */
  function FileRule(p: Pattern, filename: string, eng: RegexEngine, cache: Cache): FileCheck {
    if p.filename == "" then FileCheck(Ok(false), cache)
    else
      var lk := CachedCompile(cache, eng, KeyOf(p, FilenameSide), p.filename);
      match lk.regex
      case None => FileCheck(Err(BadFilenameRegex(p.name)), lk.cache)
      case Some(rx) => FileCheck(Ok(eng.matches(rx.source, filename)), lk.cache)
  }

  datatype FileScan = FileScan(result: Result<seq<Pattern>, MatchError>, cache: Cache)

  function Prepend(ms: seq<Pattern>, s: FileScan): FileScan {
    if s.result.Ok? then FileScan(Ok(ms + s.result.value), s.cache) else s
  }

  /** `MatchFile` over the rules from index `i` on. */
  function MatchFileFrom(ps: seq<Pattern>, i: nat, filename: string, eng: RegexEngine, cache: Cache): FileScan
    requires i <= |ps|
    decreases |ps| - i
  {
    if i == |ps| then FileScan(Ok([]), cache)
    else
      var c := FileRule(ps[i], filename, eng, cache);
      match c.hit
      case Err(e) => FileScan(Err(e), c.cache)
      case Ok(hit) =>
        if hit && ps[i].stop then FileScan(Ok([ps[i]]), c.cache)
        else
          var rest := MatchFileFrom(ps, i + 1, filename, eng, c.cache);
          if hit then Prepend([ps[i]], rest) else rest
  }

  lemma PrependTwice(a: seq<Pattern>, b: seq<Pattern>, s: FileScan)
    ensures Prepend(a, Prepend(b, s)) == Prepend(a + b, s)
  {
    if s.result.Ok? {
      assert a + (b + s.result.value) == (a + b) + s.result.value;
    }
  }

  lemma PrependNothing(s: FileScan)
    ensures Prepend([], s) == s
  {
    if s.result.Ok? {
      assert [] + s.result.value == s.result.value;
    }
  }

  /** `MatchFile` keeps the cache agreeing with the rules. */
  lemma {:induction false} MatchFileAgrees(ps: seq<Pattern>, i: nat, filename: string, eng: RegexEngine, cache: Cache)
    requires i <= |ps| && Agrees(cache, ps, eng) && UniqueNames(ps)
    ensures Agrees(MatchFileFrom(ps, i, filename, eng, cache).cache, ps, eng)
    decreases |ps| - i
  {
    if i < |ps| {
      if ps[i].filename != "" {
        AgreedLookup(cache, ps, eng, i, FilenameSide);
      }
      var c := FileRule(ps[i], filename, eng, cache);
      if c.hit.Ok? && !(c.hit.value && ps[i].stop) {
        MatchFileAgrees(ps, i + 1, filename, eng, c.cache);
      }
    }
  }

  /**
    * Under caches that agree with the rules, the outcome of `MatchFile`
    * does not depend on what is already cached: running it a second time,
    * as `MatchFileContent` does, gives the first run's result again.
    */
  lemma {:induction false} MatchFileCacheIndependent(ps: seq<Pattern>, i: nat, filename: string, eng: RegexEngine,
                                                     c1: Cache, c2: Cache)
    requires i <= |ps| && Agrees(c1, ps, eng) && Agrees(c2, ps, eng) && UniqueNames(ps)
    ensures MatchFileFrom(ps, i, filename, eng, c1).result == MatchFileFrom(ps, i, filename, eng, c2).result
    decreases |ps| - i
  {
    if i < |ps| {
      if ps[i].filename != "" {
        AgreedLookup(c1, ps, eng, i, FilenameSide);
        AgreedLookup(c2, ps, eng, i, FilenameSide);
      }
      var d1 := FileRule(ps[i], filename, eng, c1);
      var d2 := FileRule(ps[i], filename, eng, c2);
      assert d1.hit == d2.hit;
      if d1.hit.Ok? && !(d1.hit.value && ps[i].stop) {
        MatchFileCacheIndependent(ps, i + 1, filename, eng, d1.cache, d2.cache);
      }
    }
  }

  /** The rule names a file-name regex of and matches `filename`, with its own pattern. */
  predicate FileHit(p: Pattern, filename: string, eng: RegexEngine) {
    p.filename != "" && eng.compiles(p.filename) && eng.matches(p.filename, filename)
  }

  predicate BadFilename(p: Pattern, eng: RegexEngine) {
    p.filename != "" && !eng.compiles(p.filename)
  }

  /** The scan from `i` gets to rule `k`: no rule in between is a matching stop rule. */
  predicate FileReached(ps: seq<Pattern>, i: nat, k: nat, filename: string, eng: RegexEngine)
    requires i <= k <= |ps|
  {
    forall j :: i <= j < k ==> !(FileHit(ps[j], filename, eng) && ps[j].stop)
  }

  /**
    * `idx` gives, in configuration order, the positions from `i` on of the
    * rules in `ms`, each with a matching file-name regex; every such rule
    * the scan reaches is there, and no rule but the last is a stop rule.
    */
  predicate FileHits(ps: seq<Pattern>, i: nat, filename: string, eng: RegexEngine, ms: seq<Pattern>, idx: seq<nat>)
    requires i <= |ps|
  {
    && |idx| == |ms|
    && (forall t :: 0 <= t < |idx| ==> i <= idx[t] < |ps| && ms[t] == ps[idx[t]] && FileHit(ps[idx[t]], filename, eng))
    && (forall t, u :: 0 <= t < u < |idx| ==> idx[t] < idx[u])
    && (forall k :: (i <= k < |ps| && FileReached(ps, i, k, filename, eng) && FileHit(ps[k], filename, eng)) ==> k in idx)
    && (forall t :: 0 <= t < |idx| - 1 ==> !ps[idx[t]].stop)
  }

  /** A matching stop rule at `i` is all a scan from `i` returns. */
  lemma FileHitsStop(ps: seq<Pattern>, i: nat, filename: string, eng: RegexEngine)
    requires i < |ps| && FileHit(ps[i], filename, eng) && ps[i].stop
    ensures FileHits(ps, i, filename, eng, [ps[i]], [i])
  {
    forall k | i < k < |ps| ensures !FileReached(ps, i, k, filename, eng) {
    }
  }

  /** A scan from `i` that gets past rule `i` reaches what a scan from `i + 1` reaches. */
  lemma FileReachedStep(ps: seq<Pattern>, i: nat, filename: string, eng: RegexEngine)
    requires i < |ps|
    ensures forall k :: i + 1 <= k <= |ps| && FileReached(ps, i, k, filename, eng) ==> FileReached(ps, i + 1, k, filename, eng)
  {
  }

  /** A rule at `i` whose file-name regex does not match leaves the scan's hits as they are. */
  lemma FileHitsSkip(ps: seq<Pattern>, i: nat, filename: string, eng: RegexEngine, ms: seq<Pattern>, idx: seq<nat>)
    requires i < |ps| && FileHits(ps, i + 1, filename, eng, ms, idx) && !FileHit(ps[i], filename, eng)
    ensures FileHits(ps, i, filename, eng, ms, idx)
  {
    FileReachedStep(ps, i, filename, eng);
  }

  /** A matching rule at `i` that is not a stop rule leads the hits of the scan from `i + 1`. */
  lemma FileHitsCons(ps: seq<Pattern>, i: nat, filename: string, eng: RegexEngine, ms: seq<Pattern>, idx: seq<nat>)
    requires i < |ps| && FileHits(ps, i + 1, filename, eng, ms, idx)
    requires FileHit(ps[i], filename, eng) && !ps[i].stop
    ensures FileHits(ps, i, filename, eng, [ps[i]] + ms, [i] + idx)
  {
    FileReachedStep(ps, i, filename, eng);
    var ms', idx' := [ps[i]] + ms, [i] + idx;
    forall t | 0 < t < |idx'| ensures idx'[t] == idx[t - 1] && ms'[t] == ms[t - 1] {
    }
  }

  /**
    * With an agreeing cache and unique names, a successful `MatchFile` from
    * rule `i` returns, in configuration order (the positions `idx`), exactly
    * the rules it reaches whose file-name regex matches, and no rule but the
    * last one returned is a stop rule. Content-only rules never appear.
    */
  lemma {:induction false} MatchFileExact(ps: seq<Pattern>, i: nat, filename: string, eng: RegexEngine, cache: Cache)
    returns (idx: seq<nat>)
    requires i <= |ps| && Agrees(cache, ps, eng) && UniqueNames(ps)
    ensures var s := MatchFileFrom(ps, i, filename, eng, cache);
      && Agrees(s.cache, ps, eng)
      && (s.result.Ok? ==> FileHits(ps, i, filename, eng, s.result.value, idx))
    decreases |ps| - i
  {
    if i == |ps| {
      idx := [];
      return;
    }
    var p := ps[i];
    var c := FileRule(p, filename, eng, cache);
    if p.filename != "" {
      AgreedLookup(cache, ps, eng, i, FilenameSide);
    }
    assert Agrees(c.cache, ps, eng);
    if c.hit.Err? {
      idx := [];
      return;
    }
    var hit := c.hit.value;
    assert hit == FileHit(p, filename, eng);
    if hit && p.stop {
      FileHitsStop(ps, i, filename, eng);
      idx := [i];
      return;
    }
    var rest := MatchFileExact(ps, i + 1, filename, eng, c.cache);
    var s' := MatchFileFrom(ps, i + 1, filename, eng, c.cache);
    if s'.result.Ok? && hit {
      FileHitsCons(ps, i, filename, eng, s'.result.value, rest);
    } else if s'.result.Ok? {
      FileHitsSkip(ps, i, filename, eng, s'.result.value, rest);
    }
    if hit {
      idx := [i] + rest;
    } else {
      idx := rest;
    }
  }

  /** The scan from `i` reaches a rule whose file-name regex does not compile. */
  predicate FileFails(ps: seq<Pattern>, i: nat, filename: string, eng: RegexEngine)
    requires i <= |ps|
  {
    exists k :: i <= k < |ps| && FileReached(ps, i, k, filename, eng) && BadFilename(ps[k], eng)
  }

  /** Rule `k` is the first rule from `i` on with a bad file-name regex, and the scan reaches it. */
  predicate FirstBadFilename(ps: seq<Pattern>, i: nat, k: nat, filename: string, eng: RegexEngine) {
    && i <= k < |ps| && FileReached(ps, i, k, filename, eng)
    && BadFilename(ps[k], eng) && (forall j :: i <= j < k ==> !BadFilename(ps[j], eng))
  }

  /** A rule that compiles and does not stop the scan changes neither of the two. */
  lemma FileFailsSkip(ps: seq<Pattern>, i: nat, filename: string, eng: RegexEngine)
    requires i < |ps| && !BadFilename(ps[i], eng) && !(FileHit(ps[i], filename, eng) && ps[i].stop)
    ensures FileFails(ps, i, filename, eng) <==> FileFails(ps, i + 1, filename, eng)
    ensures forall k: nat :: FirstBadFilename(ps, i + 1, k, filename, eng) ==> FirstBadFilename(ps, i, k, filename, eng)
  {
    if FileFails(ps, i, filename, eng) {
      var k :| i <= k < |ps| && FileReached(ps, i, k, filename, eng) && BadFilename(ps[k], eng);
      assert k != i;
      assert FileReached(ps, i + 1, k, filename, eng);
    }
    if FileFails(ps, i + 1, filename, eng) {
      var k :| i + 1 <= k < |ps| && FileReached(ps, i + 1, k, filename, eng) && BadFilename(ps[k], eng);
      assert FileReached(ps, i, k, filename, eng);
    }
  }

  /**
    * `MatchFile` from rule `i` fails exactly when it reaches a rule whose
    * file-name regex does not compile, and it names the first such rule.
    */
  lemma {:induction false} MatchFileFails(ps: seq<Pattern>, i: nat, filename: string, eng: RegexEngine, cache: Cache)
    requires i <= |ps| && Agrees(cache, ps, eng) && UniqueNames(ps)
    ensures var s := MatchFileFrom(ps, i, filename, eng, cache);
      s.result.Err? <==> FileFails(ps, i, filename, eng)
    ensures var s := MatchFileFrom(ps, i, filename, eng, cache);
      s.result.Err? ==> exists k: nat :: FirstBadFilename(ps, i, k, filename, eng) && s.result.error == BadFilenameRegex(ps[k].name)
    decreases |ps| - i
  {
    if i < |ps| {
      var p := ps[i];
      var c := FileRule(p, filename, eng, cache);
      if p.filename != "" {
        AgreedLookup(cache, ps, eng, i, FilenameSide);
      }
      if c.hit.Err? {
        assert FirstBadFilename(ps, i, i, filename, eng);
      } else if c.hit.value && p.stop {
        forall k | i < k < |ps| ensures !FileReached(ps, i, k, filename, eng) {
          assert FileHit(ps[i], filename, eng) && ps[i].stop;
        }
      } else {
        MatchFileFails(ps, i + 1, filename, eng, c.cache);
        FileFailsSkip(ps, i, filename, eng);
        assert MatchFileFrom(ps, i, filename, eng, cache).result.Err?
          == MatchFileFrom(ps, i + 1, filename, eng, c.cache).result.Err?;
      }
    }
  }

  /**
    * Rule names are unique only by convention, and the cache is keyed by
    * name: when two rules share a name, the second is tried with the
    * first one's file-name regex and its own is never compiled.
    */
  lemma SharedNameSharesRegex(p: Pattern, q: Pattern, filename: string, eng: RegexEngine)
    requires p.name == q.name && p.filename != "" && q.filename != "" && !p.stop
    requires eng.compiles(p.filename)
    ensures var s := MatchFileFrom([p, q], 0, filename, eng, map[]);
      && s.result.Ok?
      && (eng.matches(p.filename, filename) ==> s.result.value == [p, q])
      && (!eng.matches(p.filename, filename) ==> s.result.value == [])
  {
    var ps := [p, q];
    var hit := eng.matches(p.filename, filename);
    var c := FileRule(p, filename, eng, map[]);
    assert c == FileCheck(Ok(hit), map[KeyOf(p, FilenameSide) := Regex(p.filename)]);
    var d := FileRule(q, filename, eng, c.cache);
    assert KeyOf(q, FilenameSide) == KeyOf(p, FilenameSide);
    assert d == FileCheck(Ok(hit), c.cache);
    assert MatchFileFrom(ps, 2, filename, eng, d.cache).result == Ok([]);
    if hit {
      assert MatchFileFrom(ps, 1, filename, eng, c.cache).result.value == [q];
    } else {
      assert MatchFileFrom(ps, 1, filename, eng, c.cache).result.value == [];
    }
  }

  // ---------------------------------------------------------------------------
  // getContentToScan
  // ---------------------------------------------------------------------------

  /** The strategy a rule's content is sampled by: its own, else the default one. */
  function StrategyOf(p: Pattern, defaults: ContentDefaults): string {
    if p.contentStrategy == "" then defaults.strategy else p.contentStrategy
  }

  /**
    * The first_lines count: the rule's first value, but only when the rule
    * itself names first_lines; otherwise the default line count.
    */
  function FirstCount(p: Pattern, defaults: ContentDefaults): int {
    if p.contentStrategy == FirstLines && |p.contentLines| > 0 then p.contentLines[0] else defaults.lines
  }

  /** The smart counts (first, last, random): the rule's three values, or 100 each. */
  function SmartCounts(p: Pattern): (int, int, int) {
    if |p.contentLines| == 3 then (p.contentLines[0], p.contentLines[1], p.contentLines[2]) else (100, 100, 100)
  }

  /** The values `math/rand` hands out, by call number; `Intn(n)` is the next value modulo `n`. */
  type Random = nat -> nat

  /**
    * The text chosen for scanning and the number of random values used so
    * far; `OutOfRange` when Go indexes or slices the lines out of range and
    * panics.
    */
  datatype Sample = Sample(text: string, pos: nat) | OutOfRange

  function Min(a: int, b: int): int {
    if a < b then a else b
  }

  /** The indexes `lo`, `lo + 1`, ..., `hi - 1`. */
  function Range(lo: int, hi: int): (r: seq<int>)
    ensures |r| == if hi > lo then hi - lo else 0
    ensures forall k :: 0 <= k < |r| ==> r[k] == lo + k
  {
    seq(if hi > lo then hi - lo else 0, k requires 0 <= k => lo + k)
  }

  /** The remainder of `a` divided by `n`, by repeated subtraction. */
  function Mod(a: nat, n: nat): (v: nat)
    requires n > 0
    ensures v < n
    decreases a
  {
    if a < n then a else Mod(a - n, n)
  }

  /** `rand.Intn(n)` as the `k`-th call to the generator: its value modulo `n`. */
  function Intn(rand: Random, k: nat, n: nat): (v: nat)
    requires n > 0
    ensures v < n
  {
    Mod(rand(k), n)
  }

  /** `r` line indexes drawn from `[lo, hi)`, the `k`-th with random value `pos + k`. */
  function Draws(lo: int, hi: int, r: int, rand: Random, pos: nat): (d: seq<int>)
    requires lo < hi
    ensures |d| == if r > 0 then r else 0
    ensures forall k :: 0 <= k < |d| ==> d[k] == lo + Intn(rand, pos + k, hi - lo) && lo <= d[k] < hi
  {
    seq(if r > 0 then r else 0, k requires 0 <= k => lo + Intn(rand, pos + k, hi - lo))
  }

  lemma DrawsSnoc(lo: int, hi: int, i: nat, rand: Random, pos: nat)
    requires lo < hi
    ensures Draws(lo, hi, i + 1, rand, pos) == Draws(lo, hi, i, rand, pos) + [lo + Intn(rand, pos + i, hi - lo)]
  {
  }

  /** Where the smart strategy's block of last lines starts: `total - l`, but no earlier than `f`. */
  function LastStart(total: nat, f: int, l: int): int {
    if total - l < f then f else total - l
  }

  /** The line indexes the smart strategy visits: first lines, last lines, random middle lines. */
  function SmartIndices(total: nat, f: int, l: int, r: int, rand: Random, pos: nat): seq<int> {
    Range(0, Min(f, total)) + Range(LastStart(total, f, l), total)
      + (if total > f + l then Draws(f, total - l, r, rand, pos) else [])
  }

  /** How many random values the smart strategy uses. */
  function SmartDraws(total: nat, f: int, l: int, r: int): nat {
    if total > f + l && r > 0 then r else 0
  }

  /** Every index is a position of a sequence of length `n`. */
  predicate Within(idx: seq<int>, n: nat) {
    forall k :: 0 <= k < |idx| ==> 0 <= idx[k] < n
  }

  lemma WithinConcat(a: seq<int>, b: seq<int>, n: nat)
    ensures Within(a + b, n) <==> Within(a, n) && Within(b, n)
  {
    if Within(a + b, n) {
      forall k | 0 <= k < |a| ensures 0 <= a[k] < n {
        assert a[k] == (a + b)[k];
      }
      forall k | 0 <= k < |b| ensures 0 <= b[k] < n {
        assert b[k] == (a + b)[|a| + k];
      }
    }
    if Within(a, n) && Within(b, n) {
      forall k | 0 <= k < |a + b| ensures 0 <= (a + b)[k] < n {
        if k >= |a| {
          assert (a + b)[k] == b[k - |a|];
        }
      }
    }
  }

  /** The lines at the given indexes, in the order of the indexes. */
  function Pick<T>(lines: seq<T>, idx: seq<int>): seq<T>
    requires Within(idx, |lines|)
  {
    seq(|idx|, k requires 0 <= k < |idx| => lines[idx[k]])
  }

  lemma RangeSnoc(lo: int, hi: int)
    requires lo <= hi
    ensures Range(lo, hi + 1) == Range(lo, hi) + [hi]
  {
  }

  lemma PickSnoc<T>(lines: seq<T>, idx: seq<int>, i: int)
    requires Within(idx, |lines|)
    requires 0 <= i < |lines|
    ensures Within(idx + [i], |lines|)
    ensures Pick(lines, idx + [i]) == Pick(lines, idx) + [lines[i]]
  {
  }

  /**
    * `getContentToScan`: the part of `content` a content regex is tried on,
    * or `OutOfRange` where Go's smart loops index outside the lines or
    * first_lines slices with a negative count.
    */
  function ContentToScan(content: string, p: Pattern, defaults: ContentDefaults, rand: Random, pos: nat): Sample {
    var lines := Split(content, "\n");
    var strategy := StrategyOf(p, defaults);
    if strategy == FullFile then Sample(content, pos)
    else if strategy == Smart then
      var (f, l, r) := SmartCounts(p);
      var idx := SmartIndices(|lines|, f, l, r, rand, pos);
      if Within(idx, |lines|) then Sample(Join(Pick(lines, idx), "\n"), pos + SmartDraws(|lines|, f, l, r))
      else OutOfRange
    else
      var n := FirstCount(p, defaults);
      if n > |lines| then Sample(content, pos)
      else if n < 0 then OutOfRange
      else Sample(Join(lines[..n], "\n"), pos)
  }

  /**
    * The smart strategy's picks: the first `min(f, total)` lines in order,
    * then the last lines in order starting no earlier than `f` (so the two
    * blocks never overlap), then exactly `r` random lines from the middle
    * `[f, total - l)` when there is a middle, none otherwise. Go panics
    * exactly when the block of last lines would start before line 0 or a
    * draw falls outside the lines, which non-negative counts rule out.
    */
  lemma SmartShape(total: nat, f: int, l: int, r: int, rand: Random, pos: nat)
    ensures var idx := SmartIndices(total, f, l, r, rand, pos);
      var first := if f > 0 then Min(f, total) else 0;
      var start := LastStart(total, f, l);
      var last := if total > start then total - start else 0;
      && |idx| == first + last + SmartDraws(total, f, l, r)
      && (forall k :: 0 <= k < first ==> idx[k] == k)
      && (forall k :: first <= k < first + last ==> idx[k] == start + (k - first) && f <= idx[k] < total)
      && (forall k :: first + last <= k < |idx| ==> f <= idx[k] < total - l)
      && (forall j, k :: 0 <= j < k < first + last ==> idx[j] < idx[k])
      && (Within(idx, total) <==>
            start >= 0 && (total > f + l ==> Within(Draws(f, total - l, r, rand, pos), total)))
      && (f >= 0 && l >= 0 ==> Within(idx, total))
  {
    var idx := SmartIndices(total, f, l, r, rand, pos);
    var first := if f > 0 then Min(f, total) else 0;
    var start := LastStart(total, f, l);
    var a := Range(0, Min(f, total));
    var b := Range(start, total);
    var c := if total > f + l then Draws(f, total - l, r, rand, pos) else [];
    assert idx == a + b + c;
    forall k | |a| + |b| <= k < |idx| ensures f <= idx[k] < total - l {
      assert idx[k] == c[k - |a| - |b|];
    }
    WithinConcat(a + b, c, total);
    WithinConcat(a, b, total);
    assert Within(a, total);
    if start < 0 {
      assert b[0] == start;
    }
  }

  /** Negative smart counts need not panic: first lines -1, last lines 0, no draws scans nothing. */
  lemma SmartNegativeFirstScansNothing(content: string, p: Pattern, defaults: ContentDefaults, rand: Random, pos: nat)
    requires StrategyOf(p, defaults) == Smart && p.contentLines == [-1, 0, 0]
    ensures ContentToScan(content, p, defaults, rand, pos) == Sample("", pos)
  {
  }

  /**
    * A smart rule whose block of last lines would start before line 0
    * panics: first lines -3 and last lines 5 on content of one line.
    */
  lemma SmartLastBeforeLineZeroPanics(content: string, p: Pattern, defaults: ContentDefaults, rand: Random, pos: nat)
    requires StrategyOf(p, defaults) == Smart && |p.contentLines| == 3
    requires p.contentLines[0] == -3 && p.contentLines[1] == 5 && |Split(content, "\n")| == 1
    ensures SamplePanics(p, content, defaults, rand, pos)
  {
    var (f, l, r) := SmartCounts(p);
    SmartShape(1, f, l, r, rand, pos);
  }

  /** full_file scans the whole content and draws nothing. */
  lemma FullFileWhole(content: string, p: Pattern, defaults: ContentDefaults, rand: Random, pos: nat)
    requires StrategyOf(p, defaults) == FullFile
    ensures ContentToScan(content, p, defaults, rand, pos) == Sample(content, pos)
  {
  }

  /**
    * Every strategy other than full_file and smart (unknown names included)
    * scans a prefix of the content and draws nothing: the whole content
    * when the count reaches the number of lines, otherwise exactly the
    * first `n` lines; a negative count makes Go's slice panic.
    */
  lemma FirstLinesPrefix(content: string, p: Pattern, defaults: ContentDefaults, rand: Random, pos: nat)
    requires StrategyOf(p, defaults) != FullFile && StrategyOf(p, defaults) != Smart
    ensures var sm := ContentToScan(content, p, defaults, rand, pos);
      var n := FirstCount(p, defaults);
      var lines := Split(content, "\n");
      && (sm.OutOfRange? <==> n < 0)
      && (sm.Sample? ==> sm.pos == pos && HasPrefix(content, sm.text))
      && (n >= |lines| ==> sm == Sample(content, pos))
      && (1 <= n < |lines| ==> sm.Sample? && Split(sm.text, "\n") == lines[..n])
  {
    var lines := Split(content, "\n");
    var n := FirstCount(p, defaults);
    JoinSplit(content, "\n");
    if 0 <= n <= |lines| {
      JoinPrefix(lines, "\n", n);
      if n == |lines| {
        assert lines[..n] == lines;
      }
      if n >= 1 {
        SplitJoinPrefix(content, n);
      }
    }
  }

  /**
    * A rule that names no strategy and inherits first_lines from the
    * defaults ignores its own line counts: only a rule that names
    * first_lines itself overrides the default count.
    */
  lemma InheritedIgnoresCounts(content: string, p: Pattern, defaults: ContentDefaults, rand: Random, pos: nat)
    requires p.contentStrategy == "" && defaults.strategy == FirstLines
    ensures ContentToScan(content, p, defaults, rand, pos)
      == ContentToScan(content, p.(contentLines := []), defaults, rand, pos)
  {
  }

  /** An unknown strategy name samples like first_lines with the default count. */
  lemma UnknownIsFirstLines(content: string, p: Pattern, defaults: ContentDefaults, rand: Random, pos: nat)
    requires p.contentStrategy != "" && !ValidStrategy(p.contentStrategy)
    ensures ContentToScan(content, p, defaults, rand, pos)
      == ContentToScan(content, p.(contentStrategy := FirstLines, contentLines := []), defaults, rand, pos)
  {
  }

  lemma PickConcat<T>(lines: seq<T>, a: seq<int>, b: seq<int>)
    requires Within(a, |lines|) && Within(b, |lines|)
    ensures Within(a + b, |lines|)
    ensures Pick(lines, a + b) == Pick(lines, a) + Pick(lines, b)
  {
    WithinConcat(a, b, |lines|);
  }

  /** The smart strategy's first loop: lines `0 .. min(f, total) - 1`, none when `f` is not positive. */
  method FirstBlock<T>(lines: seq<T>, f: int) returns (selected: seq<T>)
    ensures Within(Range(0, Min(f, |lines|)), |lines|)
    ensures selected == Pick(lines, Range(0, Min(f, |lines|)))
  {
    selected := [];
    var i := 0;
    while i < f && i < |lines|
      invariant 0 <= i && (f <= 0 ==> i == 0) && (f > 0 ==> i <= Min(f, |lines|))
      invariant Within(Range(0, i), |lines|)
      invariant selected == Pick(lines, Range(0, i))
    {
      PickSnoc(lines, Range(0, i), i);
      RangeSnoc(0, i);
      selected := selected + [lines[i]];
      i := i + 1;
    }
  }

  /**
    * The smart strategy's second loop: lines `startLast .. total - 1`
    * appended; `inRange` is false where Go indexes a negative line and
    * panics.
    */
  method LastBlock<T>(lines: seq<T>, selected0: seq<T>, startLast: int) returns (selected: seq<T>, inRange: bool)
    ensures inRange <==> Within(Range(startLast, |lines|), |lines|)
    ensures inRange ==> selected == selected0 + Pick(lines, Range(startLast, |lines|))
  {
    selected := selected0;
    var i := startLast;
    while i < |lines|
      invariant startLast <= i && (i > startLast ==> 0 <= startLast && i <= |lines|)
      invariant Within(Range(startLast, i), |lines|)
      invariant selected == selected0 + Pick(lines, Range(startLast, i))
    {
      if i < 0 {
        assert Range(startLast, |lines|)[0] == i;
        return selected, false;
      }
      PickSnoc(lines, Range(startLast, i), i);
      RangeSnoc(startLast, i);
      selected := selected + [lines[i]];
      i := i + 1;
    }
    if startLast >= |lines| {
      assert Range(startLast, i) == [] == Range(startLast, |lines|);
    }
    inRange := true;
  }

  /**
    * The smart strategy's third loop: `r` random lines from `[lo, hi)`
    * appended; `inRange` is false where a draw falls outside the lines and
    * Go panics.
    */
  method MiddleDraws<T>(lines: seq<T>, selected0: seq<T>, lo: int, hi: int, r: int, rand: Random, pos: nat)
    returns (selected: seq<T>, drawn: nat, inRange: bool)
    requires lo < hi
    ensures inRange <==> Within(Draws(lo, hi, r, rand, pos), |lines|)
    ensures inRange ==> selected == selected0 + Pick(lines, Draws(lo, hi, r, rand, pos))
    ensures inRange ==> drawn == pos + (if r > 0 then r else 0)
  {
    selected := selected0;
    drawn := pos;
    var i := 0;
    while i < r && lo < hi
      invariant 0 <= i <= (if r > 0 then r else 0) && drawn == pos + i
      invariant Within(Draws(lo, hi, i, rand, pos), |lines|)
      invariant selected == selected0 + Pick(lines, Draws(lo, hi, i, rand, pos))
    {
      var randomIdx := lo + Intn(rand, drawn, hi - lo);
      if randomIdx < 0 || randomIdx >= |lines| {
        assert Draws(lo, hi, r, rand, pos)[i] == randomIdx;
        return selected, drawn, false;
      }
      DrawsSnoc(lo, hi, i, rand, pos);
      PickSnoc(lines, Draws(lo, hi, i, rand, pos), randomIdx);
      selected := selected + [lines[randomIdx]];
      drawn := drawn + 1;
      i := i + 1;
    }
    inRange := true;
  }

  /** The smart picks, taken block by block. */
  lemma SmartPick<T>(lines: seq<T>, f: int, l: int, r: int, rand: Random, pos: nat)
    requires Within(SmartIndices(|lines|, f, l, r, rand, pos), |lines|)
    ensures Within(Range(0, Min(f, |lines|)), |lines|)
    ensures Within(Range(LastStart(|lines|, f, l), |lines|), |lines|)
    ensures |lines| > f + l ==> Within(Draws(f, |lines| - l, r, rand, pos), |lines|)
    ensures |lines| > f + l ==>
      Pick(lines, SmartIndices(|lines|, f, l, r, rand, pos))
      == Pick(lines, Range(0, Min(f, |lines|))) + Pick(lines, Range(LastStart(|lines|, f, l), |lines|))
         + Pick(lines, Draws(f, |lines| - l, r, rand, pos))
    ensures |lines| <= f + l ==>
      Pick(lines, SmartIndices(|lines|, f, l, r, rand, pos))
      == Pick(lines, Range(0, Min(f, |lines|))) + Pick(lines, Range(LastStart(|lines|, f, l), |lines|))
  {
    var total := |lines|;
    var a, b := Range(0, Min(f, total)), Range(LastStart(total, f, l), total);
    var idx := SmartIndices(total, f, l, r, rand, pos);
    if total > f + l {
      var c := Draws(f, total - l, r, rand, pos);
      assert idx == (a + b) + c;
      WithinConcat(a + b, c, total);
      WithinConcat(a, b, total);
      PickConcat(lines, a, b);
      PickConcat(lines, a + b, c);
    } else {
      assert idx == a + b;
      WithinConcat(a, b, total);
      PickConcat(lines, a, b);
    }
  }

  /** The smart strategy's first two loops: the first lines, then the last lines. */
  method EndBlocks<T>(lines: seq<T>, f: int, l: int) returns (selected: seq<T>, inRange: bool)
    ensures Within(Range(0, Min(f, |lines|)), |lines|)
    ensures inRange <==> Within(Range(LastStart(|lines|, f, l), |lines|), |lines|)
    ensures inRange ==>
      selected == Pick(lines, Range(0, Min(f, |lines|))) + Pick(lines, Range(LastStart(|lines|, f, l), |lines|))
  {
    selected := FirstBlock(lines, f);
    var startLast := |lines| - l;
    if startLast < f {
      startLast := f;
    }
    selected, inRange := LastBlock(lines, selected, startLast);
  }

  /** The smart strategy's third loop, run only when there is a middle between the two blocks. */
  method MiddleIfAny<T>(lines: seq<T>, ends: seq<T>, f: int, l: int, r: int, rand: Random, pos: nat)
    returns (selected: seq<T>, drawn: nat, inRange: bool)
    ensures |lines| > f + l ==> (inRange <==> Within(Draws(f, |lines| - l, r, rand, pos), |lines|))
    ensures |lines| > f + l && inRange ==> selected == ends + Pick(lines, Draws(f, |lines| - l, r, rand, pos))
    ensures |lines| <= f + l ==> inRange && selected == ends
    ensures inRange ==> drawn == pos + SmartDraws(|lines|, f, l, r)
  {
    var total := |lines|;
    if total > f + l {
      var middleStart, middleEnd := f, total - l;
      selected, drawn, inRange := MiddleDraws(lines, ends, middleStart, middleEnd, r, rand, pos);
    } else {
      selected, drawn, inRange := ends, pos, true;
    }
  }

  /**
    * The smart branch of `getContentToScan`: the first lines, the last
    * lines and the random middle lines, appended one by one; `inRange` is
    * false exactly when Go would index outside the lines.
    */
  method SmartSample<T>(lines: seq<T>, f: int, l: int, r: int, rand: Random, pos: nat)
    returns (selected: seq<T>, drawn: nat, inRange: bool)
    ensures inRange <==> Within(SmartIndices(|lines|, f, l, r, rand, pos), |lines|)
    ensures inRange ==> selected == Pick(lines, SmartIndices(|lines|, f, l, r, rand, pos))
    ensures inRange ==> drawn == pos + SmartDraws(|lines|, f, l, r)
  {
    SmartShape(|lines|, f, l, r, rand, pos);
    var ends;
    ends, inRange := EndBlocks(lines, f, l);
    if !inRange {
      return ends, pos, false;
    }
    selected, drawn, inRange := MiddleIfAny(lines, ends, f, l, r, rand, pos);
    if inRange {
      SmartPick(lines, f, l, r, rand, pos);
    }
  }

  // ---------------------------------------------------------------------------
  // MatchFileContent
  // ---------------------------------------------------------------------------

  /** The names of the rules `MatchFile` returned (`filenameMatchMap`). */
  function Names(ms: seq<Pattern>): set<string> {
    set m | m in ms :: m.name
  }

  /** What checking one rule against name and content gave, the cache and the random values used. */
  datatype ContentCheck = ContentCheck(hit: Result<bool, MatchError>, cache: Cache, pos: nat)

  /**
    * Sample the content for `p`, then try `p`'s content regex on the
    * sample; a sample out of range stops before the regex is fetched.
    */
  function ContentTest(p: Pattern, content: string, defaults: ContentDefaults, eng: RegexEngine,
                       rand: Random, cache: Cache, pos: nat): ContentCheck
  {
    match ContentToScan(content, p, defaults, rand, pos)
    case OutOfRange => ContentCheck(Err(SampleOutOfRange(p.name)), cache, pos)
    case Sample(text, drawn) =>
      var lk := CachedCompile(cache, eng, KeyOf(p, ContentSide), p.content);
      match lk.regex
      case None => ContentCheck(Err(BadContentRegex(p.name)), lk.cache, drawn)
      case Some(rx) => ContentCheck(Ok(eng.matches(rx.source, text)), lk.cache, drawn)
  }

  /**
    * The body of `MatchFileContent`'s loop for one rule: a rule with both
    * regexes needs its name among the file-name matches and its content
    * regex to match; a file-name rule needs its name there; a content rule
    * needs its content regex to match; a rule with neither never matches.
    */
  function ContentRule(p: Pattern, names: set<string>, content: string, defaults: ContentDefaults,
                       eng: RegexEngine, rand: Random, cache: Cache, pos: nat): ContentCheck
  {
    if p.filename != "" && p.content != "" then
      if p.name in names then ContentTest(p, content, defaults, eng, rand, cache, pos)
      else ContentCheck(Ok(false), cache, pos)
    else if p.filename != "" then ContentCheck(Ok(p.name in names), cache, pos)
    else if p.content != "" then ContentTest(p, content, defaults, eng, rand, cache, pos)
    else ContentCheck(Ok(false), cache, pos)
  }

  datatype ContentScan = ContentScan(result: Result<seq<Pattern>, MatchError>, cache: Cache, pos: nat)

  function PrependC(ms: seq<Pattern>, s: ContentScan): ContentScan {
    if s.result.Ok? then ContentScan(Ok(ms + s.result.value), s.cache, s.pos) else s
  }

  /** `MatchFileContent`'s second loop over the rules from index `i` on. */
  function MatchContentFrom(ps: seq<Pattern>, i: nat, names: set<string>, content: string, defaults: ContentDefaults,
                            eng: RegexEngine, rand: Random, cache: Cache, pos: nat): ContentScan
    requires i <= |ps|
    decreases |ps| - i
  {
    if i == |ps| then ContentScan(Ok([]), cache, pos)
    else
      var c := ContentRule(ps[i], names, content, defaults, eng, rand, cache, pos);
      match c.hit
      case Err(e) => ContentScan(Err(e), c.cache, c.pos)
      case Ok(hit) =>
        if hit && ps[i].stop then ContentScan(Ok([ps[i]]), c.cache, c.pos)
        else
          var rest := MatchContentFrom(ps, i + 1, names, content, defaults, eng, rand, c.cache, c.pos);
          if hit then PrependC([ps[i]], rest) else rest
  }

  /**
    * `MatchFileContent`: `MatchFile` first, whose error is returned as it
    * is; then every rule in order against the names it matched and the
    * content.
    */
  function MatchFileContentSpec(config: Config, filename: string, content: string, eng: RegexEngine,
                                rand: Random, cache: Cache, pos: nat): ContentScan
  {
    var s := MatchFileFrom(config.patterns, 0, filename, eng, cache);
    match s.result
    case Err(e) => ContentScan(Err(e), s.cache, pos)
    case Ok(ms) =>
      MatchContentFrom(config.patterns, 0, Names(ms), content, config.contentDefaults, eng, rand, s.cache, pos)
  }

  lemma PrependCTwice(a: seq<Pattern>, b: seq<Pattern>, s: ContentScan)
    ensures PrependC(a, PrependC(b, s)) == PrependC(a + b, s)
  {
    if s.result.Ok? {
      assert a + (b + s.result.value) == (a + b) + s.result.value;
    }
  }

  lemma PrependCNothing(s: ContentScan)
    ensures PrependC([], s) == s
  {
    if s.result.Ok? {
      assert [] + s.result.value == s.result.value;
    }
  }

  /** Sampling the content for `p` from random value `q` on makes Go panic. */
  predicate SamplePanics(p: Pattern, content: string, defaults: ContentDefaults, rand: Random, q: nat) {
    ContentToScan(content, p, defaults, rand, q).OutOfRange?
  }

  /** The text a rule's content regex is tried on when sampling starts at random value `q`. */
  function Sampled(p: Pattern, content: string, defaults: ContentDefaults, rand: Random, q: nat): string {
    if p.content == "" then ""
    else match ContentToScan(content, p, defaults, rand, q)
      case Sample(text, _) => text
      case OutOfRange => ""
  }

  /**
    * When a rule matches name and content, stated with the rule's own
    * regexes: the reference the cached evaluation is checked against.
    */
  predicate RuleMatches(p: Pattern, names: set<string>, eng: RegexEngine, text: string) {
    if p.filename != "" && p.content != "" then
      p.name in names && eng.compiles(p.content) && eng.matches(p.content, text)
    else if p.filename != "" then p.name in names
    else p.content != "" && eng.compiles(p.content) && eng.matches(p.content, text)
  }

  /** The rule gets as far as sampling the content and compiling its content regex. */
  predicate ContentTried(p: Pattern, names: set<string>) {
    p.content != "" && (p.filename == "" || p.name in names)
  }

  /** The rule's content is tried and its sample panics or its content regex does not compile. */
  predicate Fault(p: Pattern, names: set<string>, content: string, defaults: ContentDefaults, eng: RegexEngine,
                  rand: Random, q: nat) {
    ContentTried(p, names) && (SamplePanics(p, content, defaults, rand, q) || !eng.compiles(p.content))
  }

  /** The error a faulty rule stops the scan with: the panic comes first, before the regex is fetched. */
  function FaultError(p: Pattern, content: string, defaults: ContentDefaults, rand: Random, q: nat): MatchError {
    if SamplePanics(p, content, defaults, rand, q) then SampleOutOfRange(p.name) else BadContentRegex(p.name)
  }

  /**
    * With an agreeing cache and unique names, one rule's cached check fails
    * exactly when its content is tried and the sample panics or the content
    * regex does not compile, and otherwise says whether the rule matches by
    * its own regexes; the cache still agrees afterwards.
    */
  lemma ContentRuleAgrees(ps: seq<Pattern>, i: nat, names: set<string>, content: string, defaults: ContentDefaults,
                          eng: RegexEngine, rand: Random, cache: Cache, pos: nat)
    requires i < |ps| && Agrees(cache, ps, eng) && UniqueNames(ps)
    ensures var c := ContentRule(ps[i], names, content, defaults, eng, rand, cache, pos);
      && Agrees(c.cache, ps, eng)
      && (c.hit.Err? <==> Fault(ps[i], names, content, defaults, eng, rand, pos))
      && (c.hit.Err? ==> c.hit.error == FaultError(ps[i], content, defaults, rand, pos))
      && (c.hit.Ok? ==> c.hit.value == RuleMatches(ps[i], names, eng, Sampled(ps[i], content, defaults, rand, pos)))
  {
    if ContentTried(ps[i], names) {
      AgreedLookup(cache, ps, eng, i, ContentSide);
    }
  }

  /**
    * The random-value position at which a scan from rule `i`, started at
    * `pos`, gets to rule `k`: every rule before `k` moves it on by the
    * random values its sample used.
    */
  function PosAt(ps: seq<Pattern>, i: nat, k: nat, names: set<string>, content: string, defaults: ContentDefaults,
                 eng: RegexEngine, rand: Random, cache: Cache, pos: nat): nat
    requires i <= k <= |ps|
    decreases k - i
  {
    if i == k then pos
    else
      var c := ContentRule(ps[i], names, content, defaults, eng, rand, cache, pos);
      PosAt(ps, i + 1, k, names, content, defaults, eng, rand, c.cache, c.pos)
  }

  /** The scan from `i` gets to a later rule `k` as the scan from `i + 1` does after rule `i`. */
  lemma PosAtStep(ps: seq<Pattern>, i: nat, k: nat, names: set<string>, content: string, defaults: ContentDefaults,
                  eng: RegexEngine, rand: Random, cache: Cache, pos: nat)
    requires i < k <= |ps|
    ensures var c := ContentRule(ps[i], names, content, defaults, eng, rand, cache, pos);
      PosAt(ps, i, k, names, content, defaults, eng, rand, cache, pos)
      == PosAt(ps, i + 1, k, names, content, defaults, eng, rand, c.cache, c.pos)
  {
  }

  /**
    * The positions of the rules a scan from `i` returns, each with the
    * random-value position its content was sampled from.
    */
  function Hits(ps: seq<Pattern>, i: nat, names: set<string>, content: string, defaults: ContentDefaults,
                eng: RegexEngine, rand: Random, cache: Cache, pos: nat): seq<(nat, nat)>
    requires i <= |ps|
    decreases |ps| - i
  {
    if i == |ps| then []
    else
      var c := ContentRule(ps[i], names, content, defaults, eng, rand, cache, pos);
      if c.hit.Err? then []
      else if c.hit.value && ps[i].stop then [(i, pos)]
      else
        var rest := Hits(ps, i + 1, names, content, defaults, eng, rand, c.cache, c.pos);
        if c.hit.value then [(i, pos)] + rest else rest
  }

  /** A scan keeps the cache agreeing with the rules. */
  lemma {:induction false} MatchContentAgrees(ps: seq<Pattern>, i: nat, names: set<string>, content: string,
                                              defaults: ContentDefaults, eng: RegexEngine, rand: Random,
                                              cache: Cache, pos: nat)
    requires i <= |ps| && Agrees(cache, ps, eng) && UniqueNames(ps)
    ensures Agrees(MatchContentFrom(ps, i, names, content, defaults, eng, rand, cache, pos).cache, ps, eng)
    decreases |ps| - i
  {
    if i < |ps| {
      var c := ContentRule(ps[i], names, content, defaults, eng, rand, cache, pos);
      ContentRuleAgrees(ps, i, names, content, defaults, eng, rand, cache, pos);
      if c.hit.Ok? && !(c.hit.value && ps[i].stop) {
        MatchContentAgrees(ps, i + 1, names, content, defaults, eng, rand, c.cache, c.pos);
      }
    }
  }

  /**
    * `h` gives, in configuration order, the positions from `i` on of the
    * rules in `ms`, each matching by its own regexes on the sample taken at
    * its random-value position; no rule but the last is a stop rule.
    */
  predicate SoundHits(ps: seq<Pattern>, i: nat, names: set<string>, content: string, defaults: ContentDefaults,
                      eng: RegexEngine, rand: Random, ms: seq<Pattern>, h: seq<(nat, nat)>)
  {
    && |h| == |ms|
    && (forall t :: 0 <= t < |h| ==>
          && i <= h[t].0 < |ps| && ms[t] == ps[h[t].0]
          && RuleMatches(ps[h[t].0], names, eng, Sampled(ps[h[t].0], content, defaults, rand, h[t].1)))
    && (forall t, u :: 0 <= t < u < |h| ==> h[t].0 < h[u].0)
    && (forall t :: 0 <= t < |h| - 1 ==> !ps[h[t].0].stop)
  }

  /** A matching rule at `i` in front of sound hits from `i + 1` on gives sound hits from `i` on. */
  lemma SoundHitsCons(ps: seq<Pattern>, i: nat, names: set<string>, content: string, defaults: ContentDefaults,
                      eng: RegexEngine, rand: Random, pos: nat, ms: seq<Pattern>, h: seq<(nat, nat)>)
    requires i < |ps|
    requires SoundHits(ps, i + 1, names, content, defaults, eng, rand, ms, h)
    requires RuleMatches(ps[i], names, eng, Sampled(ps[i], content, defaults, rand, pos))
    requires |h| > 0 ==> !ps[i].stop
    ensures SoundHits(ps, i, names, content, defaults, eng, rand, [ps[i]] + ms, [(i, pos)] + h)
  {
    var ms', h' := [ps[i]] + ms, [(i, pos)] + h;
    forall t | 0 < t < |h'| ensures h'[t] == h[t - 1] && ms'[t] == ms[t - 1] {
    }
  }

  /**
    * With an agreeing cache and unique names, a successful scan from rule
    * `i` returns, in configuration order, only rules that match by their
    * own regexes on the sample taken for them, and no rule but the last one
    * returned is a stop rule.
    */
  lemma {:induction false} MatchContentSound(ps: seq<Pattern>, i: nat, names: set<string>, content: string,
                                             defaults: ContentDefaults, eng: RegexEngine, rand: Random,
                                             cache: Cache, pos: nat)
    requires i <= |ps| && Agrees(cache, ps, eng) && UniqueNames(ps)
    ensures var s := MatchContentFrom(ps, i, names, content, defaults, eng, rand, cache, pos);
      s.result.Ok? ==>
        SoundHits(ps, i, names, content, defaults, eng, rand, s.result.value,
                  Hits(ps, i, names, content, defaults, eng, rand, cache, pos))
    decreases |ps| - i
  {
    if i < |ps| {
      var c := ContentRule(ps[i], names, content, defaults, eng, rand, cache, pos);
      ContentRuleAgrees(ps, i, names, content, defaults, eng, rand, cache, pos);
      var s := MatchContentFrom(ps, i, names, content, defaults, eng, rand, cache, pos);
      var h := Hits(ps, i, names, content, defaults, eng, rand, cache, pos);
      if c.hit.Ok? && c.hit.value && ps[i].stop {
        assert h == [(i, pos)] && s.result.value == [ps[i]];
        SoundHitsCons(ps, i, names, content, defaults, eng, rand, pos, [], []);
      } else if c.hit.Ok? {
        var s' := MatchContentFrom(ps, i + 1, names, content, defaults, eng, rand, c.cache, c.pos);
        var h' := Hits(ps, i + 1, names, content, defaults, eng, rand, c.cache, c.pos);
        MatchContentSound(ps, i + 1, names, content, defaults, eng, rand, c.cache, c.pos);
        if c.hit.value && s'.result.Ok? {
          assert s.result.value == [ps[i]] + s'.result.value && h == [(i, pos)] + h';
          SoundHitsCons(ps, i, names, content, defaults, eng, rand, pos, s'.result.value, h');
        } else if s'.result.Ok? {
          assert s == s' && h == h';
          assert SoundHits(ps, i + 1, names, content, defaults, eng, rand, s.result.value, h);
        }
      }
    }
  }

  /** Each entry of `h` is a rule from `i` on with the position the scan from `i` has when it gets there. */
  predicate SampledAt(ps: seq<Pattern>, i: nat, h: seq<(nat, nat)>, names: set<string>, content: string,
                      defaults: ContentDefaults, eng: RegexEngine, rand: Random, cache: Cache, pos: nat)
  {
    forall t :: 0 <= t < |h| ==>
      i <= h[t].0 < |ps| && h[t].1 == PosAt(ps, i, h[t].0, names, content, defaults, eng, rand, cache, pos)
  }

  /**
    * Each rule a scan from `i` returns was sampled at the position the scan
    * had when it got to that rule.
    */
  lemma {:induction false} HitsPositions(ps: seq<Pattern>, i: nat, names: set<string>, content: string,
                                         defaults: ContentDefaults, eng: RegexEngine, rand: Random,
                                         cache: Cache, pos: nat)
    requires i <= |ps|
    ensures SampledAt(ps, i, Hits(ps, i, names, content, defaults, eng, rand, cache, pos),
                      names, content, defaults, eng, rand, cache, pos)
    decreases |ps| - i
  {
    if i < |ps| {
      var c := ContentRule(ps[i], names, content, defaults, eng, rand, cache, pos);
      var h := Hits(ps, i, names, content, defaults, eng, rand, cache, pos);
      if c.hit.Ok? && !(c.hit.value && ps[i].stop) {
        var rest := Hits(ps, i + 1, names, content, defaults, eng, rand, c.cache, c.pos);
        HitsPositions(ps, i + 1, names, content, defaults, eng, rand, c.cache, c.pos);
        forall t | 0 <= t < |rest|
          ensures PosAt(ps, i, rest[t].0, names, content, defaults, eng, rand, cache, pos) == rest[t].1
        {
          PosAtStep(ps, i, rest[t].0, names, content, defaults, eng, rand, cache, pos);
        }
        if c.hit.value {
          assert h == [(i, pos)] + rest;
          forall t | 0 < t < |h| ensures h[t] == rest[t - 1] {
          }
        }
      }
    }
  }

  /** No rule listed in `h` before position `k` is a stop rule: the scan reaches rule `k`. */
  predicate NoStopBefore(ps: seq<Pattern>, h: seq<(nat, nat)>, k: nat) {
    forall t :: 0 <= t < |h| && h[t].0 < k && h[t].0 < |ps| ==> !ps[h[t].0].stop
  }

  /**
    * With an agreeing cache and unique names, a successful scan from rule
    * `i` returns every rule it reaches (no stop rule returned before it)
    * that matches by its own regexes on the sample drawn at the position
    * the scan has when it gets there.
    */
  lemma {:induction false} MatchContentComplete(ps: seq<Pattern>, i: nat, names: set<string>, content: string,
                                                defaults: ContentDefaults, eng: RegexEngine, rand: Random,
                                                cache: Cache, pos: nat, k: nat)
    requires i <= k < |ps| && Agrees(cache, ps, eng) && UniqueNames(ps)
    requires MatchContentFrom(ps, i, names, content, defaults, eng, rand, cache, pos).result.Ok?
    requires NoStopBefore(ps, Hits(ps, i, names, content, defaults, eng, rand, cache, pos), k)
    requires RuleMatches(ps[k], names, eng,
                         Sampled(ps[k], content, defaults, rand, PosAt(ps, i, k, names, content, defaults, eng, rand, cache, pos)))
    ensures (k, PosAt(ps, i, k, names, content, defaults, eng, rand, cache, pos))
      in Hits(ps, i, names, content, defaults, eng, rand, cache, pos)
    decreases |ps| - i
  {
    var c := ContentRule(ps[i], names, content, defaults, eng, rand, cache, pos);
    ContentRuleAgrees(ps, i, names, content, defaults, eng, rand, cache, pos);
    var h := Hits(ps, i, names, content, defaults, eng, rand, cache, pos);
    if k == i {
      assert h[0] == (i, pos);
    } else {
      var rest := Hits(ps, i + 1, names, content, defaults, eng, rand, c.cache, c.pos);
      if c.hit.value {
        assert h[0].0 == i < k;
        assert h == [(i, pos)] + rest;
        NoStopTail(ps, (i, pos), rest, k);
      } else {
        assert h == rest;
      }
      MatchContentComplete(ps, i + 1, names, content, defaults, eng, rand, c.cache, c.pos, k);
    }
  }

  /** Listing one more rule in front keeps the stop rules before `k`. */
  lemma NoStopTail(ps: seq<Pattern>, x: (nat, nat), rest: seq<(nat, nat)>, k: nat)
    requires NoStopBefore(ps, [x] + rest, k)
    ensures NoStopBefore(ps, rest, k)
  {
    var h := [x] + rest;
    forall t | 0 <= t < |rest| ensures rest[t] == h[t + 1] {
    }
  }

  /**
    * Only the smart strategy depends on the random values: any other rule
    * is sampled alike, and panics alike, from whatever position and with
    * whatever generator.
    */
  lemma NonSmartIgnoresRandom(p: Pattern, content: string, defaults: ContentDefaults,
                              rand: Random, rand': Random, q: nat, q': nat)
    requires StrategyOf(p, defaults) != Smart
    ensures Sampled(p, content, defaults, rand, q) == Sampled(p, content, defaults, rand', q')
    ensures SamplePanics(p, content, defaults, rand, q) == SamplePanics(p, content, defaults, rand', q')
    ensures ContentToScan(content, p, defaults, rand, q).Sample? ==> ContentToScan(content, p, defaults, rand, q).pos == q
  {
  }

  /** Rule `k` is the first rule from `i` on that faults at the position the scan has when it gets there. */
  predicate FirstFault(ps: seq<Pattern>, i: nat, k: nat, names: set<string>, content: string, defaults: ContentDefaults,
                       eng: RegexEngine, rand: Random, cache: Cache, pos: nat)
  {
    && i <= k < |ps|
    && Fault(ps[k], names, content, defaults, eng, rand, PosAt(ps, i, k, names, content, defaults, eng, rand, cache, pos))
    && forall j :: i <= j < k ==>
         !Fault(ps[j], names, content, defaults, eng, rand, PosAt(ps, i, j, names, content, defaults, eng, rand, cache, pos))
  }

  /**
    * `MatchFileContent` from rule `i` fails only on the first rule whose
    * sample panics or whose content regex does not compile, at the
    * position the scan has when it gets there, and it reports that rule's
    * fault; it succeeds when no rule faults.
    */
  lemma {:induction false} MatchContentFails(ps: seq<Pattern>, i: nat, names: set<string>, content: string,
                                             defaults: ContentDefaults, eng: RegexEngine, rand: Random,
                                             cache: Cache, pos: nat)
    requires i <= |ps| && Agrees(cache, ps, eng) && UniqueNames(ps)
    ensures var s := MatchContentFrom(ps, i, names, content, defaults, eng, rand, cache, pos);
      s.result.Err? ==>
        exists k: nat ::
          && FirstFault(ps, i, k, names, content, defaults, eng, rand, cache, pos)
          && s.result.error
             == FaultError(ps[k], content, defaults, rand, PosAt(ps, i, k, names, content, defaults, eng, rand, cache, pos))
    ensures (forall k :: i <= k < |ps| ==>
               !Fault(ps[k], names, content, defaults, eng, rand, PosAt(ps, i, k, names, content, defaults, eng, rand, cache, pos)))
      ==> MatchContentFrom(ps, i, names, content, defaults, eng, rand, cache, pos).result.Ok?
    decreases |ps| - i
  {
    if i < |ps| {
      var c := ContentRule(ps[i], names, content, defaults, eng, rand, cache, pos);
      ContentRuleAgrees(ps, i, names, content, defaults, eng, rand, cache, pos);
      if c.hit.Err? {
        assert FirstFault(ps, i, i, names, content, defaults, eng, rand, cache, pos);
      } else if !(c.hit.value && ps[i].stop) {
        MatchContentFails(ps, i + 1, names, content, defaults, eng, rand, c.cache, c.pos);
        forall j | i < j <= |ps|
          ensures PosAt(ps, i, j, names, content, defaults, eng, rand, cache, pos)
            == PosAt(ps, i + 1, j, names, content, defaults, eng, rand, c.cache, c.pos)
        {
          PosAtStep(ps, i, j, names, content, defaults, eng, rand, cache, pos);
        }
        forall k: nat | FirstFault(ps, i + 1, k, names, content, defaults, eng, rand, c.cache, c.pos)
          ensures FirstFault(ps, i, k, names, content, defaults, eng, rand, cache, pos)
        {
        }
      }
    }
  }

  /** The first stop rule whose file name matches, at or before `j`, which `MatchFile` reaches. */
  lemma FirstFileStop(ps: seq<Pattern>, filename: string, eng: RegexEngine, j: nat) returns (m: nat)
    requires j < |ps| && FileHit(ps[j], filename, eng) && ps[j].stop
    ensures m <= j && FileHit(ps[m], filename, eng) && ps[m].stop && FileReached(ps, 0, m, filename, eng)
    decreases j
  {
    if FileReached(ps, 0, j, filename, eng) {
      m := j;
    } else {
      var j' :| 0 <= j' < j && FileHit(ps[j'], filename, eng) && ps[j'].stop;
      m := FirstFileStop(ps, filename, eng, j');
    }
  }

  /**
    * In `MatchFileContent`, a rule placed after a stop rule whose file name
    * matches can match only if it has no file-name regex: `MatchFile` never
    * got to it, so its name is not among the file-name matches, even when
    * the stop rule itself then fails on content.
    */
  lemma AfterFileStop(ps: seq<Pattern>, filename: string, eng: RegexEngine, cache: Cache, j: nat, k: nat, text: string)
    requires Agrees(cache, ps, eng) && UniqueNames(ps) && j < k < |ps|
    requires FileHit(ps[j], filename, eng) && ps[j].stop
    requires MatchFileFrom(ps, 0, filename, eng, cache).result.Ok?
    ensures RuleMatches(ps[k], Names(MatchFileFrom(ps, 0, filename, eng, cache).result.value), eng, text) ==>
      ps[k].filename == ""
  {
    var ms := MatchFileFrom(ps, 0, filename, eng, cache).result.value;
    var idx := MatchFileExact(ps, 0, filename, eng, cache);
    var m := FirstFileStop(ps, filename, eng, j);
    StopEndsHits(ps, filename, eng, ms, idx, m);
    NameNotReturned(ps, ms, idx, k);
  }

  /** When the scan reaches a matching stop rule at `m`, every rule it returns is at or before `m`. */
  lemma StopEndsHits(ps: seq<Pattern>, filename: string, eng: RegexEngine, ms: seq<Pattern>, idx: seq<nat>, m: nat)
    requires m < |ps| && FileHits(ps, 0, filename, eng, ms, idx)
    requires FileReached(ps, 0, m, filename, eng) && FileHit(ps[m], filename, eng) && ps[m].stop
    ensures forall t :: 0 <= t < |idx| ==> idx[t] <= m
  {
    assert m in idx;
    var t0 :| 0 <= t0 < |idx| && idx[t0] == m;
    assert t0 == |idx| - 1;
    forall t | 0 <= t < |idx| ensures idx[t] <= m {
    }
  }

  /** Rules returned from positions before `k` do not carry rule `k`'s name, names being unique. */
  lemma NameNotReturned(ps: seq<Pattern>, ms: seq<Pattern>, idx: seq<nat>, k: nat)
    requires UniqueNames(ps) && k < |ps| && |idx| == |ms|
    requires forall t :: 0 <= t < |idx| ==> idx[t] < k && ms[t] == ps[idx[t]]
    ensures ps[k].name !in Names(ms)
  {
    forall x | x in ms ensures x.name != ps[k].name {
      var t :| 0 <= t < |ms| && ms[t] == x;
      assert idx[t] < k;
    }
  }

  // ---------------------------------------------------------------------------
  // GetMatchedGuides
  // ---------------------------------------------------------------------------

  /** A rule's guides: its diff guides when reviewing a diff and it has some, else its context guides. */
  function GuidesOf(p: Pattern, isDiff: bool): seq<string> {
    if isDiff && |p.diffContext| > 0 then p.diffContext else p.context
  }

  /** Every rule's guides, one rule after another. */
  function AllGuides(ps: seq<Pattern>, isDiff: bool): seq<string> {
    if |ps| == 0 then [] else AllGuides(ps[..|ps| - 1], isDiff) + GuidesOf(ps[|ps| - 1], isDiff)
  }

  /** Each name at its first appearance only. */
  function Dedup(xs: seq<string>): seq<string> {
    if |xs| == 0 then []
    else
      var d := Dedup(xs[..|xs| - 1]);
      if xs[|xs| - 1] in d then d else d + [xs[|xs| - 1]]
  }

  /** The position of the first appearance of `x`. */
  function FirstIndex(xs: seq<string>, x: string): (k: nat)
    requires x in xs
    ensures k < |xs| && xs[k] == x
  {
    if x in xs[..|xs| - 1] then FirstIndex(xs[..|xs| - 1], x) else |xs| - 1
  }

  lemma DedupSnoc(xs: seq<string>, x: string)
    ensures Dedup(xs + [x]) == if x in Dedup(xs) then Dedup(xs) else Dedup(xs) + [x]
  {
    assert (xs + [x])[..|xs|] == xs;
  }

  lemma AllGuidesSnoc(ps: seq<Pattern>, i: nat, isDiff: bool)
    requires i < |ps|
    ensures AllGuides(ps[..i + 1], isDiff) == AllGuides(ps[..i], isDiff) + GuidesOf(ps[i], isDiff)
  {
    PrefixSnoc(ps, i);
  }

  predicate NoDuplicates(xs: seq<string>) {
    forall i, j :: 0 <= i < j < |xs| ==> xs[i] != xs[j]
  }

  /**
    * De-duplication keeps every name once and nothing else, in the order of
    * first appearance.
    */
  lemma {:induction false} DedupMeaning(xs: seq<string>)
    ensures NoDuplicates(Dedup(xs))
    ensures forall x :: x in Dedup(xs) <==> x in xs
    ensures forall a, b :: 0 <= a < b < |Dedup(xs)| ==> FirstIndex(xs, Dedup(xs)[a]) < FirstIndex(xs, Dedup(xs)[b])
  {
    if |xs| > 0 {
      var init := xs[..|xs| - 1];
      var x := xs[|xs| - 1];
      DedupMeaning(init);
      assert xs == init + [x];
      forall y | y in init ensures FirstIndex(xs, y) == FirstIndex(init, y) {
      }
    }
  }

  lemma {:induction false} AllGuidesMembers(ps: seq<Pattern>, isDiff: bool)
    ensures forall g :: g in AllGuides(ps, isDiff) <==> exists i :: 0 <= i < |ps| && g in GuidesOf(ps[i], isDiff)
  {
    if |ps| > 0 {
      var init := ps[..|ps| - 1];
      AllGuidesMembers(init, isDiff);
      forall g ensures g in AllGuides(ps, isDiff) <==> exists i :: 0 <= i < |ps| && g in GuidesOf(ps[i], isDiff) {
        if g in AllGuides(init, isDiff) {
          var i :| 0 <= i < |init| && g in GuidesOf(init[i], isDiff);
          assert ps[i] == init[i];
        }
        if exists i :: 0 <= i < |ps| && g in GuidesOf(ps[i], isDiff) {
          var i :| 0 <= i < |ps| && g in GuidesOf(ps[i], isDiff);
          if i < |init| {
            assert init[i] == ps[i];
          }
        }
      }
    }
  }

  /**
    * `GetMatchedGuides` returns each guide of a matched rule exactly once,
    * in the order in which the rules, taken in order, first name it.
    */
  lemma MatchedGuidesMeaning(ps: seq<Pattern>, isDiff: bool)
    ensures var gs := Dedup(AllGuides(ps, isDiff));
      && NoDuplicates(gs)
      && (forall g :: g in gs <==> g in AllGuides(ps, isDiff))
      && (forall g :: g in gs <==> exists i :: 0 <= i < |ps| && g in GuidesOf(ps[i], isDiff))
      && (forall a, b :: 0 <= a < b < |gs| ==>
            FirstIndex(AllGuides(ps, isDiff), gs[a]) < FirstIndex(AllGuides(ps, isDiff), gs[b]))
  {
    DedupMeaning(AllGuides(ps, isDiff));
    AllGuidesMembers(ps, isDiff);
  }

  // ---------------------------------------------------------------------------
  // The Matcher object
  // ---------------------------------------------------------------------------

  class Matcher {
    const config: Config
    const engine: RegexEngine
    var cache: Cache

    /** `NewMatcher`: an empty cache. */
    constructor (config: Config, engine: RegexEngine)
      ensures this.config == config && this.engine == engine && cache == map[]
    {
      this.config := config;
      this.engine := engine;
      cache := map[];
    }

    method GetRegex(key: string, pattern: string) returns (r: Option<Regex>)
      modifies this
      ensures Lookup(r, cache) == CachedCompile(old(cache), engine, key, pattern)
    {
      if key in cache {
        return Some(cache[key]);
      }
      if !engine.compiles(pattern) {
        return None;
      }
      var rx := Regex(pattern);
      cache := cache[key := rx];
      return Some(rx);
    }

    method MatchFile(filename: string) returns (r: Result<seq<Pattern>, MatchError>)
      modifies this
      ensures FileScan(r, cache) == MatchFileFrom(config.patterns, 0, filename, engine, old(cache))
    {
      var ps := config.patterns;
      var matched: seq<Pattern> := [];
      PrependNothing(MatchFileFrom(ps, 0, filename, engine, cache));
      var j := 0;
      while j < |ps|
        invariant 0 <= j <= |ps|
        invariant Prepend(matched, MatchFileFrom(ps, j, filename, engine, cache))
          == MatchFileFrom(ps, 0, filename, engine, old(cache))
      {
        var p := ps[j];
        if p.filename != "" {
          var rx := GetRegex(KeyOf(p, FilenameSide), p.filename);
          if rx.None? {
            return Err(BadFilenameRegex(p.name));
          }
          if engine.matches(rx.value.source, filename) {
            PrependTwice(matched, [p], MatchFileFrom(ps, j + 1, filename, engine, cache));
            matched := matched + [p];
            if p.stop {
              break;
            }
          }
        }
        j := j + 1;
      }
      assert matched + [] == matched;
      r := Ok(matched);
    }

    method GetContentToScan(content: string, p: Pattern, rand: Random, pos: nat) returns (s: Sample)
      ensures s == ContentToScan(content, p, config.contentDefaults, rand, pos)
    {
      var strategy := p.contentStrategy;
      if strategy == "" {
        strategy := config.contentDefaults.strategy;
      }
      var lines := Split(content, "\n");
      var total := |lines|;
      if strategy == FullFile {
        return Sample(content, pos);
      } else if strategy == Smart {
        var f, l, r := 100, 100, 100;
        if |p.contentLines| == 3 {
          f, l, r := p.contentLines[0], p.contentLines[1], p.contentLines[2];
        }
        var selected, drawn, inRange := SmartSample(lines, f, l, r, rand, pos);
        if !inRange {
          return OutOfRange;
        }
        return Sample(Join(selected, "\n"), drawn);
      } else {
        var n := config.contentDefaults.lines;
        if p.contentStrategy == FirstLines && |p.contentLines| > 0 {
          n := p.contentLines[0];
        }
        if n > total {
          return Sample(content, pos);
        }
        if n < 0 {
          return OutOfRange;
        }
        return Sample(Join(lines[..n], "\n"), pos);
      }
    }

    /** The content half of a rule: sample the content, then get and try the content regex. */
    method TestContent(p: Pattern, content: string, rand: Random, pos: nat)
      returns (hit: Result<bool, MatchError>, drawn: nat)
      modifies this
      ensures ContentCheck(hit, cache, drawn)
        == ContentTest(p, content, config.contentDefaults, engine, rand, old(cache), pos)
    {
      var sm := GetContentToScan(content, p, rand, pos);
      if sm.OutOfRange? {
        return Err(SampleOutOfRange(p.name)), pos;
      }
      var rx := GetRegex(KeyOf(p, ContentSide), p.content);
      if rx.None? {
        return Err(BadContentRegex(p.name)), sm.pos;
      }
      return Ok(engine.matches(rx.value.source, sm.text)), sm.pos;
    }

    /** The names of the file-name matches, gathered one by one. */
    method NameSet(ms: seq<Pattern>) returns (names: set<string>)
      ensures names == Names(ms)
    {
      names := {};
      for k := 0 to |ms|
        invariant names == Names(ms[..k])
      {
        PrefixSnoc(ms, k);
        names := names + {ms[k].name};
      }
      PrefixAll(ms);
    }

    /**
      * `MatchFileContent`: the random values used are counted from `pos`,
      * and `drawn` is the position after the last one used.
      */
    method MatchFileContent(filename: string, content: string, rand: Random, pos: nat)
      returns (r: Result<seq<Pattern>, MatchError>, drawn: nat)
      modifies this
      ensures ContentScan(r, cache, drawn)
        == MatchFileContentSpec(config, filename, content, engine, rand, old(cache), pos)
    {
      var fm := MatchFile(filename);
      if fm.Err? {
        return Err(fm.error), pos;
      }
      var names := NameSet(fm.value);
      r, drawn := MatchContentRules(names, content, rand, pos);
    }

    /**
      * `MatchFileContent`'s second loop: the rules tried in order against
      * the file-name matches `names` and the content, until one fails to
      * compile or a matching rule says stop.
      */
    method MatchContentRules(names: set<string>, content: string, rand: Random, pos: nat)
      returns (r: Result<seq<Pattern>, MatchError>, drawn: nat)
      modifies this
      ensures ContentScan(r, cache, drawn)
        == MatchContentFrom(config.patterns, 0, names, content, config.contentDefaults, engine, rand, old(cache), pos)
    {
      var ps := config.patterns;
      var defaults := config.contentDefaults;
      var matched: seq<Pattern> := [];
      drawn := pos;
      PrependCNothing(MatchContentFrom(ps, 0, names, content, defaults, engine, rand, cache, pos));
      var j := 0;
      while j < |ps|
        invariant 0 <= j <= |ps|
        invariant PrependC(matched, MatchContentFrom(ps, j, names, content, defaults, engine, rand, cache, drawn))
          == MatchContentFrom(ps, 0, names, content, defaults, engine, rand, old(cache), pos)
      {
        var p := ps[j];
        var hit;
        hit, drawn := CheckRule(p, names, content, rand, drawn);
        if hit.Err? {
          return Err(hit.error), drawn;
        }
        var isMatch := hit.value;
        if isMatch {
          PrependCTwice(matched, [p], MatchContentFrom(ps, j + 1, names, content, defaults, engine, rand, cache, drawn));
          matched := matched + [p];
          if p.stop {
            break;
          }
        }
        j := j + 1;
      }
      assert matched + [] == matched;
      r := Ok(matched);
    }

    /**
      * The body of `MatchFileContent`'s loop for one rule: a rule with both
      * regexes needs its name among the file-name matches and its content
      * regex to match, a file-name rule its name there, a content rule its
      * content regex to match.
      */
    method CheckRule(p: Pattern, names: set<string>, content: string, rand: Random, pos: nat)
      returns (hit: Result<bool, MatchError>, drawn: nat)
      modifies this
      ensures ContentCheck(hit, cache, drawn)
        == ContentRule(p, names, content, config.contentDefaults, engine, rand, old(cache), pos)
    {
      hit, drawn := Ok(false), pos;
      if p.filename != "" && p.content != "" {
        if p.name in names {
          hit, drawn := TestContent(p, content, rand, pos);
        }
      } else if p.filename != "" && p.content == "" {
        hit := Ok(p.name in names);
      } else if p.filename == "" && p.content != "" {
        hit, drawn := TestContent(p, content, rand, pos);
      }
    }

    method GetMatchedGuides(patterns: seq<Pattern>, isDiff: bool) returns (guides: seq<string>)
      ensures guides == Dedup(AllGuides(patterns, isDiff))
    {
      var seen: set<string> := {};
      guides := [];
      for i := 0 to |patterns|
        invariant guides == Dedup(AllGuides(patterns[..i], isDiff))
        invariant forall g :: g in seen <==> g in guides
      {
        var patternGuides: seq<string>;
        if isDiff && |patterns[i].diffContext| > 0 {
          patternGuides := patterns[i].diffContext;
        } else {
          patternGuides := patterns[i].context;
        }
        guides, seen := AddNewGuides(guides, seen, AllGuides(patterns[..i], isDiff), patternGuides);
        AllGuidesSnoc(patterns, i, isDiff);
      }
      PrefixAll(patterns);
    }

    /**
      * The inner loop of `GetMatchedGuides`: the guides of one rule appended
      * to the list, each unless the set of those already listed has it.
      */
    method AddNewGuides(guides0: seq<string>, seen0: set<string>, ghost before: seq<string>, gs: seq<string>)
      returns (guides: seq<string>, seen: set<string>)
      requires guides0 == Dedup(before)
      requires forall g :: g in seen0 <==> g in guides0
      ensures guides == Dedup(before + gs)
      ensures forall g :: g in seen <==> g in guides
    {
      guides, seen := guides0, seen0;
      assert before + gs[..0] == before;
      for k := 0 to |gs|
        invariant guides == Dedup(before + gs[..k])
        invariant forall g :: g in seen <==> g in guides
      {
        var g := gs[k];
        ConcatPrefixSnoc(before, gs, k);
        DedupSnoc(before + gs[..k], g);
        if g !in seen {
          seen := seen + {g};
          guides := guides + [g];
        }
      }
      PrefixAll(gs);
    }
  }
}
