# miso's review core in Dafny

miso is a code-review tool. For each file it looks up review guides to hand to a language model. It also parses `git diff` output into hunks of numbered lines. This project models the deterministic core of that tool and proves what each part promises.

- **Diff parser** (`diff_parser.dfy`, module `DiffParser`):
  - `ParseDiff`, a single pass over the lines of a unified diff that keeps an open hunk and two running line counters;
  - the hunk header grammar `@@ -a[,b] +c[,d] @@` (`parseHunkHeader`, `parseRange`);
  - the three line getters;
  - `FormatForReview`.

  The loops are methods proved against the functions `Parse`, `OfKind` and `Review`.
- **Pattern matcher** (`matcher.dfy`, module `Matcher`):
  - a `Matcher` class whose regex cache (`compiledRegexes`) is a field that `GetRegex` updates in place;
  - `MatchFile` and `MatchFileContent`, which walk the ordered rules until a matching `stop` rule;
  - the three content sampling strategies of `getContentToScan` (first_lines, full_file, smart);
  - `GetMatchedGuides`, which merges guide names keeping the first appearance of each.

  Regular expressions are an engine value with two predicates, `compiles` and `matches`. The random generator is a function from call number to value.
- **Guide resolver** (`resolver.dfy`, module `Resolver`): `GetGuides`, `GetDiffGuides`, `ShouldReview` and their two searches. The file read is an input: its text, or a read error.
- **Configuration** (`config.dfy`, module `Config`):
  - the records;
  - `DefaultConfig`;
  - `validate`, which returns the first failure;
  - `LoadFile` and `Load`, with the file system and YAML decoder as an oracle.
- **Small helpers**:
  - `ParseGitRange` (`git_range.dfy`);
  - the suffix router with `filepath.Base` (`router.dfy`);
  - the command-line helpers of `cmd/main/main.go` (`cli.dfy`): `isValidSHA`, `validate`, `buildSuggestionBody`, `formatSuggestionsToMarkdown`, the command line's own `getContentToScan`, `validatePatterns` and the `diff` command's argument resolution.
- **Go's standard functions** the core relies on:
  - `text.dfy` models `strings.Index`, `Split`, `Join`, `TrimSpace`, `TrimPrefix`, `HasPrefix`, `HasSuffix` and `ReplaceAll`;
  - `decimal.dfy` models `strconv.Itoa` and `strconv.Atoi`, with the 64-bit range;
  - `wrappers.dfy` defines `Option` and `Result`.

Where the code and its comments disagree, the model follows the code. The comment on `ShouldReview` (internal/resolver/resolver.go:77) says it is true when the file matches any pattern. The code asks for at least one context guide instead, so a file matched only by rules that have diff guides and no context guides is not reviewed (`DiffOnlyMatchNotReviewed`).

## Model

| member | source | states |
|---|---|---|
| DiffParser.ParseDiff | internal/git/diff_parser.go:53-144 | the loop over the lines, with the open hunk and both counters in local variables, returns exactly `Parse`: the hunks, the file fields, or the first header error |
| DiffParser.ParseLine | internal/git/diff_parser.go:65-135 | one iteration of the loop. A `--- ` or `+++ ` line sets the file fields. A header line closes the open hunk and opens a new one. A body line is added. Anything else is skipped |
| DiffParser.AddBodyLine | internal/git/diff_parser.go:106-134 | a `+`, `-`, space or backslash line inside a hunk is appended with its numbers, and the counters move past it; any other first character adds nothing |
| DiffParser.ParseHunkHeaderRoundTrip | internal/git/diff_parser.go:147-213 | `@@ -a,b +c,d @@` followed by anything parses to exactly a, b, c, d, for every 64-bit a, b, c, d. The hunk keeps the untrimmed line as its header and starts with no lines |
| DiffParser.HeaderWith | internal/git/diff_parser.go:147-190 | a header built from two space-free ranges parses to the numbers `parseRange` gives for each range |
| DiffParser.ParseRangeFull | internal/git/diff_parser.go:193-213 | "start,count" parses back to both numbers |
| DiffParser.ParseRangeStartOnly | internal/git/diff_parser.go:198-212 | a range without a comma has count 1 |
| DiffParser.HunkHeaderInRange | internal/git/diff_parser.go:172-180 | the four numbers of a parsed header fit in Go's `int` |
| DiffParser.HeaderLineErrors | internal/git/diff_parser.go:151-167 | a line starting with "@@" that fails to parse fails in its range part, never on the markers |
| DiffParser.ParseErrorKinds | internal/git/diff_parser.go:89-97 | a failing `ParseDiff` reports a range-format or number error, never the two marker errors |
| DiffParser.ParseFailsIff | internal/git/diff_parser.go:89-103 | `ParseDiff` fails iff some "@@" line is not a valid header, and it then returns the error of the first such line |
| DiffParser.ParseNumbersLines | internal/git/diff_parser.go:99-134 | on success, every hunk's four numbers come from its header and its lines are numbered consecutively from the header's starts. `FilePath` is the argument and `IsRenamed` is never set |
| DiffParser.NumberedHunkAt | internal/git/diff_parser.go:107-128 | line k of a hunk carries, on each side it occupies, the hunk's start plus the number of earlier lines on that side. A Context line carries both numbers. A backslash line carries neither and keeps its whole text |
| DiffParser.NumbersIncrease | internal/git/diff_parser.go:112-125 | within a hunk, the new-side numbers of Added and Context lines strictly increase; likewise the old-side numbers of Removed and Context lines |
| DiffParser.ParseSegments | internal/git/diff_parser.go:65-141 | one hunk per "@@" line, in input order. Each hunk holds exactly the entries of the lines up to the next header: first character dropped, backslash lines whole. File headers, empty lines, unknown lines and lines before the first header add nothing |
| DiffParser.ParseWithoutHeaders | internal/git/diff_parser.go:56-59 | input with no "@@" line parses without error to no hunks, with `FilePath` the argument |
| DiffParser.ParseEmpty | internal/git/diff_parser.go:53-69 | the empty diff parses to no hunks, with nothing set but the path |
| DiffParser.ParseOldFile | internal/git/diff_parser.go:72-78 | `OldFilePath` is the text after "--- " on the last such line, even inside a hunk. `IsNew` holds iff one such line is "--- /dev/null" |
| DiffParser.ParseNewFile | internal/git/diff_parser.go:80-86 | `NewFilePath` is the text after "+++ " on the last such line, even inside a hunk. `IsDeleted` holds iff one such line is "+++ /dev/null" |
| DiffParser.GetAddedLines | internal/git/diff_parser.go:217-227 | the Added lines of all hunks, in order |
| DiffParser.GetRemovedLines | internal/git/diff_parser.go:231-241 | the Removed lines of all hunks, in order |
| DiffParser.GetContextLines | internal/git/diff_parser.go:245-255 | the Context lines of all hunks, in order |
| DiffParser.CollectHunkLines | internal/git/diff_parser.go:220-224 | the inner loop appends exactly one hunk's lines of the kind asked for |
| DiffParser.OfKindOnly | internal/git/diff_parser.go:221-223 | every line a getter returns has the getter's type |
| DiffParser.OfKindMembers | internal/git/diff_parser.go:217-227 | a line is returned iff it is a line of the diff and has the type |
| DiffParser.OfKindByHunk | internal/git/diff_parser.go:219-225 | a getter's result is the first hunk's lines of that type, then the second hunk's, and so on |
| DiffParser.OfKindLengths | internal/git/diff_parser.go:217-255 | Added, Removed, Context and backslash lines share out every line, each line counted once |
| DiffParser.FormatForReview | internal/git/diff_parser.go:259-295 | the text written into the builder is exactly `Review(d)` |
| DiffParser.WriteHeader | internal/git/diff_parser.go:262-272 | the file line, then at most one status line (new, else deleted, else renamed), then "Changes:" |
| DiffParser.WriteHunks | internal/git/diff_parser.go:274-292 | the loop over the hunks appends each hunk's text in order |
| DiffParser.WriteHunk | internal/git/diff_parser.go:275-291 | one hunk: a blank line, its title, then its lines |
| DiffParser.WriteTitle | internal/git/diff_parser.go:275-280 | the title is `@@ -o,oc +n,nc @@`, followed by " " and the header when the header is not empty |
| DiffParser.WriteLines | internal/git/diff_parser.go:282-291 | `+`, `-` and space lines are written with their sign; backslash lines are left out |
| DiffParser.ReviewStart | internal/git/diff_parser.go:262-270 | the review begins with `File: <path>` and the status line, which is empty iff the diff is not new, deleted or renamed |
| DiffParser.ReviewEchoesInput | internal/git/diff_parser.go:282-291 | the review shows each parsed hunk's `+`, `-` and space lines exactly as the input had them, in order, and nothing else |
| DiffParser.ReviewTitleParses | internal/git/diff_parser.go:275-276 | the title printed for a parsed hunk is itself a header that parses back to the hunk's four numbers |
| Decimal.AtoiItoa | internal/git/diff_parser.go:199-209 | `strconv.Atoi` of what `%d` prints gives the number back, for every 64-bit integer |
| Matcher.Matcher.constructor | internal/matcher/matcher.go:23-28 | `NewMatcher` keeps the configuration and starts with an empty cache |
| Matcher.Matcher.GetRegex | internal/matcher/matcher.go:231-243 | the cached regex for the key; otherwise the pattern is compiled and cached; a failure leaves the cache unchanged |
| Matcher.CacheSticky | internal/matcher/matcher.go:231-243 | after a successful lookup the key is cached, and every later lookup of it returns that regex whatever pattern it is given. A failed lookup changes nothing, and existing entries are kept |
| Matcher.KeysDistinct | internal/matcher/matcher.go:38 | two cache keys coincide only for the same rule name and the same side |
| Matcher.Matcher.MatchFile | internal/matcher/matcher.go:32-56 | the loop returns exactly `MatchFileFrom` over all rules and leaves its cache in the matcher |
| Matcher.MatchFileExact | internal/matcher/matcher.go:32-56 | a successful `MatchFile` returns, in configuration order, exactly the rules it reaches whose file-name regex matches. No rule but the last one returned is a stop rule, and content-only rules never appear |
| Matcher.MatchFileFails | internal/matcher/matcher.go:37-51 | `MatchFile` fails iff it reaches a rule whose file-name regex does not compile. The error names the first such rule; rules after a matched stop rule are never compiled |
| Matcher.MatchFileAgrees | internal/matcher/matcher.go:32-56 | `MatchFile` keeps the cache consistent with the rules |
| Matcher.MatchFileCacheIndependent | internal/matcher/matcher.go:66 | with a consistent cache, a second `MatchFile` (as `MatchFileContent` runs one) gives the first one's result |
| Matcher.SharedNameSharesRegex | internal/matcher/matcher.go:38 | two rules sharing a name share the cached file-name regex: the second one's own pattern is never compiled |
| Matcher.Matcher.GetContentToScan | internal/matcher/matcher.go:131-201 | for every rule, and every count whose sums and differences stay within int64, the sample and the random values used are exactly `ContentToScan`, and `OutOfRange` exactly where Go's smart loops index outside the lines or first_lines slices with a negative count |
| Matcher.FullFileWhole | internal/matcher/matcher.go:142-144 | full_file scans the whole content and draws no random value |
| Matcher.FirstLinesPrefix | internal/matcher/matcher.go:188-199 | first_lines, and every unknown strategy, scans a prefix of the content. That is the whole content when N reaches the piece count, and exactly the first N pieces when 1 <= N is below it. No random value is drawn. The sample is out of range iff N is negative |
| Matcher.InheritedIgnoresCounts | internal/matcher/matcher.go:189-192 | a rule that inherits first_lines from the defaults ignores its own line counts |
| Matcher.UnknownIsFirstLines | internal/matcher/matcher.go:188-192 | an unknown strategy name samples like first_lines with the default count |
| Matcher.SmartShape | internal/matcher/matcher.go:146-186 | smart picks lines [0, min(f, total)), then [max(total - l, f), total), then exactly r random lines from [f, total - l) when total > f + l. The two blocks never overlap. Every pick is a line iff the last block starts at line 0 or later and every draw is below total; with non-negative counts always |
| Matcher.SmartNegativeFirstScansNothing | internal/matcher/matcher.go:150-186 | smart counts [-1, 0, 0] do not panic: nothing is scanned and no random value is drawn |
| Matcher.SmartLastBeforeLineZeroPanics | internal/matcher/matcher.go:167-174 | smart counts [-3, 5, r] on one line start the last block at line -3, which is out of range |
| Matcher.SmartSample | internal/matcher/matcher.go:160-186 | for any counts, the three append loops stay in range iff every index of `SmartIndices` is a line; then they select exactly those lines and use one random value per middle line |
| Matcher.FirstBlock | internal/matcher/matcher.go:163-165 | the first loop appends lines 0 .. min(f, total) - 1, none when f is not positive |
| Matcher.LastBlock | internal/matcher/matcher.go:168-174 | the second loop stays in range iff startLast is not negative or there is nothing to append, and then appends lines startLast .. total - 1 |
| Matcher.MiddleDraws | internal/matcher/matcher.go:177-184 | the third loop stays in range iff every draw `middleStart + Intn(middleEnd - middleStart)` is a line, and then appends that line once per random line |
| Matcher.Matcher.MatchFileContent | internal/matcher/matcher.go:60-128 | `MatchFile` first, with its error returned unchanged; then every rule in order against its name set and the content, exactly `MatchFileContentSpec` |
| Matcher.Matcher.MatchContentRules | internal/matcher/matcher.go:77-125 | the second loop stops at the first out-of-range sample or content-regex error, or after the first matched stop rule |
| Matcher.Matcher.CheckRule | internal/matcher/matcher.go:79-117 | one rule. Both regexes: the name must be among the file-name matches and the content must match. File-name only: the name alone. Content only: the content alone |
| Matcher.Matcher.TestContent | internal/matcher/matcher.go:85-97 | the content is sampled first; an out-of-range sample stops there with the cache unchanged; otherwise the content regex is fetched from the cache and tried on the sample |
| Matcher.Matcher.NameSet | internal/matcher/matcher.go:72-75 | `filenameMatchMap` holds exactly the names of the file-name matches |
| Matcher.ContentRuleAgrees | internal/matcher/matcher.go:79-117 | one rule's cached check fails iff its content is tried and the sample is out of range or the content regex does not compile, with the out-of-range error first. Otherwise it says whether the rule matches by its own regexes |
| Matcher.MatchContentSound | internal/matcher/matcher.go:77-125 | every rule returned matches by its own regexes on the sample taken for it, in configuration order. No rule but the last one returned is a stop rule |
| Matcher.PosAtStep | internal/matcher/matcher.go:77-79 | the scan gets to a later rule at the random-value position it has after the rule before |
| Matcher.HitsPositions | internal/matcher/matcher.go:77-125 | each rule returned was sampled at the random-value position the scan had when it got to that rule |
| Matcher.MatchContentComplete | internal/matcher/matcher.go:77-125 | every rule the scan reaches that matches on the sample drawn at the position the scan has when it gets there is returned |
| Matcher.NonSmartIgnoresRandom | internal/matcher/matcher.go:134-144 | a rule that is not sampled smart gives the same sample, and panics alike, whatever the generator and position, and draws nothing |
| Matcher.MatchContentFails | internal/matcher/matcher.go:84-113 | `MatchFileContent` fails only on the first rule whose content it tries and whose sample is out of range or whose content regex cannot compile, at the position the scan has there, naming that rule and that fault. It succeeds when no rule faults |
| Matcher.MatchContentAgrees | internal/matcher/matcher.go:77-125 | the scan keeps the cache consistent with the rules |
| Matcher.AfterFileStop | internal/matcher/matcher.go:66-103 | a rule placed after a matched stop rule can match only if it has no file-name regex |
| Matcher.Matcher.GetMatchedGuides | internal/matcher/matcher.go:205-228 | the loop returns `Dedup` of every rule's guides, taken rule after rule |
| Matcher.Matcher.AddNewGuides | internal/matcher/matcher.go:219-224 | the inner loop appends each guide not yet seen, and the seen set tracks the list |
| Matcher.DedupMeaning | internal/matcher/matcher.go:208-224 | de-duplication keeps each name exactly once and nothing else, in order of first appearance |
| Matcher.MatchedGuidesMeaning | internal/matcher/matcher.go:205-228 | the guides have no duplicates, come in first-seen order, and are exactly the union of each rule's diff guides (when reviewing a diff and the rule has some) or else its context guides |
| Resolver.Resolver.constructor | internal/resolver/resolver.go:20-25 | `NewResolver` holds the configuration and a fresh matcher over it |
| Resolver.NeedsContentScan | internal/resolver/resolver.go:88-95 | true iff some matched rule has a content regex |
| Resolver.Resolver.NeedsContentScanLoop | internal/resolver/resolver.go:88-95 | the early-return loop computes `NeedsContentScan` |
| Resolver.HasContentPatterns | internal/resolver/resolver.go:98-105 | true iff some rule has a content regex and no file-name regex |
| Resolver.Resolver.HasContentPatternsLoop | internal/resolver/resolver.go:98-105 | the early-return loop computes `HasContentPatterns` |
| Resolver.Resolver.GetGuides | internal/resolver/resolver.go:29-63 | the branches over the matcher's calls give exactly `GetGuidesSpec`, with the matcher's cache updated |
| Resolver.Resolver.GetDiffGuides | internal/resolver/resolver.go:67-75 | the diff guides of the file-name matches; the content is never consulted |
| Resolver.Resolver.ShouldReview | internal/resolver/resolver.go:79-85 | `GetGuides` succeeds with at least one guide |
| Resolver.MatchErrorsPropagate | internal/resolver/resolver.go:31-34 | a `MatchFile` error comes out of `GetGuides` and `GetDiffGuides` unchanged, and `ShouldReview` is false |
| Resolver.FilenameMatchesSuffice | internal/resolver/resolver.go:37-39 | file-name matches, none with a content regex, give their context guides whatever reading the file would give |
| Resolver.NoContentOnlyRules | internal/resolver/resolver.go:42-62 | without content-only rules the file is never read. Even rules that also have a content regex match on file name alone |
| Resolver.ReadFailureFallsBack | internal/resolver/resolver.go:44-51 | on a read error, the file-name matches' guides are returned when there are any, and otherwise the read error |
| Resolver.ContentPathUsesContentMatches | internal/resolver/resolver.go:53-58 | when the file is read, the guides are the context guides of what `MatchFileContent` returns, and its errors come out unchanged |
| Resolver.GuidesNonEmpty | internal/matcher/matcher.go:205-228 | the context guides of some rules are non-empty iff one of the rules has a non-empty context |
| Resolver.ShouldReviewIff | internal/resolver/resolver.go:77-85 | `ShouldReview` holds iff `GetGuides` gets its rules without error and one of them has a non-empty context; any error gives false |
| Resolver.DiffOnlyMatchNotReviewed | internal/resolver/resolver.go:77-85 | a file matched only by rules with no content regex and no context guides is not reviewed, although it matches |
| Resolver.DiffGuidesSound | internal/resolver/resolver.go:67-75 | every diff guide comes from a reached rule whose file-name regex matches, and none is listed twice |
| Resolver.DiffGuidesComplete | internal/resolver/resolver.go:67-75 | every guide of such a rule is among the diff guides |
| Config.DefaultConfig | internal/config/types.go:32-40 | strategy first_lines, 50 lines, no rules |
| Config.DefaultConfigValid | internal/config/types.go:32-40 | the default configuration passes `validate` |
| Config.PatternError | internal/config/parser.go:101-119 | a rule has no error iff it has a name, a file-name or content regex, a known strategy (or none), three counts for smart, and some guide |
| Config.CheckPatternsSound | internal/config/parser.go:100-120 | the loop succeeds iff every rule is well formed. Otherwise it reports the first failing check of the first failing rule |
| Config.ValidateSucceedsIff | internal/config/parser.go:87-123 | `validate` succeeds iff the default strategy is known and every rule passes every check |
| Config.ValidateReportsFirstFailure | internal/config/parser.go:95-119 | an unknown default strategy (the empty one included) is reported first; otherwise the first failure of the first failing rule |
| Config.ValidateIgnoresLines | internal/config/parser.go:87-123 | the default line count plays no part in validation |
| Config.LoadFile | internal/config/parser.go:45-69 | a configuration is returned iff the file decodes and validates |
| Config.LoadedValid | internal/config/parser.go:63-68 | a loaded configuration has passed validation |
| Config.LoadFromFirst | internal/config/parser.go:33-40 | the loop returns the first candidate that loads, else the default configuration |
| Config.LoadPicksFirstValid | internal/config/parser.go:32-41 | `Load` never fails. It returns the first of the four paths that loads, else the default configuration, and either way the result is valid |
| GitRange.EmptyRange | internal/git/git.go:190-192 | the empty range is ("HEAD~1", "HEAD") |
| GitRange.TwoPartsRoundTrip | internal/git/git.go:195-199 | a range that `..` cuts into two parts gives the text before and after its first `..`; neither part contains `..`, and joining them with `..` gives the range back |
| GitRange.JoinedRefsParse | internal/git/git.go:195-199 | a dot-free base and a head without `..`, joined by `..`, parse back into that base and head |
| GitRange.TripleDotRange | internal/git/git.go:195-199 | `base...name` gives (base, ".name"), as in `main...feature` |
| GitRange.SingleRef | internal/git/git.go:190-203 | a non-empty range without `..` is compared with HEAD |
| GitRange.ManyPartsIsSingleRef | internal/git/git.go:196-203 | a range that `..` cuts into more than two parts is taken whole and compared with HEAD |
| Router.GetGuideMeaning | internal/router/router.go:39-48 | the guide is that of the table suffix ending the base name, or "" when none does, whatever order the map is walked in |
| Router.SuffixGivesGuide | internal/router/router.go:42-46 | a base name ending in a table suffix gets that suffix's guide |
| Router.NoSuffixNoGuide | internal/router/router.go:48 | a base name ending in no suffix gets "" |
| Router.GuideIgnoresDirectory | internal/router/router.go:40 | directories in front of a file name change nothing |
| Router.BaseIgnoresDirectory | internal/router/router.go:40 | `filepath.Base` of `dir/name` is `name` |
| Router.TsAndTsxAgree | internal/router/router.go:17-34 | each `.tsx` suffix is its `.ts` suffix plus "x", and both give the same guide |
| Router.SuffixesExclusive | internal/router/router.go:17-34 | at most one table suffix ends any name |
| Cli.IsValidSha | cmd/main/main.go:330-335 | true iff 4 to 40 characters, all from [a-f0-9] |
| Cli.ValidateReviewPr | cmd/main/main.go:337-348 | an error iff the PR number is negative, or a base or head is given and is not a SHA, checked in that order, each case naming its own error and value; empty SHAs are accepted |
| Cli.ValidatedShasParse | cmd/main/main.go:341-346 | accepted base and head SHAs joined by `..` parse back into them |
| Cli.UnescapeLeavesNone | cmd/main/main.go:160 | after replacing every backslash-n with a line break, none is left |
| Cli.UnescapeIdempotent | cmd/main/main.go:160 | unescaping twice is unescaping once |
| Cli.BuildSuggestionBody | cmd/main/main.go:158-172 | the builder's writes give exactly `SuggestionBody` |
| Cli.SuggestionBodyShape | cmd/main/main.go:158-172 | without code the body is the unescaped text alone. With code it continues with the `original` block, and no escaped line break is left anywhere |
| Cli.FormatSuggestionsToMarkdown | cmd/main/main.go:174-191 | the loop writes the heading and one section per suggestion, with the diff formatter as a parameter |
| Cli.NoIssuesIffEmpty | cmd/main/main.go:175-180 | the result is exactly "✅ No issues found." iff there are no suggestions, and a review starts with its heading |
| Cli.SectionOfEach | cmd/main/main.go:183-188 | every suggestion gets its section right after those of the suggestions before it |
| Cli.CliGetContentToScan | cmd/main/main.go:867-921 | the command line's two append loops give exactly `CliContentToScan` |
| Cli.CliFirstLinesPrefix | cmd/main/main.go:909-920 | the command line scans a prefix of the content: all of it when N reaches the piece count, exactly the first N pieces when 1 <= N is below it. The rule's first count applies whenever it has one |
| Cli.CliSmartWhole | cmd/main/main.go:881-908 | smart scans the whole content when the two counts reach the piece count |
| Cli.CliSmartEnds | cmd/main/main.go:881-908 | otherwise it scans the first f and the last l pieces and no random ones |
| Cli.CliSmartAgreesWithMatcher | cmd/main/main.go:881-908 | with three counts and no random lines, the command line and the matcher scan the same text |
| Cli.InheritedCountDiffers | cmd/main/main.go:909-913 | the two copies part for a rule that inherits first_lines: the command line uses the rule's count, the matcher the default one |
| Cli.ValidatePatterns | cmd/main/main.go:716-785 | the loop collects every issue of every rule, none stopping it |
| Cli.ReportRule | cmd/main/main.go:719-781 | one rule's checks append its problems, numbered from 1, in the order they are checked |
| Cli.ReportMissingGuides | cmd/main/main.go:754-764 | one issue per missing guide among the context and diff guides, in order |
| Cli.ProblemReported | cmd/main/main.go:720-781 | a problem is reported for a rule iff the rule has it |
| Cli.RuleProblemsExact | cmd/main/main.go:720-781 | the same for every problem at once |
| Cli.RuleCleanIff | cmd/main/main.go:720-781 | a rule has no problem iff it has a regex, every regex compiles, every guide exists and its strategy is known |
| Cli.IssuesSound | cmd/main/main.go:716-785 | every issue names a rule by its number and name and reports a real problem of it |
| Cli.IssuesOrdered | cmd/main/main.go:719-781 | issues come in rule order |
| Cli.IssuesComplete | cmd/main/main.go:716-785 | every problem of every rule is reported under its number and name |
| Cli.NoIssuesIffClean | cmd/main/main.go:716-785 | the list is empty iff every rule is clean |
| Cli.ValidConfigIssues | cmd/main/main.go:720-781 | a configuration that passes the loader's validation can only have regex and guide issues |
| Cli.ResolveDiffArgs | cmd/main/main.go:547-563 | None is exactly main..HEAD with every changed file. One argument is a file against main..HEAD when the path exists, and a range otherwise. Two are a range and a file. More is an error |
| Cli.DefaultDiffRangeParses | cmd/main/main.go:549 | the default range parses to ("main", "HEAD") |
| Cli.DiffWithoutRange | cmd/main/main.go:547-566 | without a range argument the `diff` command compares main with HEAD |

## Left out

- File system, YAML decoding and `os.Stat`:
  - in `LoadFile` these are one oracle from path to outcome (missing, unreadable, malformed, or a decoded configuration);
  - `checkGuideExists` and the `os.Stat` of the `diff` command are oracles from name to bool;
  - `LoadFromString` and `FindConfigFile` are not modelled, because they only decode a string or walk directories.
- Other I/O is not modelled:
  - `Matcher.ScanFile` and `ScanFileLines` read files and print;
  - `Resolver.LoadGuideContent` reads guide files;
  - the `Run` methods of the commands print and call git, GitHub and the language model.
- Regular expressions: RE2 syntax and matching are not modelled. A regex engine value supplies `compiles` and `matches`, and the matcher holds one.
- The Go map walk in `GetGuide` has no fixed order. It is a parameter `order`, and `GetGuideMeaning` shows the result does not depend on it.
- The diff formatter of `formatSuggestionsToMarkdown` (`internal/diff/formatter.go`) is a parameter, because its diff algorithm is a library not part of this model.
- Random values for smart sampling:
  - `math/rand` is a function from call number to value;
  - `Intn(n)` is that value modulo n, so every draw is in range;
  - the position of the next call is threaded through the matcher's operations.
- Error messages: each error is a constructor carrying the offending rule name, line or value. The `fmt.Errorf` wrapping text is not modelled.
- nil and empty slices are not distinguished; an empty result is `[]` throughout.
- Go `int` is 64-bit, and `Atoi` refuses values outside that range. The parser's line counters are unbounded integers, so wrap-around after 2^63 lines is not modelled.
- Strings are sequences of characters. Go's byte-level string operations on multi-byte UTF-8 text are not modelled.
- In `validatePatterns`, `append(pattern.Context, pattern.DiffContext...)` may write into the spare capacity of the rule's context slice. The model concatenates values, so that aliasing is not modelled.
- Run-time panics of `getContentToScan`: where Go indexes or slices the lines out of range (a smart block of last lines starting before line 0, a smart draw outside the lines, a negative first_lines count), the model returns the error `SampleOutOfRange` naming the rule, which ends the scan like a content-regex error. Go aborts the program instead.
- Matcher.Matcher.GetContentToScan: the smart counts are unbounded integers, so Go's 64-bit wrap-around in `totalLines - lastLines`, `firstLines+lastLines`, `middleEnd-middleStart` and `middleStart + Intn(…)` (internal/matcher/matcher.go:168-181) is not modelled; counts near the int64 limits, such as a last-lines count of -2^63, sample differently in Go.
- Cli.CliGetContentToScan: the same for `totalLines - lastLines` (cmd/main/main.go:900-903); its counts are unbounded integers.
- Cli.CliGetContentToScan: requires that a smart block of last lines does not start before line 0 and that a first_lines count below the piece count is not negative, where Go would panic.
- Matcher.MatchFileExact: stated for rules with distinct names and a cache consistent with them. The cache is keyed by rule name, and with shared names a rule may be tried with another rule's regex (see `SharedNameSharesRegex`).
- Matcher.MatchFileFails: stated under the same distinct-names and consistent-cache assumption.
- Matcher.MatchContentSound: stated under the same distinct-names and consistent-cache assumption.
- Matcher.MatchContentComplete: stated under the same distinct-names and consistent-cache assumption.
- Matcher.MatchContentFails: stated under the same distinct-names and consistent-cache assumption.
- Matcher.ContentRuleAgrees: stated under the same distinct-names and consistent-cache assumption.
- Matcher.AfterFileStop: stated under the same distinct-names and consistent-cache assumption.
- Resolver.ContentPathUsesContentMatches: stated under the same distinct-names and consistent-cache assumption.
- Resolver.DiffGuidesSound: stated under the same distinct-names and consistent-cache assumption.
- Resolver.DiffGuidesComplete: stated under the same distinct-names and consistent-cache assumption.
