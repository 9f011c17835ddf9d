/**
  * The suffix router (internal/router/router.go): a fixed table from file
  * name suffixes to guide names, consulted with the base name of a path.
  * Go walks the table, a map, in no fixed order; the walk order is a
  * parameter here, and the guide found does not depend on it.
  */
module Router {
  import opened Text

  /** The router's table. */
  const Mapping: map<string, string> := map[
    ".page.ts" := "page.md",
    ".page.tsx" := "page.md",
    ".const.ts" := "const.md",
    ".const.tsx" := "const.md",
    ".utils.ts" := "utils.md",
    ".utils.tsx" := "utils.md",
    ".hooks.ts" := "hooks.md",
    ".hooks.tsx" := "hooks.md",
    ".list.ts" := "list.md",
    ".list.tsx" := "list.md",
    ".detail.ts" := "detail.md",
    ".detail.tsx" := "detail.md",
    ".form.ts" := "form.md",
    ".form.tsx" := "form.md",
    ".table.ts" := "table.md",
    ".table.tsx" := "table.md"
  ]

  // ---------------------------------------------------------------------------
  // filepath.Base
  // ---------------------------------------------------------------------------

  /** `path` without its trailing slashes. */
  function TrimTrailingSlashes(path: string): (r: string)
    ensures HasPrefix(path, r)
    ensures |r| == 0 || r[|r| - 1] != '/'
    ensures forall k :: |r| <= k < |path| ==> path[k] == '/'
  {
    if |path| > 0 && path[|path| - 1] == '/' then TrimTrailingSlashes(path[..|path| - 1]) else path
  }

  /** The part of `path` after its last slash. */
  function AfterLastSlash(path: string): (r: string)
    ensures HasSuffix(path, r)
    ensures forall k :: 0 <= k < |r| ==> r[k] != '/'
    ensures |r| < |path| ==> path[|path| - |r| - 1] == '/'
  {
    if |path| == 0 then path
    else if path[|path| - 1] == '/' then []
    else AfterLastSlash(path[..|path| - 1]) + [path[|path| - 1]]
  }

  /**
    * `filepath.Base` for slash-separated paths: "." for the empty path, "/"
    * for a path of slashes, otherwise the last element with trailing
    * slashes removed.
    */
  function Base(path: string): string {
    if path == "" then "."
    else
      var p := TrimTrailingSlashes(path);
      if p == "" then "/" else AfterLastSlash(p)
  }

  /** A name without slashes is its own base name, whatever directory it is put in. */
  lemma {:induction false} BaseIgnoresDirectory(dir: string, name: string)
    requires name != "" && forall k :: 0 <= k < |name| ==> name[k] != '/'
    ensures Base(dir + "/" + name) == name
    ensures Base(name) == name
  {
    AfterNoSlash(name);
    var p := dir + "/" + name;
    assert TrimTrailingSlashes(p) == p;
    AfterSlash(dir + "/", name);
  }

  lemma {:induction false} AfterNoSlash(name: string)
    requires forall k :: 0 <= k < |name| ==> name[k] != '/'
    ensures AfterLastSlash(name) == name
    decreases |name|
  {
    if |name| > 0 {
      AfterNoSlash(name[..|name| - 1]);
      assert name == name[..|name| - 1] + [name[|name| - 1]];
    }
  }

  lemma {:induction false} AfterSlash(prefix: string, name: string)
    requires |prefix| > 0 && prefix[|prefix| - 1] == '/'
    requires forall k :: 0 <= k < |name| ==> name[k] != '/'
    ensures AfterLastSlash(prefix + name) == name
    decreases |name|
  {
    if |name| > 0 {
      var init := name[..|name| - 1];
      assert (prefix + name)[..|prefix + name| - 1] == prefix + init;
      AfterSlash(prefix, init);
      assert name == init + [name[|name| - 1]];
    } else {
      assert prefix + name == prefix;
    }
  }

  // ---------------------------------------------------------------------------
  // GetGuide
  // ---------------------------------------------------------------------------

  /** `order` lists each suffix of the table exactly once: an order Go's map walk may take. */
  predicate IsWalk(order: seq<string>) {
    && (forall s :: s in order ==> s in Mapping)
    && (forall s :: s in Mapping ==> s in order)
    && (forall i, j :: 0 <= i < j < |order| ==> order[i] != order[j])
  }

  /** The guide of the first suffix in `order` that ends `base`, or "" when none does. */
  function FirstSuffix(base: string, order: seq<string>): (g: string)
    requires forall s :: s in order ==> s in Mapping
  {
    if |order| == 0 then ""
    else if HasSuffix(base, order[0]) then Mapping[order[0]]
    else FirstSuffix(base, order[1..])
  }

  /** `Router.GetGuide`, walking the table in the given order. */
  function GetGuide(filename: string, order: seq<string>): string
    requires IsWalk(order)
  {
    FirstSuffix(Base(filename), order)
  }

  /** The guide for a base name, stated without an order: the guide of the suffix that ends it. */
  ghost predicate GuideFor(base: string, g: string) {
    if exists s :: s in Mapping && HasSuffix(base, s) then
      exists s :: s in Mapping && HasSuffix(base, s) && Mapping[s] == g
    else g == ""
  }

  /** The table's suffixes in the order the source lists them: each `.ts` one followed by its `.tsx` one. */
  const Suffixes: seq<string> := [
    ".page.ts", ".page.tsx", ".const.ts", ".const.tsx", ".utils.ts", ".utils.tsx", ".hooks.ts", ".hooks.tsx",
    ".list.ts", ".list.tsx", ".detail.ts", ".detail.tsx", ".form.ts", ".form.tsx", ".table.ts", ".table.tsx"]

  lemma SuffixesListed(s: string)
    requires s in Mapping
    ensures s in Suffixes
  {
  }

  /**
    * A suffix of the table is a dot, a name without dots, and a dot that
    * starts the extension `ts` or `tsx`.
    */
  predicate Shaped(s: string) {
    var e := if |s| > 0 && s[|s| - 1] == 'x' then 4 else 3;
    && |s| > e && s[0] == '.' && s[|s| - e] == '.'
    && (s[|s| - 1] == 'x' || s[|s| - 1] == 's')
    && forall j :: 0 < j < |s| - e ==> s[j] != '.'
  }

  lemma SuffixShaped(i: nat)
    requires i < |Suffixes|
    ensures Shaped(Suffixes[i])
  {
  }

  /** Of two shaped suffixes, one ends the other only when they are equal. */
  lemma ShapedNotNested(s: string, t: string)
    requires Shaped(s) && Shaped(t)
    ensures HasSuffix(t, s) ==> s == t
  {
    if HasSuffix(t, s) {
      assert t[|t| - 1] == s[|s| - 1];
      if |s| < |t| {
        assert false;
      }
      assert t == t[|t| - |s|..];
    }
  }

  /** Of two suffixes of one name, the shorter ends the longer. */
  lemma SuffixesNested(base: string, s: string, t: string)
    requires HasSuffix(base, s) && HasSuffix(base, t)
    ensures |s| <= |t| ==> HasSuffix(t, s)
  {
    if |s| <= |t| {
      assert t[|t| - |s|..] == base[|base| - |s|..];
    }
  }

  /** Two suffixes of the table that both end one name are the same suffix. */
  lemma SuffixesExclusive(base: string, s: string, t: string)
    requires s in Mapping && t in Mapping && HasSuffix(base, s) && HasSuffix(base, t)
    ensures s == t
  {
    SuffixesListed(s);
    SuffixesListed(t);
    var i :| 0 <= i < |Suffixes| && Suffixes[i] == s;
    var j :| 0 <= j < |Suffixes| && Suffixes[j] == t;
    SuffixShaped(i);
    SuffixShaped(j);
    SuffixesNested(base, s, t);
    SuffixesNested(base, t, s);
    ShapedNotNested(s, t);
    ShapedNotNested(t, s);
  }

  /** Walking any suffixes of the table, the guide found is the one for the name. */
  lemma {:induction false} FirstSuffixFinds(base: string, order: seq<string>)
    requires forall s :: s in order ==> s in Mapping
    ensures var g := FirstSuffix(base, order);
      && ((exists s :: s in order && HasSuffix(base, s)) ==> GuideFor(base, g) && g != "")
      && (!(exists s :: s in order && HasSuffix(base, s)) ==> g == "")
  {
    if |order| > 0 {
      FirstSuffixFinds(base, order[1..]);
      if HasSuffix(base, order[0]) {
        assert order[0] in Mapping;
        forall s | s in Mapping && HasSuffix(base, s) ensures Mapping[s] == Mapping[order[0]] {
          SuffixesExclusive(base, s, order[0]);
        }
      } else {
        assert forall s :: s in order && s != order[0] ==> s in order[1..];
      }
    }
  }

  /**
    * `GetGuide` gives the guide of the table suffix that ends the base name
    * of the file, and "" when none does, whatever order the table is
    * walked in.
    */
  lemma GetGuideMeaning(filename: string, order: seq<string>, other: seq<string>)
    requires IsWalk(order) && IsWalk(other)
    ensures GuideFor(Base(filename), GetGuide(filename, order))
    ensures GetGuide(filename, order) == GetGuide(filename, other)
  {
    var base := Base(filename);
    FirstSuffixFinds(base, order);
    FirstSuffixFinds(base, other);
    if exists s :: s in Mapping && HasSuffix(base, s) {
      var s :| s in Mapping && HasSuffix(base, s);
      assert s in order && s in other;
      var g1, g2 := GetGuide(filename, order), GetGuide(filename, other);
      var s1 :| s1 in Mapping && HasSuffix(base, s1) && Mapping[s1] == g1;
      var s2 :| s2 in Mapping && HasSuffix(base, s2) && Mapping[s2] == g2;
      SuffixesExclusive(base, s1, s2);
    }
  }

  /** Only the base name counts: directories in front of a file name change nothing. */
  lemma GuideIgnoresDirectory(dir: string, name: string, order: seq<string>)
    requires IsWalk(order)
    requires name != "" && forall k :: 0 <= k < |name| ==> name[k] != '/'
    ensures GetGuide(dir + "/" + name, order) == GetGuide(name, order)
  {
    BaseIgnoresDirectory(dir, name);
  }

  /**
    * Each `.tsx` suffix is its `.ts` suffix with an `x` added, and the two
    * give the same guide.
    */
  lemma TsAndTsxAgree(i: nat)
    requires i < |Suffixes| / 2
    ensures Suffixes[2 * i + 1] == Suffixes[2 * i] + "x"
    ensures Suffixes[2 * i] in Mapping && Suffixes[2 * i + 1] in Mapping
    ensures Mapping[Suffixes[2 * i]] == Mapping[Suffixes[2 * i + 1]]
  {
  }

  /**
    * A file whose base name ends in a suffix of the table gets that
    * suffix's guide, e.g. `x.page.tsx` gets "page.md".
    */
  lemma SuffixGivesGuide(filename: string, order: seq<string>, s: string)
    requires IsWalk(order) && s in Mapping && HasSuffix(Base(filename), s)
    ensures GetGuide(filename, order) == Mapping[s]
  {
    var base := Base(filename);
    GetGuideMeaning(filename, order, order);
    var t :| t in Mapping && HasSuffix(base, t) && Mapping[t] == GetGuide(filename, order);
    SuffixesExclusive(base, s, t);
  }

  /** A file whose base name ends in no suffix of the table gets no guide. */
  lemma NoSuffixNoGuide(filename: string, order: seq<string>)
    requires IsWalk(order) && forall s :: s in Mapping ==> !HasSuffix(Base(filename), s)
    ensures GetGuide(filename, order) == ""
  {
    GetGuideMeaning(filename, order, order);
  }
}
