/**
  * `ParseGitRange` (internal/git/git.go): a range argument such as
  * `main..feature` split into the base and head references to compare.
  */
module GitRange {
  import opened Wrappers
  import opened Text

  const DefaultBase: string := "HEAD~1"
  const DefaultHead: string := "HEAD"
  const DotDot: string := ".."

  /**
    * The empty range compares `HEAD~1` with `HEAD`; a range that `..` cuts
    * into exactly two parts gives those parts; anything else is a single
    * reference compared with `HEAD`.
    */
  function ParseGitRange(rangeStr: string): (r: (string, string)) {
    if rangeStr == "" then (DefaultBase, DefaultHead)
    else if Contains(rangeStr, DotDot) && |Split(rangeStr, DotDot)| == 2 then
      var parts := Split(rangeStr, DotDot);
      (parts[0], parts[1])
    else (rangeStr, DefaultHead)
  }

  /**
    * When the range is cut into two parts, they are the text before and
    * after its first `..`, neither containing `..` again, so joining them
    * with `..` gives the range back.
    */
  lemma TwoPartsRoundTrip(rangeStr: string)
    requires rangeStr != "" && |Split(rangeStr, DotDot)| == 2
    ensures var (base, head) := ParseGitRange(rangeStr);
      && base + DotDot + head == rangeStr
      && !Contains(base, DotDot) && !Contains(head, DotDot)
  {
    var parts := Split(rangeStr, DotDot);
    JoinSplit(rangeStr, DotDot);
    SplitPiecesFree(rangeStr, DotDot);
    assert Contains(rangeStr, DotDot);
    assert parts[1..] == [parts[1]];
    assert Join(parts, DotDot) == parts[0] + DotDot + parts[1];
  }

  /**
    * Conversely, a base without dots and a head without `..` joined by
    * `..` parse back into that base and head.
    */
  lemma JoinedRefsParse(base: string, head: string)
    requires forall k :: 0 <= k < |base| ==> base[k] != '.'
    requires !Contains(head, DotDot)
    ensures ParseGitRange(base + DotDot + head) == (base, head)
  {
    var s := base + DotDot + head;
    SplitAfterFree(base, DotDot, head);
    assert Index(head, DotDot).None?;
    assert Split(head, DotDot) == [head];
    assert OccursAt(s, DotDot, |base|) by {
      assert s[|base|..|base| + 2] == DotDot;
    }
    assert Index(s, DotDot).Some?;
  }

  /** The empty range compares the previous commit with the current one. */
  lemma EmptyRange()
    ensures ParseGitRange("") == ("HEAD~1", "HEAD")
  {
  }

  /** A non-empty range without `..` is one reference compared with `HEAD`. */
  lemma SingleRef(rangeStr: string)
    requires rangeStr != "" && !Contains(rangeStr, DotDot)
    ensures ParseGitRange(rangeStr) == (rangeStr, DefaultHead)
  {
  }

  /** A range that `..` cuts into more than two parts is also taken as one reference. */
  lemma ManyPartsIsSingleRef(rangeStr: string)
    requires |Split(rangeStr, DotDot)| > 2
    ensures ParseGitRange(rangeStr) == (rangeStr, DefaultHead)
  {
  }

  /** A dot followed by a name without dots holds no `..`: its only dot is its first character. */
  lemma LeadingDotFree(name: string)
    requires forall k :: 0 <= k < |name| ==> name[k] != '.'
    ensures !Contains("." + name, DotDot)
  {
    var head := "." + name;
    forall j: nat ensures !OccursAt(head, DotDot, j) {
      if j + 2 <= |head| {
        assert head[j..j + 2][1] == head[j + 1] == name[j];
      }
    }
  }

  /**
    * A three-dot range such as `main...feature` is cut at its first `..`,
    * leaving the third dot on the head: `main` and `.feature`.
    */
  lemma TripleDotRange(base: string, name: string)
    requires forall k :: 0 <= k < |base| ==> base[k] != '.'
    requires forall k :: 0 <= k < |name| ==> name[k] != '.'
    ensures ParseGitRange(base + "..." + name) == (base, "." + name)
  {
    LeadingDotFree(name);
    JoinedRefsParse(base, "." + name);
    assert base + "..." + name == base + DotDot + ("." + name);
  }
}
