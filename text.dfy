/**
  * The parts of Go's `strings` package that the review tool relies on, over
  * sequences: `Index`, `Contains`, `Split`, `Join`, `HasPrefix`, `HasSuffix`,
  * `TrimPrefix`, `TrimSpace` and `ReplaceAll`.
  */
module Text {
  import opened Wrappers

  /** `sep` occurs in `s` starting at position `i`. */
  predicate OccursAt<T(==)>(s: seq<T>, sep: seq<T>, i: nat) {
    i + |sep| <= |s| && s[i..i + |sep|] == sep
  }


  /** The first occurrence of `sep` in `s` at or after position `i`. */
  function IndexFrom<T(==)>(s: seq<T>, sep: seq<T>, i: nat): (r: Option<nat>)
    requires |sep| > 0 && i <= |s|
    ensures r.Some? ==> i <= r.value && OccursAt(s, sep, r.value)
    ensures r.Some? ==> forall j: nat :: i <= j < r.value ==> !OccursAt(s, sep, j)
    ensures r.None? ==> forall j: nat :: i <= j ==> !OccursAt(s, sep, j)
    decreases |s| - i
  {
    if i + |sep| > |s| then None
    else if s[i..i + |sep|] == sep then Some(i)
    else IndexFrom(s, sep, i + 1)
  }

  /** `strings.Index(s, sep)`: the first occurrence, or None for Go's -1. */
  function Index<T(==)>(s: seq<T>, sep: seq<T>): (r: Option<nat>)
    requires |sep| > 0
    ensures r.Some? ==> OccursAt(s, sep, r.value)
    ensures r.Some? ==> forall j: nat :: j < r.value ==> !OccursAt(s, sep, j)
    ensures r.None? ==> forall j: nat :: !OccursAt(s, sep, j)
  {
    IndexFrom(s, sep, 0)
  }

  /** `strings.Contains(s, sep)`, which Go defines as `Index(s, sep) >= 0`. */
  predicate Contains<T(==)>(s: seq<T>, sep: seq<T>)
    requires |sep| > 0
  {
    Index(s, sep).Some?
  }

  /**
    * `strings.Split(s, sep)` for a non-empty separator: the pieces between
    * non-overlapping occurrences of `sep`, found left to right. The empty
    * string splits into one empty piece.
    */
  function Split<T(==)>(s: seq<T>, sep: seq<T>): (r: seq<seq<T>>)
    requires |sep| > 0
    ensures |r| >= 1
    decreases |s|
  {
    match Index(s, sep)
    case None => [s]
    case Some(i) => [s[..i]] + Split(s[i + |sep|..], sep)
  }

  /** No piece of a split contains the separator. */
  lemma {:induction false} SplitPiecesFree<T>(s: seq<T>, sep: seq<T>)
    requires |sep| > 0
    ensures forall k :: 0 <= k < |Split(s, sep)| ==> !Contains(Split(s, sep)[k], sep)
    decreases |s|
  {
    match Index(s, sep)
    case None =>
    case Some(i) =>
      assert !Contains(s[..i], sep) by {
        var r := Index(s[..i], sep);
        if r.Some? {
          assert s[..i][r.value..r.value + |sep|] == s[r.value..r.value + |sep|];
          assert OccursAt(s, sep, r.value);
        }
      }
      SplitPiecesFree(s[i + |sep|..], sep);
  }

  /** `strings.Join(pieces, sep)`; joining no pieces gives the empty string. */
  function Join<T>(pieces: seq<seq<T>>, sep: seq<T>): seq<T> {
    if |pieces| == 0 then []
    else if |pieces| == 1 then pieces[0]
    else pieces[0] + sep + Join(pieces[1..], sep)
  }

  /** Joining the pieces of a split with the same separator gives back the input. */
  lemma {:induction false} JoinSplit<T>(s: seq<T>, sep: seq<T>)
    requires |sep| > 0
    ensures Join(Split(s, sep), sep) == s
    decreases |s|
  {
    match Index(s, sep)
    case None =>
    case Some(i) =>
      var rest := s[i + |sep|..];
      var ps := Split(rest, sep);
      JoinSplit(rest, sep);
      var all := [s[..i]] + ps;
      assert Split(s, sep) == all;
      assert all[0] == s[..i] && all[1..] == ps;
      assert Join(all, sep) == s[..i] + sep + Join(ps, sep);
      assert s == s[..i] + sep + rest by {
        assert s[i..i + |sep|] == sep;
      }
  }

  /** A sequence with no element equal to the separator's first one is one piece. */
  lemma SplitFree<T>(x: seq<T>, sep: seq<T>)
    requires |sep| > 0
    requires forall k :: 0 <= k < |x| ==> x[k] != sep[0]
    ensures Split(x, sep) == [x]
  {
    forall j: nat | j + |sep| <= |x| ensures !OccursAt(x, sep, j) {
      assert x[j..j + |sep|][0] == x[j];
    }
    assert Index(x, sep).None?;
  }

  /**
    * When the part before the first separator cannot start an occurrence of
    * it, that separator is the one `Split` cuts at.
    */
  lemma SplitAfterFree<T>(x: seq<T>, sep: seq<T>, y: seq<T>)
    requires |sep| > 0
    requires forall k :: 0 <= k < |x| ==> x[k] != sep[0]
    ensures Split(x + sep + y, sep) == [x] + Split(y, sep)
  {
    var s := x + sep + y;
    assert OccursAt(s, sep, |x|) by {
      assert s[|x|..|x| + |sep|] == sep;
    }
    forall j: nat | j < |x| ensures !OccursAt(s, sep, j) {
      assert s[j] == x[j];
      if j + |sep| <= |s| {
        assert s[j..j + |sep|][0] == s[j];
      }
    }
    var r := Index(s, sep);
    assert r.value == |x|;
    assert s[..|x|] == x;
    assert s[|x| + |sep|..] == y;
  }

  /** `strings.HasPrefix(s, p)`. */
  predicate HasPrefix<T(==)>(s: seq<T>, p: seq<T>) {
    |p| <= |s| && s[..|p|] == p
  }

  /** `strings.HasSuffix(s, p)`. */
  predicate HasSuffix<T(==)>(s: seq<T>, p: seq<T>) {
    |p| <= |s| && s[|s| - |p|..] == p
  }

  /** `strings.TrimPrefix(s, p)`: `s` without a leading `p`, or `s` itself. */
  function TrimPrefix<T(==)>(s: seq<T>, p: seq<T>): (r: seq<T>)
    ensures HasPrefix(s, p) ==> p + r == s
    ensures !HasPrefix(s, p) ==> r == s
  {
    if HasPrefix(s, p) then s[|p|..] else s
  }

  /**
    * Go's `unicode.IsSpace`: the Latin-1 spaces and the other characters with
    * the Unicode White_Space property.
    */
  predicate IsSpace(c: char) {
    || c == '\t' || c == '\n' || c == '\U{000B}' || c == '\U{000C}' || c == '\r' || c == ' '
    || c == '\U{0085}' || c == '\U{00A0}' || c == '\U{1680}'
    || ('\U{2000}' <= c <= '\U{200A}')
    || c == '\U{2028}' || c == '\U{2029}' || c == '\U{202F}' || c == '\U{205F}' || c == '\U{3000}'
  }

  function TrimLeftSpace(s: string): (r: string)
    ensures |r| <= |s| && r == s[|s| - |r|..]
    ensures |r| > 0 ==> !IsSpace(r[0])
    ensures forall k :: 0 <= k < |s| - |r| ==> IsSpace(s[k])
  {
    if |s| > 0 && IsSpace(s[0]) then TrimLeftSpace(s[1..]) else s
  }

  function TrimRightSpace(s: string): (r: string)
    ensures |r| <= |s| && r == s[..|r|]
    ensures |r| > 0 ==> !IsSpace(r[|r| - 1])
    ensures forall k :: |r| <= k < |s| ==> IsSpace(s[k])
  {
    if |s| > 0 && IsSpace(s[|s| - 1]) then TrimRightSpace(s[..|s| - 1]) else s
  }

  /** `strings.TrimSpace(s)`: `s` without leading and trailing white space. */
  function TrimSpace(s: string): (r: string)
    ensures |r| > 0 ==> !IsSpace(r[0]) && !IsSpace(r[|r| - 1])
  {
    TrimRightSpace(TrimLeftSpace(s))
  }

  /** A string that neither starts nor ends with white space is left alone. */
  lemma TrimSpaceFixed(s: string)
    requires |s| > 0 ==> !IsSpace(s[0]) && !IsSpace(s[|s| - 1])
    ensures TrimSpace(s) == s
  {
  }

  /** One space on each side of such a string is trimmed away. */
  lemma TrimSpacePadded(x: string)
    requires |x| > 0 && !IsSpace(x[0]) && !IsSpace(x[|x| - 1])
    ensures TrimSpace(" " + x + " ") == x
  {
    var s := " " + x + " ";
    assert s[1..] == x + " ";
    assert TrimLeftSpace(x + " ") == x + " ";
    assert (x + " ")[..|x|] == x;
  }

  /**
    * `strings.ReplaceAll(s, pat, rep)` for a non-empty `pat`: each
    * non-overlapping occurrence, found left to right, replaced by `rep`.
    */
  function ReplaceAll<T(==)>(s: seq<T>, pat: seq<T>, rep: seq<T>): seq<T>
    requires |pat| > 0
  {
    Join(Split(s, pat), rep)
  }

  /** Without an occurrence of `pat`, `ReplaceAll` changes nothing. */
  lemma ReplaceAllAbsent<T>(s: seq<T>, pat: seq<T>, rep: seq<T>)
    requires |pat| > 0 && !Contains(s, pat)
    ensures ReplaceAll(s, pat, rep) == s
  {
    assert Index(s, pat).None?;
  }

  /** Extending a prefix by one element, seen from the longer prefix. */
  lemma PrefixSnoc<T>(s: seq<T>, k: nat)
    requires k < |s|
    ensures s[..k + 1][..k] == s[..k]
    ensures s[..k + 1] == s[..k] + [s[k]]
  {
  }

  /** Extending a prefix of `b` after a fixed `a` by one element. */
  lemma ConcatPrefixSnoc<T>(a: seq<T>, b: seq<T>, k: nat)
    requires k < |b|
    ensures a + b[..k + 1] == (a + b[..k]) + [b[k]]
  {
  }

  /** The prefix of full length is the sequence itself. */
  lemma PrefixAll<T>(s: seq<T>)
    ensures s[..|s|] == s
  {
  }

  /** Joining the first `n` pieces gives a prefix of joining them all. */
  lemma {:induction false} JoinPrefix<T>(ps: seq<seq<T>>, sep: seq<T>, n: nat)
    requires n <= |ps|
    ensures HasPrefix(Join(ps, sep), Join(ps[..n], sep))
  {
    if n == 1 {
      assert ps[..1] == [ps[0]];
    } else if n > 1 {
      JoinPrefix(ps[1..], sep, n - 1);
      assert ps[..n][1..] == ps[1..][..n - 1];
      var x := Join(ps[1..][..n - 1], sep);
      var y := Join(ps[1..], sep);
      assert Join(ps[..n], sep) == ps[0] + sep + x;
      assert Join(ps, sep) == ps[0] + sep + y;
      assert y == x + y[|x|..];
      assert ps[0] + sep + y == (ps[0] + sep + x) + y[|x|..];
    }
  }

  /** A sequence without the one-element separator is not cut. */
  lemma AbsentChar<T>(x: seq<T>, c: T)
    requires !Contains(x, [c])
    ensures forall k :: 0 <= k < |x| ==> x[k] != c
  {
    forall k | 0 <= k < |x| ensures x[k] != c {
      assert !OccursAt(x, [c], k);
      assert x[k..k + 1] == [x[k]];
    }
  }

  /** Splitting joined pieces that are free of the separator's first element gives them back. */
  lemma {:induction false} SplitJoin<T>(ps: seq<seq<T>>, sep: seq<T>)
    requires |sep| > 0 && |ps| >= 1
    requires forall i, k :: 0 <= i < |ps| && 0 <= k < |ps[i]| ==> ps[i][k] != sep[0]
    ensures Split(Join(ps, sep), sep) == ps
  {
    if |ps| == 1 {
      SplitFree(ps[0], sep);
    } else {
      SplitJoin(ps[1..], sep);
      SplitAfterFree(ps[0], sep, Join(ps[1..], sep));
    }
  }

  /** The first `n` lines of a split, joined again, split back into those lines. */
  lemma SplitJoinPrefix(s: string, n: nat)
    requires 1 <= n <= |Split(s, "\n")|
    ensures Split(Join(Split(s, "\n")[..n], "\n"), "\n") == Split(s, "\n")[..n]
  {
    var lines := Split(s, "\n");
    SplitPiecesFree(s, "\n");
    forall i | 0 <= i < n ensures forall k :: 0 <= k < |lines[..n][i]| ==> lines[..n][i][k] != '\n' {
      assert !Contains(lines[i], "\n");
      AbsentChar(lines[i], '\n');
    }
    SplitJoin(lines[..n], "\n");
  }
}
