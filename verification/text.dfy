/** The handful of Go `strings` operations the core is built from, on
`string` = `seq<char>`: `Index`, `LastIndex`, `Contains` and `Split`, each
with the meaning Go's package documentation gives it, plus the facts about
occurrences in concatenations that the history proofs rely on.
 */
module Text {

  /** `p` occurs in `s` starting at index `i`. */
  predicate OccursAt(s: string, p: string, i: int)
  {
    0 <= i && i + |p| <= |s| && s[i..i + |p|] == p
  }

  /** The first occurrence of `p` in `s` at or after `from`, or -1. */
  function IndexFrom(s: string, p: string, from: nat): (r: int)
    ensures r == -1 || (from <= r && OccursAt(s, p, r))
    ensures r == -1 ==> forall j :: from <= j ==> !OccursAt(s, p, j)
    ensures r != -1 ==> forall j :: from <= j < r ==> !OccursAt(s, p, j)
    decreases |s| - from
  {
    if from + |p| > |s| then -1
    else if s[from..from + |p|] == p then from
    else IndexFrom(s, p, from + 1)
  }

  /** Go's `strings.Index`: the first occurrence of `p` in `s`, or -1. */
  function IndexOf(s: string, p: string): (r: int)
    ensures r == -1 <==> forall j :: !OccursAt(s, p, j)
    ensures r != -1 ==> OccursAt(s, p, r) && forall j :: j < r ==> !OccursAt(s, p, j)
  {
    IndexFrom(s, p, 0)
  }

  /** The last occurrence of `p` in `s` at or before `upto`, or -1. */
  function LastIndexUpTo(s: string, p: string, upto: int): (r: int)
    ensures r == -1 || (0 <= r <= upto && OccursAt(s, p, r))
    ensures forall j :: r < j <= upto ==> !OccursAt(s, p, j)
    decreases upto + 1
  {
    if upto < 0 then -1
    else if OccursAt(s, p, upto) then upto
    else LastIndexUpTo(s, p, upto - 1)
  }

  /** Go's `strings.LastIndex`: the last occurrence of `p` in `s`, or -1. */
  function LastIndexOf(s: string, p: string): (r: int)
    ensures r == -1 <==> forall j :: !OccursAt(s, p, j)
    ensures r != -1 ==> OccursAt(s, p, r) && forall j :: r < j ==> !OccursAt(s, p, j)
  {
    LastIndexUpTo(s, p, |s| - |p|)
  }

  /** Go's `strings.HasPrefix`. */
  predicate StartsWith(s: string, p: string)
  {
    |p| <= |s| && s[..|p|] == p
  }

  /** Go's `strings.Contains`: `p` occurs somewhere in `s`, which is
      `Index(s, p) >= 0` (`ContainsIsIndex`). */
  predicate Contains(s: string, p: string)
  {
    exists j | 0 <= j <= |s| - |p| :: OccursAt(s, p, j)
  }

  /** `Contains` agrees with `IndexOf`, as Go defines it. */
  lemma ContainsIsIndex(s: string, p: string)
    ensures Contains(s, p) <==> IndexOf(s, p) >= 0
  {
  }

  /** The empty string is contained in every string (`Index(s, "") == 0`). */
  lemma EmptyIsContained(s: string)
    ensures Contains(s, "")
  {
    assert OccursAt(s, "", 0);
  }

  /** `Contains` holds exactly when some occurrence exists. */
  lemma ContainsWitness(s: string, p: string, i: int)
    requires OccursAt(s, p, i)
    ensures Contains(s, p)
  {
  }

  /** Any occurrence is at or after the first one and at or before the last one. */
  lemma OccurrenceBetween(s: string, p: string, i: int)
    requires OccursAt(s, p, i)
    ensures IndexOf(s, p) <= i <= LastIndexOf(s, p)
  {
  }

  /** A position with an occurrence and none after it is the last occurrence. */
  lemma LastIndexIs(s: string, p: string, x: int)
    requires OccursAt(s, p, x)
    requires forall j :: x < j ==> !OccursAt(s, p, j)
    ensures LastIndexOf(s, p) == x
  {
  }

  /** A position with an occurrence and none before it is the first occurrence. */
  lemma IndexIs(s: string, p: string, x: int)
    requires OccursAt(s, p, x)
    requires forall j :: j < x ==> !OccursAt(s, p, j)
    ensures IndexOf(s, p) == x
  {
  }

  // ---------------------------------------------------------------------------
  // Occurrences in slices and concatenations

  lemma OccursInSlice(s: string, lo: int, hi: int, p: string, j: int)
    requires 0 <= lo <= hi <= |s|
    requires OccursAt(s[lo..hi], p, j)
    ensures OccursAt(s, p, lo + j)
  {
    var t := s[lo..hi];
    forall k | 0 <= k < |p|
      ensures s[lo + j..lo + j + |p|][k] == p[k]
    {
      assert p[k] == t[j..j + |p|][k] == t[j + k] == s[lo + j + k];
    }
  }

  lemma OccursInLeft(a: string, b: string, p: string, j: int)
    requires OccursAt(a, p, j)
    ensures OccursAt(a + b, p, j)
  {
    assert (a + b)[j..j + |p|] == a[j..j + |p|];
  }

  lemma OccursInRight(a: string, b: string, p: string, j: int)
    requires OccursAt(b, p, j)
    ensures OccursAt(a + b, p, |a| + j)
  {
    assert (a + b)[|a| + j..|a| + j + |p|] == b[j..j + |p|];
  }

  /** An occurrence in `a + b` lies in `a`, lies in `b`, or straddles the seam,
      and then both characters at the seam belong to the pattern. */
  lemma OccurrenceInConcat(a: string, b: string, p: string, j: int)
    requires OccursAt(a + b, p, j)
    ensures || OccursAt(a, p, j)
            || (|a| <= j && OccursAt(b, p, j - |a|))
            || (j < |a| < j + |p| && a[|a| - 1] in p && b[0] in p)
  {
    if j + |p| <= |a| {
      assert (a + b)[j..j + |p|] == a[j..j + |p|];
    } else if |a| <= j {
      assert (a + b)[j..j + |p|] == b[j - |a|..j - |a| + |p|];
    } else {
      assert p[|a| - 1 - j] == (a + b)[j..j + |p|][|a| - 1 - j] == a[|a| - 1];
      assert p[|a| - j] == (a + b)[j..j + |p|][|a| - j] == b[0];
    }
  }

  /** A slice of a string that does not contain `p` does not contain it either. */
  lemma SliceKeepsAbsence(s: string, lo: int, hi: int, p: string)
    requires 0 <= lo <= hi <= |s|
    requires !Contains(s, p)
    ensures !Contains(s[lo..hi], p)
  {
    if Contains(s[lo..hi], p) {
      OccursInSlice(s, lo, hi, p, IndexOf(s[lo..hi], p));
    }
  }

  /** No occurrence of `p` can straddle the seam of `a + b` when the character on
      either side of the seam does not appear in `p`; so `a + b` contains `p`
      only if one of its halves does. */
  lemma ConcatKeepsAbsence(a: string, b: string, p: string)
    requires !Contains(a, p) && !Contains(b, p)
    requires (|a| > 0 && a[|a| - 1] !in p) || (|b| > 0 && b[0] !in p)
    ensures !Contains(a + b, p)
  {
    if Contains(a + b, p) {
      OccurrenceInConcat(a, b, p, IndexOf(a + b, p));
    }
  }

  /** A one-character pattern occurs exactly where that character is. */
  lemma CharContains(s: string, c: char)
    ensures Contains(s, [c]) <==> c in s
  {
    if c in s {
      var i :| 0 <= i < |s| && s[i] == c;
      assert OccursAt(s, [c], i);
    }
    if Contains(s, [c]) {
      var i := IndexOf(s, [c]);
      assert s[i..i + 1] == [c];
      assert s[i] == c;
    }
  }

  /** A one-character pattern has no index exactly when the character is absent. */
  lemma CharIndex(s: string, c: char)
    ensures IndexOf(s, [c]) < 0 <==> c !in s
  {
    CharContains(s, c);
  }

  /** The first character of an occurrence is the pattern's first character. */
  lemma OccurrenceHead(s: string, p: string, i: int)
    requires |p| > 0 && OccursAt(s, p, i)
    ensures s[i] == p[0]
  {
    assert s[i] == s[i..i + |p|][0];
  }

  /** A pattern whose first character never appears in `s` does not occur in `s`. */
  lemma FirstCharAbsent(s: string, p: string)
    requires |p| > 0 && p[0] !in s
    ensures !Contains(s, p)
  {
    if Contains(s, p) {
      OccurrenceHead(s, p, IndexOf(s, p));
    }
  }

  /** For a one-character pattern the first occurrence in `a + b` is inside `b`
      when `a` lacks that character. */
  lemma IndexOfCharAfterPrefix(a: string, b: string, c: char)
    requires c !in a && c in b
    ensures IndexOf(a + b, [c]) == |a| + IndexOf(b, [c])
  {
    CharContains(b, c);
    var k := IndexOf(b, [c]);
    OccursInRight(a, b, [c], k);
    forall j | j < |a| + k
      ensures !OccursAt(a + b, [c], j)
    {
      if OccursAt(a + b, [c], j) {
        OccurrenceInConcat(a, b, [c], j);
        if OccursAt(a, [c], j) {
          OccurrenceHead(a, [c], j);
        }
      }
    }
    IndexIs(a + b, [c], |a| + k);
  }

  /** Appending text that contains `p` moves the last occurrence into that text. */
  lemma LastIndexOfAppend(h: string, e: string, p: string)
    requires Contains(e, p)
    ensures LastIndexOf(h + e, p) == |h| + LastIndexOf(e, p)
  {
    var l := LastIndexOf(e, p);
    OccursInRight(h, e, p, l);
    forall j | |h| + l < j
      ensures !OccursAt(h + e, p, j)
    {
      if OccursAt(h + e, p, j) {
        OccurrenceInConcat(h, e, p, j);
      }
    }
    LastIndexIs(h + e, p, |h| + l);
  }

  /** Appending text that neither contains `p` nor lets an occurrence straddle
      the seam leaves the last occurrence where it was. */
  lemma LastIndexOfBeforeClean(a: string, b: string, p: string)
    requires Contains(a, p) && !Contains(b, p)
    requires |b| > 0 && b[0] !in p
    ensures LastIndexOf(a + b, p) == LastIndexOf(a, p)
  {
    var l := LastIndexOf(a, p);
    OccursInLeft(a, b, p, l);
    forall j | l < j
      ensures !OccursAt(a + b, p, j)
    {
      if OccursAt(a + b, p, j) {
        OccurrenceInConcat(a, b, p, j);
      }
    }
    LastIndexIs(a + b, p, l);
  }

  // ---------------------------------------------------------------------------
  // Markers that cannot overlap themselves

  /** No proper suffix of `m` is also a prefix of `m`, so two occurrences of `m`
      never overlap. */
  predicate BorderFree(m: string)
  {
    forall k :: 0 < k < |m| ==> m[k..] != m[..|m| - k]
  }

  /** A pattern whose first character does not reappear in it is border-free. */
  lemma UniqueHeadIsBorderFree(m: string)
    requires |m| > 0 && m[0] !in m[1..]
    ensures BorderFree(m)
  {
    forall k | 0 < k < |m|
      ensures m[k..] != m[..|m| - k]
    {
      assert m[k] == m[1..][k - 1];
      assert m[k..][0] == m[k] && m[..|m| - k][0] == m[0];
    }
  }

  /** Two overlapping occurrences of `m` exhibit a border of `m`. */
  lemma OverlapIsBorder(s: string, m: string, i: int, j: int)
    requires OccursAt(s, m, i) && OccursAt(s, m, j) && i < j < i + |m|
    ensures m[j - i..] == m[..|m| - (j - i)]
  {
    var k := j - i;
    forall t | 0 <= t < |m| - k
      ensures m[k..][t] == m[..|m| - k][t]
    {
      assert m[k..][t] == s[i..i + |m|][k + t] == s[i + k + t];
      assert m[..|m| - k][t] == s[j..j + |m|][t] == s[j + t];
    }
  }

  lemma NoOverlap(s: string, m: string, i: int, j: int)
    requires BorderFree(m)
    requires OccursAt(s, m, i) && OccursAt(s, m, j) && i < j
    ensures i + |m| <= j
  {
    if j < i + |m| {
      OverlapIsBorder(s, m, i, j);
    }
  }

  /** Text ending in `m` followed by text free of `m` has its last occurrence
      of a border-free `m` exactly there. */
  lemma LastIndexAtMarker(x: string, m: string, y: string)
    requires BorderFree(m) && !Contains(y, m)
    ensures LastIndexOf(x + m + y, m) == |x|
  {
    var s := x + m + y;
    assert s == (x + m) + y;
    OccursInRight(x, m, m, 0);
    OccursInLeft(x + m, y, m, |x|);
    forall j | |x| < j
      ensures !OccursAt(s, m, j)
    {
      if OccursAt(s, m, j) {
        NoOverlap(s, m, |x|, j);
        OccurrenceInConcat(x + m, y, m, j);
      }
    }
    LastIndexIs(s, m, |x|);
  }

  // ---------------------------------------------------------------------------
  // Split and Join

  /** The inverse of `Split`: the parts glued back together with `sep`. */
  function Join(parts: seq<string>, sep: string): string
  {
    if |parts| == 0 then ""
    else if |parts| == 1 then parts[0]
    else parts[0] + sep + Join(parts[1..], sep)
  }

  /** The text before the first occurrence of `p` does not contain `p`. */
  lemma BeforeFirstIsClean(s: string, p: string)
    requires |p| > 0 && Contains(s, p)
    ensures !Contains(s[..IndexOf(s, p)], p)
  {
    var i := IndexOf(s, p);
    if Contains(s[..i], p) {
      OccursInSlice(s, 0, i, p, IndexOf(s[..i], p));
    }
  }

  /** A character does not appear before its first occurrence. */
  lemma CharBeforeFirst(s: string, c: char)
    requires c in s
    ensures 0 <= IndexOf(s, [c]) && c !in s[..IndexOf(s, [c])]
  {
    CharContains(s, c);
    BeforeFirstIsClean(s, [c]);
    CharContains(s[..IndexOf(s, [c])], c);
  }

  /** Go's `strings.Split(s, sep)` for a non-empty separator: the pieces
      between successive leftmost non-overlapping occurrences of `sep`. */
  function Split(s: string, sep: string): (parts: seq<string>)
    requires |sep| > 0
    ensures |parts| >= 1
    ensures |parts| >= 2 <==> Contains(s, sep)
    decreases |s|
  {
    var i := IndexOf(s, sep);
    if i < 0 then [s]
    else
      var rest := Split(s[i + |sep|..], sep);
      [s[..i]] + rest
  }

  /** No piece of a split contains the separator. */
  lemma {:induction false} SplitPieceIsClean(s: string, sep: string, k: int)
    requires |sep| > 0 && 0 <= k < |Split(s, sep)|
    ensures !Contains(Split(s, sep)[k], sep)
    decreases |s|
  {
    var i := IndexOf(s, sep);
    if i >= 0 {
      var tail := s[i + |sep|..];
      assert Split(s, sep) == [s[..i]] + Split(tail, sep);
      if k == 0 {
        BeforeFirstIsClean(s, sep);
      } else {
        SplitPieceIsClean(tail, sep, k - 1);
      }
    }
  }

  /** `Join` undoes `Split`: the pieces glued with the separator give back
      the text. */
  lemma {:induction false} SplitJoin(s: string, sep: string)
    requires |sep| > 0
    ensures Join(Split(s, sep), sep) == s
    decreases |s|
  {
    if Contains(s, sep) {
      SplitHead(s, sep);
      var i := IndexOf(s, sep);
      var tail := s[i + |sep|..];
      SplitJoin(tail, sep);
      JoinCons(s[..i], Split(tail, sep), sep);
      AroundOccurrence(s, sep, i);
    }
  }

  /** Joining a part in front of at least one more. */
  lemma JoinCons(x: string, rest: seq<string>, sep: string)
    requires |rest| >= 1
    ensures Join([x] + rest, sep) == x + sep + Join(rest, sep)
  {
    assert ([x] + rest)[1..] == rest;
  }

  /** A text is what precedes an occurrence, the occurrence, and what follows. */
  lemma AroundOccurrence(s: string, p: string, i: int)
    requires OccursAt(s, p, i)
    ensures s == s[..i] + p + s[i + |p|..]
  {
    assert s == s[..i] + s[i..i + |p|] + s[i + |p|..];
  }

  /** A split at a present separator starts with the text before its first
      occurrence and continues with the split of the text after it. */
  lemma SplitHead(s: string, sep: string)
    requires |sep| > 0 && Contains(s, sep)
    ensures IndexOf(s, sep) + |sep| <= |s|
    ensures Split(s, sep) == [s[..IndexOf(s, sep)]] + Split(s[IndexOf(s, sep) + |sep|..], sep)
  {
  }

  /** The last piece of a split: Go's `arr[len(arr)-1]`. */
  function LastPiece(s: string, sep: string): (r: string)
    requires |sep| > 0
    ensures !Contains(r, sep)
    ensures EndsWith(s, r)
    ensures !Contains(s, sep) ==> r == s
  {
    var parts := Split(s, sep);
    SplitPieceIsClean(s, sep, |parts| - 1);
    LastPieceIsSuffix(s, sep);
    parts[|parts| - 1]
  }

  /** `x` is a suffix of `s`. */
  predicate EndsWith(s: string, x: string)
  {
    |x| <= |s| && s[|s| - |x|..] == x
  }

  /** The last piece of a split is a suffix of the text, since the text is
      the pieces joined back together. */
  lemma LastPieceIsSuffix(s: string, sep: string)
    requires |sep| > 0
    ensures var parts := Split(s, sep); EndsWith(s, parts[|parts| - 1])
  {
    var parts := Split(s, sep);
    var n := |parts|;
    SplitJoin(s, sep);
    if n >= 2 {
      JoinSnoc(parts, sep);
      var x := Join(parts[..n - 1], sep) + sep;
      assert s == x + parts[n - 1];
      assert s[|x|..] == parts[n - 1];
    }
  }

  /** For a border-free separator, the last piece of a split is exactly the text
      after the last occurrence of the separator. */
  lemma LastPieceFollowsLastOccurrence(s: string, m: string)
    requires |m| > 0 && BorderFree(m) && Contains(s, m)
    ensures LastIndexOf(s, m) + |m| <= |s|
    ensures LastPiece(s, m) == s[LastIndexOf(s, m) + |m|..]
  {
    var parts := Split(s, m);
    SplitJoin(s, m);
    SplitPieceIsClean(s, m, |parts| - 1);
    LastOfJoin(parts, m);
  }

  /** In a join of two or more parts whose last part lacks the border-free
      separator, the last part follows the last separator. */
  lemma LastOfJoin(parts: seq<string>, m: string)
    requires |parts| >= 2 && BorderFree(m) && !Contains(parts[|parts| - 1], m)
    ensures var s := Join(parts, m);
      LastIndexOf(s, m) + |m| <= |s| && s[LastIndexOf(s, m) + |m|..] == parts[|parts| - 1]
  {
    var n := |parts|;
    var x := Join(parts[..n - 1], m);
    var y := parts[n - 1];
    JoinSnoc(parts, m);
    LastIndexAtMarker(x, m, y);
    AfterMarker(x, m, y);
  }

  /** The text after `x + m` in `x + m + y` is `y`. */
  lemma AfterMarker(x: string, m: string, y: string)
    ensures (x + m + y)[|x| + |m|..] == y
  {
  }

  /** A join of two or more parts ends with the separator and the last part. */
  lemma {:induction false} JoinSnoc(parts: seq<string>, sep: string)
    requires |parts| >= 2
    ensures Join(parts, sep) == Join(parts[..|parts| - 1], sep) + sep + parts[|parts| - 1]
    decreases |parts|
  {
    var n := |parts|;
    if n == 2 {
      assert parts[..1] == [parts[0]];
    } else {
      var tail := parts[1..];
      JoinSnoc(tail, sep);
      var init := parts[..n - 1];
      assert init[1..] == tail[..|tail| - 1];
      assert Join(init, sep) == init[0] + sep + Join(init[1..], sep);
    }
  }

  // ---------------------------------------------------------------------------
  // Filtering

  /** The elements of `s` that satisfy `keep`, in their original order. */
  function Filter<T>(s: seq<T>, keep: T -> bool): (r: seq<T>)
    ensures |r| <= |s|
  {
    if |s| == 0 then []
    else if keep(s[0]) then [s[0]] + Filter(s[1..], keep)
    else Filter(s[1..], keep)
  }

  /** An element is kept exactly when it is in the input and satisfies `keep`. */
  lemma {:induction false} FilterMembership<T>(s: seq<T>, keep: T -> bool, x: T)
    ensures x in Filter(s, keep) <==> x in s && keep(x)
  {
    if |s| > 0 {
      FilterMembership(s[1..], keep, x);
      assert s == [s[0]] + s[1..];
    }
  }
}
