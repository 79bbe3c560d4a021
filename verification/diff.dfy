/** The snapshot differ of `Generate.WriteDDL` (model/generate.go:636-658).

Each element line of one capture is tested against the WHOLE element block of
the other capture, by substring search: a line found verbatim is unchanged; a
line whose identifying token is found is a modification (forward pass) or is
skipped (backward pass); any other line is added (forward) or removed
(backward).
 */
module Diff {
  import opened Text
  import opened Failures
  import opened Definition

  /** The identifying token of an element line: Go's
      `w[strings.Index(w, "`"):strings.LastIndex(w, "`")]`, that is from the
      first backtick up to, not including, the last one. `None` where that
      slice panics, on a line without any backtick. */
  function Token(line: string): (r: Option<string>)
    ensures r.None? <==> '`' !in line
    ensures r.Some? ==>
              var i := IndexOf(line, "`");
              && OccursAt(line, r.value, i)
              && LastIndexOf(line, "`") == i + |r.value|
              && (r.value != "" ==> r.value[0] == '`')
  {
    CharContains(line, '`');
    var first := IndexOf(line, "`");
    var last := LastIndexOf(line, "`");
    if first < 0 then None
    else
      OccurrenceBetween(line, "`", first);
      OccurrenceHead(line, "`", first);
      Some(line[first..last])
  }

  /** A line with a single backtick has an empty token. */
  lemma SingleBacktickTokenIsEmpty(line: string)
    requires '`' in line
    requires IndexOf(line, "`") == LastIndexOf(line, "`")
    ensures Token(line) == Some("")
  {
  }

  /** `line` is not found verbatim in `other`, but its token is: the element
      changed its definition while keeping its name. */
  predicate Retokened(line: string, other: string)
  {
    && !Contains(other, line)
    && match Token(line)
       case None => false
       case Some(t) => Contains(other, t)
  }

  /** Neither `line` nor its token is found in `other`: the element exists only
      on this side. */
  predicate Unmatched(line: string, other: string)
  {
    && !Contains(other, line)
    && match Token(line)
       case None => false
       case Some(t) => !Contains(other, t)
  }

  /** `line` is neither found verbatim nor has a token to look for: the Go code
      panics on such a line. */
  predicate Untokenable(line: string, other: string)
  {
    !Contains(other, line) && '`' !in line
  }

  /** Every line is exactly one of: found verbatim, retokened, unmatched,
      untokenable. */
  lemma Trichotomy(line: string, other: string)
    ensures Contains(other, line) ==> !Retokened(line, other) && !Unmatched(line, other) && !Untokenable(line, other)
    ensures !Contains(other, line) ==>
              (Retokened(line, other) || Unmatched(line, other) || Untokenable(line, other))
    ensures !(Retokened(line, other) && Unmatched(line, other))
    ensures !(Untokenable(line, other) && (Retokened(line, other) || Unmatched(line, other)))
  {
  }

  /** A line with a single backtick is never unmatched, since its empty token
      is contained in every block: it can be modified, never added or removed. */
  lemma SingleBacktickNeverUnmatched(line: string, other: string)
    requires '`' in line
    requires IndexOf(line, "`") == LastIndexOf(line, "`")
    ensures !Unmatched(line, other)
  {
    EmptyIsContained(other);
  }

  /** An unmatched line has at least two backticks: a non-empty token that
      starts at its first backtick and stops at a later, last one. */
  lemma UnmatchedHasTwoBackticks(line: string, other: string)
    requires Unmatched(line, other)
    ensures Token(line).Some? && Token(line).value != ""
    ensures IndexOf(line, "`") < LastIndexOf(line, "`")
  {
    EmptyIsContained(other);
  }

  /** The forward pass (model/generate.go:641-649) over the new block's lines:
      the added lines and the modified lines, each in new-block order, or the
      first line on which Go's token slice panics. */
  function Forward(lines: seq<string>, before: string): (r: Result<(seq<string>, seq<string>)>)
    ensures r.Err? <==> exists k :: 0 <= k < |lines| && Untokenable(lines[k], before)
    ensures r.Ok? ==> r.value.0 == Filter(lines, w => Unmatched(w, before))
    ensures r.Ok? ==> r.value.1 == Filter(lines, w => Retokened(w, before))
    ensures r.Err? ==> r.failure.UnquotedLine?
    decreases |lines|
  {
    if |lines| == 0 then Ok(([], []))
    else
      var w := lines[0];
      assert lines == [w] + lines[1..];
      if Contains(before, w) then Forward(lines[1..], before)
      else match Token(w)
        case None => Err(UnquotedLine(w))
        case Some(t) =>
          var rest :- Forward(lines[1..], before);
          if Contains(before, t) then Ok((rest.0, [w] + rest.1))
          else Ok(([w] + rest.0, rest.1))
  }

  /** The backward pass (model/generate.go:651-658) over the old block's lines:
      the removed lines in old-block order, or the first line on which Go's
      token slice panics. */
  function Backward(lines: seq<string>, after: string): (r: Result<seq<string>>)
    ensures r.Err? <==> exists k :: 0 <= k < |lines| && Untokenable(lines[k], after)
    ensures r.Ok? ==> r.value == Filter(lines, w => Unmatched(w, after))
    ensures r.Err? ==> r.failure.UnquotedLine?
    decreases |lines|
  {
    if |lines| == 0 then Ok([])
    else
      var w := lines[0];
      assert lines == [w] + lines[1..];
      if Contains(after, w) then Backward(lines[1..], after)
      else match Token(w)
        case None => Err(UnquotedLine(w))
        case Some(t) =>
          var rest :- Backward(lines[1..], after);
          if Contains(after, t) then Ok(rest)
          else Ok([w] + rest)
  }

  /** The classified difference between two captures (the DiffEntry lists). */
  datatype Changes = Changes(added: seq<string>, removed: seq<string>, modified: seq<string>)

  /** Both passes over two element blocks: forward first, then backward, as in
      the source, so a forward-pass panic wins. */
  function Compare(oldBlock: string, newBlock: string): (r: Result<Changes>)
    ensures r.Ok? ==> r.value.added == Filter(Lines(newBlock), w => Unmatched(w, oldBlock))
    ensures r.Ok? ==> r.value.modified == Filter(Lines(newBlock), w => Retokened(w, oldBlock))
    ensures r.Ok? ==> r.value.removed == Filter(Lines(oldBlock), w => Unmatched(w, newBlock))
    ensures Forward(Lines(newBlock), oldBlock).Err? ==> r == Err(Forward(Lines(newBlock), oldBlock).failure)
    ensures r.Err? ==> r.failure.UnquotedLine?
  {
    var (added, modified) :- Forward(Lines(newBlock), oldBlock);
    var removed :- Backward(Lines(oldBlock), newBlock);
    Ok(Changes(added, removed, modified))
  }

  /** What each list of a successful comparison holds: an added line is a new
      line found neither verbatim nor by token in the old block; a modified
      line is a new line found by token only; a removed line is an old line
      found neither verbatim nor by token in the new block. No line is both
      added and modified, and a line found verbatim in the other block is in
      no list. */
  lemma CompareMembership(oldBlock: string, newBlock: string, w: string)
    requires Compare(oldBlock, newBlock).Ok?
    ensures var c := Compare(oldBlock, newBlock).value;
      && (w in c.added <==> w in Lines(newBlock) && Unmatched(w, oldBlock))
      && (w in c.modified <==> w in Lines(newBlock) && Retokened(w, oldBlock))
      && (w in c.removed <==> w in Lines(oldBlock) && Unmatched(w, newBlock))
      && !(w in c.added && w in c.modified)
      && (Contains(oldBlock, w) ==> w !in c.added && w !in c.modified)
      && (Contains(newBlock, w) ==> w !in c.removed)
  {
    var c := Compare(oldBlock, newBlock).value;
    FilterMembership(Lines(newBlock), w => Unmatched(w, oldBlock), w);
    FilterMembership(Lines(newBlock), w => Retokened(w, oldBlock), w);
    FilterMembership(Lines(oldBlock), w => Unmatched(w, newBlock), w);
    Trichotomy(w, oldBlock);
    Trichotomy(w, newBlock);
  }

  /** The comparison fails only on a line that is neither found verbatim in the
      other block nor carries a backtick. */
  lemma CompareFailsOnlyOnUnquoted(oldBlock: string, newBlock: string)
    ensures Compare(oldBlock, newBlock).Err? <==>
              || (exists k :: 0 <= k < |Lines(newBlock)| && Untokenable(Lines(newBlock)[k], oldBlock))
              || (exists k :: 0 <= k < |Lines(oldBlock)| && Untokenable(Lines(oldBlock)[k], newBlock))
  {
  }

  /** Comparing a block with itself finds every line verbatim: no change. */
  lemma CompareSelfIsEmpty(block: string)
    ensures Compare(block, block) == Ok(Changes([], [], []))
  {
    var lines := Lines(block);
    forall k | 0 <= k < |lines|
      ensures Contains(block, lines[k])
    {
      JoinedPartIsContained(lines, "\n", k);
    }
    FilterNone(lines, w => Unmatched(w, block));
    FilterNone(lines, w => Retokened(w, block));
  }

  /** Each part of a join occurs in the joined text. */
  lemma {:induction false} JoinedPartIsContained(parts: seq<string>, sep: string, k: int)
    requires 0 <= k < |parts|
    ensures Contains(Join(parts, sep), parts[k])
    decreases |parts|
  {
    if |parts| == 1 {
      ContainsWitness(parts[0], parts[0], 0);
    } else {
      var rest := Join(parts[1..], sep);
      assert Join(parts, sep) == parts[0] + (sep + rest);
      if k == 0 {
        OccursInLeft(parts[0], sep + rest, parts[0], 0);
      } else {
        JoinedPartIsContained(parts[1..], sep, k - 1);
        var j := IndexOf(rest, parts[k]);
        OccursInRight(sep, rest, parts[k], j);
        OccursInRight(parts[0], sep + rest, parts[k], |sep| + j);
        assert parts[0] + sep + rest == parts[0] + (sep + rest);
      }
    }
  }

  /** Filtering keeps nothing when no element satisfies the predicate. */
  lemma {:induction false} FilterNone<T>(s: seq<T>, keep: T -> bool)
    requires forall k :: 0 <= k < |s| ==> !keep(s[k])
    ensures Filter(s, keep) == []
  {
    if |s| > 0 {
      FilterNone(s[1..], keep);
    }
  }
}
