/** The definition parser of `Generate.WriteDDL` (model/generate.go:633-637):
the element block of a captured `SHOW CREATE TABLE` text is the slice from its
first `(` up to, not including, its last `ENGINE`, and the block's element
lines are its pieces between line breaks.
 */
module Definition {
  import opened Text
  import opened Failures

  const Engine := "ENGINE"

  /** `capture[Index(capture, "("):LastIndex(capture, "ENGINE")]`, or `None`
      where Go's slice expression would panic: no `(` at all, or no `ENGINE`
      at or after the first `(`. */
  function ElementBlock(capture: string): (r: Option<string>)
    ensures r.None? <==> '(' !in capture || LastIndexOf(capture, Engine) < IndexOf(capture, "(")
    ensures r.Some? ==>
              var i := IndexOf(capture, "(");
              && 0 <= i
              && '(' !in capture[..i]
              && OccursAt(capture, r.value, i)
              && |r.value| > 0 && r.value[0] == '('
              && LastIndexOf(capture, Engine) == i + |r.value|
  {
    var open := IndexOf(capture, "(");
    var engine := LastIndexOf(capture, Engine);
    SliceBounds(capture);
    if open < 0 || engine < open then None
    else Some(capture[open..engine])
  }

  /** The element block is absent exactly where Go's slice panics: there is no
      `(`, or no `ENGINE` at or after the first `(`. */
  lemma ElementBlockAbsent(capture: string)
    ensures ElementBlock(capture).None? <==>
              || '(' !in capture
              || forall j :: IndexOf(capture, "(") <= j ==> !OccursAt(capture, Engine, j)
  {
    SliceBounds(capture);
  }

  /** The facts about the first `(` and the last `ENGINE` that make the slice in
      `ElementBlock` well defined and characterise when it is not. */
  lemma SliceBounds(capture: string)
    ensures '(' in capture <==> IndexOf(capture, "(") >= 0
    ensures IndexOf(capture, "(") >= 0 ==>
              (LastIndexOf(capture, Engine) < IndexOf(capture, "(") <==>
                 forall j :: IndexOf(capture, "(") <= j ==> !OccursAt(capture, Engine, j))
    ensures 0 <= IndexOf(capture, "(") <= LastIndexOf(capture, Engine) ==>
              var open := IndexOf(capture, "(");
              var engine := LastIndexOf(capture, Engine);
              && open < engine <= |capture|
              && capture[open] == '('
              && '(' !in capture[..open]
  {
    CharContains(capture, '(');
    var open := IndexOf(capture, "(");
    var engine := LastIndexOf(capture, Engine);
    if 0 <= open <= engine {
      OccurrenceHead(capture, "(", open);
      OccurrenceHead(capture, Engine, engine);
      CharBeforeFirst(capture, '(');
    }
    if 0 <= open && engine < open {
      forall j | open <= j
        ensures !OccursAt(capture, Engine, j)
      {
        if OccursAt(capture, Engine, j) {
          OccurrenceBetween(capture, Engine, j);
        }
      }
    }
  }

  /** The element lines of a block: Go's `strings.Split(block, "\n")`. */
  function Lines(block: string): (lines: seq<string>)
    ensures |lines| >= 1
    ensures forall k :: 0 <= k < |lines| ==> '\n' !in lines[k]
    ensures Join(lines, "\n") == block
  {
    var lines := Split(block, "\n");
    SplitJoin(block, "\n");
    forall k | 0 <= k < |lines|
      ensures '\n' !in lines[k]
    {
      SplitPieceIsClean(block, "\n", k);
      CharContains(lines[k], '\n');
    }
    lines
  }

  /** Text before the first `(` has no say in the element block. */
  lemma BlockIgnoresPrefix(pre: string, tail: string)
    requires '(' !in pre
    requires |tail| > 0 && tail[0] == '('
    ensures ElementBlock(pre + tail) == ElementBlock(tail)
  {
    assert '(' in tail;
    IndexOfCharAfterPrefix(pre, tail, '(');
    IndexIs(tail, "(", 0);
    if Contains(tail, Engine) {
      PrefixBeforeEngine(pre, tail);
    } else {
      NoEngineAfterPrefix(pre, tail);
    }
  }

  /** The case of `BlockIgnoresPrefix` where `tail` holds an `ENGINE`. */
  lemma PrefixBeforeEngine(pre: string, tail: string)
    requires IndexOf(tail, "(") == 0 && IndexOf(pre + tail, "(") == |pre|
    requires Contains(tail, Engine)
    ensures ElementBlock(pre + tail) == ElementBlock(tail)
  {
    LastIndexOfAppend(pre, tail, Engine);
    var lt := LastIndexOf(tail, Engine);
    BlockAt(tail, 0, lt);
    BlockAt(pre + tail, |pre|, |pre| + lt);
    assert (pre + tail)[|pre|..|pre| + lt] == tail[0..lt];
  }

  /** Without `ENGINE` in `tail`, the last `ENGINE` of `pre + tail`, if any,
      starts inside `pre`. */
  lemma NoEngineAfterPrefix(pre: string, tail: string)
    requires !Contains(tail, Engine)
    ensures LastIndexOf(pre + tail, Engine) < |pre|
  {
    var lc := LastIndexOf(pre + tail, Engine);
    if |pre| <= lc {
      OccurrenceInConcat(pre, tail, Engine, lc);
    }
  }

  /** The element block does not depend on text before the definition, as long
      as that text has no `(`, nor on text after it, as long as that text has no
      `ENGINE` and does not start with a letter of `ENGINE`. */
  lemma BlockIgnoresSurroundings(pre: string, tail: string, post: string)
    requires '(' !in pre
    requires |tail| > 0 && tail[0] == '('
    requires ElementBlock(tail).Some?
    requires !Contains(post, Engine) && |post| > 0 && post[0] !in Engine
    ensures ElementBlock(pre + tail + post) == ElementBlock(tail)
  {
    BlockIgnoresSuffix(tail, post);
    BlockIgnoresPrefix(pre, tail + post);
    assert pre + tail + post == pre + (tail + post);
  }

  /** Text after the last `ENGINE` that brings no `ENGINE` of its own has no
      say in the element block. */
  lemma BlockIgnoresSuffix(tail: string, post: string)
    requires |tail| > 0 && tail[0] == '('
    requires ElementBlock(tail).Some?
    requires !Contains(post, Engine) && |post| > 0 && post[0] !in Engine
    ensures |tail + post| > 0 && (tail + post)[0] == '('
    ensures ElementBlock(tail + post) == ElementBlock(tail)
  {
    var x := tail + post;
    var lt := LastIndexOf(tail, Engine);
    IndexIs(tail, "(", 0);
    OccursInLeft(tail, post, "(", 0);
    IndexIs(x, "(", 0);
    LastIndexOfBeforeClean(tail, post, Engine);
    BlockAt(tail, 0, lt);
    BlockAt(x, 0, lt);
    assert x[0..lt] == tail[0..lt];
  }

  /** The element block of a capture whose first `(` and last `ENGINE` are
      known. */
  lemma BlockAt(capture: string, open: int, engine: int)
    requires IndexOf(capture, "(") == open && LastIndexOf(capture, Engine) == engine
    requires 0 <= open <= engine
    ensures engine <= |capture|
    ensures ElementBlock(capture) == Some(capture[open..engine])
  {
  }
}
