/** The history log and one run of `Generate.WriteDDL`
(model/generate.go:565-714), minus the file system: the per-table `.sql` file
is a string that a run only ever extends at its end, the clock reading and the
host name are parameters, and every Go panic is an `Err`.

A run reads the previous capture (the text after the last `Create@` marker),
builds the fresh entry, and then either appends that entry (no previous
capture), appends nothing (same element block), or appends an update entry
carrying the synthesised statements.
 */
module History {
  import opened Text
  import opened Failures
  import opened Definition
  import opened Diff
  import opened Synth

  /** The marker every entry header carries; what follows the last one is the
      previous capture. */
  const Marker := "Create@"

  /** The closing line of every entry: "# " and 85 equals signs. */
  const Delimiter := "# " + Rule(85) + "\n"

  /** A rule of `n` equals signs. */
  function Rule(n: nat): (r: string)
    ensures |r| == n && forall i :: 0 <= i < n ==> r[i] == '='
  {
    if n == 0 then "" else "=" + Rule(n - 1)
  }

  /** The line that opens the change section of an update entry (the colon is
      the full-width U+FF1A, as in the source). */
  const ChangeHeading := ";\n# change：\n"

  /** The header after the marker: "<stamp>,By: <host>" and a line break. */
  function Signature(stamp: string, host: string): string
  {
    stamp + ",By: " + host + "\n"
  }

  /** The fresh definition from its first `(` on (Go's
      `ddl[strings.Index(ddl, "("):]`): the suffix of `ddl` that starts with
      `(` and leaves no `(` before it. */
  function DefinitionTail(ddl: string): (r: string)
    requires '(' in ddl
    ensures |r| > 0 && r[0] == '('
    ensures |r| <= |ddl| && ddl[|ddl| - |r|..] == r && '(' !in ddl[..|ddl| - |r|]
  {
    CharBeforeFirst(ddl, '(');
    var open := IndexOf(ddl, "(");
    OccurrenceHead(ddl, "(", open);
    ddl[open..]
  }

  /** The line that names the table: "create table if not exists <table>". */
  function Preamble(table: string): string
  {
    "create table if not exists " + table + "\n"
  }

  /** The fresh definition as an entry shows it. */
  function CreateText(table: string, ddl: string): string
    requires '(' in ddl
  {
    Preamble(table) + DefinitionTail(ddl)
  }

  /** What a first entry holds after its marker: the signature, the fresh
      definition, ";" and the delimiter. */
  function FirstBody(stamp: string, host: string, table: string, ddl: string): string
    requires '(' in ddl
  {
    Signature(stamp, host) + CreateText(table, ddl) + ";\n" + Delimiter
  }

  /** The entry a first run appends (model/generate.go:615-630). */
  function FirstEntry(stamp: string, host: string, table: string, ddl: string): string
    requires '(' in ddl
  {
    "# " + Marker + FirstBody(stamp, host, table, ddl)
  }

  /** What an update entry holds after its marker: the signature, the fresh
      definition, the change heading, the statements and the delimiter. */
  function UpdateBody(stamp: string, host: string, table: string, ddl: string, changes: string): string
    requires '(' in ddl
  {
    Signature(stamp, host) + CreateText(table, ddl) + ChangeHeading + changes + Delimiter
  }

  /** The entry an update appends (model/generate.go:699-708): a blank line and
      a fresh header before the update body. */
  function UpdateEntry(stamp: string, host: string, table: string, ddl: string, changes: string): string
    requires '(' in ddl
  {
    "\n# " + Marker + UpdateBody(stamp, host, table, ddl, changes)
  }

  /** The previous capture (model/generate.go:608-611): the last piece of the
      history split at the marker, or nothing if the history has no marker. */
  function PreviousCapture(history: string): (r: string)
    ensures !Contains(history, Marker) ==> r == ""
    ensures Contains(history, Marker) ==>
              && LastIndexOf(history, Marker) + |Marker| <= |history|
              && r == history[LastIndexOf(history, Marker) + |Marker|..]
    ensures !Contains(r, Marker)
  {
    EmptyIsAbsent();
    if Contains(history, Marker) then
      MarkerIsBorderFree();
      LastPieceFollowsLastOccurrence(history, Marker);
      LastPiece(history, Marker)
    else ""
  }

  /** What a run does to the history. */
  datatype Outcome =
    /** no previous capture: the whole fresh entry is appended */
    | Initial(entry: string)
    /** same element block as the previous capture: nothing is appended */
    | Unchanged
    /** a changed element block: the statements and the entry carrying them */
    | Updated(statements: seq<Statement>, entry: string)

  /** The text a run appends to the history. */
  function Appended(o: Outcome): string
  {
    match o
    case Initial(entry) => entry
    case Unchanged => ""
    case Updated(_, entry) => entry
  }

  /** The fresh capture as the source reads it back (model/generate.go:632,
      634): the second piece of the fresh entry split at the marker. */
  function CurrentCapture(stamp: string, host: string, table: string, ddl: string): (r: string)
    requires '(' in ddl
    ensures !Contains(r, Marker)
  {
    var parts := Split(FirstEntry(stamp, host, table, ddl), Marker);
    MarkerAfterLead("# ", FirstBody(stamp, host, table, ddl));
    SplitPieceIsClean(FirstEntry(stamp, host, table, ddl), Marker, 1);
    parts[1]
  }

  /** The statements for two differing element blocks: compare, then
      synthesise. */
  function Statements(commas: CommaRule, before: string, after: string): (r: Result<seq<Statement>>)
    ensures r.Ok? <==> Compare(before, after).Ok? && Synthesize(commas, Compare(before, after).value).Ok?
    ensures r.Ok? ==> r.value == Synthesize(commas, Compare(before, after).value).value
    ensures Compare(before, after).Err? ==> r == Err(Compare(before, after).failure)
    ensures r.Err? ==> r.failure.UnquotedLine? || r.failure.BadKeyColumns?
  {
    var changes :- Compare(before, after);
    Synthesize(commas, changes)
  }

  /** One run of `WriteDDL` on the history text. */
  function WriteDDL(commas: CommaRule, history: string, stamp: string, host: string, table: string, ddl: string): (r: Result<Outcome>)
    ensures r == Err(MissingParen) <==> '(' !in ddl
    ensures r.Ok? && r.value.Initial? <==> '(' in ddl && PreviousCapture(history) == ""
    ensures r.Ok? && r.value.Initial? ==> r.value.entry == FirstEntry(stamp, host, table, ddl)
    ensures r.Ok? && !r.value.Initial? ==>
              && ElementBlock(PreviousCapture(history)).Some?
              && ElementBlock(CurrentCapture(stamp, host, table, ddl)).Some?
              && (r.value.Unchanged? <==>
                    ElementBlock(PreviousCapture(history)) == ElementBlock(CurrentCapture(stamp, host, table, ddl)))
    ensures r.Ok? && r.value.Updated? ==>
              && Statements(commas, ElementBlock(PreviousCapture(history)).value,
                            ElementBlock(CurrentCapture(stamp, host, table, ddl)).value) == Ok(r.value.statements)
              && r.value.entry == UpdateEntry(stamp, host, table, ddl, ChangeText(r.value.statements, table))
    ensures '(' in ddl && PreviousCapture(history) != "" ==>
              var before := ElementBlock(PreviousCapture(history));
              var after := ElementBlock(CurrentCapture(stamp, host, table, ddl));
              && (before.None? ==> r == Err(MalformedPrevious))
              && (before.Some? && after.None? ==> r == Err(MalformedCurrent))
              && (before.Some? && after.Some? && before == after ==> r == Ok(Unchanged))
              && (before.Some? && after.Some? && before != after ==>
                    && (r.Ok? <==> Statements(commas, before.value, after.value).Ok?)
                    && (r.Ok? ==> r.value.Updated?)
                    && (r.Err? ==> r == Err(Statements(commas, before.value, after.value).failure)))
  {
    var readDDL := PreviousCapture(history);
    if '(' !in ddl then Err(MissingParen)
    else if |readDDL| == 0 then Ok(Initial(FirstEntry(stamp, host, table, ddl)))
    else
      var readField := ElementBlock(readDDL);
      var writeField := ElementBlock(CurrentCapture(stamp, host, table, ddl));
      if readField.None? then Err(MalformedPrevious)
      else if writeField.None? then Err(MalformedCurrent)
      else if readField == writeField then Ok(Unchanged)
      else
        var statements :- Statements(commas, readField.value, writeField.value);
        Ok(Updated(statements, UpdateEntry(stamp, host, table, ddl, ChangeText(statements, table))))
  }

  /** The history after a run: the old history, byte for byte, followed by what
      the run appended. */
  function Run(commas: CommaRule, history: string, stamp: string, host: string, table: string, ddl: string): (r: Result<string>)
    ensures r.Ok? <==> WriteDDL(commas, history, stamp, host, table, ddl).Ok?
    ensures r.Ok? ==> |history| <= |r.value| && r.value[..|history|] == history
    ensures r.Ok? ==> r.value == history + Appended(WriteDDL(commas, history, stamp, host, table, ddl).value)
  {
    var o :- WriteDDL(commas, history, stamp, host, table, ddl);
    var r := history + Appended(o);
    assert r[..|history|] == history;
    Ok(r)
  }

  // ---------------------------------------------------------------------------
  // Properties of a run

  /** Header texts that neither open a definition nor fake an entry header:
      clock readings, host names and table names are of this kind. */
  predicate Plain(x: string)
  {
    '(' !in x && !Contains(x, Marker)
  }

  /** With no marker in the history there is no previous capture: the run
      appends the whole fresh entry and computes no diff. */
  lemma FirstRunAppendsEntry(commas: CommaRule, history: string, stamp: string, host: string, table: string, ddl: string)
    requires !Contains(history, Marker) && '(' in ddl
    ensures WriteDDL(commas, history, stamp, host, table, ddl) == Ok(Initial(FirstEntry(stamp, host, table, ddl)))
    ensures Run(commas, history, stamp, host, table, ddl) == Ok(history + FirstEntry(stamp, host, table, ddl))
  {
  }

  /** Reading back after an append: text that ends with the marker and a body
      free of it has exactly that body as its previous capture, whatever came
      before. */
  lemma {:induction false} CaptureAfterAppend(history: string, lead: string, body: string)
    requires !Contains(body, Marker)
    ensures PreviousCapture(history + lead + Marker + body) == body
  {
    var s := history + lead + Marker + body;
    MarkerIsBorderFree();
    LastIndexAtMarker(history + lead, Marker, body);
    MarkerAfterLead(history + lead, body);
    assert s[|history + lead| + |Marker|..] == body;
  }

  /** The fresh capture the source splits back out of its own entry is the
      entry's body, when the header texts and the definition hold no marker. */
  lemma {:induction false} CurrentCaptureIsFirstBody(stamp: string, host: string, table: string, ddl: string)
    requires '(' in ddl
    requires !Contains(FirstBody(stamp, host, table, ddl), Marker)
    ensures CurrentCapture(stamp, host, table, ddl) == FirstBody(stamp, host, table, ddl)
  {
    var body := FirstBody(stamp, host, table, ddl);
    var sb := FirstEntry(stamp, host, table, ddl);
    MarkerAfterLead("# ", body);
    OccursInRight("# ", Marker + body, Marker, 0) by {
      OccursInLeft(Marker, body, Marker, 0);
    }
    forall j | j < 2
      ensures !OccursAt(sb, Marker, j)
    {
      if OccursAt(sb, Marker, j) {
        OccurrenceHead(sb, Marker, j);
      }
    }
    IndexIs(sb, Marker, 2);
    SplitHead(sb, Marker);
    assert sb[2 + |Marker|..] == body;
  }

  /** Every entry body the model writes has the fresh definition's element
      block as its element block, whatever follows the definition, provided
      the header texts hold no `(` and the trailing text no `ENGINE`. */
  lemma BodyBlock(stamp: string, host: string, table: string, ddl: string, trailer: string)
    requires '(' !in stamp && '(' !in host && '(' !in table
    requires ElementBlock(ddl).Some?
    requires !Contains(trailer, Engine) && |trailer| > 0 && trailer[0] !in Engine
    ensures '(' in ddl
    ensures ElementBlock(Signature(stamp, host) + CreateText(table, ddl) + trailer) == ElementBlock(ddl)
  {
    TailBlock(ddl);
    var tail := DefinitionTail(ddl);
    var pre := Signature(stamp, host) + Preamble(table);
    PreambleHasNoParen(stamp, host, table);
    BodyParts(stamp, host, table, ddl, trailer);
    BlockIgnoresSurroundings(pre, tail, trailer);
  }

  lemma BodyParts(stamp: string, host: string, table: string, ddl: string, trailer: string)
    requires '(' in ddl
    ensures Signature(stamp, host) + CreateText(table, ddl) + trailer ==
            Signature(stamp, host) + Preamble(table) + DefinitionTail(ddl) + trailer
  {
  }

  /** Cutting the definition at its first `(` keeps its element block. */
  lemma TailBlock(ddl: string)
    requires '(' in ddl
    ensures ElementBlock(DefinitionTail(ddl)) == ElementBlock(ddl)
  {
    var tail := DefinitionTail(ddl);
    var head := ddl[..|ddl| - |tail|];
    assert ddl == head + tail;
    BlockIgnoresPrefix(head, tail);
  }

  lemma PreambleHasNoParen(stamp: string, host: string, table: string)
    requires '(' !in stamp && '(' !in host && '(' !in table
    ensures '(' !in Signature(stamp, host) + Preamble(table)
  {
  }

  /** An entry body holds no marker when its parts hold none. */
  lemma BodyHasNoMarker(stamp: string, host: string, table: string, ddl: string, trailer: string)
    requires Plain(stamp) && Plain(host) && Plain(table)
    requires '(' in ddl && !Contains(ddl, Marker)
    requires !Contains(trailer, Marker) && |trailer| > 0 && trailer[0] !in Marker
    ensures !Contains(Signature(stamp, host) + CreateText(table, ddl) + trailer, Marker)
  {
    var sig := Signature(stamp, host);
    var create := CreateText(table, ddl);
    SignatureHasNoMarker(stamp, host);
    CreateTextHasNoMarker(table, ddl);
    ConcatKeepsAbsence(sig, create, Marker);
    ConcatKeepsAbsence(sig + create, trailer, Marker);
  }

  lemma SignatureHasNoMarker(stamp: string, host: string)
    requires Plain(stamp) && Plain(host)
    ensures !Contains(Signature(stamp, host), Marker)
    ensures |Signature(stamp, host)| > 0 && Signature(stamp, host)[|Signature(stamp, host)| - 1] == '\n'
  {
    FirstCharAbsent(",By: ", Marker);
    FirstCharAbsent("\n", Marker);
    var x1 := stamp + ",By: ";
    ConcatKeepsAbsence(stamp, ",By: ", Marker);
    var x2 := x1 + host;
    ConcatKeepsAbsence(x1, host, Marker);
    ConcatKeepsAbsence(x2, "\n", Marker);
  }

  lemma CreateTextHasNoMarker(table: string, ddl: string)
    requires Plain(table)
    requires '(' in ddl && !Contains(ddl, Marker)
    ensures !Contains(CreateText(table, ddl), Marker)
  {
    var tail := DefinitionTail(ddl);
    SliceKeepsAbsence(ddl, |ddl| - |tail|, |ddl|, Marker);
    assert ddl[|ddl| - |tail|..|ddl|] == tail;
    FirstCharAbsent("\n", Marker);
    FirstCharAbsent("create table if not exists ", Marker);
    var x1 := "create table if not exists " + table;
    ConcatKeepsAbsence("create table if not exists ", table, Marker);
    ConcatKeepsAbsence(x1, "\n", Marker);
    ConcatKeepsAbsence(Preamble(table), tail, Marker);
  }

  /** The trailer of a first entry: ";" and the delimiter. */
  lemma FirstTrailerIsClean()
    ensures !Contains(";\n" + Delimiter, Marker) && !Contains(";\n" + Delimiter, Engine)
  {
    FirstCharAbsent(";\n" + Delimiter, Marker);
    FirstCharAbsent(";\n" + Delimiter, Engine);
  }

  /** The trailer of an update entry: the change heading, the statements and
      the delimiter; it holds the marker only if the statements do. */
  lemma UpdateTrailerHasNoMarker(changes: string)
    requires !Contains(changes, Marker)
    ensures !Contains(ChangeHeading + changes + Delimiter, Marker)
  {
    FrameIsClean(Marker);
    FramedKeepsAbsence(ChangeHeading, changes, Delimiter, Marker);
  }

  /** The change heading and the delimiter hold neither the marker nor
      `ENGINE`, and cannot share an occurrence with the text between them. */
  lemma FrameIsClean(p: string)
    requires p == Marker || p == Engine
    ensures !Contains(ChangeHeading, p) && !Contains(Delimiter, p)
    ensures |ChangeHeading| > 0 && ChangeHeading[|ChangeHeading| - 1] !in p
    ensures |Delimiter| > 0 && Delimiter[0] !in p
  {
    FirstCharAbsent(ChangeHeading, p);
    FirstCharAbsent(Delimiter, p);
  }

  /** Likewise for `ENGINE`. */
  lemma UpdateTrailerHasNoEngine(changes: string)
    requires !Contains(changes, Engine)
    ensures !Contains(ChangeHeading + changes + Delimiter, Engine)
  {
    FrameIsClean(Engine);
    FramedKeepsAbsence(ChangeHeading, changes, Delimiter, Engine);
  }

  /** Text framed by two pieces that cannot take part in an occurrence of `p`
      holds `p` only if the framed text does. */
  lemma FramedKeepsAbsence(head: string, middle: string, foot: string, p: string)
    requires !Contains(head, p) && !Contains(middle, p) && !Contains(foot, p)
    requires |head| > 0 && head[|head| - 1] !in p
    requires |foot| > 0 && foot[0] !in p
    ensures !Contains(head + middle + foot, p)
  {
    ConcatKeepsAbsence(head, middle, p);
    ConcatKeepsAbsence(head + middle, foot, p);
  }

  /** The first entry's body: clean of the marker, and with the definition's
      element block. */
  lemma FirstBodyFacts(stamp: string, host: string, table: string, ddl: string)
    requires Plain(stamp) && Plain(host) && Plain(table)
    requires !Contains(ddl, Marker) && ElementBlock(ddl).Some?
    ensures '(' in ddl
    ensures !Contains(FirstBody(stamp, host, table, ddl), Marker)
    ensures ElementBlock(FirstBody(stamp, host, table, ddl)) == ElementBlock(ddl)
    ensures CurrentCapture(stamp, host, table, ddl) == FirstBody(stamp, host, table, ddl)
  {
    FirstBodyBlock(stamp, host, table, ddl);
    FirstBodyHasNoMarker(stamp, host, table, ddl);
    CurrentCaptureIsFirstBody(stamp, host, table, ddl);
  }

  lemma FirstBodyBlock(stamp: string, host: string, table: string, ddl: string)
    requires Plain(stamp) && Plain(host) && Plain(table)
    requires ElementBlock(ddl).Some?
    ensures '(' in ddl
    ensures ElementBlock(FirstBody(stamp, host, table, ddl)) == ElementBlock(ddl)
  {
    FirstTrailerIsClean();
    BodyBlock(stamp, host, table, ddl, ";\n" + Delimiter);
    FirstBodyIs(stamp, host, table, ddl);
  }

  lemma FirstBodyHasNoMarker(stamp: string, host: string, table: string, ddl: string)
    requires Plain(stamp) && Plain(host) && Plain(table)
    requires '(' in ddl && !Contains(ddl, Marker)
    ensures !Contains(FirstBody(stamp, host, table, ddl), Marker)
  {
    FirstTrailerIsClean();
    BodyHasNoMarker(stamp, host, table, ddl, ";\n" + Delimiter);
    FirstBodyIs(stamp, host, table, ddl);
  }

  lemma FirstBodyIs(stamp: string, host: string, table: string, ddl: string)
    requires '(' in ddl
    ensures FirstBody(stamp, host, table, ddl) == Signature(stamp, host) + CreateText(table, ddl) + (";\n" + Delimiter)
  {
  }

  /** An update entry's body: clean of the marker, and with the definition's
      element block, when the statements mention neither the marker nor
      `ENGINE`. */
  lemma UpdateBodyFacts(stamp: string, host: string, table: string, ddl: string, changes: string)
    requires Plain(stamp) && Plain(host) && Plain(table)
    requires !Contains(ddl, Marker) && ElementBlock(ddl).Some?
    requires !Contains(changes, Marker) && !Contains(changes, Engine)
    ensures '(' in ddl
    ensures !Contains(UpdateBody(stamp, host, table, ddl, changes), Marker)
    ensures ElementBlock(UpdateBody(stamp, host, table, ddl, changes)) == ElementBlock(ddl)
  {
    UpdateBodyBlock(stamp, host, table, ddl, changes);
    UpdateBodyHasNoMarker(stamp, host, table, ddl, changes);
  }

  lemma UpdateBodyBlock(stamp: string, host: string, table: string, ddl: string, changes: string)
    requires Plain(stamp) && Plain(host) && Plain(table)
    requires ElementBlock(ddl).Some? && !Contains(changes, Engine)
    ensures '(' in ddl
    ensures ElementBlock(UpdateBody(stamp, host, table, ddl, changes)) == ElementBlock(ddl)
  {
    var trailer := ChangeHeading + changes + Delimiter;
    UpdateTrailerHasNoEngine(changes);
    BodyBlock(stamp, host, table, ddl, trailer);
    UpdateBodyIs(stamp, host, table, ddl, changes);
  }

  lemma UpdateBodyIs(stamp: string, host: string, table: string, ddl: string, changes: string)
    requires '(' in ddl
    ensures UpdateBody(stamp, host, table, ddl, changes) ==
            Signature(stamp, host) + CreateText(table, ddl) + (ChangeHeading + changes + Delimiter)
  {
  }

  /** A run with an existing previous capture reports no change exactly when
      the previous element block equals the fresh definition's. */
  lemma UnchangedIffSameBlock(commas: CommaRule, history: string, stamp: string, host: string, table: string, ddl: string)
    requires Plain(stamp) && Plain(host) && Plain(table)
    requires !Contains(ddl, Marker) && ElementBlock(ddl).Some?
    requires PreviousCapture(history) != "" && ElementBlock(PreviousCapture(history)).Some?
    ensures WriteDDL(commas, history, stamp, host, table, ddl) == Ok(Unchanged) <==>
              ElementBlock(PreviousCapture(history)) == ElementBlock(ddl)
    ensures ElementBlock(PreviousCapture(history)) != ElementBlock(ddl) ==>
              WriteDDL(commas, history, stamp, host, table, ddl).Err? || WriteDDL(commas, history, stamp, host, table, ddl).value.Updated?
  {
    FirstBodyFacts(stamp, host, table, ddl);
  }

  /** The history round trip: after a run that appended an entry, the next
      run's previous capture is that entry's body, which opens with the run's
      signature and fresh definition; the history before it is untouched. */
  lemma HistoryRoundTrip(commas: CommaRule, history: string, stamp: string, host: string, table: string, ddl: string)
    requires Plain(stamp) && Plain(host) && Plain(table)
    requires !Contains(ddl, Marker) && ElementBlock(ddl).Some?
    requires WriteDDL(commas, history, stamp, host, table, ddl).Ok?
    requires var o := WriteDDL(commas, history, stamp, host, table, ddl).value;
             o.Updated? ==> !Contains(ChangeText(o.statements, table), Marker)
    ensures '(' in ddl
    ensures var o := WriteDDL(commas, history, stamp, host, table, ddl).value;
            var after := Run(commas, history, stamp, host, table, ddl).value;
      && after == history + Appended(o)
      && after[..|history|] == history
      && (o.Initial? ==> PreviousCapture(after) == FirstBody(stamp, host, table, ddl))
      && (o.Updated? ==> PreviousCapture(after) == UpdateBody(stamp, host, table, ddl, ChangeText(o.statements, table)))
      && (o.Unchanged? ==> after == history)
  {
    var o := WriteDDL(commas, history, stamp, host, table, ddl).value;
    var after := Run(commas, history, stamp, host, table, ddl).value;
    assert after == history + Appended(o);
    OutcomeReadsBack(history, stamp, host, table, ddl, o);
  }

  /** An update covers the diff: with the previous and the fresh element
      blocks, every added line has its addition, every removed line its drop
      and every `KEY`-free modified line its column modification among the
      run's statements, and each of them is rendered in the appended entry. */
  lemma UpdateCoversDiff(commas: CommaRule, history: string, stamp: string, host: string, table: string, ddl: string, w: string)
    requires WriteDDL(commas, history, stamp, host, table, ddl).Ok?
    requires WriteDDL(commas, history, stamp, host, table, ddl).value.Updated?
    ensures '(' in ddl
    ensures var o := WriteDDL(commas, history, stamp, host, table, ddl).value;
            var before := ElementBlock(PreviousCapture(history)).value;
            var after := ElementBlock(CurrentCapture(stamp, host, table, ddl)).value;
      && (w in Lines(after) && Unmatched(w, before) ==>
            AddEntry(commas, w).Ok? && AddEntry(commas, w).value in o.statements
            && Contains(o.entry, Render(AddEntry(commas, w).value, table)))
      && (w in Lines(before) && Unmatched(w, after) ==>
            DropEntry(w).Ok? && DropEntry(w).value in o.statements
            && Contains(o.entry, Render(DropEntry(w).value, table)))
      && (w in Lines(after) && Retokened(w, before) && !Contains(TrimOneSpace(w), "KEY") ==>
            ModifyColumn(StripCommas(commas, TrimOneSpace(w))) in o.statements
            && Contains(o.entry, Render(ModifyColumn(StripCommas(commas, TrimOneSpace(w))), table)))
  {
    var o := WriteDDL(commas, history, stamp, host, table, ddl).value;
    var before := ElementBlock(PreviousCapture(history)).value;
    var after := ElementBlock(CurrentCapture(stamp, host, table, ddl)).value;
    assert Compare(before, after).Ok? && Synthesize(commas, Compare(before, after).value) == Ok(o.statements);
    SynthesizeCovers(commas, before, after, w);
    if w in Lines(after) && Unmatched(w, before) {
      RenderedInEntry(stamp, host, table, ddl, o.statements, AddEntry(commas, w).value);
    }
    if w in Lines(before) && Unmatched(w, after) {
      RenderedInEntry(stamp, host, table, ddl, o.statements, DropEntry(w).value);
    }
    if w in Lines(after) && Retokened(w, before) && !Contains(TrimOneSpace(w), "KEY") {
      RenderedInEntry(stamp, host, table, ddl, o.statements, ModifyColumn(StripCommas(commas, TrimOneSpace(w))));
    }
  }

  /** Each statement of an update is rendered in the entry that carries it. */
  lemma RenderedInEntry(stamp: string, host: string, table: string, ddl: string, stmts: seq<Statement>, st: Statement)
    requires '(' in ddl && st in stmts
    ensures Contains(UpdateEntry(stamp, host, table, ddl, ChangeText(stmts, table)), Render(st, table))
  {
    var k :| 0 <= k < |stmts| && stmts[k] == st;
    var changes := ChangeText(stmts, table);
    ChangeTextAt(stmts, table, k);
    UpdateBodyIs(stamp, host, table, ddl, changes);
    Middle("\n# " + Marker, Signature(stamp, host) + CreateText(table, ddl), ChangeHeading,
           ChangeText(stmts[..k], table), Render(st, table), ChangeText(stmts[k + 1..], table), Delimiter);
  }

  /** A piece in the middle of a text is contained in it. */
  lemma Middle(x: string, y: string, h: string, a: string, m: string, b: string, d: string)
    ensures Contains(x + (y + (h + (a + m + b) + d)), m)
  {
    var s := x + (y + (h + (a + m + b) + d));
    assert s == (x + y + h + a) + m + (b + d);
    assert OccursAt(s, m, |x + y + h + a|);
  }

  /** A first entry reads back as its body, whose element block is the fresh
      definition's, when the header texts and the definition are plain. */
  lemma FirstEntryReadsBack(stamp: string, host: string, table: string, ddl: string)
    requires Plain(stamp) && Plain(host) && Plain(table)
    requires '(' in ddl && !Contains(ddl, Marker)
    ensures PreviousCapture(FirstEntry(stamp, host, table, ddl)) == FirstBody(stamp, host, table, ddl)
    ensures ElementBlock(ddl).Some? ==>
              ElementBlock(PreviousCapture(FirstEntry(stamp, host, table, ddl))) == ElementBlock(ddl)
  {
    var body := FirstBody(stamp, host, table, ddl);
    var entry := FirstEntry(stamp, host, table, ddl);
    FirstBodyHasNoMarker(stamp, host, table, ddl);
    AppendedCapture("", "# ", body, entry);
    assert "" + entry == entry;
    if ElementBlock(ddl).Some? {
      FirstBodyBlock(stamp, host, table, ddl);
    }
  }

  /** An update entry reads back as its body, whose element block is the
      fresh definition's, when the header texts, the definition and the
      statements are plain. */
  lemma UpdateEntryReadsBack(stamp: string, host: string, table: string, ddl: string, changes: string)
    requires Plain(stamp) && Plain(host) && Plain(table)
    requires '(' in ddl && !Contains(ddl, Marker) && !Contains(changes, Marker)
    ensures PreviousCapture(UpdateEntry(stamp, host, table, ddl, changes)) == UpdateBody(stamp, host, table, ddl, changes)
    ensures ElementBlock(ddl).Some? && !Contains(changes, Engine) ==>
              ElementBlock(PreviousCapture(UpdateEntry(stamp, host, table, ddl, changes))) == ElementBlock(ddl)
  {
    var body := UpdateBody(stamp, host, table, ddl, changes);
    var entry := UpdateEntry(stamp, host, table, ddl, changes);
    UpdateBodyHasNoMarker(stamp, host, table, ddl, changes);
    AppendedCapture("", "\n# ", body, entry);
    assert "" + entry == entry;
    if ElementBlock(ddl).Some? && !Contains(changes, Engine) {
      UpdateBodyBlock(stamp, host, table, ddl, changes);
    }
  }

  /** What an outcome appends is read back as its entry's body. */
  lemma OutcomeReadsBack(history: string, stamp: string, host: string, table: string, ddl: string, o: Outcome)
    requires Plain(stamp) && Plain(host) && Plain(table)
    requires '(' in ddl && !Contains(ddl, Marker)
    requires o.Initial? ==> o.entry == FirstEntry(stamp, host, table, ddl)
    requires o.Updated? ==>
               && o.entry == UpdateEntry(stamp, host, table, ddl, ChangeText(o.statements, table))
               && !Contains(ChangeText(o.statements, table), Marker)
    ensures o.Initial? ==> PreviousCapture(history + Appended(o)) == FirstBody(stamp, host, table, ddl)
    ensures o.Updated? ==>
              PreviousCapture(history + Appended(o)) == UpdateBody(stamp, host, table, ddl, ChangeText(o.statements, table))
  {
    match o
    case Initial(entry) =>
      FirstBodyHasNoMarker(stamp, host, table, ddl);
      AppendedCapture(history, "# ", FirstBody(stamp, host, table, ddl), entry);
    case Unchanged =>
    case Updated(statements, entry) =>
      var changes := ChangeText(statements, table);
      UpdateBodyHasNoMarker(stamp, host, table, ddl, changes);
      AppendedCapture(history, "\n# ", UpdateBody(stamp, host, table, ddl, changes), entry);
  }

  /** The body of an entry appended to any history is read back. */
  lemma AppendedCapture(history: string, lead: string, body: string, entry: string)
    requires entry == lead + Marker + body && !Contains(body, Marker)
    ensures PreviousCapture(history + entry) == body
  {
    CaptureAfterAppend(history, lead, body);
    assert history + entry == history + lead + Marker + body;
  }

  lemma UpdateBodyHasNoMarker(stamp: string, host: string, table: string, ddl: string, changes: string)
    requires Plain(stamp) && Plain(host) && Plain(table)
    requires '(' in ddl && !Contains(ddl, Marker)
    requires !Contains(changes, Marker)
    ensures !Contains(UpdateBody(stamp, host, table, ddl, changes), Marker)
  {
    var trailer := ChangeHeading + changes + Delimiter;
    UpdateTrailerHasNoMarker(changes);
    BodyHasNoMarker(stamp, host, table, ddl, trailer);
    UpdateBodyIs(stamp, host, table, ddl, changes);
  }

  /** Idempotence: running again with the same definition, at any later time
      and from any host, appends nothing, provided the first run's statements
      mention neither the marker nor `ENGINE`. */
  lemma RerunAppendsNothing(commas: CommaRule, history: string, stamp: string, host: string, table: string, ddl: string,
                            stamp2: string, host2: string)
    requires Plain(stamp) && Plain(host) && Plain(table) && Plain(stamp2) && Plain(host2)
    requires !Contains(ddl, Marker) && ElementBlock(ddl).Some?
    requires WriteDDL(commas, history, stamp, host, table, ddl).Ok?
    requires var o := WriteDDL(commas, history, stamp, host, table, ddl).value;
             o.Updated? ==> !Contains(ChangeText(o.statements, table), Marker) &&
                            !Contains(ChangeText(o.statements, table), Engine)
    ensures var after := Run(commas, history, stamp, host, table, ddl).value;
            WriteDDL(commas, after, stamp2, host2, table, ddl) == Ok(Unchanged)
  {
    var o := WriteDDL(commas, history, stamp, host, table, ddl).value;
    var after := Run(commas, history, stamp, host, table, ddl).value;
    FirstBodyFacts(stamp, host, table, ddl);
    FirstBodyFacts(stamp2, host2, table, ddl);
    HistoryRoundTrip(commas, history, stamp, host, table, ddl);
    match o
    case Initial(_) =>
      assert FirstBody(stamp, host, table, ddl) != "" by {
        assert |Signature(stamp, host)| > 0;
      }
    case Unchanged =>
    case Updated(statements, _) =>
      var changes := ChangeText(statements, table);
      UpdateBodyFacts(stamp, host, table, ddl, changes);
      assert UpdateBody(stamp, host, table, ddl, changes) != "" by {
        assert |Signature(stamp, host)| > 0;
      }
  }

  // ---------------------------------------------------------------------------
  // Facts about the fixed texts

  /** An entry opened by `lead` and the marker contains the marker. */
  lemma MarkerAfterLead(lead: string, body: string)
    ensures Contains(lead + Marker + body, Marker)
  {
    OccursInRight(lead, Marker, Marker, 0);
    OccursInLeft(lead + Marker, body, Marker, |lead|);
  }

  lemma EmptyIsAbsent()
    ensures !Contains("", Marker)
  {
  }

  lemma MarkerIsBorderFree()
    ensures BorderFree(Marker)
  {
    UniqueHeadIsBorderFree(Marker);
  }
}
