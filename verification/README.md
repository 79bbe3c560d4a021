# mysql_generate schema history and migration synthesis, in Dafny

`mysql_generate` writes Go data-access code for MySQL tables. It also keeps a
per-table history of the table's `SHOW CREATE TABLE` text in a `.sql` file.
Each time it runs, it compares the table's current definition with the last
one recorded and appends the `ALTER`/`CREATE INDEX`/`DROP` statements that
turn the old shape into the new one. This project models that engine
(`Generate.WriteDDL`) and the small pure mappings around it, and proves
properties of the model.

The model, one module per concern:

- `Text` (text.dfy): the Go `strings` operations the engine uses. These are
  `Index`, `LastIndex`, `Contains`, `HasPrefix` and `Split` on `string`,
  together with lemmas about occurrences in slices and concatenations.
- `Failures` (failures.dfy): `Option`, and a `Result` whose `Err` carries the
  reason. Every slice or index that panics in Go is an `Err` or a `None`
  here.
- `Definition` (definition.dfy): the element block of a captured definition.
  It runs from the first `(` up to the last `ENGINE`, and its lines are its
  pieces between line breaks.
- `Diff` (diff.dfy): the forward pass over the new block's lines (added or
  modified) and the backward pass over the old block's lines (removed). Both
  are substring tests against the whole other block.
- `Synth` (synth.dfy): at most one statement per diff entry, chosen by
  `UNIQUE KEY`, `PRIMARY KEY`, ` KEY` or `KEY`; none for a modified line
  containing `KEY`. Statements are rendered with the source's
  exact format strings, and `Parse` reads a rendered statement back.
- `History` (history.dfy): the history as one string that only grows at its
  end, plus one run of `WriteDDL`. A run reads the previous capture, builds
  the fresh entry, and appends it whole (first run), appends nothing (same
  block), or appends an update entry with the statements. The clock reading
  and the host name are parameters. So is the comma rule: `AsWritten` is the
  program's `strings.Replace(a, ",", "", -1)`, and `Intended` drops only the
  trailing separator (see Findings).
- `TableInfo` (tableinfo.dfy): `ConvertType` (MySQL base type to Go type)
  and `ConvertGoQu` (column name to goqu tag).
- `Naming` (naming.dfy): the struct name with its `t_` prefix trimmed, the
  lower-case package name, and the `ColumnFields` literal.

The main results:

- **History round trip.** After any successful run, the old history is
  untouched. When an entry was appended, the next run's previous capture is
  exactly that entry's body (`History.HistoryRoundTrip`).
- **Idempotence.** Running again with the same definition, at another time and
  from another host, appends nothing (`History.RerunAppendsNothing`).
- **The classifier.** Each of its three lists is exactly the block's lines
  that pass the source's substring tests, in block order (`Diff.Forward`,
  `Diff.Backward`). `Diff.CompareMembership` restates this as membership.
- **Statements cover the diff.** Every added and every removed line gets its
  statement. So does every modified line without `KEY`; a modified line with
  `KEY` gets none. The statements come in the order adds, drops, modifies,
  each group in its block's order (`Synth.SynthesizeCovers`,
  `Synth.Synthesize`, `Synth.AddAll`, `Synth.DropAll`, `Synth.ModifyAll`).
  A run that updates the history carries exactly these statements for the
  previous and the fresh element block, and each one is rendered in the
  appended entry, in the same order (`History.WriteDDL`,
  `History.UpdateCoversDiff`, `Synth.ChangeTextAt`).
- **Rendering loses nothing.** A rendered statement parses back to itself
  (`Synth.ParseRender`).

## Model

| member | source | states |
|---|---|---|
| Text.IndexOf | model/generate.go:633 | `strings.Index`: -1 exactly when the pattern occurs nowhere, otherwise an occurrence with none before it |
| Text.LastIndexOf | model/generate.go:633 | `strings.LastIndex`: -1 exactly when the pattern occurs nowhere, otherwise an occurrence with none after it |
| Text.ContainsIsIndex | model/generate.go:608 | `strings.Contains` holds exactly when `strings.Index` finds the pattern |
| Text.Split | model/generate.go:609 | `strings.Split`: at least one piece, and two or more pieces exactly when the text contains the separator |
| Text.SplitJoin | model/generate.go:609 | the pieces joined with the separator give back the text |
| Text.SplitPieceIsClean | model/generate.go:609 | no piece contains the separator |
| Text.EmptyIsContained | model/generate.go:642-643 | every text contains the empty pattern, as Go's `strings.Contains(s, "")` is true; this is what a line with a single backtick is tested with |
| Text.LastPiece | model/generate.go:609-610 | `arr[len(arr)-1]` holds no separator, is a suffix of the text, and is the whole text when the separator does not occur |
| Text.LastPieceIsSuffix | model/generate.go:609-610 | the last piece of a split ends the text |
| Text.LastPieceFollowsLastOccurrence | model/generate.go:609-610 | for the marker, the last piece of the split is exactly the text after the marker's last occurrence |
| Definition.ElementBlock | model/generate.go:633-634 | the slice from the first `(` to the last `ENGINE` is absent exactly when there is no `(` or no `ENGINE` at or after it; otherwise it starts with `(`, sits at the first `(`, and ends where the last `ENGINE` begins |
| Definition.ElementBlockAbsent | model/generate.go:633-634 | the slice is absent exactly when there is no `(`, or no occurrence of `ENGINE` starts at or after the first `(` |
| Definition.Lines | model/generate.go:636-637 | the block's lines hold no line break and rejoin to the block |
| Definition.BlockIgnoresPrefix | model/generate.go:621 | text before the first `(` does not change the element block |
| Definition.BlockIgnoresSurroundings | model/generate.go:633-634 | the element block ignores surrounding text that has no `(` before it and no `ENGINE` after it |
| Diff.Token | model/generate.go:643 | the token is absent exactly when the line has no backtick; otherwise it starts at the first backtick and ends at the last one |
| Diff.SingleBacktickTokenIsEmpty | model/generate.go:643 | when the first backtick is also the last, the token is empty |
| Diff.Trichotomy | model/generate.go:642-647 | each line is exactly one of: found verbatim, retokened, unmatched, or untokenable |
| Diff.SingleBacktickNeverUnmatched | model/generate.go:643 | a line with one backtick has an empty token, which every block contains, so it is never added or removed |
| Diff.UnmatchedHasTwoBackticks | model/generate.go:643 | an added or removed line has a non-empty token between two distinct backticks |
| Diff.Forward | model/generate.go:641-649 | fails exactly when some new line is neither found nor has a backtick; otherwise added = the new lines found neither verbatim nor by token, and modified = those found by token only, both in new-block order |
| Diff.Backward | model/generate.go:651-658 | fails exactly when some old line is neither found nor has a backtick; otherwise removed = the old lines found neither verbatim nor by token, in old-block order |
| Diff.Compare | model/generate.go:641-658 | on success, added and modified are the new block's lines found neither verbatim nor by token, and by token only, and removed is the old block's lines found neither way, each in block order; a failure of the forward pass is the comparison's failure, so it wins over the backward pass |
| Diff.CompareMembership | model/generate.go:641-658 | a line is added, modified or removed exactly under the source's substring tests; no line is both added and modified; a line found verbatim is in no list |
| Diff.CompareFailsOnlyOnUnquoted | model/generate.go:643 | the comparison fails exactly when some line in either pass needs a token but has no backtick |
| Diff.CompareSelfIsEmpty | model/generate.go:635-658 | comparing a block with itself gives three empty lists |
| Synth.TrimOneSpace | model/generate.go:661 | `strings.TrimPrefix(a, " ")` removes at most one leading space, and removes it when present |
| Synth.QuotedName | model/generate.go:663 | `strings.Split(a, "`")[1]` is absent exactly when there is no backtick; otherwise it holds no backtick, follows the first backtick, and runs up to the next backtick or the end |
| Synth.QuotedNameIsSplitPiece | model/generate.go:683 | the quoted name is the second piece of the split at backticks |
| Synth.QuotedNameIsTokenName | model/generate.go:643 | the line's token begins with a backtick and the quoted name, and equals them when the token holds no further backtick |
| Synth.KeyColumns | model/generate.go:664 | the column list runs from the first `(` through the last `)`, so it starts with `(` and ends with `)` when not empty; it is absent exactly when there is no `(` or the last `)` lies more than one character before it |
| Synth.RemoveAllCommas | model/generate.go:676 | the source's treatment as written: the line's characters in order with every comma left out |
| Synth.StripCommas | model/generate.go:676 | under `AsWritten` the definition is the line with every comma removed and every other character kept in order (`strings.Replace(a, ",", "", -1)`); under `Intended` it is the line minus its final character exactly when that is a comma, and the line itself otherwise |
| Synth.RemoveAllCommasManglesDecimal | model/generate.go:676 | for the column `` `price` decimal(10,2), `` the as-written text loses the comma inside `decimal(10,2)` that the intended text keeps |
| Synth.DropTrailingComma | model/generate.go:695 | the intended treatment: the line minus its final comma, and unchanged exactly when it has no final comma |
| Synth.DropTrailingCommaKeepsInnerCommas | model/generate.go:676 | every comma before the last character survives |
| Synth.AddEntry | model/generate.go:660-679 | precedence `UNIQUE KEY`, then `PRIMARY KEY`, then ` KEY`, then a column; an index is named by the first quoted name; every key statement's columns are the line's key column list; a column's definition is the line under the comma rule; only a key line can fail |
| Synth.KeyWordsContainKey | model/generate.go:662-670 | `UNIQUE KEY` and `PRIMARY KEY` each contain ` KEY`, which contains `KEY` |
| Synth.AddFailsOnlyOnColumns | model/generate.go:662-672 | an added line with a backtick fails only when it is a key line whose column slice is out of bounds |
| Synth.DropEntry | model/generate.go:680-690 | fails exactly when the line has no backtick; drops an index exactly when the line contains ` KEY`, otherwise a column; names the first quoted name |
| Synth.ModifyEntry | model/generate.go:691-697 | gives no statement exactly when the line contains `KEY`; otherwise a column modification whose definition is the line under the comma rule |
| Synth.AddAll | model/generate.go:660-679 | succeeds exactly when every added line does; statement k is line k's statement |
| Synth.DropAll | model/generate.go:680-690 | succeeds exactly when every removed line's drop does; statement k is line k's drop; a failure is an unquoted line |
| Synth.DropAllNeedsBackticks | model/generate.go:683 | the drops succeed exactly when every removed line has a backtick |
| Synth.ModifyAll | model/generate.go:691-698 | one column modification per modified line without `KEY`, in the lines' order, statement k being the k-th such line's; a statement is in the list exactly when some modified line yields it |
| Synth.Synthesize | model/generate.go:659-698 | all additions, then all drops, then all modifications; fails only on a line's own failure |
| Synth.SynthesizeFailsOnlyOnKeyColumns | model/generate.go:651-690 | after a successful comparison, drops never fail, and synthesis fails exactly when an added key line's column slice is out of bounds |
| Synth.SynthesizeCovers | model/generate.go:641-698 | every added line has its addition, every removed line its drop, and every modified line without `KEY` its column modification among the statements |
| Synth.SynthesizeCount | model/generate.go:660-698 | one statement per added line, one per removed line, and one per modified line without `KEY` |
| Synth.ChangeText | model/generate.go:659-698 | the change text is empty exactly when there are no statements |
| Synth.ChangeTextSingle | model/generate.go:659-698 | one statement's change text is its rendering |
| Synth.ChangeTextAppend | model/generate.go:659-698 | the change text of two runs of statements is the first's followed by the second's, so the text keeps the statements' order |
| Synth.ChangeTextAt | model/generate.go:659-698 | statement k's rendering sits between the text of the statements before it and the text of those after it |
| Synth.ChangeTextOfSynthesize | model/generate.go:659-698 | the change text of a diff is the additions' text, then the drops', then the modifications' |
| Synth.RenderShape | model/generate.go:663-695 | every rendered statement opens with its verb (`CREATE` for the two index creations, `DROP` for an index drop, `ALTER` otherwise) and a space, ends with `;` and a line break, and opens with neither of the other two verbs |
| Synth.ParseRender | model/generate.go:663-695 | every statement whose index name holds no backtick, rendered with the source's format strings, reads back as itself, so different statements never render alike |
| History.DefinitionTail | model/generate.go:621 | the definition from its first `(`: a suffix that starts with `(` and leaves no `(` before it |
| History.PreviousCapture | model/generate.go:608-611 | empty when the history has no marker; otherwise exactly the text after the last `Create@`; never contains the marker |
| History.CurrentCapture | model/generate.go:632-634 | the second piece of the fresh entry split at the marker holds no marker |
| History.Statements | model/generate.go:636-698 | succeeds exactly when the comparison and the synthesis do, and then is the synthesised statements of the comparison; a failed comparison is the result's failure; fails only for an unquoted line or bad key columns |
| History.WriteDDL | model/generate.go:608-714 | for either comma rule, fails on a definition without `(` first; the first entry goes in exactly when there is no previous capture; otherwise a previous capture without element block fails as malformed previous, then a fresh capture without one as malformed current; equal blocks give "unchanged"; different blocks give an update exactly when their statements succeed, and otherwise the statements' failure; an update carries those statements and the entry rendering them |
| History.Run | model/generate.go:626-708 | a successful run's history is the old history followed by exactly what the run appends, once: the whole first entry (lines 626-630), nothing, or the update entry (lines 699-708); so the old history is its prefix |
| History.FirstEntryReadsBack | model/generate.go:615-623 | the first entry reads back as its body, whose element block is the fresh definition's, for plain header texts and a marker-free definition |
| History.UpdateEntryReadsBack | model/generate.go:699-707 | the update entry reads back as its body, whose element block is the fresh definition's when the statements mention neither `Create@` nor `ENGINE` |
| History.UpdateCoversDiff | model/generate.go:636-708 | in an update, every added line of the two element blocks has its addition, every removed line its drop and every `KEY`-free modified line its column modification among the run's statements, and each is rendered in the appended entry |
| History.RenderedInEntry | model/generate.go:699-708 | every statement of an update is rendered in the entry that carries it |
| History.FirstRunAppendsEntry | model/generate.go:626-630 | with no marker in the history, the run appends the whole fresh entry and computes no diff |
| History.CaptureAfterAppend | model/generate.go:608-611 | after appending a marker and a marker-free body to any history, the previous capture is that body |
| History.CurrentCaptureIsFirstBody | model/generate.go:632 | the capture the source splits back out of its own fresh entry is that entry's body |
| History.BodyBlock | model/generate.go:615-624 | the element block of an entry's body is the fresh definition's element block |
| History.UnchangedIffSameBlock | model/generate.go:633-635 | with a previous capture, the run appends nothing exactly when the previous element block equals the definition's |
| History.HistoryRoundTrip | model/generate.go:699-708 | after a run, the history is the old one followed by what the run appended, and the next previous capture is the body of the entry just appended |
| History.RerunAppendsNothing | model/generate.go:713 | a second run with the same definition, at any time and from any host, appends nothing |
| TableInfo.BaseType | model/table_info.go:66-67 | the text before the first `(`, or all of it: a prefix of the type with no `(` that stops at a `(` |
| TableInfo.BaseTypeIgnoresParameters | model/table_info.go:66-67 | the base type of `base(...)` is `base` |
| TableInfo.GoType | model/table_info.go:67-104 | the switch yields one of the six Go type names |
| TableInfo.ConvertType | model/table_info.go:65-105 | the Go type is one of int32, int8, int64, float32, float64 and string, never `time.Time` |
| TableInfo.ConvertTypeInt32 | model/table_info.go:68-77 | int32 exactly for int, integer, mediumint, bit and year |
| TableInfo.ConvertTypeNarrowAndWide | model/table_info.go:78-83 | int8 exactly for smallint and tinyint, int64 exactly for bigint |
| TableInfo.ConvertTypeFloats | model/table_info.go:84-93 | float32 exactly for decimal, float, real and numeric; float64 exactly for double |
| TableInfo.ConvertTypeOtherwiseString | model/table_info.go:94-103 | string exactly for every other base type, the date and time types included |
| TableInfo.ConvertTypeIgnoresParameters | model/table_info.go:66-67 | a width or precision after the base type never changes the Go type |
| TableInfo.NameTag | model/table_info.go:48-55 | `pk,skipinsert,skipupdate` exactly for `id`, `skipinsert,skipupdate` exactly for `create_time` and `update_time`, `defaultifempty` otherwise |
| TableInfo.ConvertGoQu | model/table_info.go:46-63 | the tag is one of the three tags and equals the name's tag: the `time.Time` override never fires |
| TableInfo.GoQuTagIgnoresType | model/table_info.go:57-62 | two columns with the same name get the same tag, whatever their types |
| TableInfo.GoQuPrimaryKeyIsId | model/table_info.go:48-55 | only `id` is tagged as primary key; only `id`, `create_time` and `update_time` are skipped on insert and update |
| Naming.TrimPrefix | model/generate.go:47 | `strings.TrimPrefix`: the prefix is removed exactly when the text starts with it |
| Naming.StructName | model/generate.go:45-48 | the struct name is the table name, or the table name minus a leading `t_`, and the latter exactly when it starts with `t_` |
| Naming.StructNameIsTrimPrefix | model/generate.go:46 | the `Contains(name, "t_")` guard is redundant: the struct name is the `t_`-trimmed name |
| Naming.LowerChar | model/generate.go:111 | ASCII capitals are lowered and every other character is kept |
| Naming.RemoveUnderscores | model/generate.go:112 | the name's characters in order with every underscore left out |
| Naming.LowerName | model/generate.go:109-114 | absent for an empty name; otherwise no underscore; a name not starting with `_` gets its first character lowered and the rest without underscores; a name starting with `_` gives the rest without underscores, unlowered |
| Naming.LowerNameIsStable | model/generate.go:109-114 | a package name derived from a name not starting with `_` is its own package name |
| Naming.LeadingUnderscoreKeepsCapital | model/generate.go:111-112 | the name `_Abc` gives `Abc`, because the underscore is removed after the lowering |
| Naming.TrimLeadingCommas | model/generate.go:469 | `strings.Trim` on the left: only commas are removed, and the rest does not start with one |
| Naming.TrimTrailingCommas | model/generate.go:469 | `strings.Trim` on the right: only commas are removed, and the rest does not end with one |
| Naming.ColumnFieldsLiteral | model/generate.go:463-471 | the literal is `[]interface{}{` plus the quoted column names joined by commas, in order, plus `}` |
| Naming.QuoteAll | model/generate.go:466-468 | one quoted name per column, in order |
| Naming.QuotedListIsJoin | model/generate.go:466-468 | the loop's text is the comma-joined quoted names with one comma more |

## Left out

- File system work in `WriteDDL` (model/generate.go:567-613) is not modelled. This covers the check that the working directory is `model`, the `doc/<name>` directory and file path, `MkdirAll`, and opening, reading and writing the file. The history is the file's text as one string, and a run returns the text it appends.
- `time.Now().Format(...)` and `os.Hostname()` (model/generate.go:616-617, 700-702) are the parameters `stamp` and `host`. The source reads them twice in an update run, once for the fresh entry it splits back and once for the entry it writes. The model uses one reading for both. Under the `Plain` header conditions this changes nothing the run decides, because the element block of an entry's body does not depend on its header (`History.BodyBlock`).
- The console messages and the `error` returned by the file writes are not modelled.
- Strings are sequences of characters, while Go's are bytes. Every marker and delimiter the engine searches for is ASCII, so the texts cut out are the same.
- Naming.LowerChar lowers ASCII capitals only. Go's `strings.ToLower` on a first byte of a multi-byte character replaces it by U+FFFD.
- A Go panic aborts the whole process. Here it is an `Err` for this run, and the history is left as it was.
- `Generate.Parse` returns early for a table without columns (model/generate.go:41-43). Only its struct-name derivation is modelled.
- The `package` line (model/generate.go:115-118) and the code directory (model/generate.go:535-536) are built from `getLowerName` by fixed concatenation and are not modelled. The history directory and file name (model/generate.go:579, 587) lower only the first character, with `strings.ToLower(structName[0:1])`, and are part of the file-system work left out.
- The CRUD code templates, `format()`, model/init.go, model/mysql_info.go and main.go are not modelled. They are template text, map iteration fed to `go/format`, database access and command-line handling.
- History.RerunAppendsNothing: assumes the clock reading, host name and table name hold neither `(` nor `Create@`. It also assumes the definition holds no `Create@`, the definition has an element block, and the first run's statements mention neither `Create@` nor `ENGINE`. A statement that mentions `ENGINE`, for instance through a column comment, moves the next run's last `ENGINE` into the change section, so the next element block no longer matches.
- History.HistoryRoundTrip: assumes the same header and definition conditions, and that the statements hold no `Create@`.
- History.UnchangedIffSameBlock: is stated for header texts without `(` or `Create@`, a definition without `Create@` that has an element block, and a previous capture that has one. A `(` in a host name would move the start of the fresh element block into the header.
- The statement pipeline from `Synth.AddEntry` and `Synth.ModifyEntry` up to `History.WriteDDL` and `History.Run` takes the comma rule as a parameter. `AsWritten` is the program as written. `Intended` is the correction in the finding below. Every property of the pipeline is proved for both rules.

## Findings

| source | as written | input that shows it | evidently intended | confidence | as-written member | corrected member |
|---|---|---|---|---|---|---|
| model/generate.go:676 | `strings.Replace(a, ",", "", -1)` deletes every comma of an added column line, and line 695 does the same for a modified one | the added line `` `price` decimal(10,2), `` gives `ADD COLUMN `price` decimal(102)` | drop only the trailing separator between elements, keeping commas inside the definition | not executed; medium | Synth.RemoveAllCommas, the `AsWritten` rule (counterexample: Synth.RemoveAllCommasManglesDecimal) | Synth.DropTrailingComma, the `Intended` rule (property: Synth.DropTrailingCommaKeepsInnerCommas) |
