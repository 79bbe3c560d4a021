/** The statement synthesiser of `Generate.WriteDDL`
(model/generate.go:659-698): every added, removed or modified element line
becomes at most one MySQL DDL statement, chosen by the key words the line
contains. A statement is first built as a `Statement` value and then rendered
with the exact text of the source's format strings, double spaces included;
`Parse` reads a rendered statement back.
 */
module Synth {
  import opened Text
  import opened Failures
  import opened Definition
  import opened Diff

  /** One schema-change statement, before rendering. */
  datatype Statement =
    | CreateUniqueIndex(name: string, columns: string)
    | AddPrimaryKey(columns: string)
    | CreateIndex(name: string, columns: string)
    | AddColumn(definition: string)
    | DropIndex(name: string)
    | DropColumn(name: string)
    | ModifyColumn(definition: string)

  /** Go's `strings.TrimPrefix(s, " ")`: at most one leading space goes. */
  function TrimOneSpace(s: string): (r: string)
    ensures r == s || " " + r == s
    ensures |s| > 0 && s[0] == ' ' ==> " " + r == s
  {
    if |s| > 0 && s[0] == ' ' then s[1..] else s
  }

  // ---------------------------------------------------------------------------
  // Pieces cut out of an element line

  /** The first backtick-quoted name of a line: Go's `strings.Split(a, "`")[1]`,
      the text after the first backtick up to the next backtick or the end
      (`QuotedNameIsSplitPiece`). `None` where that index panics, on a line
      without any backtick. */
  function QuotedName(a: string): (r: Option<string>)
    ensures r.None? <==> '`' !in a
    ensures r.Some? ==> '`' !in r.value
    ensures r.Some? ==> QuotedAt(a, IndexOf(a, "`"), r.value)
  {
    CharIndex(a, '`');
    var i := IndexOf(a, "`");
    if i < 0 then None
    else
      var rest := a[i + 1..];
      var j := IndexOf(rest, "`");
      if j < 0 then
        NameRunsToEnd(a, i, rest);
        Some(rest)
      else
        NameStopsAtBacktick(a, i, rest, j);
        Some(rest[..j])
  }

  /** `name` stands quoted at `i` in `a`: a backtick at `i`, then `name`, then
      a closing backtick or the end of `a`. */
  predicate QuotedAt(a: string, i: int, name: string)
  {
    && 0 <= i
    && OccursAt(a, "`" + name, i)
    && var e := i + 1 + |name|;
       e == |a| || (e < |a| && a[e] == '`')
  }

  /** The branch of `QuotedName` where no backtick follows the first. */
  lemma NameRunsToEnd(a: string, i: int, rest: string)
    requires i == IndexOf(a, "`") && 0 <= i && rest == a[i + 1..] && IndexOf(rest, "`") < 0
    ensures '`' !in rest && QuotedAt(a, i, rest)
  {
    OccurrenceHead(a, "`", i);
    CharIndex(rest, '`');
    assert a[i..] == "`" + rest;
  }

  /** The branch of `QuotedName` where a second backtick closes the name. */
  lemma NameStopsAtBacktick(a: string, i: int, rest: string, j: int)
    requires i == IndexOf(a, "`") && 0 <= i && rest == a[i + 1..] && j == IndexOf(rest, "`") && 0 <= j
    ensures j < |rest| && '`' !in rest[..j] && QuotedAt(a, i, rest[..j])
  {
    OccurrenceHead(a, "`", i);
    CharContains(rest, '`');
    CharBeforeFirst(rest, '`');
    OccurrenceHead(rest, "`", j);
    var name := rest[..j];
    assert a[i + 1..i + 1 + j] == name;
    assert a[i..i + 1 + j] == "`" + name;
    assert OccursAt(a, "`" + name, i);
    assert a[i + 1 + |name|] == rest[j];
  }

  /** `QuotedName` is the second piece of Go's split at backticks. */
  lemma QuotedNameIsSplitPiece(a: string)
    requires '`' in a
    ensures |Split(a, "`")| >= 2 && Split(a, "`")[1] == QuotedName(a).value
  {
    CharContains(a, '`');
    var i := IndexOf(a, "`");
    var rest := a[i + 1..];
    SplitHead(a, "`");
    if Contains(rest, "`") {
      SplitHead(rest, "`");
    }
  }

  /** The identifying token of a line with at least two backticks starts with
      "`" + its quoted name, and is exactly that when the line has exactly two
      backticks: what the differ looks for is what the drop statement names. */
  lemma QuotedNameIsTokenName(a: string)
    requires '`' in a
    requires IndexOf(a, "`") < LastIndexOf(a, "`")
    ensures Token(a).Some? && QuotedName(a).Some?
    ensures StartsWith(Token(a).value, "`" + QuotedName(a).value)
    ensures ('`' !in Token(a).value[1..]) ==> Token(a).value == "`" + QuotedName(a).value
  {
    var i := IndexOf(a, "`");
    var l := LastIndexOf(a, "`");
    OccurrenceHead(a, "`", l);
    TokenStartsWithName(a, i, Token(a).value, QuotedName(a).value);
  }

  /** A token at `i` reaching a backtick, and the name quoted at `i`: the token
      starts with the quoted name, and is exactly it when no later backtick
      lies inside the token. */
  lemma TokenStartsWithName(a: string, i: int, t: string, name: string)
    requires OccursAt(a, t, i) && i + |t| < |a| && a[i + |t|] == '`'
    requires |t| > 0 && QuotedAt(a, i, name) && '`' !in name
    ensures StartsWith(t, "`" + name)
    ensures ('`' !in t[1..]) ==> t == "`" + name
  {
    var n := |name|;
    var l := i + |t|;
    assert a[i..i + 1 + n] == "`" + name;
    assert i + 1 + n <= l by {
      if l < i + 1 + n {
        NameHoldsNoLaterBacktick(a, i, l, name);
      }
    }
    assert t[..n + 1] == a[i..i + 1 + n];
  }

  /** Inside the quoted name there is no backtick. */
  lemma NameHoldsNoLaterBacktick(a: string, i: int, l: int, name: string)
    requires 0 <= i < l < i + 1 + |name| <= |a|
    requires a[i..i + 1 + |name|] == "`" + name
    ensures name[l - i - 1] == a[l]
  {
    assert a[l] == a[i..i + 1 + |name|][l - i];
  }

  /** The key's column list: Go's
      `a[strings.Index(a, "("):strings.LastIndex(a, ")")+1]`, from the first `(`
      through the last `)`. `None` where that slice panics: no `(`, or the last
      `)` lies more than one character before the first `(`. */
  function KeyColumns(a: string): (r: Option<string>)
    ensures r.None? <==> '(' !in a || LastIndexOf(a, ")") + 1 < IndexOf(a, "(")
    ensures r.Some? ==> OccursAt(a, r.value, IndexOf(a, "("))
    ensures r.Some? ==> |r.value| == LastIndexOf(a, ")") + 1 - IndexOf(a, "(")
    ensures r.Some? && r.value != "" ==> r.value[0] == '(' && r.value[|r.value| - 1] == ')'
  {
    CharContains(a, '(');
    var open := IndexOf(a, "(");
    var close := LastIndexOf(a, ")");
    if open < 0 || close + 1 < open then None
    else
      assert close + 1 > open ==> a[open..close + 1][0] == a[open] == '(' by {
        if close + 1 > open {
          OccurrenceHead(a, "(", open);
        }
      }
      assert close + 1 > open ==> a[close] == ')' by {
        if close + 1 > open {
          OccurrenceHead(a, ")", close);
        }
      }
      Some(a[open..close + 1])
  }

  // ---------------------------------------------------------------------------
  // Commas

  /** As written at model/generate.go:676 and :695: `strings.Replace(a, ",", "", -1)`
      removes EVERY comma of the line, not only the element separator. */
  function RemoveAllCommas(a: string): (r: string)
    ensures r == Filter(a, NotComma)
    ensures ',' !in r
    ensures |r| <= |a|
    ensures forall c :: c != ',' ==> (c in r <==> c in a)
  {
    if |a| == 0 then ""
    else if a[0] == ',' then RemoveAllCommas(a[1..])
    else [a[0]] + RemoveAllCommas(a[1..])
  }

  /** Any character but a comma. */
  predicate NotComma(c: char)
  {
    c != ','
  }

  /** The evidently intended treatment: drop the element separator, the one
      trailing comma, and keep the definition otherwise intact. */
  function DropTrailingComma(a: string): (r: string)
    ensures r == a || r + "," == a
    ensures r == a <==> (|a| == 0 || a[|a| - 1] != ',')
  {
    if |a| > 0 && a[|a| - 1] == ',' then a[..|a| - 1] else a
  }

  /** Which comma treatment the statements of added and modified columns get:
      the source's, or the evidently intended one. */
  datatype CommaRule = AsWritten | Intended

  /** A column line's definition text under a comma rule: as written, the line
      minus every comma, everything else kept in order; as intended, the line
      minus its final character exactly when that is a comma. */
  function StripCommas(commas: CommaRule, a: string): (r: string)
    ensures commas.AsWritten? ==> r == Filter(a, NotComma) && ',' !in r
    ensures commas.Intended? && |a| > 0 && a[|a| - 1] == ',' ==> r == a[..|a| - 1]
    ensures commas.Intended? && !(|a| > 0 && a[|a| - 1] == ',') ==> r == a
  {
    match commas
    case AsWritten => RemoveAllCommas(a)
    case Intended => DropTrailingComma(a)
  }

  /** Removing every comma mangles a column whose type has a comma in it: the
      definition `decimal(10,2)` of a new column becomes `decimal(102)`, while
      dropping only the separator keeps it. */
  lemma RemoveAllCommasManglesDecimal()
    ensures RemoveAllCommas("`price` decimal(10,2),") != DropTrailingComma("`price` decimal(10,2),")
    ensures DropTrailingComma("`price` decimal(10,2),") == "`price` decimal(10,2)"
  {
    var a := "`price` decimal(10,2),";
    assert DropTrailingComma(a) == a[..|a| - 1];
    assert DropTrailingComma(a)[18] == ',';
  }

  /** Dropping only the separator keeps every comma inside the definition: the
      result is the line minus at most its last character, which was a comma. */
  lemma DropTrailingCommaKeepsInnerCommas(a: string, i: int)
    requires 0 <= i < |a| - 1 && a[i] == ','
    ensures i < |DropTrailingComma(a)| && DropTrailingComma(a)[i] == ','
  {
  }

  // ---------------------------------------------------------------------------
  // One statement per diff entry

  /** The added-line rule (model/generate.go:660-678), after one leading space
      is trimmed: `UNIQUE KEY` before `PRIMARY KEY` before ` KEY` before a plain
      column. */
  function AddEntry(commas: CommaRule, line: string): (r: Result<Statement>)
    ensures var a := TrimOneSpace(line);
      && (r.Ok? ==> (r.value.CreateUniqueIndex? <==> Contains(a, "UNIQUE KEY")))
      && (r.Ok? ==> (r.value.AddPrimaryKey? <==> !Contains(a, "UNIQUE KEY") && Contains(a, "PRIMARY KEY")))
      && (r.Ok? ==> (r.value.CreateIndex? <==>
                       !Contains(a, "UNIQUE KEY") && !Contains(a, "PRIMARY KEY") && Contains(a, " KEY")))
      && (r.Ok? ==> (r.value.AddColumn? <==> !Contains(a, " KEY")))
      && (r.Ok? ==> r.value.AddColumn? || r.value.AddPrimaryKey? || r.value.CreateIndex? || r.value.CreateUniqueIndex?)
      && (r.Err? ==> Contains(a, " KEY"))
      && (r.Err? ==> r.failure == UnquotedLine(line) || r.failure == BadKeyColumns(line))
      && (r.Ok? && r.value.AddColumn? ==> r.value.definition == StripCommas(commas, a))
      && (r.Ok? && (r.value.CreateUniqueIndex? || r.value.CreateIndex?) ==> Some(r.value.name) == QuotedName(a))
      && (r.Ok? && (r.value.CreateUniqueIndex? || r.value.AddPrimaryKey? || r.value.CreateIndex?) ==>
            Some(r.value.columns) == KeyColumns(a))
  {
    var a := TrimOneSpace(line);
    KeyWordsContainKey(a);
    if Contains(a, "UNIQUE KEY") then
      var name :- NameOf(a, line);
      var columns :- ColumnsOf(a, line);
      Ok(CreateUniqueIndex(name, columns))
    else if Contains(a, "PRIMARY KEY") then
      var columns :- ColumnsOf(a, line);
      Ok(AddPrimaryKey(columns))
    else if Contains(a, " KEY") then
      var name :- NameOf(a, line);
      var columns :- ColumnsOf(a, line);
      Ok(CreateIndex(name, columns))
    else
      Ok(AddColumn(StripCommas(commas, a)))
  }

  /** The removed-line rule (model/generate.go:680-690): a line with ` KEY`
      drops the index, any other line drops the column; both name the first
      quoted name of the line. */
  function DropEntry(line: string): (r: Result<Statement>)
    ensures var a := TrimOneSpace(line);
      && (r.Err? <==> '`' !in line)
      && (r.Err? ==> r.failure == UnquotedLine(line))
      && (r.Ok? ==> (r.value.DropIndex? <==> Contains(a, " KEY")))
      && (r.Ok? ==> r.value.DropIndex? || r.value.DropColumn?)
      && (r.Ok? ==> Some(r.value.name) == QuotedName(a))
  {
    var a := TrimOneSpace(line);
    assert '`' in line <==> '`' in a;
    var name :- NameOf(a, line);
    if Contains(a, " KEY") then Ok(DropIndex(name)) else Ok(DropColumn(name))
  }

  /** The modified-line rule (model/generate.go:691-697): only a line without
      `KEY` anywhere is rewritten, as a column modification; a modified key
      yields no statement. */
  function ModifyEntry(commas: CommaRule, line: string): (r: Option<Statement>)
    ensures r.None? <==> Contains(TrimOneSpace(line), "KEY")
    ensures r.Some? ==> r.value.ModifyColumn? && r.value.definition == StripCommas(commas, TrimOneSpace(line))
  {
    var a := TrimOneSpace(line);
    if Contains(a, "KEY") then None else Some(ModifyColumn(StripCommas(commas, a)))
  }

  function NameOf(a: string, line: string): (r: Result<string>)
    ensures r.Ok? <==> QuotedName(a).Some?
    ensures r.Ok? ==> r.value == QuotedName(a).value
  {
    match QuotedName(a)
    case None => Err(UnquotedLine(line))
    case Some(name) => Ok(name)
  }

  function ColumnsOf(a: string, line: string): (r: Result<string>)
    ensures r.Ok? <==> KeyColumns(a).Some?
    ensures r.Ok? ==> r.value == KeyColumns(a).value
  {
    match KeyColumns(a)
    case None => Err(BadKeyColumns(line))
    case Some(columns) => Ok(columns)
  }

  /** `UNIQUE KEY` and `PRIMARY KEY` each contain ` KEY`, which contains `KEY`. */
  lemma KeyWordsContainKey(a: string)
    ensures Contains(a, "UNIQUE KEY") ==> Contains(a, " KEY")
    ensures Contains(a, "PRIMARY KEY") ==> Contains(a, " KEY")
    ensures Contains(a, " KEY") ==> Contains(a, "KEY")
  {
    if Contains(a, "UNIQUE KEY") {
      InnerOccurrence(a, "UNIQUE KEY", 6, 10, IndexOf(a, "UNIQUE KEY"));
      assert "UNIQUE KEY"[6..10] == " KEY";
    }
    if Contains(a, "PRIMARY KEY") {
      InnerOccurrence(a, "PRIMARY KEY", 7, 11, IndexOf(a, "PRIMARY KEY"));
      assert "PRIMARY KEY"[7..11] == " KEY";
    }
    if Contains(a, " KEY") {
      InnerOccurrence(a, " KEY", 1, 4, IndexOf(a, " KEY"));
      assert " KEY"[1..4] == "KEY";
    }
  }

  /** A slice of an occurring pattern occurs too. */
  lemma InnerOccurrence(s: string, p: string, lo: int, hi: int, i: int)
    requires 0 <= lo <= hi <= |p| && OccursAt(s, p, i)
    ensures OccursAt(s, p[lo..hi], i + lo)
  {
    forall k | 0 <= k < hi - lo
      ensures s[i + lo..i + hi][k] == p[lo..hi][k]
    {
      assert s[i + lo + k] == s[i..i + |p|][lo + k];
    }
  }

  /** A line with a backtick never fails for want of a name: an added line
      can only fail on its key column list, and only when it is a key line. */
  lemma AddFailsOnlyOnColumns(commas: CommaRule, line: string)
    requires '`' in line
    ensures AddEntry(commas, line).Err? ==>
              && AddEntry(commas, line).failure == BadKeyColumns(line)
              && Contains(TrimOneSpace(line), " KEY")
              && KeyColumns(TrimOneSpace(line)).None?
  {
    var a := TrimOneSpace(line);
    assert '`' in a;
  }

  // ---------------------------------------------------------------------------
  // All statements of one diff

  /** The added lines' statements (model/generate.go:659-679), in order, or
      the first line's failure. */
  function AddAll(commas: CommaRule, lines: seq<string>): (r: Result<seq<Statement>>)
    ensures r.Ok? <==> forall k :: 0 <= k < |lines| ==> AddEntry(commas, lines[k]).Ok?
    ensures r.Ok? ==> AddsTo(commas, lines, r.value)
    ensures r.Err? ==> exists k :: 0 <= k < |lines| && AddEntry(commas, lines[k]) == Err(r.failure)
  {
    if |lines| == 0 then Ok([])
    else
      match AddEntry(commas, lines[0])
      case Err(x) => Err(x)
      case Ok(st) =>
        match AddAll(commas, lines[1..])
        case Err(x) =>
          AddFailureCons(commas, lines, x);
          Err(x)
        case Ok(rest) =>
          AddsToCons(commas, lines, st, rest);
          Ok([st] + rest)
  }

  /** Statement k of `sts` is the addition of line k, for every line. */
  predicate AddsTo(commas: CommaRule, lines: seq<string>, sts: seq<Statement>)
  {
    |sts| == |lines| && forall k :: 0 <= k < |lines| ==> AddEntry(commas, lines[k]) == Ok(sts[k])
  }

  /** `AddsTo` extends by one line at the front. */
  lemma AddsToCons(commas: CommaRule, lines: seq<string>, st: Statement, rest: seq<Statement>)
    requires |lines| > 0 && AddEntry(commas, lines[0]) == Ok(st) && AddsTo(commas, lines[1..], rest)
    ensures AddsTo(commas, lines, [st] + rest)
    ensures forall k :: 0 <= k < |lines| ==> AddEntry(commas, lines[k]).Ok?
  {
    var sts := [st] + rest;
    forall k | 0 <= k < |lines|
      ensures AddEntry(commas, lines[k]) == Ok(sts[k])
    {
      if k > 0 {
        assert lines[k] == lines[1..][k - 1] && sts[k] == rest[k - 1];
      }
    }
  }

  /** A failing line after the first is a failing line of the whole list. */
  lemma AddFailureCons(commas: CommaRule, lines: seq<string>, x: Failure)
    requires |lines| > 0
    requires exists k :: 0 <= k < |lines| - 1 && AddEntry(commas, lines[1..][k]) == Err(x)
    ensures exists k :: 0 <= k < |lines| && AddEntry(commas, lines[k]) == Err(x)
    ensures !forall k :: 0 <= k < |lines| ==> AddEntry(commas, lines[k]).Ok?
  {
    var k :| 0 <= k < |lines| - 1 && AddEntry(commas, lines[1..][k]) == Err(x);
    assert lines[1..][k] == lines[k + 1];
  }

  /** The removed lines' statements (model/generate.go:680-690), in order, or
      the first line's failure. */
  function DropAll(lines: seq<string>): (r: Result<seq<Statement>>)
    ensures r.Ok? <==> forall k :: 0 <= k < |lines| ==> DropEntry(lines[k]).Ok?
    ensures r.Ok? ==> DropsTo(lines, r.value)
    ensures r.Err? ==> r.failure.UnquotedLine?
  {
    if |lines| == 0 then Ok([])
    else
      match DropEntry(lines[0])
      case Err(x) => Err(x)
      case Ok(st) =>
        match DropAll(lines[1..])
        case Err(x) => Err(x)
        case Ok(rest) =>
          DropsToCons(lines, st, rest);
          Ok([st] + rest)
  }

  /** Statement k of `sts` is the drop of line k, for every line. */
  predicate DropsTo(lines: seq<string>, sts: seq<Statement>)
  {
    |sts| == |lines| && forall k :: 0 <= k < |lines| ==> DropEntry(lines[k]) == Ok(sts[k])
  }

  /** `DropsTo` extends by one line at the front. */
  lemma DropsToCons(lines: seq<string>, st: Statement, rest: seq<Statement>)
    requires |lines| > 0 && DropEntry(lines[0]) == Ok(st) && DropsTo(lines[1..], rest)
    ensures DropsTo(lines, [st] + rest)
    ensures forall k :: 0 <= k < |lines| ==> DropEntry(lines[k]).Ok?
  {
    var sts := [st] + rest;
    forall k | 0 <= k < |lines|
      ensures DropEntry(lines[k]) == Ok(sts[k])
    {
      if k > 0 {
        assert lines[k] == lines[1..][k - 1] && sts[k] == rest[k - 1];
      }
    }
  }

  /** The drops succeed exactly when every removed line has a backtick. */
  lemma DropAllNeedsBackticks(lines: seq<string>)
    ensures DropAll(lines).Ok? <==> forall k :: 0 <= k < |lines| ==> '`' in lines[k]
  {
    if !DropAll(lines).Ok? {
      var k :| 0 <= k < |lines| && !DropEntry(lines[k]).Ok?;
      assert '`' !in lines[k];
    }
  }

  /** The modified lines' statements (model/generate.go:691-697): one column
      modification per modified line without `KEY`, in order. */
  function ModifyAll(commas: CommaRule, lines: seq<string>): (r: seq<Statement>)
    ensures |r| <= |lines|
    ensures forall k :: 0 <= k < |r| ==> r[k].ModifyColumn?
    ensures forall st :: st in r <==> exists w :: w in lines && ModifyEntry(commas, w) == Some(st)
    ensures ModifiesTo(commas, lines, r)
  {
    if |lines| == 0 then []
    else
      var rest := ModifyAll(commas, lines[1..]);
      var r := match ModifyEntry(commas, lines[0])
        case None => rest
        case Some(st) => [st] + rest;
      ModifyAllCons(commas, lines, rest, r);
      ModifiesToCons(commas, lines, rest, r);
      r
  }

  /** A modified line that yields a statement: one without `KEY`. */
  predicate IsColumnLine(w: string)
  {
    !Contains(TrimOneSpace(w), "KEY")
  }

  /** Statement k of `sts` modifies the column of the k-th line without `KEY`,
      for every such line, in their order among `lines`. */
  predicate ModifiesTo(commas: CommaRule, lines: seq<string>, sts: seq<Statement>)
  {
    var columns := Filter(lines, IsColumnLine);
    && |sts| == |columns|
    && forall k :: 0 <= k < |columns| ==> sts[k] == ModifyColumn(StripCommas(commas, TrimOneSpace(columns[k])))
  }

  /** `ModifiesTo` extends by one line at the front. */
  lemma ModifiesToCons(commas: CommaRule, lines: seq<string>, rest: seq<Statement>, r: seq<Statement>)
    requires |lines| > 0 && ModifiesTo(commas, lines[1..], rest)
    requires r == match ModifyEntry(commas, lines[0])
                  case None => rest
                  case Some(s0) => [s0] + rest
    ensures ModifiesTo(commas, lines, r)
  {
    var columns := Filter(lines, IsColumnLine);
    if IsColumnLine(lines[0]) {
      assert columns == [lines[0]] + Filter(lines[1..], IsColumnLine);
      forall k | 0 <= k < |columns|
        ensures r[k] == ModifyColumn(StripCommas(commas, TrimOneSpace(columns[k])))
      {
        if k > 0 {
          assert r[k] == rest[k - 1] && columns[k] == Filter(lines[1..], IsColumnLine)[k - 1];
        }
      }
    } else {
      assert columns == Filter(lines[1..], IsColumnLine);
    }
  }

  /** The contract of `ModifyAll` extends by one line at the front. */
  lemma ModifyAllCons(commas: CommaRule, lines: seq<string>, rest: seq<Statement>, r: seq<Statement>)
    requires |lines| > 0
    requires |rest| <= |lines| - 1 && forall k :: 0 <= k < |rest| ==> rest[k].ModifyColumn?
    requires forall st :: st in rest <==> exists w :: w in lines[1..] && ModifyEntry(commas, w) == Some(st)
    requires r == match ModifyEntry(commas, lines[0])
                  case None => rest
                  case Some(st) => [st] + rest
    ensures |r| <= |lines|
    ensures forall k :: 0 <= k < |r| ==> r[k].ModifyColumn?
    ensures forall st :: st in r <==> exists w :: w in lines && ModifyEntry(commas, w) == Some(st)
  {
    ModifyConsKinds(ModifyEntry(commas, lines[0]), |lines|, rest, r);
    forall st
      ensures st in r <==> exists w :: w in lines && ModifyEntry(commas, w) == Some(st)
    {
      ModifyConsMember(commas, lines, rest, r, st);
    }
  }

  /** The length and kinds in the contract of `ModifyAllCons`. */
  lemma ModifyConsKinds(head: Option<Statement>, n: nat, rest: seq<Statement>, r: seq<Statement>)
    requires head.Some? ==> head.value.ModifyColumn?
    requires |rest| <= n - 1 && forall k :: 0 <= k < |rest| ==> rest[k].ModifyColumn?
    requires r == match head
                  case None => rest
                  case Some(s0) => [s0] + rest
    ensures |r| <= n
    ensures forall k :: 0 <= k < |r| ==> r[k].ModifyColumn?
  {
    if head.Some? {
      assert forall k :: 1 <= k < |r| ==> r[k] == rest[k - 1];
    }
  }

  /** One statement's membership in the contract of `ModifyAllCons`. */
  lemma ModifyConsMember(commas: CommaRule, lines: seq<string>, rest: seq<Statement>, r: seq<Statement>, st: Statement)
    requires |lines| > 0
    requires st in rest <==> exists w :: w in lines[1..] && ModifyEntry(commas, w) == Some(st)
    requires r == match ModifyEntry(commas, lines[0])
                  case None => rest
                  case Some(s0) => [s0] + rest
    ensures st in r <==> exists w :: w in lines && ModifyEntry(commas, w) == Some(st)
  {
    assert lines == [lines[0]] + lines[1..];
    if exists w :: w in lines && ModifyEntry(commas, w) == Some(st) {
      var w :| w in lines && ModifyEntry(commas, w) == Some(st);
      assert w == lines[0] || w in lines[1..];
    }
  }

  /** Every statement of one diff: additions, then drops, then modifications,
      the order in which the source writes them. */
  function Synthesize(commas: CommaRule, c: Changes): (r: Result<seq<Statement>>)
    ensures r.Ok? <==> AddAll(commas, c.added).Ok? && DropAll(c.removed).Ok?
    ensures r.Ok? ==> r.value == AddAll(commas, c.added).value + DropAll(c.removed).value + ModifyAll(commas, c.modified)
    ensures r.Err? ==> r.failure.UnquotedLine? || r.failure.BadKeyColumns?
  {
    var adds :- AddAll(commas, c.added);
    var drops :- DropAll(c.removed);
    Ok(adds + drops + ModifyAll(commas, c.modified))
  }

  /** Statements from a comparison: drops never fail, because every removed
      line carries a backtick, and neither do name lookups of added lines; a
      comparison's statements fail only on an added key line whose column list
      cannot be cut out. */
  lemma SynthesizeFailsOnlyOnKeyColumns(commas: CommaRule, oldBlock: string, newBlock: string)
    requires Compare(oldBlock, newBlock).Ok?
    ensures var c := Compare(oldBlock, newBlock).value;
      && DropAll(c.removed).Ok?
      && (Synthesize(commas, c).Err? <==>
            exists k :: 0 <= k < |c.added| && Contains(TrimOneSpace(c.added[k]), " KEY")
                          && KeyColumns(TrimOneSpace(c.added[k])).None?)
  {
    var c := Compare(oldBlock, newBlock).value;
    forall k | 0 <= k < |c.removed|
      ensures '`' in c.removed[k]
    {
      CompareMembership(oldBlock, newBlock, c.removed[k]);
    }
    forall k | 0 <= k < |c.added|
      ensures '`' in c.added[k]
    {
      CompareMembership(oldBlock, newBlock, c.added[k]);
      AddFailsOnlyOnColumns(commas, c.added[k]);
    }
    forall k | 0 <= k < |c.added|
      ensures AddEntry(commas, c.added[k]).Err? <==>
                Contains(TrimOneSpace(c.added[k]), " KEY") && KeyColumns(TrimOneSpace(c.added[k])).None?
    {
      AddFailsOnlyOnColumns(commas, c.added[k]);
      KeyWordsContainKey(TrimOneSpace(c.added[k]));
    }
  }

  /** Every classified line of a successful comparison has its statement: an
      added line its addition, a removed line its drop, and a modified line
      without `KEY` its column modification. */
  lemma SynthesizeCovers(commas: CommaRule, oldBlock: string, newBlock: string, w: string)
    requires Compare(oldBlock, newBlock).Ok?
    requires Synthesize(commas, Compare(oldBlock, newBlock).value).Ok?
    ensures var stmts := Synthesize(commas, Compare(oldBlock, newBlock).value).value;
      && (w in Lines(newBlock) && Unmatched(w, oldBlock) ==>
            AddEntry(commas, w).Ok? && AddEntry(commas, w).value in stmts)
      && (w in Lines(oldBlock) && Unmatched(w, newBlock) ==>
            DropEntry(w).Ok? && DropEntry(w).value in stmts)
      && (w in Lines(newBlock) && Retokened(w, oldBlock) && !Contains(TrimOneSpace(w), "KEY") ==>
            ModifyColumn(StripCommas(commas, TrimOneSpace(w))) in stmts)
  {
    var c := Compare(oldBlock, newBlock).value;
    var stmts := Synthesize(commas, c).value;
    var adds := AddAll(commas, c.added).value;
    var drops := DropAll(c.removed).value;
    assert stmts == adds + drops + ModifyAll(commas, c.modified);
    CompareMembership(oldBlock, newBlock, w);
    if w in Lines(newBlock) && Unmatched(w, oldBlock) {
      var k :| 0 <= k < |c.added| && c.added[k] == w;
      assert adds[k] in stmts;
    }
    if w in Lines(oldBlock) && Unmatched(w, newBlock) {
      var k :| 0 <= k < |c.removed| && c.removed[k] == w;
      assert drops[k] in stmts;
    }
    if w in Lines(newBlock) && Retokened(w, oldBlock) && !Contains(TrimOneSpace(w), "KEY") {
      assert w in c.modified && ModifyEntry(commas, w).Some?;
    }
  }

  /** The statement count: one per added line, one per removed line, and one
      per modified line without `KEY`. */
  lemma SynthesizeCount(commas: CommaRule, c: Changes)
    requires Synthesize(commas, c).Ok?
    ensures |Synthesize(commas, c).value| == |c.added| + |c.removed| + |ModifyAll(commas, c.modified)|
    ensures |ModifyAll(commas, c.modified)| == |Filter(c.modified, IsColumnLine)|
  {
  }

  /** The change text: the statements rendered one after another. */
  function ChangeText(stmts: seq<Statement>, table: string): (r: string)
    ensures |stmts| == 0 <==> r == ""
  {
    if |stmts| == 0 then ""
    else Render(stmts[0], table) + ChangeText(stmts[1..], table)
  }

  /** One statement renders as its own text. */
  lemma ChangeTextSingle(st: Statement, table: string)
    ensures ChangeText([st], table) == Render(st, table)
  {
    assert [st][1..] == [];
  }

  /** The change text of two runs of statements is the first's text followed
      by the second's: the text keeps the statements' order. */
  lemma {:induction false} ChangeTextAppend(a: seq<Statement>, b: seq<Statement>, table: string)
    ensures ChangeText(a + b, table) == ChangeText(a, table) + ChangeText(b, table)
    decreases |a|
  {
    if |a| > 0 {
      assert (a + b)[0] == a[0];
      assert (a + b)[1..] == a[1..] + b;
      ChangeTextAppend(a[1..], b, table);
    } else {
      assert a + b == b;
    }
  }

  /** The rendering of statement `k` sits between the text of the statements
      before it and the text of those after it. */
  lemma ChangeTextAt(stmts: seq<Statement>, table: string, k: int)
    requires 0 <= k < |stmts|
    ensures ChangeText(stmts, table) ==
              ChangeText(stmts[..k], table) + Render(stmts[k], table) + ChangeText(stmts[k + 1..], table)
  {
    assert stmts == stmts[..k] + [stmts[k]] + stmts[k + 1..];
    ChangeTextAppend(stmts[..k] + [stmts[k]], stmts[k + 1..], table);
    ChangeTextAppend(stmts[..k], [stmts[k]], table);
    ChangeTextSingle(stmts[k], table);
  }

  /** The change text of a diff: the additions' text, then the drops', then
      the modifications'. */
  lemma ChangeTextOfSynthesize(commas: CommaRule, c: Changes, table: string)
    requires Synthesize(commas, c).Ok?
    ensures ChangeText(Synthesize(commas, c).value, table) ==
              ChangeText(AddAll(commas, c.added).value, table) + ChangeText(DropAll(c.removed).value, table)
              + ChangeText(ModifyAll(commas, c.modified), table)
  {
    var adds := AddAll(commas, c.added).value;
    var drops := DropAll(c.removed).value;
    var mods := ModifyAll(commas, c.modified);
    ChangeTextAppend(adds + drops, mods, table);
    ChangeTextAppend(adds, drops, table);
  }

  // ---------------------------------------------------------------------------
  // Rendering and reading back

  /** The statement text exactly as the source's format strings print it. */
  function Render(st: Statement, table: string): string
  {
    match st
    case CreateUniqueIndex(name, columns) =>
      "CREATE UNIQUE INDEX `" + name + "` ON " + table + " " + columns + ";\n"
    case AddPrimaryKey(columns) =>
      "ALTER  TABLE " + table + " ADD  PRIMARY  KEY " + columns + ";\n"
    case CreateIndex(name, columns) =>
      "CREATE  INDEX `" + name + "` ON " + table + " " + columns + ";\n"
    case AddColumn(definition) =>
      "ALTER TABLE " + table + " ADD COLUMN " + definition + ";\n"
    case DropIndex(name) =>
      "DROP  INDEX " + name + " ON " + table + ";\n"
    case DropColumn(name) =>
      "ALTER TABLE " + table + " DROP COLUMN `" + name + "`;\n"
    case ModifyColumn(definition) =>
      "ALTER TABLE " + table + " MODIFY COLUMN " + definition + ";\n"
  }

  /** The SQL verb a statement opens with: index creations create, an index
      drop drops, and everything else alters the table. */
  function Verb(st: Statement): string
  {
    match st
    case CreateUniqueIndex(_, _) => "CREATE"
    case CreateIndex(_, _) => "CREATE"
    case DropIndex(_) => "DROP"
    case _ => "ALTER"
  }

  /** Every rendered statement is one `;`-terminated line opening with its
      verb, so the kind of a statement can be told from its first word. */
  lemma RenderShape(st: Statement, table: string)
    ensures var r := Render(st, table);
      && StartsWith(r, Verb(st) + " ")
      && |r| >= 2 && r[|r| - 2..] == ";\n"
      && (StartsWith(r, "CREATE ") <==> st.CreateUniqueIndex? || st.CreateIndex?)
      && (StartsWith(r, "DROP ") <==> st.DropIndex?)
      && (StartsWith(r, "ALTER ") <==> !st.CreateUniqueIndex? && !st.CreateIndex? && !st.DropIndex?)
  {
    var r := Render(st, table);
    RenderOpensWithVerb(st, table);
    VerbTellsKind(st, r);
  }

  lemma RenderOpensWithVerb(st: Statement, table: string)
    ensures var r := Render(st, table);
      StartsWith(r, Verb(st) + " ") && |r| >= 2 && r[|r| - 2..] == ";\n"
  {
    if st.CreateUniqueIndex? || st.CreateIndex? || st.DropIndex? {
      IndexStatementOpens(st, table);
    } else {
      TableStatementOpens(st, table);
    }
  }

  lemma IndexStatementOpens(st: Statement, table: string)
    requires st.CreateUniqueIndex? || st.CreateIndex? || st.DropIndex?
    ensures var r := Render(st, table);
      StartsWith(r, Verb(st) + " ") && |r| >= 2 && r[|r| - 2..] == ";\n"
  {
    var r := Render(st, table);
    match st
    case CreateUniqueIndex(_, _) => assert r[..7] == "CREATE ";
    case CreateIndex(_, _) => assert r[..7] == "CREATE ";
    case DropIndex(_) => assert r[..5] == "DROP ";
  }

  lemma TableStatementOpens(st: Statement, table: string)
    requires !st.CreateUniqueIndex? && !st.CreateIndex? && !st.DropIndex?
    ensures var r := Render(st, table);
      StartsWith(r, Verb(st) + " ") && |r| >= 2 && r[|r| - 2..] == ";\n"
  {
    var r := Render(st, table);
    assert Verb(st) + " " == "ALTER ";
    match st
    case AddPrimaryKey(_) => assert r[..6] == "ALTER ";
    case AddColumn(_) => assert r[..6] == "ALTER ";
    case DropColumn(_) => assert r[..6] == "ALTER ";
    case ModifyColumn(_) => assert r[..6] == "ALTER ";
  }

  /** A text opening with a statement's verb opens with none of the other
      two. */
  lemma VerbTellsKind(st: Statement, r: string)
    requires StartsWith(r, Verb(st) + " ")
    ensures StartsWith(r, "CREATE ") <==> st.CreateUniqueIndex? || st.CreateIndex?
    ensures StartsWith(r, "DROP ") <==> st.DropIndex?
    ensures StartsWith(r, "ALTER ") <==> !st.CreateUniqueIndex? && !st.CreateIndex? && !st.DropIndex?
  {
    assert r[0] == Verb(st)[0];
  }

  /** The text strictly between prefix `p` and suffix `q`, if `s` has both. */
  function Between(s: string, p: string, q: string): (r: Option<string>)
    ensures r.Some? ==> p + r.value + q == s
  {
    if |p| + |q| <= |s| && s[..|p|] == p && s[|s| - |q|..] == q then
      assert s == s[..|p|] + s[|p|..|s| - |q|] + s[|s| - |q|..];
      Some(s[|p|..|s| - |q|])
    else None
  }

  lemma BetweenOfConcat(p: string, x: string, q: string)
    ensures Between(p + x + q, p, q) == Some(x)
  {
    var s := p + x + q;
    assert s[..|p|] == p;
    assert s[|s| - |q|..] == q;
    assert s[|p|..|s| - |q|] == x;
  }

  /** Reads an index statement's tail: a name up to the first backtick, then
      "` ON <table> ", the column list, and ";\n". */
  function ParseIndexTail(rest: string, table: string): Option<(string, string)>
  {
    var i := IndexOf(rest, "`");
    if i < 0 then None
    else match Between(rest[i..], "` ON " + table + " ", ";\n")
      case None => None
      case Some(columns) => Some((rest[..i], columns))
  }

  /** Reads a rendered statement back. The kind is told by the opening
      characters (`C`reate, `D`rop, `A`lter; the eighth character separates
      the two index creations and the seventh the two-space `ALTER  TABLE`),
      and each kind's full fixed text is then checked. */
  function Parse(s: string, table: string): Option<Statement>
  {
    if |s| < 8 then None
    else if s[0] == 'C' && s[7] == 'U' then
      match Between(s, "CREATE UNIQUE INDEX `", "")
      case None => None
      case Some(rest) =>
        match ParseIndexTail(rest, table)
        case None => None
        case Some((name, columns)) => Some(CreateUniqueIndex(name, columns))
    else if s[0] == 'C' then
      match Between(s, "CREATE  INDEX `", "")
      case None => None
      case Some(rest) =>
        match ParseIndexTail(rest, table)
        case None => None
        case Some((name, columns)) => Some(CreateIndex(name, columns))
    else if s[0] == 'D' then
      match Between(s, "DROP  INDEX ", " ON " + table + ";\n")
      case None => None
      case Some(name) => Some(DropIndex(name))
    else if s[6] == ' ' then
      match Between(s, "ALTER  TABLE " + table + " ADD  PRIMARY  KEY ", ";\n")
      case None => None
      case Some(columns) => Some(AddPrimaryKey(columns))
    else
      match Between(s, "ALTER TABLE " + table, "")
      case None => None
      case Some(t) => ParseAlterTail(t)
  }

  /** Reads what follows "ALTER TABLE <table>" in a column statement; the
      second character names the verb. */
  function ParseAlterTail(t: string): Option<Statement>
  {
    if |t| < 2 then None
    else if t[1] == 'A' then
      match Between(t, " ADD COLUMN ", ";\n")
      case None => None
      case Some(definition) => Some(AddColumn(definition))
    else if t[1] == 'D' then
      match Between(t, " DROP COLUMN `", "`;\n")
      case None => None
      case Some(name) => Some(DropColumn(name))
    else
      match Between(t, " MODIFY COLUMN ", ";\n")
      case None => None
      case Some(definition) => Some(ModifyColumn(definition))
  }

  /** Index names never hold a backtick (they come from `QuotedName`). */
  predicate WellFormed(st: Statement)
  {
    (st.CreateUniqueIndex? || st.CreateIndex?) ==> '`' !in st.name
  }

  /** Rendering loses nothing: a rendered statement reads back as itself, so
      two different statements never render to the same text. */
  lemma ParseRender(st: Statement, table: string)
    requires WellFormed(st)
    ensures Parse(Render(st, table), table) == Some(st)
  {
    match st
    case CreateUniqueIndex(name, columns) => ParseUniqueIndex(name, columns, table);
    case CreateIndex(name, columns) => ParseIndex(name, columns, table);
    case AddPrimaryKey(columns) => ParsePrimaryKey(columns, table);
    case DropIndex(name) => ParseDropIndex(name, table);
    case AddColumn(definition) => ParseAddColumn(definition, table);
    case DropColumn(name) => ParseDropColumn(name, table);
    case ModifyColumn(definition) => ParseModifyColumn(definition, table);
  }

  lemma ParseAddColumn(definition: string, table: string)
    ensures Parse(Render(AddColumn(definition), table), table) == Some(AddColumn(definition))
  {
    var t := " ADD COLUMN " + definition + ";\n";
    assert Render(AddColumn(definition), table) == "ALTER TABLE " + table + t;
    BetweenOfConcat(" ADD COLUMN ", definition, ";\n");
    ParseAlter(AddColumn(definition), table, t);
  }

  lemma ParseDropColumn(name: string, table: string)
    ensures Parse(Render(DropColumn(name), table), table) == Some(DropColumn(name))
  {
    var t := " DROP COLUMN `" + name + "`;\n";
    assert Render(DropColumn(name), table) == "ALTER TABLE " + table + t;
    BetweenOfConcat(" DROP COLUMN `", name, "`;\n");
    ParseAlter(DropColumn(name), table, t);
  }

  lemma ParseModifyColumn(definition: string, table: string)
    ensures Parse(Render(ModifyColumn(definition), table), table) == Some(ModifyColumn(definition))
  {
    var t := " MODIFY COLUMN " + definition + ";\n";
    assert Render(ModifyColumn(definition), table) == "ALTER TABLE " + table + t;
    BetweenOfConcat(" MODIFY COLUMN ", definition, ";\n");
    ParseAlter(ModifyColumn(definition), table, t);
  }

  lemma ParseUniqueIndex(name: string, columns: string, table: string)
    requires '`' !in name
    ensures Parse(Render(CreateUniqueIndex(name, columns), table), table) == Some(CreateUniqueIndex(name, columns))
  {
    var s := Render(CreateUniqueIndex(name, columns), table);
    var rest := name + "` ON " + table + " " + columns + ";\n";
    assert s == "CREATE UNIQUE INDEX `" + rest + "";
    assert s[0] == 'C' && s[7] == 'U';
    BetweenOfConcat("CREATE UNIQUE INDEX `", rest, "");
    IndexTailRoundTrip(name, columns, table);
  }

  lemma ParseIndex(name: string, columns: string, table: string)
    requires '`' !in name
    ensures Parse(Render(CreateIndex(name, columns), table), table) == Some(CreateIndex(name, columns))
  {
    var s := Render(CreateIndex(name, columns), table);
    var rest := name + "` ON " + table + " " + columns + ";\n";
    assert s == "CREATE  INDEX `" + rest + "";
    assert s[0] == 'C' && s[7] == ' ';
    BetweenOfConcat("CREATE  INDEX `", rest, "");
    IndexTailRoundTrip(name, columns, table);
  }

  lemma ParsePrimaryKey(columns: string, table: string)
    ensures Parse(Render(AddPrimaryKey(columns), table), table) == Some(AddPrimaryKey(columns))
  {
    var s := Render(AddPrimaryKey(columns), table);
    assert s == ("ALTER  TABLE " + table + " ADD  PRIMARY  KEY ") + columns + ";\n";
    assert s[0] == 'A' && s[6] == ' ';
    BetweenOfConcat("ALTER  TABLE " + table + " ADD  PRIMARY  KEY ", columns, ";\n");
  }

  lemma ParseDropIndex(name: string, table: string)
    ensures Parse(Render(DropIndex(name), table), table) == Some(DropIndex(name))
  {
    var s := Render(DropIndex(name), table);
    assert s == "DROP  INDEX " + name + (" ON " + table + ";\n");
    assert s[0] == 'D';
    BetweenOfConcat("DROP  INDEX ", name, " ON " + table + ";\n");
  }

  /** The three column statements share the opening "ALTER TABLE <table>". */
  lemma ParseAlter(st: Statement, table: string, t: string)
    requires st.AddColumn? || st.DropColumn? || st.ModifyColumn?
    requires Render(st, table) == "ALTER TABLE " + table + t
    requires ParseAlterTail(t) == Some(st)
    ensures Parse(Render(st, table), table) == Some(st)
  {
    var s := Render(st, table);
    assert s == "ALTER TABLE " + table + t + "";
    assert s[0] == 'A' && s[6] == 'T';
    BetweenOfConcat("ALTER TABLE " + table, t, "");
  }

  lemma IndexTailRoundTrip(name: string, columns: string, table: string)
    requires '`' !in name
    ensures ParseIndexTail(name + "` ON " + table + " " + columns + ";\n", table) == Some((name, columns))
  {
    var rest := name + "` ON " + table + " " + columns + ";\n";
    var tail := "` ON " + table + " " + columns + ";\n";
    assert rest == name + tail;
    assert '`' in tail by {
      assert tail[0] == '`';
    }
    IndexOfCharAfterPrefix(name, tail, '`');
    IndexIs(tail, "`", 0) by {
      assert OccursAt(tail, "`", 0);
    }
    assert rest[|name|..] == tail;
    assert rest[..|name|] == name;
    BetweenOfConcat("` ON " + table + " ", columns, ";\n");
    assert tail == "` ON " + table + " " + columns + ";\n";
  }
}
