/** The naming helpers of model/generate.go: the struct name derived from the
table name, the lower-case package and directory name derived from the struct
name, and the `ColumnFields` literal listing every column.
 */
module Naming {
  import opened Text
  import opened Failures

  /** Go's `strings.TrimPrefix(s, p)`: `s` without `p` in front, if it is. */
  function TrimPrefix(s: string, p: string): (r: string)
    ensures StartsWith(s, p) ==> p + r == s
    ensures !StartsWith(s, p) ==> r == s
  {
    if StartsWith(s, p) then
      assert s == s[..|p|] + s[|p|..];
      s[|p|..]
    else s
  }

  /** The struct name of a table (model/generate.go:45-48): a table name that
      contains `t_` loses that prefix, if it starts with it. */
  function StructName(table: string): (r: string)
    ensures r == table || "t_" + r == table
    ensures "t_" + r == table <==> StartsWith(table, "t_")
  {
    assert StartsWith(table, "t_") ==> OccursAt(table, "t_", 0);
    if Contains(table, "t_") then TrimPrefix(table, "t_") else table
  }

  /** The `Contains` guard is redundant: a name starting with `t_` contains
      it, so the struct name is just the name with its `t_` prefix trimmed. */
  lemma StructNameIsTrimPrefix(table: string)
    ensures StructName(table) == TrimPrefix(table, "t_")
  {
    if StartsWith(table, "t_") {
      assert OccursAt(table, "t_", 0);
    }
  }

  /** Go's `strings.ToLower` on one ASCII character. */
  function LowerChar(c: char): (r: char)
    ensures 'A' <= c <= 'Z' ==> r as int == c as int + 32
    ensures !('A' <= c <= 'Z') ==> r == c
    ensures !('A' <= r <= 'Z')
  {
    if 'A' <= c <= 'Z' then (c as int + 32) as char else c
  }

  /** Go's `strings.ReplaceAll(s, "_", "")`. */
  function RemoveUnderscores(s: string): (r: string)
    ensures r == Filter(s, NotUnderscore)
    ensures '_' !in r
    ensures forall c :: c != '_' ==> (c in r <==> c in s)
    ensures '_' !in s ==> r == s
  {
    if |s| == 0 then ""
    else if s[0] == '_' then RemoveUnderscores(s[1..])
    else [s[0]] + RemoveUnderscores(s[1..])
  }

  /** Any character but an underscore. */
  predicate NotUnderscore(c: char)
  {
    c != '_'
  }

  /** The package and directory name of a struct (model/generate.go:109-114):
      the first character lowered, then every underscore removed. `None` for
      an empty name, where Go's `n[0:1]` panics. */
  function LowerName(n: string): (r: Option<string>)
    ensures r.None? <==> n == []
    ensures r.Some? ==> '_' !in r.value
    ensures r.Some? && n[0] != '_' ==>
              && |r.value| > 0
              && r.value[0] == LowerChar(n[0])
              && r.value[1..] == RemoveUnderscores(n[1..])
    ensures r.Some? && n[0] == '_' ==> r.value == RemoveUnderscores(n[1..])
  {
    if |n| == 0 then None
    else Some(RemoveUnderscores([LowerChar(n[0])] + n[1..]))
  }

  /** A name that does not start with an underscore yields a name that is its
      own package name: lowering and removing underscores a second time
      changes nothing. */
  lemma LowerNameIsStable(n: string)
    requires |n| > 0 && n[0] != '_'
    ensures LowerName(LowerName(n).value) == LowerName(n)
  {
    var r := LowerName(n).value;
    assert r == [r[0]] + r[1..];
  }

  /** A leading underscore is removed only after the lowering: the name
      `_Abc` yields `Abc`, which starts with a capital letter. */
  lemma LeadingUnderscoreKeepsCapital()
    ensures LowerName("_Abc") == Some("Abc")
  {
    assert RemoveUnderscores("bc") == "bc";
    assert RemoveUnderscores("Abc") == "Abc";
  }

  // ---------------------------------------------------------------------------
  // The ColumnFields literal

  /** A column name in double quotes. */
  function Quote(f: string): string
  {
    "\"" + f + "\""
  }

  function QuoteAll(fields: seq<string>): (r: seq<string>)
    ensures |r| == |fields|
    ensures forall k :: 0 <= k < |r| ==> r[k] == Quote(fields[k])
  {
    if |fields| == 0 then [] else [Quote(fields[0])] + QuoteAll(fields[1..])
  }

  /** The loop of model/generate.go:466-468: every quoted name followed by a
      comma. */
  function QuotedList(fields: seq<string>): string
  {
    if |fields| == 0 then "" else Quote(fields[0]) + "," + QuotedList(fields[1..])
  }

  /** Go's `strings.TrimLeft(s, ",")`: every leading comma goes. */
  function TrimLeadingCommas(s: string): (r: string)
    ensures |r| <= |s| && s[|s| - |r|..] == r
    ensures forall i :: 0 <= i < |s| - |r| ==> s[i] == ','
    ensures |r| > 0 ==> r[0] != ','
  {
    if |s| > 0 && s[0] == ',' then TrimLeadingCommas(s[1..]) else s
  }

  /** Go's `strings.TrimRight(s, ",")`: every trailing comma goes. */
  function TrimTrailingCommas(s: string): (r: string)
    ensures |r| <= |s| && s[..|r|] == r
    ensures forall i :: |r| <= i < |s| ==> s[i] == ','
    ensures |r| > 0 ==> r[|r| - 1] != ','
  {
    if |s| > 0 && s[|s| - 1] == ',' then TrimTrailingCommas(s[..|s| - 1]) else s
  }

  /** Go's `strings.Trim(s, ",")`. */
  function TrimCommas(s: string): string
  {
    TrimTrailingCommas(TrimLeadingCommas(s))
  }

  /** The `ColumnFields` value (model/generate.go:463-471): the quoted column
      names separated by commas, in column order, with no comma before the
      first or after the last. */
  function ColumnFieldsLiteral(fields: seq<string>): (r: string)
    ensures r == "[]interface{}{" + Join(QuoteAll(fields), ",") + "}"
  {
    if |fields| > 0 then
      var j := Join(QuoteAll(fields), ",");
      QuotedListIsJoin(fields);
      JoinOfQuotes(fields);
      assert TrimLeadingCommas(j + ",") == j + ",";
      assert (j + ",")[..|j|] == j;
      assert TrimTrailingCommas(j) == j;
      "[]interface{}{" + TrimCommas(QuotedList(fields)) + "}"
    else
      "[]interface{}{" + TrimCommas(QuotedList(fields)) + "}"
  }

  /** The loop's text is the comma-joined quoted names and one more comma. */
  lemma {:induction false} QuotedListIsJoin(fields: seq<string>)
    requires |fields| > 0
    ensures QuotedList(fields) == Join(QuoteAll(fields), ",") + ","
  {
    if |fields| > 1 {
      QuotedListIsJoin(fields[1..]);
      assert QuoteAll(fields)[1..] == QuoteAll(fields[1..]);
    }
  }

  /** The comma-joined quoted names start and end with a double quote. */
  lemma {:induction false} JoinOfQuotes(fields: seq<string>)
    requires |fields| > 0
    ensures var j := Join(QuoteAll(fields), ",");
      |j| >= 2 && j[0] == '"' && j[|j| - 1] == '"'
  {
    var q := QuoteAll(fields);
    if |fields| > 1 {
      JoinOfQuotes(fields[1..]);
      assert q[1..] == QuoteAll(fields[1..]);
    }
  }
}
