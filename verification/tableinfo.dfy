/** The column-type and tag mapping of model/table_info.go: a column reported
by `show full columns` becomes a Go struct field whose type comes from the
column's MySQL base type and whose goqu tag comes from the column's name.
 */
module TableInfo {
  import opened Text
  import opened Failures

  /** One row of `show full columns` (model/table_info.go:13-23); the nullable
      columns are `Option`s. */
  datatype FieldInfo = FieldInfo(
    field: string,
    fieldType: string,
    comment: string,
    collation: Option<string>,
    nullable: string,
    key: string,
    defaultValue: Option<string>,
    extra: Option<string>,
    privileges: string)

  /** The Go type names the mapping can produce. */
  const GoTypes: set<string> := {"int32", "int8", "int64", "float32", "float64", "string"}

  /** Base types read as 32-bit integers. */
  const Int32Bases: set<string> := {"int", "integer", "mediumint", "bit", "year"}
  /** Base types read as 8-bit integers. */
  const Int8Bases: set<string> := {"smallint", "tinyint"}
  /** Base types read as single-precision floats. */
  const Float32Bases: set<string> := {"decimal", "float", "real", "numeric"}

  /** The base type: Go's `strings.Split(f.Type, "(")[0]`, the text before the
      first `(`, or all of it. */
  function BaseType(t: string): (r: string)
    ensures '(' !in r
    ensures |r| <= |t| && t[..|r|] == r
    ensures |r| < |t| ==> t[|r|] == '('
  {
    var parts := Split(t, "(");
    SplitPieceIsClean(t, "(", 0);
    CharContains(t, '(');
    CharContains(parts[0], '(');
    if '(' in t then
      SplitHead(t, "(");
      var i := IndexOf(t, "(");
      OccurrenceHead(t, "(", i);
      parts[0]
    else parts[0]
  }

  /** The base type ignores whatever follows the first `(`: a display width or
      a precision never changes it. */
  lemma BaseTypeIgnoresParameters(base: string, rest: string)
    requires '(' !in base
    ensures BaseType(base + "(" + rest) == base
    ensures BaseType(base) == base
  {
    var t := base + "(" + rest;
    var r := BaseType(t);
    assert t[|base|] == '(';
    assert r == t[..|r|] == base;
    var b := BaseType(base);
    assert b == base[..|b|];
  }

  /** The Go type a base type maps to: the `switch` of model/table_info.go:67-104.
      Its case constants are pairwise distinct, so testing the cases grouped
      by result is the same as testing them one by one; `timestamp`,
      `datetime`, `date` and `time` have their own cases in the source but
      give `string`, as the default does. */
  function GoType(base: string): (r: string)
    ensures r in GoTypes
  {
    if base in Int32Bases then "int32"
    else if base in Int8Bases then "int8"
    else if base == "bigint" then "int64"
    else if base in Float32Bases then "float32"
    else if base == "double" then "float64"
    else "string"
  }

  /** The Go type of a column (model/table_info.go:65-105). */
  function ConvertType(f: FieldInfo): (r: string)
    ensures r in GoTypes
    ensures r != "time.Time"
  {
    GoType(BaseType(f.fieldType))
  }

  /** No base type is in two classes: the switch's case constants are
      distinct. Names of equal length differ in a letter. */
  lemma ClassesAreDisjoint()
    ensures Int32Bases !! Int8Bases && Int32Bases !! Float32Bases && Int8Bases !! Float32Bases
    ensures "bigint" !in Int32Bases + Int8Bases + Float32Bases
    ensures "double" !in Int32Bases + Int8Bases + Float32Bases + {"bigint"}
  {
    assert "integer"[0] != "tinyint"[0] && "integer"[0] != "decimal"[0] && "integer"[0] != "numeric"[0];
    assert "tinyint"[0] != "decimal"[0] && "tinyint"[0] != "numeric"[0];
    assert "year"[0] != "real"[0];
    assert "bigint"[0] != "double"[0];
  }

  /** The Go type names differ from one another. */
  lemma GoTypesAreDistinct()
    ensures "int32" != "int64" && "float32" != "float64"
    ensures "int8" != "int32" && "int8" != "int64"
    ensures "string" !in {"int32", "int8", "int64", "float32", "float64"}
  {
    assert "int32"[3] != "int64"[3];
    assert "float32"[5] != "float64"[5];
  }

  /** The mapping by classes of base type: 32-bit integers. */
  lemma ConvertTypeInt32(f: FieldInfo)
    ensures ConvertType(f) == "int32" <==> BaseType(f.fieldType) in Int32Bases
  {
  }

  /** The mapping by classes of base type: the other integer widths. */
  lemma ConvertTypeNarrowAndWide(f: FieldInfo)
    ensures ConvertType(f) == "int8" <==> BaseType(f.fieldType) in Int8Bases
    ensures ConvertType(f) == "int64" <==> BaseType(f.fieldType) == "bigint"
  {
    ClassesAreDisjoint();
    GoTypesAreDistinct();
  }

  /** The mapping by classes of base type: the floating-point classes. */
  lemma ConvertTypeFloats(f: FieldInfo)
    ensures var base := BaseType(f.fieldType);
      && (ConvertType(f) == "float32" <==> base in Float32Bases)
      && (ConvertType(f) == "float64" <==> base == "double")
  {
    ClassesAreDisjoint();
    GoTypesAreDistinct();
  }

  /** Every base type outside the numeric classes, the date and time types
      included, becomes `string`. */
  lemma ConvertTypeOtherwiseString(f: FieldInfo)
    ensures var base := BaseType(f.fieldType);
      ConvertType(f) == "string" <==>
        base !in Int32Bases + Int8Bases + Float32Bases + {"bigint", "double"}
  {
  }

  /** A display width or precision after the base type never changes the Go
      type: `int(11)` maps as `int` does, `decimal(10,2)` as `decimal`. */
  lemma ConvertTypeIgnoresParameters(f: FieldInfo, rest: string)
    requires '(' !in f.fieldType
    ensures ConvertType(f.(fieldType := f.fieldType + "(" + rest)) == ConvertType(f)
  {
    BaseTypeIgnoresParameters(f.fieldType, rest);
    assert BaseType(f.(fieldType := f.fieldType + "(" + rest).fieldType) == BaseType(f.fieldType);
  }

  /** The tag a column's name alone selects (model/table_info.go:48-55). */
  function NameTag(name: string): (r: string)
    ensures r == "pk,skipinsert,skipupdate" <==> name == "id"
    ensures r == "skipinsert,skipupdate" <==> name == "create_time" || name == "update_time"
    ensures r == "defaultifempty" <==> name !in {"id", "create_time", "update_time"}
  {
    if name == "id" then "pk,skipinsert,skipupdate"
    else if name == "create_time" || name == "update_time" then "skipinsert,skipupdate"
    else "defaultifempty"
  }

  /** The goqu tag of a column (model/table_info.go:46-63): the name's tag,
      overridden for a column of Go type `time.Time`. */
  function ConvertGoQu(f: FieldInfo): (r: string)
    ensures r in {"pk,skipinsert,skipupdate", "skipinsert,skipupdate", "defaultifempty"}
    ensures r == NameTag(f.field)
  {
    var goqu := NameTag(f.field);
    if ConvertType(f) == "time.Time" then "skipinsert,skipupdate" else goqu
  }

  /** The `time.Time` override never fires, since no column maps to that type:
      the tag depends on the column's name only, never on its type. */
  lemma GoQuTagIgnoresType(f: FieldInfo, g: FieldInfo)
    requires f.field == g.field
    ensures ConvertGoQu(f) == NameTag(f.field)
    ensures ConvertGoQu(f) == ConvertGoQu(g)
  {
  }

  /** Only the `id` column is tagged as the primary key, and only `id`,
      `create_time` and `update_time` are skipped on insert and update. */
  lemma GoQuPrimaryKeyIsId(f: FieldInfo)
    ensures ConvertGoQu(f) == "pk,skipinsert,skipupdate" <==> f.field == "id"
    ensures ConvertGoQu(f) != "defaultifempty" <==> f.field in {"id", "create_time", "update_time"}
  {
    GoQuTagIgnoresType(f, f);
  }
}
