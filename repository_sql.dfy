/** The SQL text JdbcRepository builds, as functions of the table name and
    the entity's ordered property list, with the properties that tie the
    statements to the values bound into them. Reflection is abstracted: a
    property arrives with its column name (NamingConvention.format of its
    name) already computed. */
module RepositorySql {
  import opened Outcomes
  import opened Text

  /** A bean property as BeanInfo reports it. */
  datatype Property = Property(name: string, column: string, readable: bool, writable: bool)

  /** A property value; `NullValue` is Java null. */
  datatype Value = IntValue(i: int) | OtherValue(text: string) | NullValue

  /** An entity as its property values, by property name; a missing name reads as null. */
  type Entity = map<string, Value>

  function Get(e: Entity, p: Property): Value
  {
    if p.name in e then e[p.name] else NullValue
  }

  /** `beanInfo.getProperty(name)`: the first property with exactly this name. */
  function FindProperty(props: seq<Property>, name: string): (r: Option<Property>)
    ensures r.Some? ==> r.value in props && r.value.name == name
    ensures r.None? <==> forall p :: p in props ==> p.name != name
  {
    if props == [] then None
    else if props[0].name == name then Some(props[0])
    else FindProperty(props[1..], name)
  }

  /** `"id".equalsIgnoreCase(name)`, for ASCII letters. */
  predicate IsIdName(name: string)
  {
    ToLower(name) == "id"
  }

  /** `int id = idPropertyInfo.invokeGetter(entity)`: a null getter result
      cannot be unboxed, and a non-integer one cannot be cast. */
  function IdOf(e: Entity, p: Property): Result<int>
  {
    match Get(e, p)
    case IntValue(i) => Success(i)
    case NullValue => Failure(NullPointer)
    case OtherValue(_) => Failure(ClassCast)
  }

  //---------------------------------------------------------------------------
  // SELECT list

  /** The columns of a listing: `*` for none, an empty array or exactly
      `["*"]`; otherwise the columns joined by `,` with no spaces. */
  function SelectList(columns: Option<seq<string>>): string
  {
    if columns.None? || |columns.value| == 0 || columns.value == ["*"] then "*"
    else Join(columns.value, ',')
  }

  predicate FreeOf(parts: seq<string>, c: char)
  {
    forall k, j :: 0 <= k < |parts| && 0 <= j < |parts[k]| ==> parts[k][j] != c
  }

  /** The listed columns can be read back from the SELECT list, so no column
      is lost, added or reordered. */
  lemma SelectListColumns(columns: seq<string>)
    requires |columns| > 0 && columns != ["*"] && FreeOf(columns, ',')
    ensures Split(SelectList(Some(columns)), ',') == columns
  {
    SplitJoin(columns, ',');
  }

  /** `*` is selected exactly when no column list other than `["*"]` is
      given, provided the listed columns do not themselves hold `*`. */
  lemma SelectListStar(columns: Option<seq<string>>)
    requires columns.Some? ==> FreeOf(columns.value, '*') || columns.value == ["*"]
    ensures SelectList(columns) == "*" <==> columns.None? || columns.value == [] || columns.value == ["*"]
  {
    if columns.Some? && columns.value != [] && columns.value != ["*"] {
      JoinNotStar(columns.value);
    }
  }

  /** Parts free of `*` never join to `*`. */
  lemma JoinNotStar(c: seq<string>)
    requires |c| > 0 && FreeOf(c, '*')
    ensures Join(c, ',') != "*"
  {
    if |c| == 1 {
      assert |c[0]| != 1 || c[0][0] != '*';
    } else {
      var j := Join(c, ',');
      assert j == c[0] + [','] + Join(c[1..], ',');
      assert j[|c[0]|] == ',';
    }
  }

  //---------------------------------------------------------------------------
  // INSERT

  /** The column names of the readable properties, in order. */
  function ReadableColumns(props: seq<Property>): seq<string>
  {
    if props == [] then []
    else ReadableColumns(props[..|props| - 1])
         + (if props[|props| - 1].readable then [props[|props| - 1].column] else [])
  }

  lemma ReadableStep(props: seq<Property>, k: nat)
    requires k < |props|
    ensures props[k].readable ==> ReadableColumns(props[..k + 1]) == ReadableColumns(props[..k]) + [props[k].column]
    ensures !props[k].readable ==> ReadableColumns(props[..k + 1]) == ReadableColumns(props[..k])
  {
    assert props[..k + 1][..k] == props[..k];
  }

  /** The getter values of the readable properties, in order: what `create`
      binds. */
  function ReadableValues(props: seq<Property>, e: Entity): seq<Value>
  {
    if props == [] then []
    else ReadableValues(props[..|props| - 1], e)
         + (if props[|props| - 1].readable then [Get(e, props[|props| - 1])] else [])
  }

  /** `?` followed by `,?` for every further column: at least one mark. */
  function Marks(n: nat): string
  {
    if n <= 1 then "?" else Marks(n - 1) + ",?"
  }

  const InsertInto := "INSERT INTO "
  const ColumnsOpen := " ("
  const ValuesOpen := ") VALUES ("
  const Close := ")"

  function InsertSql(table: string, props: seq<Property>): string
  {
    InsertInto + table + ColumnsOpen + Join(ReadableColumns(props), ',') + ValuesOpen
    + Marks(|ReadableColumns(props)|) + Close
  }

  lemma {:induction false} MarksCount(n: nat)
    ensures Count(Marks(n), '?') == if n == 0 then 1 else n
  {
    if n <= 1 {
      MarksOfOne(Marks(n), "", "");
    } else {
      MarksCount(n - 1);
      MarksOfOne(",?", ",", "");
      CountAppend(Marks(n - 1), ",?", '?');
    }
  }

  /** One value is bound for every readable column. */
  lemma {:induction false} ValuesPerColumn(props: seq<Property>, e: Entity)
    ensures |ReadableValues(props, e)| == |ReadableColumns(props)|
  {
    if props != [] {
      ValuesPerColumn(props[..|props| - 1], e);
    }
  }

  /** The INSERT statement has one `?` per readable column, and so one per
      bound value, except that a bean with no readable property still gets
      one `?` and binds nothing. */
  lemma InsertMarks(table: string, props: seq<Property>, e: Entity)
    requires '?' !in table && FreeOf(ReadableColumns(props), '?')
    ensures var n := |ReadableColumns(props)|;
      Count(InsertSql(table, props), '?') == (if n == 0 then 1 else n)
      && |ReadableValues(props, e)| == n
  {
    var cols := ReadableColumns(props);
    ValuesPerColumn(props, e);
    MarksCount(|cols|);
    NoMarkJoin(cols);
    CountAbsent(table, '?');
    assert '?' !in InsertInto && '?' !in ColumnsOpen && '?' !in ValuesOpen && '?' !in Close;
    FrameCount(InsertInto, table, ColumnsOpen, Join(cols, ','), ValuesOpen, Marks(|cols|), Close);
  }

  /** A join of `?`-free parts is `?`-free. */
  lemma NoMarkJoin(parts: seq<string>)
    requires FreeOf(parts, '?')
    ensures Count(Join(parts, ','), '?') == 0
  {
    CountJoin(parts, ',', '?');
    NoMarkParts(parts);
  }

  lemma {:induction false} NoMarkParts(parts: seq<string>)
    requires FreeOf(parts, '?')
    ensures CountAll(parts, '?') == 0
  {
    if parts != [] {
      assert '?' !in parts[0] by {
        forall j | 0 <= j < |parts[0]| ensures parts[0][j] != '?' {
          assert parts[0][j] == parts[0][j];
        }
      }
      CountAbsent(parts[0], '?');
      NoMarkParts(parts[1..]);
    }
  }

  /** Marks of a statement made of `?`-free keywords and three parts. */
  lemma FrameCount(k1: string, a: string, k2: string, b: string, k3: string, c: string, k4: string)
    requires '?' !in k1 && '?' !in k2 && '?' !in k3 && '?' !in k4
    ensures Count(k1 + a + k2 + b + k3 + c + k4, '?') == Count(a, '?') + Count(b, '?') + Count(c, '?')
  {
    CountAbsent(k1, '?');
    CountAbsent(k2, '?');
    CountAbsent(k3, '?');
    CountAbsent(k4, '?');
    CountAppend(k1, a, '?');
    CountAppend(k1 + a, k2, '?');
    CountAppend(k1 + a + k2, b, '?');
    CountAppend(k1 + a + k2 + b, k3, '?');
    CountAppend(k1 + a + k2 + b + k3, c, '?');
    CountAppend(k1 + a + k2 + b + k3 + c, k4, '?');
  }

  /** The column list can be read back from the INSERT statement's list. */
  lemma InsertColumns(props: seq<Property>)
    requires |ReadableColumns(props)| > 0 && FreeOf(ReadableColumns(props), ',')
    ensures Split(Join(ReadableColumns(props), ','), ',') == ReadableColumns(props)
  {
    SplitJoin(ReadableColumns(props), ',');
  }

  //---------------------------------------------------------------------------
  // UPDATE

  /** `column=?` for each readable property not named `id` (any case). */
  function SetColumns(props: seq<Property>): seq<string>
  {
    if props == [] then []
    else SetColumns(props[..|props| - 1])
         + (var p := props[|props| - 1]; if p.readable && !IsIdName(p.name) then [p.column + "=?"] else [])
  }

  lemma SetStep(props: seq<Property>, k: nat)
    requires k < |props|
    ensures props[k].readable && !IsIdName(props[k].name) ==>
              SetColumns(props[..k + 1]) == SetColumns(props[..k]) + [props[k].column + "=?"]
    ensures !(props[k].readable && !IsIdName(props[k].name)) ==> SetColumns(props[..k + 1]) == SetColumns(props[..k])
  {
    assert props[..k + 1][..k] == props[..k];
  }

  /** The getter values `fillForUpdate` binds before the id, in order. */
  function SetValues(props: seq<Property>, e: Entity): seq<Value>
  {
    if props == [] then []
    else SetValues(props[..|props| - 1], e)
         + (var p := props[|props| - 1]; if p.readable && !IsIdName(p.name) then [Get(e, p)] else [])
  }

  const UpdateKeyword := "UPDATE "
  const SetKeyword := " SET "
  const WhereId := " WHERE id = "

  function UpdateSql(table: string, props: seq<Property>): string
  {
    UpdateKeyword + table + SetKeyword + Join(SetColumns(props), ',') + WhereId + "?"
  }

  /** The last readable property named `id` in any case, which
      `fillForUpdate` records as the id property; None when there is none. */
  function LastIdProperty(props: seq<Property>): (r: Option<Property>)
    ensures r.Some? ==> r.value in props && r.value.readable && IsIdName(r.value.name)
  {
    if props == [] then None
    else
      var p := props[|props| - 1];
      if p.readable && IsIdName(p.name) then Some(p) else LastIdProperty(props[..|props| - 1])
  }

  lemma {:induction false} SetValuesPerColumn(props: seq<Property>, e: Entity)
    ensures |SetValues(props, e)| == |SetColumns(props)|
  {
    if props != [] {
      SetValuesPerColumn(props[..|props| - 1], e);
    }
  }

  /** Each `column=?` holds exactly one mark. */
  lemma {:induction false} SetColumnMarks(props: seq<Property>)
    requires forall p :: p in props ==> '?' !in p.column
    ensures CountAll(SetColumns(props), '?') == |SetColumns(props)|
  {
    if props != [] {
      var init := props[..|props| - 1];
      var p := props[|props| - 1];
      assert forall q :: q in init ==> q in props;
      SetColumnMarks(init);
      if p.readable && !IsIdName(p.name) {
        MarksOfOne(p.column + "=?", p.column + "=", "");
        CountAllSnoc(SetColumns(init), p.column + "=?", '?');
      } else {
        assert SetColumns(props) == SetColumns(init);
      }
    }
  }

  lemma {:induction false} CountAllSnoc(parts: seq<string>, x: string, c: char)
    ensures CountAll(parts + [x], c) == CountAll(parts, c) + Count(x, c)
  {
    if parts == [] {
      assert [x][1..] == [];
    } else {
      assert (parts + [x])[1..] == parts[1..] + [x];
      CountAllSnoc(parts[1..], x, c);
    }
  }

  /** The UPDATE statement has one `?` per value `fillForUpdate` binds: one
      per readable non-id column, then one for the id. */
  lemma UpdateMarks(table: string, props: seq<Property>, e: Entity)
    requires '?' !in table && forall p :: p in props ==> '?' !in p.column
    ensures Count(UpdateSql(table, props), '?') == |SetValues(props, e)| + 1
  {
    SetValuesPerColumn(props, e);
    SetColumnMarks(props);
    CountJoin(SetColumns(props), ',', '?');
    CountAbsent(table, '?');
    assert '?' !in UpdateKeyword && '?' !in SetKeyword && '?' !in WhereId;
    FrameMark(UpdateKeyword, table, SetKeyword, Join(SetColumns(props), ','), WhereId);
  }

  /** Marks of two parts between `?`-free keywords, closed by a final mark. */
  lemma FrameMark(k1: string, a: string, k2: string, b: string, k3: string)
    requires '?' !in k1 && '?' !in k2 && '?' !in k3
    ensures Count(k1 + a + k2 + b + k3 + "?", '?') == Count(a, '?') + Count(b, '?') + 1
  {
    CountAbsent(k3, '?');
    FrameTail(k1, a, k2, b, k3 + "?");
    MarksOfOne(k3 + "?", k3, "");
    assert k1 + a + k2 + b + (k3 + "?") == k1 + a + k2 + b + k3 + "?";
  }

  /** Marks of two parts between `?`-free keywords, and a tail. */
  lemma FrameTail(k1: string, a: string, k2: string, b: string, tail: string)
    requires '?' !in k1 && '?' !in k2
    ensures Count(k1 + a + k2 + b + tail, '?') == Count(a, '?') + Count(b, '?') + Count(tail, '?')
  {
    CountAbsent(k1, '?');
    CountAbsent(k2, '?');
    CountAppend(k1, a, '?');
    CountAppend(k1 + a, k2, '?');
    CountAppend(k1 + a + k2, b, '?');
    CountAppend(k1 + a + k2 + b, tail, '?');
  }

  //---------------------------------------------------------------------------
  // Other statements

  /** `toString(sql, parameters)` as used in error messages; parameters come
      as their `String.valueOf` texts. */
  function Describe(sql: string, params: Option<seq<string>>): (r: string)
    ensures |sql| <= |r| && r[..|sql|] == sql
    ensures params.None? || |params.value| == 0 <==> r == sql
  {
    if params.None? || |params.value| == 0 then sql
    else if |params.value| == 1 then sql + " " + params.value[0]
    else sql + " [" + Join(params.value, ',') + "]"
  }

  /** The decimal digits of `n`, as `String.valueOf` writes an integer. */
  function Digits(n: nat): (r: string)
    ensures |r| > 0 && forall k :: 0 <= k < |r| ==> '0' <= r[k] <= '9'
  {
    var d := ['0' + (n % 10) as char];
    if n < 10 then d else Digits(n / 10) + d
  }

  /** `String.valueOf(value)` of a bound value. */
  function ValueText(v: Value): string
  {
    match v
    case IntValue(i) => if i < 0 then "-" + Digits(-i) else Digits(i)
    case OtherValue(text) => text
    case NullValue => "null"
  }

  /** The texts `toString(sql, parameters)` shows for an argument array. */
  function ArgumentTexts(params: Option<seq<Value>>): (r: Option<seq<string>>)
    ensures r.None? <==> params.None?
    ensures r.Some? ==> |r.value| == |params.value|
  {
    if params.None? then None else Some(seq(|params.value|, k requires 0 <= k < |params.value| => ValueText(params.value[k])))
  }

  const SelectAllFrom := "SELECT * FROM "
  const DeleteFrom := "DELETE FROM "
  const Where := " WHERE "

  /** The single query `getBy` runs. */
  function GetBySql(table: string, query: string): string
  {
    SelectAllFrom + table + Where + query
  }

  function DeleteBySql(table: string, query: string): string
  {
    DeleteFrom + table + Where + query
  }

  /** `getById(id)` is `getByColumn("id", id)`, which is `getBy("id=?", id)`:
      one mark, bound to the id. */
  function ByColumn(column: string): string
  {
    column + "=?"
  }

  /** A query by column holds exactly the one mark its single value fills. */
  lemma ByColumnMarks(table: string, column: string)
    requires '?' !in table && '?' !in column
    ensures Count(GetBySql(table, ByColumn(column)), '?') == 1
    ensures Count(DeleteBySql(table, ByColumn(column)), '?') == 1
  {
    MarksOfOne(ByColumn(column), column + "=", "");
    CountAbsent(table, '?');
    assert '?' !in SelectAllFrom && '?' !in DeleteFrom && '?' !in Where;
    FrameTail(SelectAllFrom, table, Where, "", ByColumn(column));
    assert SelectAllFrom + table + Where + "" + ByColumn(column) == GetBySql(table, ByColumn(column));
    FrameTail(DeleteFrom, table, Where, "", ByColumn(column));
    assert DeleteFrom + table + Where + "" + ByColumn(column) == DeleteBySql(table, ByColumn(column));
  }
}
