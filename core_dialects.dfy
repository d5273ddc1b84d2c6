/** The dialects of the current revision (`orm-core`): MySQL, SQL Server,
    Oracle, DB2, Derby (over DB2) and EnterpriseDB, with the defaults of the
    RdbmsDialect interface for what a class does not override. EnterpriseDB
    extends a PostgresDialect of this revision that is not part of this
    model; its inherited behaviour is that of the older PostgresDialect. */
module CoreDialects {
  import opened Outcomes
  import opened Text
  import RowNumberPaging
  import LegacyDialects

  datatype Vendor = MySql | MsSql | Oracle | Db2 | Derby | EnterpriseDb

  function Name(v: Vendor): string
  {
    match v
    case MySql => "mysql"
    case MsSql => "mssql"
    case Oracle => "oracle"
    case Db2 => "db2"
    case Derby => "derby"
    case EnterpriseDb => "enterprisedb"
  }

  function Driver(v: Vendor): string
  {
    match v
    case MySql => "com.mysql.cj.jdbc.Driver"
    case MsSql => "com.microsoft.jdbc.sqlserver.SQLServerDriver"
    case Oracle => "oracle.jdbc.driver.OracleDriver"
    case Db2 => "COM.ibm.db2.jdbc.net.DB2Driver"
    case Derby => "org.apache.derby.jdbc.EmbeddedDriver"
    case EnterpriseDb => "com.edb.Driver"
  }

  /** `getDataSourceClass()`; None for EnterpriseDB, whose class inherits it.
      Oracle's name carries a trailing line break, kept as written. */
  function DataSourceClass(v: Vendor): Option<string>
  {
    match v
    case MySql => Some("com.mysql.jdbc.jdbc2.optional.MysqlDataSource")
    case MsSql => Some("com.microsoft.sqlserver.jdbc.SQLServerDataSource")
    case Oracle => Some("oracle.jdbc.pool.OracleDataSource\n")
    case Db2 => Some("com.ibm.db2.jcc.DB2SimpleDataSource")
    case Derby => Some("org.apache.derby.jdbc.ClientDataSource")
    case EnterpriseDb => None
  }

  predicate SupportsLimit(v: Vendor)
  {
    v == MySql || v == MsSql
  }

  predicate UseMaxForLimit(v: Vendor)
  {
    v == MsSql || v == Oracle || v == Db2 || v == Derby
  }

  predicate SupportsSequence(v: Vendor)
  {
    v != MySql
  }

  function TestQuery(v: Vendor): string
  {
    match v
    case Oracle => "SELECT 1 FROM DUAL"
    case Db2 => "SELECT 1 FROM SYSIBM.SYSDUMMY1"
    case Derby => "SELECT 1 FROM SYSIBM.SYSDUMMY1"
    case _ => "SELECT 1"
  }

  function MySqlSuffix(hasOffset: bool): string
  {
    if hasOffset then " LIMIT ?, ?" else " LIMIT ?"
  }

  function MsSqlSuffix(hasOffset: bool): string
  {
    if hasOffset then " OFFSET " + "?" + " ROWS FETCH NEXT " + "?" + " ROWS ONLY"
    else " FETCH NEXT " + "?" + " ROWS ONLY"
  }

  const ForUpdate := " FOR UPDATE"

  const SelectFrom := "SELECT * FROM ( "
  const AllColumns := "SELECT ROW_.*, "
  const RowNumber := "ROWNUM ROWNUM_ FROM ( "

  function OracleOpen(hasOffset: bool): string
  {
    if hasOffset then SelectFrom + AllColumns + RowNumber else SelectFrom
  }

  function OracleClose(hasOffset: bool): string
  {
    if hasOffset then " ) ROW_ WHERE ROWNUM <= " + "?" + ") WHERE ROWNUM_ > " + "?"
    else " ) WHERE ROWNUM <= " + "?"
  }

  /** Whether Oracle's trimmed query ends with ` FOR UPDATE`, any case. */
  predicate OracleForUpdate(sql: string)
  {
    EndsWith(ToUpper(Trim(sql)), ForUpdate)
  }

  /** The trimmed query Oracle nests, without a trailing ` FOR UPDATE`. */
  function OracleInner(sql: string): (r: string)
    ensures |r| <= |Trim(sql)| && r == Trim(sql)[..|r|]
    ensures OracleForUpdate(sql) ==> |r| + |ForUpdate| == |Trim(sql)|
    ensures !OracleForUpdate(sql) ==> r == Trim(sql)
  {
    var q := Trim(sql);
    if OracleForUpdate(sql) then q[..|q| - |ForUpdate|] else q
  }

  /** `getLimitString(sql, hasOffset)`. */
  function LimitString(v: Vendor, sql: string, hasOffset: bool): Result<string>
  {
    match v
    case MySql => Success(Trim(sql) + MySqlSuffix(hasOffset))
    case MsSql => Success(sql + MsSqlSuffix(hasOffset))
    case Oracle =>
      Success(OracleOpen(hasOffset) + OracleInner(sql) + OracleClose(hasOffset)
              + (if OracleForUpdate(sql) then ForUpdate else ""))
    case EnterpriseDb => LegacyDialects.LimitString(LegacyDialects.Postgres, sql, hasOffset)
    case _ => RowNumberPaging.LimitString(sql, hasOffset)
  }

  /** The interface's `getLimitString(sql, offset, limit)`: only whether the
      offset is positive reaches the text. */
  function LimitStringFor(v: Vendor, sql: string, offset: int, limit: int): Result<string>
  {
    LimitString(v, sql, offset > 0)
  }

  /** The row count never changes the text, and any two positive offsets
      give the same text. */
  lemma LimitIgnoresCount(v: Vendor, sql: string, offset: int, limit: int, offset': int, limit': int)
    requires (offset > 0) == (offset' > 0)
    ensures LimitStringFor(v, sql, offset, limit) == LimitStringFor(v, sql, offset', limit')
    ensures offset <= 0 ==> LimitStringFor(v, sql, offset, limit) == LimitString(v, sql, false)
  {
  }

  /** The interface default for both sequence methods. */
  function NoSequence(v: Vendor): Error
  {
    IllegalState("DB:" + Name(v) + " doesn't support sequence")
  }

  /** `getSequenceNextVal(name)`. */
  function SequenceNextVal(v: Vendor, name: string): Result<string>
  {
    match v
    case MySql => Failure(NoSequence(v))
    case MsSql => Success("NEXTVAL ('" + name + "')")
    case Oracle => Success(name + ".NEXTVAL")
    case EnterpriseDb => Success(LegacyDialects.SequenceNextVal(LegacyDialects.Postgres, name).value)
    case _ => Success("values next value for " + name)
  }

  /** `getSelectSequenceNextVal(name)` as written: Oracle's calls itself with
      the same argument and never returns. */
  function SelectSequenceNextVal(v: Vendor, name: string): Result<string>
  {
    if v == Oracle then Failure(StackOverflow) else IntendedSelectSequenceNextVal(v, name)
  }

  /** `getSelectSequenceNextVal(name)` with Oracle's select built on its
      `getSequenceNextVal`, as every other dialect builds it. */
  function IntendedSelectSequenceNextVal(v: Vendor, name: string): Result<string>
  {
    match v
    case MySql => Failure(NoSequence(v))
    case MsSql => Success("SELECT " + SequenceNextVal(v, name).value)
    case Oracle => Success("SELECT " + SequenceNextVal(v, name).value + " FROM DUAL")
    case EnterpriseDb => Success(LegacyDialects.SelectSequenceNextVal(LegacyDialects.Postgres, name).value)
    case _ => Success("VALUES NEXT VALUE FOR " + name)
  }

  //---------------------------------------------------------------------------
  // Capabilities and constants

  /** Every dialect answers to its own name. */
  lemma NamesDistinct(v: Vendor, w: Vendor)
    ensures Name(v) == Name(w) <==> v == w
  {
  }

  /** Derby differs from DB2 only in its name, driver and data source class. */
  lemma DerbyIsDb2(sql: string, hasOffset: bool, name: string)
    ensures LimitString(Derby, sql, hasOffset) == LimitString(Db2, sql, hasOffset)
    ensures SequenceNextVal(Derby, name) == SequenceNextVal(Db2, name)
    ensures SelectSequenceNextVal(Derby, name) == SelectSequenceNextVal(Db2, name)
    ensures TestQuery(Derby) == TestQuery(Db2)
    ensures UseMaxForLimit(Derby) == UseMaxForLimit(Db2) && SupportsLimit(Derby) == SupportsLimit(Db2)
    ensures Name(Derby) != Name(Db2) && Driver(Derby) != Driver(Db2)
  {
  }

  /** Only the dialects that append a LIMIT/FETCH clause declare support for
      it, and their rewrite cannot fail; among the rest only the row-number
      rewrite of DB2 and Derby fails, for a query without `select`. */
  lemma LimitFailure(v: Vendor, sql: string, hasOffset: bool)
    ensures SupportsLimit(v) ==> LimitString(v, sql, hasOffset).Success?
    ensures LimitString(v, sql, hasOffset).Failure? <==>
              (v == Db2 || v == Derby) && !Contains(ToLower(sql), "select")
  {
  }

  /** Every test query is `SELECT 1`, possibly with a FROM clause. */
  lemma TestQueries(v: Vendor)
    ensures |TestQuery(v)| >= 8 && TestQuery(v)[..8] == "SELECT 1"
    ensures (v == Oracle || v == Db2 || v == Derby) <==> TestQuery(v) != "SELECT 1"
  {
  }

  /** Each class of this revision declares a data source class except
      EnterpriseDB; Derby's is its own, not DB2's. */
  lemma DataSourceClasses(v: Vendor)
    ensures DataSourceClass(v).Some? <==> v != EnterpriseDb
    ensures DataSourceClass(Derby) != DataSourceClass(Db2)
  {
  }

  //---------------------------------------------------------------------------
  // Sequences

  /** As written, the two sequence methods disagree for Oracle: the plain
      form exists but the select form never returns. */
  lemma OracleSelectSequenceDiverges(name: string)
    ensures SupportsSequence(Oracle) && SequenceNextVal(Oracle, name).Success?
    ensures SelectSequenceNextVal(Oracle, name) == Failure(StackOverflow)
    ensures forall v :: v != Oracle ==> SelectSequenceNextVal(v, name) == IntendedSelectSequenceNextVal(v, name)
  {
  }

  /** Both sequence forms succeed exactly for the dialects that declare
      sequence support, and otherwise fail with the interface's message
      naming the dialect. */
  lemma SequenceSupport(v: Vendor, name: string)
    ensures SequenceNextVal(v, name).Success? <==> SupportsSequence(v)
    ensures IntendedSelectSequenceNextVal(v, name).Success? <==> SupportsSequence(v)
    ensures !SupportsSequence(v) ==>
              SequenceNextVal(v, name) == IntendedSelectSequenceNextVal(v, name)
              == Failure(IllegalState("DB:" + Name(v) + " doesn't support sequence"))
  {
  }

  /** Where the select form is built on the plain one, it prefixes `SELECT `;
      Oracle's corrected form also suffixes ` FROM DUAL`. The sequence name
      is in both forms. */
  lemma SequenceForms(v: Vendor, name: string)
    requires SupportsSequence(v)
    ensures var plain, select := SequenceNextVal(v, name).value, IntendedSelectSequenceNextVal(v, name).value;
      && (v == MsSql ==> select == "SELECT " + plain)
      && (v == Oracle ==> select == "SELECT " + plain + " FROM DUAL" && plain[..|name|] == name)
      && (v == EnterpriseDb ==> plain == "select " + select)
      && (v == Db2 || v == Derby ==> EndsWith(plain, name) && EndsWith(select, name))
  {
  }

  //---------------------------------------------------------------------------
  // Pagination

  /** The trimmed query is what Oracle nests, followed by the removed
      ` FOR UPDATE` (in whatever case it was written) when there was one;
      the output ends with ` FOR UPDATE` exactly when the query did. */
  lemma OracleLayout(sql: string, hasOffset: bool)
    ensures var r, q := LimitString(Oracle, sql, hasOffset).value, OracleInner(sql);
      && OracleOpen(hasOffset) <= r
      && OccursAt(r, q + OracleClose(hasOffset), |OracleOpen(hasOffset)|)
      && (OracleForUpdate(sql) ==> ToUpper(Trim(sql)[|q|..]) == ForUpdate)
      && (EndsWith(r, ForUpdate) <==> OracleForUpdate(sql))
  {
    var r, q := LimitString(Oracle, sql, hasOffset).value, OracleInner(sql);
    var open, close := OracleOpen(hasOffset), OracleClose(hasOffset);
    var tail := if OracleForUpdate(sql) then ForUpdate else "";
    Regroup(open, q, close, tail);
    Framed(r, open, q + close, tail);
    if OracleForUpdate(sql) {
      UpperTail(Trim(sql), q, ForUpdate);
    } else {
      CloseEndsWithMark(hasOffset);
      Framed(r, open + q, close, "");
      LastOf(close, ForUpdate);
    }
  }

  lemma Regroup(a: string, b: string, c: string, d: string)
    ensures a + b + c + d == a + (b + c) + d
  {
  }

  /** Where the three parts of `r` land. */
  lemma Framed(r: string, open: string, mid: string, tail: string)
    requires r == open + mid + tail
    ensures open <= r && OccursAt(r, mid, |open|) && EndsWith(r, tail)
  {
    assert r[..|open|] == open;
    assert r[|open|..|open| + |mid|] == mid;
    assert r[|r| - |tail|..] == tail;
  }

  /** Upper-casing commutes with cutting off a suffix. */
  lemma UpperTail(t: string, q: string, f: string)
    requires EndsWith(ToUpper(t), f) && |q| + |f| == |t|
    ensures ToUpper(t[|q|..]) == f
  {
    assert ToUpper(t)[|q|..] == f;
  }

  /** A text ending with `?` does not end with `f`, whose last character differs. */
  lemma LastOf(c: string, f: string)
    requires |c| > 0 && c[|c| - 1] == '?' && f == ForUpdate
    ensures forall r :: EndsWith(r, c) ==> !EndsWith(r, f)
  {
    assert f[|f| - 1] == 'E';
    forall r | EndsWith(r, c) ensures !EndsWith(r, f) {
      assert r[|r| - 1] == c[|c| - 1];
    }
  }

  lemma CloseEndsWithMark(hasOffset: bool)
    ensures var c := OracleClose(hasOffset); |c| > 0 && c[|c| - 1] == '?'
  {
  }

  /** Every positional mark of the query survives each rewrite, which adds
      one for the row count and one more for an offset; DB2 and Derby also
      repeat the marks of the ORDER BY tail they copy into `over(...)`. */
  lemma LimitPlaceholders(v: Vendor, sql: string, hasOffset: bool)
    requires LimitString(v, sql, hasOffset).Success?
    ensures Count(LimitString(v, sql, hasOffset).value, '?')
            == Count(sql, '?') + (if hasOffset then 2 else 1)
               + (if v == Db2 || v == Derby then Count(RowNumberPaging.OrderTail(sql), '?') else 0)
  {
    match v
    case MySql =>
      SuffixMarks(hasOffset);
      CountTrim(sql, '?');
      CountAppend(Trim(sql), MySqlSuffix(hasOffset), '?');
    case MsSql =>
      SuffixMarks(hasOffset);
      CountAppend(sql, MsSqlSuffix(hasOffset), '?');
    case Oracle =>
      OracleMarks(sql, hasOffset);
    case EnterpriseDb =>
      LegacyDialects.LimitPlaceholders(LegacyDialects.Postgres, sql, hasOffset);
    case _ =>
      RowNumberPaging.Placeholders(sql, hasOffset);
  }

  lemma SuffixMarks(hasOffset: bool)
    ensures Count(MySqlSuffix(hasOffset), '?') == if hasOffset then 2 else 1
    ensures Count(MsSqlSuffix(hasOffset), '?') == if hasOffset then 2 else 1
  {
    MySqlMarks(hasOffset);
    MsSqlMarks(hasOffset);
  }

  lemma MySqlMarks(hasOffset: bool)
    ensures Count(MySqlSuffix(hasOffset), '?') == if hasOffset then 2 else 1
  {
    if hasOffset {
      MarksOfTwo(MySqlSuffix(true), " LIMIT ", ", ", "");
    } else {
      MarksOfOne(MySqlSuffix(false), " LIMIT ", "");
    }
  }

  lemma MsSqlMarks(hasOffset: bool)
    ensures Count(MsSqlSuffix(hasOffset), '?') == if hasOffset then 2 else 1
  {
    if hasOffset {
      MarksOfTwo(MsSqlSuffix(true), " OFFSET ", " ROWS FETCH NEXT ", " ROWS ONLY");
    } else {
      MarksOfOne(MsSqlSuffix(false), " FETCH NEXT ", " ROWS ONLY");
    }
  }

  lemma OracleCloseMarks(hasOffset: bool)
    ensures Count(OracleClose(hasOffset), '?') == if hasOffset then 2 else 1
  {
    if hasOffset {
      MarksOfTwo(OracleClose(true), " ) ROW_ WHERE ROWNUM <= ", ") WHERE ROWNUM_ > ", "");
    } else {
      MarksOfOne(OracleClose(false), " ) WHERE ROWNUM <= ", "");
    }
  }

  lemma OracleOpenMarks(hasOffset: bool)
    ensures '?' !in OracleOpen(hasOffset) && '?' !in ForUpdate
  {
    assert '?' !in SelectFrom && '?' !in AllColumns && '?' !in RowNumber;
  }

  /** A mark-free frame adds the marks of its middle part only. */
  lemma FrameMarks(open: string, q: string, close: string, tail: string)
    requires '?' !in open && '?' !in tail
    ensures Count(open + q + close + tail, '?') == Count(q, '?') + Count(close, '?')
  {
    CountAbsent(open, '?');
    CountAbsent(tail, '?');
    CountAppend(open, q, '?');
    CountAppend(open + q, close, '?');
    CountAppend(open + q + close, tail, '?');
  }

  /** The ` FOR UPDATE` Oracle removes holds no mark, so the nested query
      keeps all of them. */
  lemma OracleMarks(sql: string, hasOffset: bool)
    ensures Count(LimitString(Oracle, sql, hasOffset).value, '?') == Count(sql, '?') + (if hasOffset then 2 else 1)
  {
    var open, q, close := OracleOpen(hasOffset), OracleInner(sql), OracleClose(hasOffset);
    var tail := if OracleForUpdate(sql) then ForUpdate else "";
    OracleOpenMarks(hasOffset);
    OracleCloseMarks(hasOffset);
    InnerMarks(sql);
    FrameMarks(open, q, close, tail);
  }

  lemma InnerMarks(sql: string)
    ensures Count(OracleInner(sql), '?') == Count(sql, '?')
  {
    CountTrim(sql, '?');
    if OracleForUpdate(sql) {
      OracleOpenMarks(false);
      UpperSuffixFree(Trim(sql), ForUpdate);
      CountCut(Trim(sql), |Trim(sql)| - |ForUpdate|);
    }
  }

}
