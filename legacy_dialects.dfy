/** The dialects of the older revision (root `src/` tree): MySQL, DB2,
    Derby (over that DB2) and PostgreSQL. Only what these classes declare is
    modelled; what they inherit from that revision's RdbmsDialect interface
    is not part of this model and reads as None. */
module LegacyDialects {
  import opened Outcomes
  import opened Text
  import RowNumberPaging

  datatype Vendor = MySql | Db2 | Derby | Postgres

  function Name(v: Vendor): string
  {
    match v
    case MySql => "mysql"
    case Db2 => "db2"
    case Derby => "derby"
    case Postgres => "postgres"
  }

  function Driver(v: Vendor): string
  {
    match v
    case MySql => "com.mysql.cj.jdbc.Driver"
    case Db2 => "COM.ibm.db2.jdbc.net.DB2Driver"
    case Derby => "org.apache.derby.jdbc.EmbeddedDriver"
    case Postgres => "org.postgresql.Driver"
  }

  /** Declared overrides of `supportsLimit`; None: inherited. */
  function SupportsLimit(v: Vendor): Option<bool>
  {
    if v == MySql then Some(true) else None
  }

  /** Declared overrides of `useMaxForLimit`; None: inherited. */
  function UseMaxForLimit(v: Vendor): Option<bool>
  {
    if v == Db2 || v == Derby then Some(true) else None
  }

  /** Declared overrides of `supportsSequence`; None: inherited. */
  function SupportsSequence(v: Vendor): Option<bool>
  {
    if v == MySql then None else Some(true)
  }

  function MySqlSuffix(hasOffset: bool): string
  {
    if hasOffset then " LIMIT ?, ?" else " LIMIT ?"
  }

  function PostgresSuffix(hasOffset: bool): string
  {
    if hasOffset then " limit ? offset ?" else " limit ?"
  }

  /** `getLimitString(sql, hasOffset)`: MySQL trims and appends LIMIT,
      PostgreSQL appends `limit`/`offset` untrimmed, DB2 and Derby nest the
      query under a row number (and fail without a `select`). */
  function LimitString(v: Vendor, sql: string, hasOffset: bool): Result<string>
  {
    match v
    case MySql => Success(Trim(sql) + MySqlSuffix(hasOffset))
    case Postgres => Success(sql + PostgresSuffix(hasOffset))
    case _ => RowNumberPaging.LimitString(sql, hasOffset)
  }

  /** `getSequenceNextVal(name)`; None where the class declares none. */
  function SequenceNextVal(v: Vendor, name: string): Option<string>
  {
    match v
    case MySql => None
    case Postgres => Some("select " + PostgresSelectNextVal(name))
    case _ => Some("values nextval for " + name)
  }

  function PostgresSelectNextVal(name: string): string
  {
    "nextval ('" + name + "')"
  }

  /** `getSelectSequenceNextVal(name)`; None where the class declares none. */
  function SelectSequenceNextVal(v: Vendor, name: string): Option<string>
  {
    match v
    case MySql => None
    case Postgres => Some(PostgresSelectNextVal(name))
    case _ => Some("select " + SequenceNextVal(v, name).value)
  }

  //---------------------------------------------------------------------------

  lemma SuffixMarks(hasOffset: bool)
    ensures Count(MySqlSuffix(hasOffset), '?') == if hasOffset then 2 else 1
    ensures Count(PostgresSuffix(hasOffset), '?') == if hasOffset then 2 else 1
  {
    if hasOffset {
      CountDouble(" LIMIT ", '?', ", ", "");
      assert MySqlSuffix(true) == " LIMIT " + "?" + ", " + "?" + "";
      CountDouble(" limit ", '?', " offset ", "");
      assert PostgresSuffix(true) == " limit " + "?" + " offset " + "?" + "";
    } else {
      CountSingle(" LIMIT ", '?', "");
      assert MySqlSuffix(false) == " LIMIT " + "?" + "";
      CountSingle(" limit ", '?', "");
      assert PostgresSuffix(false) == " limit " + "?" + "";
    }
  }

  /** The rewrite keeps every positional mark of the query and adds one for
      the row count and one more for an offset; DB2 and Derby also repeat the
      marks of the ORDER BY tail they copy into `over(...)`. Only DB2 and
      Derby can fail, and only for a query without `select`. */
  lemma LimitPlaceholders(v: Vendor, sql: string, hasOffset: bool)
    ensures LimitString(v, sql, hasOffset).Failure? <==>
              (v == Db2 || v == Derby) && !Contains(ToLower(sql), "select")
    ensures LimitString(v, sql, hasOffset).Success? ==>
              Count(LimitString(v, sql, hasOffset).value, '?')
              == Count(sql, '?') + (if hasOffset then 2 else 1)
                 + (if v == Db2 || v == Derby then Count(RowNumberPaging.OrderTail(sql), '?') else 0)
  {
    SuffixMarks(hasOffset);
    match v
    case MySql =>
      CountTrim(sql, '?');
      CountAppend(Trim(sql), MySqlSuffix(hasOffset), '?');
    case Postgres =>
      CountAppend(sql, PostgresSuffix(hasOffset), '?');
    case _ =>
      if LimitString(v, sql, hasOffset).Success? {
        RowNumberPaging.Placeholders(sql, hasOffset);
      }
  }

  /** The appending dialects keep the (trimmed, for MySQL) query as the
      prefix of their output. */
  lemma LimitKeepsQuery(v: Vendor, sql: string, hasOffset: bool)
    requires v == MySql || v == Postgres
    ensures var base := if v == MySql then Trim(sql) else sql;
      var r := LimitString(v, sql, hasOffset).value;
      |base| <= |r| && r[..|base|] == base
      && EndsWith(r, if v == MySql then MySqlSuffix(hasOffset) else PostgresSuffix(hasOffset))
  {
  }

  /** The two sequence forms are built from each other: DB2/Derby prefix
      `select ` to the statement, PostgreSQL prefixes it to the expression,
      and the sequence name is the tail of both. */
  lemma SequenceForms(v: Vendor, name: string)
    requires v != MySql
    ensures var plain, select := SequenceNextVal(v, name), SelectSequenceNextVal(v, name);
      && plain.Some? && select.Some?
      && (v == Postgres ==> plain.value == "select " + select.value)
      && (v != Postgres ==> select.value == "select " + plain.value)
      && (v != Postgres ==> EndsWith(plain.value, name) && EndsWith(select.value, name))
      && (v == Postgres ==> EndsWith(select.value, name + "')"))
  {
  }
}
