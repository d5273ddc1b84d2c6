/** JdbcRepository (orm-core): the repository engine of one entity table.
    JDBC is abstracted: a query's result set arrives as its rows, an update
    as its update count and a batch as its per-statement counts; what the
    engine hands to JDBC (the statement text and the values bound to its
    positions) is part of each result. Reflection is abstracted as the
    entity classes known by name, each with its table name (the
    NamingConvention form of its simple name) and its ordered properties. */
module Repositories {
  import opened Outcomes
  import opened Text
  import opened RepositorySql
  import NamedParameters
  import CoreDialects
  import Limits

  /** A data source as the registries and the repository see it: the name
      it is registered under, whether it is a NamedDataSource flagged as the
      default, and the dialect RepositoryUtil.getDialect resolves for it. */
  datatype DataSource = DataSource(name: string, isDefault: bool, vendor: CoreDialects.Vendor)

  /** An entity class as reflection reports it. */
  datatype EntityClass = EntityClass(name: string, table: string, properties: seq<Property>)

  /** One row of a result set, by column name. */
  type Row = map<string, Value>

  /** A listing: the statement run, the values bound by position, and the
      entities made from the rows read. */
  datatype Listing = Listing(sql: string, bindings: map<nat, Value>, entities: seq<Entity>)

  /** A statement run once: its text, the values bound to positions 1, 2, ...,
      and the outcome (a row found, or the update count check). */
  datatype Execution = Execution(sql: string, bindings: seq<Value>, ok: bool)

  datatype Fetch = Fetch(sql: string, bindings: seq<Value>, entity: Option<Entity>)

  /** A created entity: the entity with its sequence id (when one was
      fetched), the sequence query run, and the INSERT. */
  datatype Created = Created(entity: Entity, sequenceQuery: Option<string>, insert: Execution)

  //---------------------------------------------------------------------------
  // Reading rows and binding values

  /** `newEntity(rs)`: every writable property set from its column, in
      property order (a later property of the same name wins); reading a
      column the row lacks makes `getObject` throw, so the entity is made
      exactly when the row has every writable property's column. */
  function NewEntity(props: seq<Property>, row: Row): (r: Option<Entity>)
    ensures r.Some? <==> forall p :: p in props && p.writable ==> p.column in row
    ensures r.Some? ==> forall n :: n in r.value <==> exists p :: p in props && p.writable && p.name == n
  {
    if props == [] then Some(map[])
    else
      var p := props[|props| - 1];
      match NewEntity(props[..|props| - 1], row)
      case None => None
      case Some(e) =>
        if !p.writable then Some(e)
        else if p.column in row then Some(e[p.name := row[p.column]])
        else None
  }

  /** No later writable property shares the name of property `k`. */
  predicate LastWritable(props: seq<Property>, k: nat)
    requires k < |props|
  {
    forall j :: k < j < |props| && props[j].writable ==> props[j].name != props[k].name
  }

  /** Each property name holds the value of the column of the last writable
      property with that name. */
  lemma {:induction false} NewEntityValues(props: seq<Property>, row: Row, k: nat)
    requires NewEntity(props, row).Some?
    requires k < |props| && props[k].writable && LastWritable(props, k)
    ensures props[k].column in row
    ensures NewEntity(props, row).value[props[k].name] == row[props[k].column]
  {
    var last := |props| - 1;
    var init := props[..last];
    assert props[k] in props;
    if k < last {
      assert init[k] == props[k];
      forall j | k < j < |init| && init[j].writable
        ensures init[j].name != init[k].name
      {
        assert init[j] == props[j];
      }
      NewEntityValues(init, row, k);
      assert props[last].writable ==> props[last].name != props[k].name;
    }
  }

  /** The values bound by a loop `setObject(i + 1, parameters[i])`; a null
      array binds nothing. */
  function Arguments(params: Option<seq<Value>>): seq<Value>
  {
    if params.None? then [] else params.value
  }

  /** Positions 1..n holding the n arguments. */
  function Positions(args: seq<Value>): (m: map<nat, Value>)
    ensures forall k :: k in m <==> 1 <= k <= |args|
    ensures forall k :: 1 <= k <= |args| ==> m[k] == args[k - 1]
  {
    if args == [] then map[] else Positions(args[..|args| - 1])[|args| := args[|args| - 1]]
  }

  //---------------------------------------------------------------------------
  // listBy

  /** The listing's offset (`off`), the row count handed to the dialect
      (`lmt`, -1 for none) and the client-side cap on rows read (`end`). */
  datatype Paging = Paging(offset: int, count: int, end: int)

  function LimitValues(limit: Limits.Limit?): Option<(int32, int32)>
    reads limit
  {
    if limit == null then None else Some((limit.offset, limit.limit))
  }

  function PagingOf(v: CoreDialects.Vendor, limit: Option<(int32, int32)>): Paging
  {
    var off := if limit.None? then 0 else limit.value.0 as int;
    var lmt := if limit.None? || CoreDialects.UseMaxForLimit(v) then -1 else limit.value.1 as int;
    Paging(off, lmt, if lmt > 0 then lmt else if limit.Some? then limit.value.1 as int else MaxInt as int)
  }

  /** The unpaged listing statement: the WHERE part is added for a
      non-blank condition; a blank (or null) condition with arguments is
      refused. */
  function ListSql(table: string, columns: Option<seq<string>>, query: Option<string>,
                   params: Option<seq<Value>>): Result<string>
  {
    var base := "SELECT " + SelectList(columns) + " FROM " + table;
    if query.None? || IsBlank(query.value) then
      if |Arguments(params)| > 0 then Failure(IllegalArgument("There is parameter, but not query condition"))
      else Success(base)
    else Success(base + " WHERE " + query.value)
  }

  /** The statement as rewritten by a dialect that supports LIMIT. */
  function Paged(v: CoreDialects.Vendor, sql: string, p: Paging): Result<string>
  {
    if CoreDialects.SupportsLimit(v) then CoreDialects.LimitStringFor(v, sql, p.offset, p.count)
    else Success(sql)
  }

  /** The bindings as written: the arguments, then the offset and then the
      count both at position n + 1; with a null argument array the `length`
      read fails as soon as either is bound. */
  function ListBindings(params: Option<seq<Value>>, p: Paging): Option<map<nat, Value>>
  {
    if params.None? && (p.offset > 0 || p.count > 0) then None
    else
      var n := |Arguments(params)|;
      var withOffset := if p.offset > 0 then Positions(Arguments(params))[n + 1 := IntValue(p.offset)]
                        else Positions(Arguments(params));
      Some(if p.count > 0 then withOffset[n + 1 := IntValue(p.count)] else withOffset)
  }

  /** How many leading rows are read: at most `end`. */
  function ReadCount(rows: seq<Row>, end: int): (n: nat)
    ensures n <= |rows| && (end <= 0 ==> n == 0) && (end > 0 ==> n == if end < |rows| then end else |rows|)
  {
    if end <= 0 then 0 else if end < |rows| then end else |rows|
  }

  /** Every one of the first `n` rows makes an entity. */
  predicate Readable(props: seq<Property>, rows: seq<Row>, n: nat)
    requires n <= |rows|
  {
    forall k :: 0 <= k < n ==> NewEntity(props, rows[k]).Some?
  }

  /** The entities of the first `n` rows, in order. */
  function EntitiesOf(props: seq<Property>, rows: seq<Row>, n: nat): (es: seq<Entity>)
    requires n <= |rows| && Readable(props, rows, n)
    ensures |es| == n && forall k :: 0 <= k < n ==> NewEntity(props, rows[k]) == Some(es[k])
  {
    if n == 0 then [] else EntitiesOf(props, rows, n - 1) + [NewEntity(props, rows[n - 1]).value]
  }

  /** The entities of at most `end` leading rows, or None when one of those
      rows lacks a writable property's column. */
  function Capped(props: seq<Property>, rows: seq<Row>, end: int): Option<seq<Entity>>
  {
    var n := ReadCount(rows, end);
    if Readable(props, rows, n) then Some(EntitiesOf(props, rows, n)) else None
  }

  function ListSpec(table: string, v: CoreDialects.Vendor, props: seq<Property>, columns: Option<seq<string>>,
                    limit: Option<(int32, int32)>, query: Option<string>, params: Option<seq<Value>>,
                    rows: seq<Row>): Result<Listing>
  {
    var p := PagingOf(v, limit);
    match ListSql(table, columns, query, params)
    case Failure(e) => Failure(e)
    case Success(sql) =>
      match Paged(v, sql, p)
      case Failure(e) => Failure(e)
      case Success(paged) =>
        match ListBindings(params, p)
        case None => Failure(RepositoryFailure("Creating entity " + Describe(paged, None) + " error"))
        case Some(b) =>
          match Capped(props, rows, p.end)
          case None => Failure(RepositoryFailure("Creating entity " + Describe(paged, ArgumentTexts(params)) + " error"))
          case Some(es) => Success(Listing(paged, b, es))
  }

  /** A listing is refused for its arguments exactly when the condition is
      blank (or null) and there are arguments; no other failure carries
      that message. */
  lemma ListWhereRule(table: string, v: CoreDialects.Vendor, props: seq<Property>, columns: Option<seq<string>>,
                      limit: Option<(int32, int32)>, query: Option<string>, params: Option<seq<Value>>,
                      rows: seq<Row>)
    ensures ListSpec(table, v, props, columns, limit, query, params, rows)
            == Failure(IllegalArgument("There is parameter, but not query condition"))
            <==> (query.None? || IsBlank(query.value)) && |Arguments(params)| > 0
    ensures query.Some? && !IsBlank(query.value) ==>
              ListSql(table, columns, query, params)
              == Success("SELECT " + SelectList(columns) + " FROM " + table + " WHERE " + query.value)
  {
    var sql := ListSql(table, columns, query, params);
    if sql.Success? {
      CoreDialects.LimitFailure(v, sql.value, PagingOf(v, limit).offset > 0);
    }
  }

  /** Paging reaches the statement only through a dialect that supports
      LIMIT, and then it never fails; the row count never shapes the text. */
  lemma ListPaging(table: string, v: CoreDialects.Vendor, props: seq<Property>, columns: Option<seq<string>>,
                   limit: Option<(int32, int32)>, query: Option<string>, params: Option<seq<Value>>,
                   rows: seq<Row>)
    requires ListSpec(table, v, props, columns, limit, query, params, rows).Success?
    ensures var sql := ListSql(table, columns, query, params).value;
      var off := if limit.None? then 0 else limit.value.0 as int;
      ListSpec(table, v, props, columns, limit, query, params, rows).value.sql
      == if CoreDialects.SupportsLimit(v) then CoreDialects.LimitString(v, sql, off > 0).value else sql
  {
  }

  /** At most `end` rows become entities: the leading rows, in order, each
      made by `newEntity`; with no limit every row is read (up to
      `Integer.MAX_VALUE`), and without a count the limit's own row count caps. */
  lemma ListRowCap(table: string, v: CoreDialects.Vendor, props: seq<Property>, columns: Option<seq<string>>,
                   limit: Option<(int32, int32)>, query: Option<string>, params: Option<seq<Value>>,
                   rows: seq<Row>)
    requires ListSpec(table, v, props, columns, limit, query, params, rows).Success?
    ensures var es := ListSpec(table, v, props, columns, limit, query, params, rows).value.entities;
      && |es| <= |rows|
      && (forall k :: 0 <= k < |es| ==> NewEntity(props, rows[k]) == Some(es[k]))
      && (limit.None? && |rows| <= MaxInt as int ==> |es| == |rows|)
      && (limit.Some? ==> |es| <= if limit.value.1 <= 0 then 0 else limit.value.1 as int)
      && (limit.Some? && limit.value.1 as int >= |rows| ==> |es| == |rows|)
  {
  }

  /** Once the statement and its bindings are made, the listing fails
      exactly when one of the rows read lacks a writable property's column,
      and then with the statement and its arguments in the message. */
  lemma ListUnreadableRow(table: string, v: CoreDialects.Vendor, props: seq<Property>, columns: Option<seq<string>>,
                          limit: Option<(int32, int32)>, query: Option<string>, params: Option<seq<Value>>,
                          rows: seq<Row>)
    requires ListSql(table, columns, query, params).Success?
    requires Paged(v, ListSql(table, columns, query, params).value, PagingOf(v, limit)).Success?
    requires ListBindings(params, PagingOf(v, limit)).Some?
    ensures var paged := Paged(v, ListSql(table, columns, query, params).value, PagingOf(v, limit)).value;
      && (ListSpec(table, v, props, columns, limit, query, params, rows).Failure?
          <==> exists k, q :: 0 <= k < ReadCount(rows, PagingOf(v, limit).end) && q in props && q.writable
                              && q.column !in rows[k])
      && (ListSpec(table, v, props, columns, limit, query, params, rows).Failure? ==>
            ListSpec(table, v, props, columns, limit, query, params, rows)
            == Failure(RepositoryFailure("Creating entity " + Describe(paged, ArgumentTexts(params)) + " error")))
  {
  }

  /** As written, the offset and the row count go to the same position
      n + 1, so when both are positive only the count is bound and the
      listing binds one value fewer than the positional marks the MySQL
      rewrite adds. */
  lemma ListBindsOneSlot(table: string, props: seq<Property>, columns: Option<seq<string>>,
                         limit: (int32, int32), query: Option<string>, params: seq<Value>, rows: seq<Row>)
    requires limit.0 > 0 && limit.1 > 0
    requires ListSql(table, columns, query, Some(params)).Success?
    requires Readable(props, rows, ReadCount(rows, limit.1 as int))
    ensures ListSpec(table, CoreDialects.MySql, props, columns, Some(limit), query, Some(params), rows).Success?
    ensures forall k :: k in ListSpec(table, CoreDialects.MySql, props, columns, Some(limit), query, Some(params), rows).value.bindings
                        <==> 1 <= k <= |params| + 1
    ensures ListSpec(table, CoreDialects.MySql, props, columns, Some(limit), query, Some(params), rows).value.bindings[|params| + 1]
            == IntValue(limit.1 as int)
    ensures ListSpec(table, CoreDialects.MySql, props, columns, Some(limit), query, Some(params), rows).value.sql
            == Trim(ListSql(table, columns, query, Some(params)).value) + CoreDialects.MySqlSuffix(true)
  {
    var p := PagingOf(CoreDialects.MySql, Some(limit));
    assert p == Paging(limit.0 as int, limit.1 as int, limit.1 as int);
    var sql := ListSql(table, columns, query, Some(params)).value;
    var paged := Trim(sql) + CoreDialects.MySqlSuffix(true);
    assert Paged(CoreDialects.MySql, sql, p) == Success(paged);
    SharedSlot(params, p);
    var b := ListBindings(Some(params), p).value;
    assert ListSpec(table, CoreDialects.MySql, props, columns, Some(limit), query, Some(params), rows)
        == Success(Listing(paged, b, EntitiesOf(props, rows, ReadCount(rows, p.end))));
  }

  /** With both an offset and a count, the count overwrites the offset in
      the one slot after the arguments. */
  lemma SharedSlot(params: seq<Value>, p: Paging)
    requires p.offset > 0 && p.count > 0
    ensures ListBindings(Some(params), p).Some?
    ensures forall k :: k in ListBindings(Some(params), p).value <==> 1 <= k <= |params| + 1
    ensures ListBindings(Some(params), p).value[|params| + 1] == IntValue(p.count)
  {
  }

  /** As written, SQL Server reports `useMaxForLimit`, so the row count is
      -1 and never bound, yet its limit text always ends in the count's
      mark: the listing adds one mark more than it binds values. */
  lemma MsSqlCountUnbound(table: string, props: seq<Property>, columns: Option<seq<string>>,
                          limit: (int32, int32), query: Option<string>, params: seq<Value>, rows: seq<Row>)
    requires ListSql(table, columns, query, Some(params)).Success?
    requires Readable(props, rows, ReadCount(rows, limit.1 as int))
    ensures ListSpec(table, CoreDialects.MsSql, props, columns, Some(limit), query, Some(params), rows).Success?
    ensures var sql := ListSql(table, columns, query, Some(params)).value;
      var listing := ListSpec(table, CoreDialects.MsSql, props, columns, Some(limit), query, Some(params), rows).value;
      && listing.sql == sql + CoreDialects.MsSqlSuffix(limit.0 > 0)
      && Count(listing.sql, '?') == Count(sql, '?') + (if limit.0 > 0 then 2 else 1)
      && forall k :: k in listing.bindings <==> 1 <= k <= |params| + (if limit.0 > 0 then 1 else 0)
  {
    var sql := ListSql(table, columns, query, Some(params)).value;
    var p := PagingOf(CoreDialects.MsSql, Some(limit));
    assert p == Paging(limit.0 as int, -1, limit.1 as int);
    var paged := sql + CoreDialects.MsSqlSuffix(limit.0 > 0);
    assert Paged(CoreDialects.MsSql, sql, p) == Success(paged);
    UnboundCount(params, p);
    var b := ListBindings(Some(params), p).value;
    ListSpecShape(table, CoreDialects.MsSql, props, columns, Some(limit), query, Some(params), rows);
    assert ListSpec(table, CoreDialects.MsSql, props, columns, Some(limit), query, Some(params), rows)
        == Success(Listing(paged, b, EntitiesOf(props, rows, ReadCount(rows, p.end))));
    CoreDialects.LimitPlaceholders(CoreDialects.MsSql, sql, limit.0 > 0);
  }

  /** Without a positive row count, only the arguments and a positive
      offset are bound. */
  lemma UnboundCount(params: seq<Value>, p: Paging)
    requires p.count <= 0
    ensures ListBindings(Some(params), p).Some?
    ensures forall k :: k in ListBindings(Some(params), p).value <==> 1 <= k <= |params| + (if p.offset > 0 then 1 else 0)
  {
  }

  /** A listing whose statement, paging, bindings and rows all succeed. */
  lemma ListSpecShape(table: string, v: CoreDialects.Vendor, props: seq<Property>, columns: Option<seq<string>>,
                      limit: Option<(int32, int32)>, query: Option<string>, params: Option<seq<Value>>,
                      rows: seq<Row>)
    requires ListSql(table, columns, query, params).Success?
    requires Paged(v, ListSql(table, columns, query, params).value, PagingOf(v, limit)).Success?
    requires ListBindings(params, PagingOf(v, limit)).Some?
    requires Readable(props, rows, ReadCount(rows, PagingOf(v, limit).end))
    ensures ListSpec(table, v, props, columns, limit, query, params, rows)
            == Success(Listing(Paged(v, ListSql(table, columns, query, params).value, PagingOf(v, limit)).value,
                               ListBindings(params, PagingOf(v, limit)).value,
                               EntitiesOf(props, rows, ReadCount(rows, PagingOf(v, limit).end))))
  {
  }

  /** The bindings evidently intended: the arguments, then the offset (when
      positive) at n + 1, then the row count after it. */
  function IntendedListBindings(params: seq<Value>, offset: int, count: int): map<nat, Value>
  {
    Positions(params + (if offset > 0 then [IntValue(offset)] else []) + [IntValue(count)])
  }

  /** For the dialects whose limit text takes the offset and then the row
      count, the intended bindings fill every mark of the paged statement
      exactly once: the arguments, the offset, then the count. */
  lemma IntendedBindsEveryMark(v: CoreDialects.Vendor, sql: string, params: seq<Value>, offset: int, count: int)
    requires v == CoreDialects.MySql || v == CoreDialects.MsSql
    requires Count(sql, '?') == |params|
    ensures CoreDialects.LimitStringFor(v, sql, offset, count).Success?
    ensures var paged := CoreDialects.LimitStringFor(v, sql, offset, count).value;
      var b := IntendedListBindings(params, offset, count);
      && Count(paged, '?') == |params| + (if offset > 0 then 2 else 1)
      && (forall k :: k in b <==> 1 <= k <= Count(paged, '?'))
      && (forall k :: 1 <= k <= |params| ==> b[k] == params[k - 1])
      && (offset > 0 ==> b[|params| + 1] == IntValue(offset))
      && b[|params| + (if offset > 0 then 2 else 1)] == IntValue(count)
  {
    CoreDialects.LimitPlaceholders(v, sql, offset > 0);
    var args := params + (if offset > 0 then [IntValue(offset)] else []) + [IntValue(count)];
    assert |args| == |params| + (if offset > 0 then 2 else 1);
  }

  //---------------------------------------------------------------------------
  // The remaining statements, the id and the batch statuses

  /** `getBy`: the first row, if any, becomes the entity; a first row
      lacking a writable property's column fails as `getObject` throws. */
  function FetchSpec(table: string, props: seq<Property>, query: string, params: Option<seq<Value>>,
                     rows: seq<Row>): Result<Fetch>
  {
    var sql := GetBySql(table, query);
    if rows == [] then Success(Fetch(sql, Arguments(params), None))
    else match NewEntity(props, rows[0])
      case None => Failure(RepositoryFailure("Creating entity " + Describe(sql, ArgumentTexts(params)) + " error"))
      case Some(e) => Success(Fetch(sql, Arguments(params), Some(e)))
  }

  /** `getBy` fails exactly when there is a first row and it lacks a
      writable property's column; otherwise it binds the arguments and
      returns the first row's entity, whose properties hold their columns. */
  lemma FetchFirstRow(table: string, props: seq<Property>, query: string, params: Option<seq<Value>>,
                      rows: seq<Row>)
    ensures FetchSpec(table, props, query, params, rows).Failure?
            <==> rows != [] && exists q :: q in props && q.writable && q.column !in rows[0]
    ensures FetchSpec(table, props, query, params, rows).Success? ==>
              var f := FetchSpec(table, props, query, params, rows).value;
              && f.sql == "SELECT * FROM " + table + " WHERE " + query
              && f.bindings == Arguments(params)
              && (f.entity.Some? <==> rows != [])
              && forall k :: 0 <= k < |props| && props[k].writable && LastWritable(props, k) && rows != [] ==>
                   f.entity.value[props[k].name] == rows[0][props[k].column]
  {
    if FetchSpec(table, props, query, params, rows).Success? && rows != [] {
      forall k | 0 <= k < |props| && props[k].writable && LastWritable(props, k)
        ensures FetchSpec(table, props, query, params, rows).value.entity.value[props[k].name] == rows[0][props[k].column]
      {
        NewEntityValues(props, rows[0], k);
      }
    }
  }

  function DeleteSpec(table: string, query: string, params: Option<seq<Value>>, updated: int): Result<Execution>
  {
    if IsBlank(query) then Failure(IllegalArgument("No any condition in the query:" + query))
    else Success(Execution(DeleteBySql(table, query), Arguments(params), updated >= 1))
  }

  /** The statuses as `update(list)` and `deleteByIds` fill them: the index
      is never advanced, so slot 0 gets the last count's status and every
      other slot stays false; a count with no slot to write fails. */
  function StatusesAsWritten(n: nat, batch: seq<int>): Result<seq<bool>>
  {
    if |batch| > 0 && n == 0 then Failure(IndexOutOfBounds)
    else Success(seq(n, k requires 0 <= k < n => k == 0 && |batch| > 0 && batch[|batch| - 1] > 0))
  }

  /** The statuses `create(list)` fills: one per batch count, true for a
      positive count. */
  function Statuses(batch: seq<int>): (r: seq<bool>)
    ensures |r| == |batch| && forall k :: 0 <= k < |r| ==> (r[k] <==> batch[k] > 0)
  {
    seq(|batch|, k requires 0 <= k < |batch| => batch[k] > 0)
  }

  /** The statuses as written lose every count but the last: two deletes of
      which only the first removed a row both read as failed. */
  lemma StatusesLoseCounts()
    ensures StatusesAsWritten(2, [1, 0]) == Success([false, false])
    ensures Statuses([1, 0]) == [true, false]
  {
    assert StatusesAsWritten(2, [1, 0]).value == [false, false];
  }

  /** `fillForUpdate`'s id property: the last readable property named `id`
      in any case, or the one it already had. */
  function UpdateIdProperty(props: seq<Property>, current: Property): Property
  {
    var last := LastIdProperty(props);
    if last.Some? then last.value else current
  }

  /** The values `fillForUpdate` binds: the SET values, then the id, which
      must be a non-zero int. */
  function UpdateBindings(props: seq<Property>, idp: Property, e: Entity): Result<seq<Value>>
  {
    match IdOf(e, idp)
    case Failure(err) => Failure(err)
    case Success(id) =>
      if id == 0 then Failure(IllegalState("The id is zero"))
      else Success(SetValues(props, e) + [IntValue(id)])
  }

  /** Running `fillForUpdate` again picks the same id property. */
  lemma UpdateIdPropertyStable(props: seq<Property>, current: Property)
    ensures UpdateIdProperty(props, UpdateIdProperty(props, current)) == UpdateIdProperty(props, current)
    ensures LastIdProperty(props).None? ==> UpdateIdProperty(props, current) == current
  {
  }

  /** What `fillForUpdate` binds fills the UPDATE statement exactly: one
      value per `?`, the id last. */
  lemma UpdateFillsStatement(table: string, props: seq<Property>, idp: Property, e: Entity)
    requires '?' !in table && forall p :: p in props ==> '?' !in p.column
    requires UpdateBindings(props, idp, e).Success?
    ensures var b := UpdateBindings(props, idp, e).value;
      && |b| == Count(UpdateSql(table, props), '?')
      && b[|b| - 1] == IntValue(IdOf(e, idp).value) && IdOf(e, idp).value != 0
  {
    UpdateMarks(table, props, e);
  }

  /** The entity as `setId` leaves it: the fetched sequence value set on a
      writable id property of a dialect with sequences. */
  function WithSequenceId(v: CoreDialects.Vendor, idp: Property, e: Entity, next: Option<int>): Entity
  {
    if CoreDialects.SupportsSequence(v) && idp.writable && next.Some? then e[idp.name := IntValue(next.value)]
    else e
  }

  /** The query `setId` builds for the table's `_id_seq` sequence: the
      dialect's select form as written, so Oracle's never returns. */
  function SequenceQuery(v: CoreDialects.Vendor, table: string): Result<string>
  {
    CoreDialects.SelectSequenceNextVal(v, table + "_id_seq")
  }

  /** The sequence query exists for every dialect with sequences except
      Oracle, whose select form overflows the stack; where it exists it is
      the intended select form. */
  lemma SequenceQueryExists(v: CoreDialects.Vendor, table: string)
    ensures SequenceQuery(v, table).Success? <==> CoreDialects.SupportsSequence(v) && v != CoreDialects.Oracle
    ensures v == CoreDialects.Oracle ==> SequenceQuery(v, table) == Failure(StackOverflow)
    ensures v != CoreDialects.Oracle ==>
              SequenceQuery(v, table) == CoreDialects.IntendedSelectSequenceNextVal(v, table + "_id_seq")
  {
    CoreDialects.SequenceSupport(v, table + "_id_seq");
    CoreDialects.OracleSelectSequenceDiverges(table + "_id_seq");
  }

  /** Why `setId` fails, if it does: the query has to be built (a dialect
      with sequences, a writable id, none cached yet) and building it fails. */
  function SequenceRefusal(v: CoreDialects.Vendor, idp: Property, table: string, cached: Option<string>)
    : Option<Error>
  {
    if CoreDialects.SupportsSequence(v) && idp.writable && cached.None? && SequenceQuery(v, table).Failure?
    then Some(SequenceQuery(v, table).error)
    else None
  }

  /** The sequence query cached after `setId`: built and kept on first use
      for a dialect with sequences and a writable id, unless building it
      fails; otherwise the cache is as it was. */
  function SequenceCache(v: CoreDialects.Vendor, idp: Property, table: string, cached: Option<string>)
    : Option<string>
  {
    if CoreDialects.SupportsSequence(v) && idp.writable && cached.None? && SequenceQuery(v, table).Success?
    then Some(SequenceQuery(v, table).value)
    else cached
  }

  /** A statement cache after `getInsertSQL()` or `getUpdateSQL()`: the
      cached text if there is one, else the text just built. */
  function Cached(cache: Option<string>, built: string): Option<string>
  {
    if cache.Some? then cache else Some(built)
  }

  /** Only Oracle refuses, with a writable id and nothing cached, and then
      with a stack overflow; once a query is cached nothing refuses. */
  lemma OnlyOracleRefuses(v: CoreDialects.Vendor, idp: Property, table: string, cached: Option<string>)
    ensures SequenceRefusal(v, idp, table, cached)
            == if v == CoreDialects.Oracle && idp.writable && cached.None? then Some(StackOverflow) else None
  {
    SequenceQueryExists(v, table);
  }

  /** An INSERT binds every readable value of the entity as `setId` left it. */
  lemma InsertFillsStatement(table: string, props: seq<Property>, v: CoreDialects.Vendor, idp: Property,
                             e: Entity, next: Option<int>)
    requires '?' !in table && FreeOf(ReadableColumns(props), '?') && |ReadableColumns(props)| > 0
    ensures |ReadableValues(props, WithSequenceId(v, idp, e, next))| == Count(InsertSql(table, props), '?')
  {
    InsertMarks(table, props, WithSequenceId(v, idp, e, next));
  }

  //---------------------------------------------------------------------------
  // save(list)

  predicate IdsReadable(list: seq<Entity>, idp: Property)
  {
    forall k :: 0 <= k < |list| ==> IdOf(list[k], idp).Success?
  }

  /** The entities with id 0, in order: those `save(list)` creates. */
  function ToCreate(list: seq<Entity>, idp: Property): seq<Entity>
    requires IdsReadable(list, idp)
  {
    if list == [] then []
    else ToCreate(list[..|list| - 1], idp)
         + (if IdOf(list[|list| - 1], idp).value == 0 then [list[|list| - 1]] else [])
  }

  /** The entities with a non-zero id, in order: those `save(list)` updates. */
  function ToUpdate(list: seq<Entity>, idp: Property): seq<Entity>
    requires IdsReadable(list, idp)
  {
    if list == [] then []
    else ToUpdate(list[..|list| - 1], idp)
         + (if IdOf(list[|list| - 1], idp).value != 0 then [list[|list| - 1]] else [])
  }

  /** The first entity whose id cannot be read: every id before it is
      readable, and no longer prefix is. */
  lemma FirstUnreadable(list: seq<Entity>, idp: Property, k: nat)
    requires k < |list| && IdsReadable(list[..k], idp) && IdOf(list[k], idp).Failure?
    ensures forall j :: 0 <= j < k ==> IdOf(list[j], idp).Success?
    ensures forall j :: k < j <= |list| ==> !IdsReadable(list[..j], idp)
  {
    forall j | 0 <= j < k
      ensures IdOf(list[j], idp).Success?
    {
      assert list[..k][j] == list[j];
    }
    forall j | k < j <= |list|
      ensures !IdsReadable(list[..j], idp)
    {
      assert list[..j][k] == list[k];
    }
  }

  /** Extending the read prefix by one entity extends exactly one of the two lists. */
  lemma PartitionStep(list: seq<Entity>, k: nat, idp: Property)
    requires k < |list| && IdsReadable(list[..k], idp) && IdOf(list[k], idp).Success?
    ensures IdsReadable(list[..k + 1], idp)
    ensures ToCreate(list[..k + 1], idp)
         == ToCreate(list[..k], idp) + (if IdOf(list[k], idp).value == 0 then [list[k]] else [])
    ensures ToUpdate(list[..k + 1], idp)
         == ToUpdate(list[..k], idp) + (if IdOf(list[k], idp).value != 0 then [list[k]] else [])
  {
    assert list[..k + 1][..k] == list[..k];
    assert list[..k + 1][k] == list[k];
  }

  function Flags(list: seq<Entity>, idp: Property): (r: seq<bool>)
    requires IdsReadable(list, idp)
    ensures |r| == |list| && forall k :: 0 <= k < |list| ==> (r[k] <==> IdOf(list[k], idp).value == 0)
  {
    seq(|list|, k requires 0 <= k < |list| => IdOf(list[k], idp).value == 0)
  }

  function TrueCount(flags: seq<bool>): nat
  {
    if flags == [] then 0 else TrueCount(flags[..|flags| - 1]) + (if flags[|flags| - 1] then 1 else 0)
  }

  /** The partition loses and invents nothing: every entity lands in exactly
      one list, and the flags count the creates. */
  lemma PartitionComplete(list: seq<Entity>, idp: Property)
    requires IdsReadable(list, idp)
    ensures multiset(ToCreate(list, idp)) + multiset(ToUpdate(list, idp)) == multiset(list)
    ensures |ToCreate(list, idp)| == TrueCount(Flags(list, idp))
  {
    PartitionMultiset(list, idp);
    CreateCount(list, idp);
  }

  lemma {:induction false} PartitionMultiset(list: seq<Entity>, idp: Property)
    requires IdsReadable(list, idp)
    ensures multiset(ToCreate(list, idp)) + multiset(ToUpdate(list, idp)) == multiset(list)
  {
    if list != [] {
      var init, last := list[..|list| - 1], list[|list| - 1];
      ReadableInit(list, idp);
      PartitionMultiset(init, idp);
      var c, u := ToCreate(init, idp), ToUpdate(init, idp);
      assert multiset(list) == multiset(init) + multiset([last]) by {
        assert list == init + [last];
      }
      if IdOf(last, idp).value == 0 {
        assert multiset(ToCreate(list, idp)) == multiset(c) + multiset([last]) by {
          assert ToCreate(list, idp) == c + [last];
        }
        assert ToUpdate(list, idp) == u;
      } else {
        assert ToCreate(list, idp) == c;
        assert multiset(ToUpdate(list, idp)) == multiset(u) + multiset([last]) by {
          assert ToUpdate(list, idp) == u + [last];
        }
      }
    }
  }

  lemma {:induction false} CreateCount(list: seq<Entity>, idp: Property)
    requires IdsReadable(list, idp)
    ensures |ToCreate(list, idp)| == TrueCount(Flags(list, idp))
  {
    if list != [] {
      var init := list[..|list| - 1];
      ReadableInit(list, idp);
      CreateCount(init, idp);
      assert Flags(list, idp)[..|list| - 1] == Flags(init, idp);
    }
  }

  lemma ReadableInit(list: seq<Entity>, idp: Property)
    requires IdsReadable(list, idp) && list != []
    ensures IdsReadable(list[..|list| - 1], idp)
  {
    var init := list[..|list| - 1];
    forall k | 0 <= k < |init| ensures IdOf(init[k], idp).Success? {
      assert init[k] == list[k];
    }
  }

  /** Each list holds only entities of its kind: id 0 to create, any other
      id to update. */
  lemma {:induction false} PartitionKinds(list: seq<Entity>, idp: Property)
    requires IdsReadable(list, idp)
    ensures forall e :: e in ToCreate(list, idp) ==> IdOf(e, idp) == Success(0)
    ensures forall e :: e in ToUpdate(list, idp) ==> IdOf(e, idp).Success? && IdOf(e, idp).value != 0
  {
    if list != [] {
      ReadableInit(list, idp);
      PartitionKinds(list[..|list| - 1], idp);
    }
  }

  /** The `save(list)` merge as written, from position i: the index advances
      twice per round, so only even positions are rewritten, each from the
      next created or updated status; a status list that runs out fails. */
  function MergeAsWritten(result: seq<bool>, created: seq<bool>, updated: seq<bool>, i: nat, j: nat, k: nat)
    : Result<seq<bool>>
    decreases |result| - i
  {
    if i >= |result| then Success(result)
    else if result[i] then
      if j >= |created| then Failure(IndexOutOfBounds)
      else MergeAsWritten(result[i := created[j]], created, updated, i + 2, j + 1, k)
    else
      if k >= |updated| then Failure(IndexOutOfBounds)
      else MergeAsWritten(result[i := updated[k]], created, updated, i + 2, j, k + 1)
  }

  /** As written, the merge leaves every odd position holding its partition
      flag (true for "created") rather than a status, and keeps the length. */
  lemma {:induction false} MergeKeepsOddFlags(result: seq<bool>, created: seq<bool>, updated: seq<bool>,
                                              i: nat, j: nat, k: nat)
    requires i % 2 == 0
    requires MergeAsWritten(result, created, updated, i, j, k).Success?
    ensures var r := MergeAsWritten(result, created, updated, i, j, k).value;
      |r| == |result| && (forall p :: 0 <= p < |r| && (p % 2 == 1 || p < i) ==> r[p] == result[p])
    decreases |result| - i
  {
    if i < |result| {
      if result[i] {
        MergeKeepsOddFlags(result[i := created[j]], created, updated, i + 2, j + 1, k);
      } else {
        MergeKeepsOddFlags(result[i := updated[k]], created, updated, i + 2, j, k + 1);
      }
    }
  }

  /** A concrete case: saving a new and then an existing entity, where the
      create fails and the update succeeds, reports both as failed: slot 1
      keeps its partition flag and the update's status is never read. The
      intended merge reports the update as done. */
  lemma MergeExample()
    ensures MergeAsWritten([true, false], [false], [true], 0, 0, 0) == Success([false, false])
    ensures MergeStatuses([true, false], [false], [true]) == Success([false, true])
  {
    assert [true, false][0 := false] == [false, false];
    var last := [false];
    assert last[1..] == [] && [true][1..] == [] && [true] + [] == [true];
    assert MergeStatuses(last, [], [true]) == Success([true]);
    assert [true, false][1..] == last && [false][1..] == [] && [false] + [true] == [false, true];
  }

  /** The merge `save(list)` evidently intends: each position, in order,
      takes the next created status where its flag is set and the next
      updated status otherwise; a status list that runs out fails. */
  function MergeStatuses(flags: seq<bool>, created: seq<bool>, updated: seq<bool>): Result<seq<bool>>
  {
    if flags == [] then Success([])
    else if flags[0] then
      if created == [] then Failure(IndexOutOfBounds)
      else match MergeStatuses(flags[1..], created[1..], updated)
        case Success(rest) => Success([created[0]] + rest)
        case Failure(e) => Failure(e)
    else
      if updated == [] then Failure(IndexOutOfBounds)
      else match MergeStatuses(flags[1..], created, updated[1..])
        case Success(rest) => Success([updated[0]] + rest)
        case Failure(e) => Failure(e)
  }

  /** The statuses at the positions whose flag is `want`, in order. */
  function Pick(r: seq<bool>, flags: seq<bool>, want: bool): seq<bool>
    requires |r| == |flags|
  {
    if flags == [] then []
    else (if flags[0] == want then [r[0]] else []) + Pick(r[1..], flags[1..], want)
  }

  /** With one created status per set flag and one updated status per clear
      flag, the intended merge succeeds and hands each entity its own
      status: picking the create positions gives back the created statuses,
      and the update positions the updated ones. */
  lemma {:induction false} MergeStatusesRoundTrip(flags: seq<bool>, created: seq<bool>, updated: seq<bool>)
    requires |created| == multiset(flags)[true] && |updated| == multiset(flags)[false]
    ensures MergeStatuses(flags, created, updated).Success?
    ensures |MergeStatuses(flags, created, updated).value| == |flags|
    ensures Pick(MergeStatuses(flags, created, updated).value, flags, true) == created
    ensures Pick(MergeStatuses(flags, created, updated).value, flags, false) == updated
  {
    if flags != [] {
      FlagCounts(flags);
      if flags[0] {
        MergeStatusesRoundTrip(flags[1..], created[1..], updated);
        CreatedStep(flags, created, updated);
      } else {
        MergeStatusesRoundTrip(flags[1..], created, updated[1..]);
        UpdatedStep(flags, created, updated);
      }
    }
  }

  /** One round of the intended merge at a create position. */
  lemma CreatedStep(flags: seq<bool>, created: seq<bool>, updated: seq<bool>)
    requires flags != [] && flags[0] && created != []
    requires MergeStatuses(flags[1..], created[1..], updated).Success?
    requires |MergeStatuses(flags[1..], created[1..], updated).value| == |flags| - 1
    requires Pick(MergeStatuses(flags[1..], created[1..], updated).value, flags[1..], true) == created[1..]
    requires Pick(MergeStatuses(flags[1..], created[1..], updated).value, flags[1..], false) == updated
    ensures MergeStatuses(flags, created, updated).Success?
    ensures |MergeStatuses(flags, created, updated).value| == |flags|
    ensures Pick(MergeStatuses(flags, created, updated).value, flags, true) == created
    ensures Pick(MergeStatuses(flags, created, updated).value, flags, false) == updated
  {
    var rest := MergeStatuses(flags[1..], created[1..], updated).value;
    PickHead(created[0], rest, flags);
    assert created == [created[0]] + created[1..];
  }

  /** One round of the intended merge at an update position. */
  lemma UpdatedStep(flags: seq<bool>, created: seq<bool>, updated: seq<bool>)
    requires flags != [] && !flags[0] && updated != []
    requires MergeStatuses(flags[1..], created, updated[1..]).Success?
    requires |MergeStatuses(flags[1..], created, updated[1..]).value| == |flags| - 1
    requires Pick(MergeStatuses(flags[1..], created, updated[1..]).value, flags[1..], true) == created
    requires Pick(MergeStatuses(flags[1..], created, updated[1..]).value, flags[1..], false) == updated[1..]
    ensures MergeStatuses(flags, created, updated).Success?
    ensures |MergeStatuses(flags, created, updated).value| == |flags|
    ensures Pick(MergeStatuses(flags, created, updated).value, flags, true) == created
    ensures Pick(MergeStatuses(flags, created, updated).value, flags, false) == updated
  {
    var rest := MergeStatuses(flags[1..], created, updated[1..]).value;
    PickHead(updated[0], rest, flags);
    assert updated == [updated[0]] + updated[1..];
  }

  lemma FlagCounts(flags: seq<bool>)
    requires flags != []
    ensures multiset(flags)[true] == multiset(flags[1..])[true] + if flags[0] then 1 else 0
    ensures multiset(flags)[false] == multiset(flags[1..])[false] + if flags[0] then 0 else 1
  {
    assert flags == [flags[0]] + flags[1..];
  }

  lemma PickHead(x: bool, rest: seq<bool>, flags: seq<bool>)
    requires flags != [] && |rest| == |flags| - 1
    ensures Pick([x] + rest, flags, flags[0]) == [x] + Pick(rest, flags[1..], flags[0])
    ensures Pick([x] + rest, flags, !flags[0]) == Pick(rest, flags[1..], !flags[0])
  {
    assert ([x] + rest)[1..] == rest;
  }
}
