/** The JdbcRepository object: its configuration, the state `_doInit`
    resolves, the lazily built statements and the query cache, and the
    operations over them. Each operation is proved against the statement
    and outcome functions of the Repositories module. */
module JdbcRepositories {
  import opened Outcomes
  import opened Text
  import opened RepositorySql
  import opened Repositories
  import NamedParameters
  import CoreDialects
  import Limits

  /** The named-parameter form of a call: the translated condition and the
      value of each token's name, null where the name has no value. */
  function NamedArguments(q: string, params: map<string, Value>): (r: seq<Value>)
    requires !IsBlank(q)
    ensures |r| == |NamedParameters.Names(NamedParameters.Tokenize(q))|
  {
    var names := NamedParameters.Names(NamedParameters.Tokenize(q));
    seq(|names|, j requires 0 <= j < |names| => if names[j] in params then params[names[j]] else NullValue)
  }

  /** The argument array handed to the positional call: each slot's value,
      null for an empty slot. */
  function Unwrapped(slots: seq<Option<Value>>): (r: seq<Value>)
    ensures |r| == |slots|
    ensures forall j :: 0 <= j < |slots| ==> r[j] == if slots[j].Some? then slots[j].value else NullValue
  {
    seq(|slots|, j requires 0 <= j < |slots| => if slots[j].Some? then slots[j].value else NullValue)
  }

  /** What `toParameters` makes of a condition's index: it fails exactly on
      a repeated name, and otherwise holds each name's value at its
      position, so that nulls for the absent names give the arguments. */
  lemma SlotsAreArguments(q: string, params: map<string, Value>, laid: Result<seq<Option<Value>>>)
    requires !IsBlank(q)
    requires laid.Failure? <==> !NamedParameters.InRange(NamedParameters.ToIndexedQuery(q).value.index)
    requires laid.Success? ==> |laid.value| == |NamedParameters.ToIndexedQuery(q).value.index|
    requires laid.Success? && NamedParameters.Injective(NamedParameters.ToIndexedQuery(q).value.index) ==>
               forall n :: n in NamedParameters.ToIndexedQuery(q).value.index ==>
                 laid.value[NamedParameters.ToIndexedQuery(q).value.index[n]] == NamedParameters.Lookup(params, n)
    ensures laid.Failure? <==> !NamedParameters.Distinct(NamedParameters.Names(NamedParameters.Tokenize(q)))
    ensures laid.Success? ==> Unwrapped(laid.value) == NamedArguments(q, params)
  {
    var names := NamedParameters.Names(NamedParameters.Tokenize(q));
    var index := NamedParameters.ToIndexedQuery(q).value.index;
    NamedParameters.IndexShape(q);
    if laid.Success? {
      forall j | 0 <= j < |names|
        ensures laid.value[j] == NamedParameters.Lookup(params, names[j])
      {
        assert index[names[j]] == j;
      }
    }
  }

  /** Why a named call is refused, if it is: a blank condition, or a repeated
      name (whose last ordinal lies past the argument array). */
  function NamedRefusal(q: string): Option<Error>
  {
    if IsBlank(q) then Some(IllegalArgument("No any condition in the query:" + q))
    else if !NamedParameters.Distinct(NamedParameters.Names(NamedParameters.Tokenize(q))) then Some(IndexOutOfBounds)
    else None
  }

  class JdbcRepository {
    var dataSource: Option<DataSource>
    var entityType: Option<string>
    var entityClass: Option<EntityClass>
    var tableName: Option<string>
    /** `beanInfo.getProperties()`, in order; None before `_doInit`. */
    var beanInfo: Option<seq<Property>>
    var idProperty: Option<Property>
    var dialect: Option<CoreDialects.Vendor>
    var insertSql: Option<string>
    var updateSql: Option<string>
    var idSeqSql: Option<string>
    var queryMap: map<string, NamedParameters.IndexedQuery>

    constructor ()
      ensures dataSource == None && entityType == None && entityClass == None && tableName == None
      ensures beanInfo == None && idProperty == None && dialect == None
      ensures insertSql == None && updateSql == None && idSeqSql == None && queryMap == map[]
    {
      dataSource := None;
      entityType := None;
      entityClass := None;
      tableName := None;
      beanInfo := None;
      idProperty := None;
      dialect := None;
      insertSql := None;
      updateSql := None;
      idSeqSql := None;
      queryMap := map[];
    }

    /** What a successful `_doInit` establishes and every operation relies on. */
    predicate Ready()
      reads this
    {
      tableName.Some? && beanInfo.Some? && idProperty.Some? && dialect.Some?
    }

    /** Every cached indexed query is the translation of its key. */
    predicate CacheValid()
      reads this
    {
      forall k :: k in queryMap ==> NamedParameters.ToIndexedQuery(k) == Some(queryMap[k])
    }

    function Table(): string
      reads this
    {
      NullText(tableName)
    }

    function Props(): seq<Property>
      reads this
      requires Ready()
    {
      beanInfo.value
    }

    //-------------------------------------------------------------------------
    // Configuration

    /** `setDataSource(ds)`; None stands for null. */
    method SetDataSource(ds: Option<DataSource>)
      modifies this`dataSource
      ensures dataSource == ds
    {
      dataSource := ds;
    }

    method SetTableName(name: string)
      modifies this`tableName
      ensures tableName == Some(name)
    {
      tableName := Some(name);
    }

    method SetEntityType(name: string)
      modifies this`entityType
      ensures entityType == Some(name)
    {
      entityType := Some(name);
    }

    /** `setEntityClass` also records the class name as the entity type. */
    method SetEntityClass(c: EntityClass)
      modifies this`entityClass, this`entityType
      ensures entityClass == Some(c) && entityType == Some(c.name)
    {
      entityClass := Some(c);
      entityType := Some(c.name);
    }

    /** `getName()` is the table name. */
    function Name(): (r: Option<string>)
      reads this
      ensures r == tableName
    {
      tableName
    }

    /** `_doInit`, with `classes` standing for the classes reflection can
        load. The checks run in order: a data source, an entity type, a
        loadable class, an `id` property; each failure leaves what the
        earlier steps set. A table name already set is kept. */
    method DoInit(classes: map<string, EntityClass>) returns (r: Option<Error>)
      modifies this`entityClass, this`tableName, this`beanInfo, this`idProperty, this`dialect
      ensures old(dataSource).None? ==>
                r == Some(IllegalState("No data source was bound to this repository for table:" + NullText(old(tableName))))
      ensures old(dataSource).Some? && old(entityType).None? ==> r == Some(IllegalState("No entity type set"))
      ensures old(dataSource).Some? && old(entityType).Some? && old(entityType).value !in classes ==>
                r == Some(IllegalState("No such class:" + old(entityType).value))
      ensures r.None? || r.value.IllegalState?
      ensures (old(dataSource).None? || old(entityType).None? || old(entityType).value !in classes) ==>
                && entityClass == old(entityClass) && tableName == old(tableName) && beanInfo == old(beanInfo)
                && idProperty == old(idProperty) && dialect == old(dialect)
      ensures old(dataSource).Some? && old(entityType).Some? && old(entityType).value in classes ==>
                var c := classes[old(entityType).value];
                && entityClass == Some(c)
                && tableName == (if old(tableName).None? then Some(c.table) else old(tableName))
                && beanInfo == Some(c.properties)
                && idProperty == FindProperty(c.properties, "id")
                && (idProperty.None? <==> r == Some(IllegalState("No 'id' in the entity")))
                && (idProperty.Some? <==> r.None?)
                && (r.None? ==> dialect == Some(old(dataSource).value.vendor) && Ready())
                && (r.Some? ==> dialect == old(dialect))
    {
      if dataSource.None? {
        return Some(IllegalState("No data source was bound to this repository for table:" + NullText(tableName)));
      }
      if entityType.None? {
        return Some(IllegalState("No entity type set"));
      }
      if entityType.value !in classes {
        return Some(IllegalState("No such class:" + entityType.value));
      }
      var c := classes[entityType.value];
      entityClass := Some(c);
      if tableName.None? {
        tableName := Some(c.table);
      }
      beanInfo := Some(c.properties);
      idProperty := FindProperty(c.properties, "id");
      if idProperty.None? {
        return Some(IllegalState("No 'id' in the entity"));
      }
      dialect := Some(dataSource.value.vendor);
      r := None;
    }

    //-------------------------------------------------------------------------
    // Statements built once

    /** `getInsertSQL()`: built on first use from the readable properties and
        then returned from the cache. */
    method GetInsertSql() returns (sql: string)
      requires Ready()
      modifies this`insertSql
      ensures old(insertSql).Some? ==> sql == old(insertSql).value
      ensures old(insertSql).None? ==> sql == InsertSql(Table(), Props())
      ensures insertSql == Some(sql)
    {
      if insertSql.Some? {
        return insertSql.value;
      }
      var props := beanInfo.value;
      var sb := InsertInto + Table() + ColumnsOpen;
      ghost var head := sb;
      var first := true;
      var count := 0;
      var k := 0;
      while k < |props|
        invariant 0 <= k <= |props|
        invariant count == |ReadableColumns(props[..k])|
        invariant first <==> count == 0
        invariant sb == head + Join(ReadableColumns(props[..k]), ',')
      {
        var p := props[k];
        ReadableStep(props, k);
        if p.readable {
          JoinExtend(head, ReadableColumns(props[..k]), p.column, ',');
          if first {
            first := false;
            sb := sb + p.column;
          } else {
            sb := sb + ([','] + p.column);
          }
          count := count + 1;
        }
        k := k + 1;
      }
      assert props[..k] == props;
      var marks := ValueMarks(count);
      sb := sb + ValuesOpen + marks + Close;
      insertSql := Some(sb);
      sql := sb;
    }

    /** The VALUES marks of the insert statement: one `?`, then `,?` for
        every further column. */
    static method ValueMarks(count: nat) returns (marks: string)
      ensures marks == Marks(count)
    {
      marks := "?";
      var i := 1;
      while i < count
        invariant 1 <= i <= if count >= 1 then count else 1
        invariant marks == Marks(i)
      {
        marks := marks + ",?";
        i := i + 1;
      }
    }

    /** `getUpdateSQL()`: built on first use and then returned from the cache. */
    method GetUpdateSql() returns (sql: string)
      requires Ready()
      modifies this`updateSql
      ensures old(updateSql).Some? ==> sql == old(updateSql).value
      ensures old(updateSql).None? ==> sql == UpdateSql(Table(), Props())
      ensures updateSql == Some(sql)
    {
      if updateSql.Some? {
        return updateSql.value;
      }
      var props := beanInfo.value;
      var sb := UpdateKeyword + Table() + SetKeyword;
      ghost var head := sb;
      var first := true;
      var k := 0;
      while k < |props|
        invariant 0 <= k <= |props|
        invariant first <==> SetColumns(props[..k]) == []
        invariant sb == head + Join(SetColumns(props[..k]), ',')
      {
        var p := props[k];
        var item := p.column + "=?";
        SetStep(props, k);
        if p.readable && !IsIdName(p.name) {
          JoinExtend(head, SetColumns(props[..k]), item, ',');
          if first {
            first := false;
            sb := sb + item;
          } else {
            sb := sb + ([','] + item);
          }
        }
        k := k + 1;
      }
      assert props[..k] == props;
      sb := sb + WhereId + "?";
      updateSql := Some(sb);
      sql := sb;
    }

    /** `fillForUpdate(pstmt, entity)`: binds the readable non-id values in
        order, records the last readable `id`-named property as the id
        property, then binds the id, which must be a non-zero int. */
    method FillForUpdate(e: Entity) returns (r: Result<seq<Value>>)
      requires Ready()
      modifies this`idProperty
      ensures Ready()
      ensures idProperty == Some(UpdateIdProperty(Props(), old(idProperty).value))
      ensures r == UpdateBindings(Props(), idProperty.value, e)
    {
      var props := beanInfo.value;
      var bound: seq<Value> := [];
      var k := 0;
      while k < |props|
        invariant 0 <= k <= |props| && idProperty.Some?
        invariant bound == SetValues(props[..k], e)
        invariant idProperty.value == UpdateIdProperty(props[..k], old(idProperty).value)
      {
        var p := props[k];
        assert props[..k + 1][..k] == props[..k];
        if p.readable {
          if !IsIdName(p.name) {
            bound := bound + [Get(e, p)];
          } else {
            idProperty := Some(p);
          }
        }
        k := k + 1;
      }
      assert props[..k] == props;
      var id := IdOf(e, idProperty.value);
      if id.Failure? {
        return Failure(id.error);
      }
      if id.value == 0 {
        return Failure(IllegalState("The id is zero"));
      }
      r := Success(bound + [IntValue(id.value)]);
    }

    //-------------------------------------------------------------------------
    // Writes

    /** `setId(conn, entity)`: for a dialect with sequences and a writable id,
        runs the table's sequence query (built once) and, when it returns a
        row (`next`), sets the id from it. Building the query fails on
        Oracle, before anything is cached or set. */
    method SetId(e: Entity, next: Option<int>) returns (r: Result<Entity>, ran: Option<string>)
      requires Ready()
      modifies this`idSeqSql
      ensures SequenceRefusal(dialect.value, idProperty.value, Table(), old(idSeqSql)).Some? ==>
                && r == Failure(SequenceRefusal(dialect.value, idProperty.value, Table(), old(idSeqSql)).value)
                && ran == None && idSeqSql == old(idSeqSql)
      ensures SequenceRefusal(dialect.value, idProperty.value, Table(), old(idSeqSql)).None? ==>
                r == Success(WithSequenceId(dialect.value, idProperty.value, e, next))
      ensures !(CoreDialects.SupportsSequence(dialect.value) && idProperty.value.writable) ==>
                ran == None && idSeqSql == old(idSeqSql)
      ensures CoreDialects.SupportsSequence(dialect.value) && idProperty.value.writable
              && SequenceRefusal(dialect.value, idProperty.value, Table(), old(idSeqSql)).None? ==>
                && ran == idSeqSql && ran.Some?
                && (old(idSeqSql).Some? ==> idSeqSql == old(idSeqSql))
                && (old(idSeqSql).None? ==> ran.value == SequenceQuery(dialect.value, Table()).value)
      ensures idSeqSql == SequenceCache(dialect.value, idProperty.value, Table(), old(idSeqSql))
    {
      var v := dialect.value;
      if !(CoreDialects.SupportsSequence(v) && idProperty.value.writable) {
        return Success(e), None;
      }
      if idSeqSql.None? {
        var query := SequenceQuery(v, Table());
        if query.Failure? {
          return Failure(query.error), None;
        }
        idSeqSql := Some(query.value);
      }
      ran := idSeqSql;
      r := Success(if next.Some? then e[idProperty.value.name := IntValue(next.value)] else e);
    }

    /** `create(entity)`: the INSERT text is built first; then `setId`, whose
        failure passes through; then the INSERT binds every readable value
        of the entity; success is an update count of at least 1. */
    method Create(e: Entity, next: Option<int>, updated: int) returns (r: Result<Created>)
      requires Ready()
      modifies this`insertSql, this`idSeqSql
      ensures old(insertSql).Some? ==> insertSql == old(insertSql)
      ensures old(insertSql).None? ==> insertSql == Some(InsertSql(Table(), Props()))
      ensures r.Failure? <==> SequenceRefusal(dialect.value, idProperty.value, Table(), old(idSeqSql)).Some?
      ensures r.Failure? ==> r.error == SequenceRefusal(dialect.value, idProperty.value, Table(), old(idSeqSql)).value
      ensures r.Success? ==> r.value.entity == WithSequenceId(dialect.value, idProperty.value, e, next)
      ensures r.Success? ==> r.value.insert.sql == insertSql.value
      ensures r.Success? ==> r.value.insert.bindings == ReadableValues(Props(), r.value.entity)
      ensures r.Success? ==> (r.value.insert.ok <==> updated >= 1)
      ensures r.Success? ==>
                (r.value.sequenceQuery.Some? <==> CoreDialects.SupportsSequence(dialect.value) && idProperty.value.writable)
      ensures r.Success? ==> r.value.sequenceQuery.Some? ==> r.value.sequenceQuery == idSeqSql
      ensures idSeqSql == SequenceCache(dialect.value, idProperty.value, Table(), old(idSeqSql))
    {
      var sql := GetInsertSql();
      var withId, ran := SetId(e, next);
      if withId.Failure? {
        return Failure(withId.error);
      }
      var entity := withId.value;
      var bound := ReadableBindings(beanInfo.value, entity);
      r := Success(Created(entity, ran, Execution(sql, bound, updated >= 1)));
    }

    /** The binding loop of the INSERT: `setObject(i++, getter(entity))` for
        each readable property, in order. */
    static method ReadableBindings(props: seq<Property>, e: Entity) returns (bound: seq<Value>)
      ensures bound == ReadableValues(props, e)
    {
      bound := [];
      var k := 0;
      while k < |props|
        invariant 0 <= k <= |props|
        invariant bound == ReadableValues(props[..k], e)
      {
        assert props[..k + 1][..k] == props[..k];
        if props[k].readable {
          bound := bound + [Get(e, props[k])];
        }
        k := k + 1;
      }
      assert props[..k] == props;
    }

    /** `update(entity)`: the UPDATE filled by `fillForUpdate`; its failures
        (a missing, non-int or zero id) pass through. */
    method Update(e: Entity, updated: int) returns (r: Result<Execution>)
      requires Ready()
      modifies this`updateSql, this`idProperty
      ensures Ready() && updateSql.Some?
      ensures r.Success? <==> UpdateBindings(Props(), idProperty.value, e).Success?
      ensures r.Failure? ==> r.error == UpdateBindings(Props(), idProperty.value, e).error
      ensures idProperty == Some(UpdateIdProperty(Props(), old(idProperty).value))
      ensures r.Success? ==> r.value == Execution(updateSql.value, UpdateBindings(Props(), idProperty.value, e).value, updated >= 1)
      ensures updateSql == Cached(old(updateSql), UpdateSql(Table(), Props()))
    {
      var sql := GetUpdateSql();
      var bound := FillForUpdate(e);
      if bound.Failure? {
        return Failure(bound.error);
      }
      r := Success(Execution(sql, bound.value, updated >= 1));
    }

    /** `save(entity)`: id 0 creates (1, or -1 when the update count is 0),
        any other id updates (0, or -1); the id must be a readable int. */
    method Save(e: Entity, next: Option<int>, updated: int) returns (r: Result<int>)
      requires Ready()
      modifies this`insertSql, this`idSeqSql, this`updateSql, this`idProperty
      ensures Ready()
      ensures IdOf(e, old(idProperty).value).Failure? ==> r == Failure(IdOf(e, old(idProperty).value).error)
      ensures IdOf(e, old(idProperty).value) == Success(0)
              && SequenceRefusal(dialect.value, old(idProperty).value, Table(), old(idSeqSql)).Some? ==>
                r == Failure(SequenceRefusal(dialect.value, old(idProperty).value, Table(), old(idSeqSql)).value)
      ensures IdOf(e, old(idProperty).value) == Success(0)
              && SequenceRefusal(dialect.value, old(idProperty).value, Table(), old(idSeqSql)).None? ==>
                r == Success(if updated >= 1 then 1 else -1)
      ensures IdOf(e, old(idProperty).value).Success? && IdOf(e, old(idProperty).value).value != 0 ==>
                match UpdateBindings(Props(), UpdateIdProperty(Props(), old(idProperty).value), e)
                case Failure(err) => r == Failure(err)
                case Success(_) => r == Success(if updated >= 1 then 0 else -1)
      ensures IdOf(e, old(idProperty).value).Failure? ==>
                && insertSql == old(insertSql) && idSeqSql == old(idSeqSql)
                && updateSql == old(updateSql) && idProperty == old(idProperty)
      ensures IdOf(e, old(idProperty).value) == Success(0) ==>
                && insertSql == Cached(old(insertSql), InsertSql(Table(), Props()))
                && idSeqSql == SequenceCache(dialect.value, old(idProperty).value, Table(), old(idSeqSql))
                && updateSql == old(updateSql) && idProperty == old(idProperty)
      ensures IdOf(e, old(idProperty).value).Success? && IdOf(e, old(idProperty).value).value != 0 ==>
                && insertSql == old(insertSql) && idSeqSql == old(idSeqSql)
                && updateSql == Cached(old(updateSql), UpdateSql(Table(), Props()))
                && idProperty == Some(UpdateIdProperty(Props(), old(idProperty).value))
    {
      var id := IdOf(e, idProperty.value);
      if id.Failure? {
        return Failure(id.error);
      }
      if id.value == 0 {
        var created := Create(e, next, updated);
        if created.Failure? {
          return Failure(created.error);
        }
        return Success(if created.value.insert.ok then 1 else -1);
      }
      var done := Update(e, updated);
      if done.Failure? {
        return Failure(done.error);
      }
      r := Success(if done.value.ok then 0 else -1);
    }

    /** `create(list)`: one INSERT per entity in a batch, each after `setId`
        (with `nexts[k]` the k-th sequence row, absent past the end); the
        statuses are the batch counts read as "positive". Only the first
        `setId` can fail, since it caches the query; the entities are then
        left as they were. */
    method CreateAll(list: seq<Entity>, nexts: seq<Option<int>>, batch: seq<int>)
      returns (sql: string, bindings: seq<seq<Value>>, created: seq<Entity>, r: Result<seq<bool>>)
      requires Ready()
      modifies this`insertSql, this`idSeqSql
      ensures insertSql == Cached(old(insertSql), InsertSql(Table(), Props())) && insertSql == Some(sql)
      ensures idSeqSql == if list == [] then old(idSeqSql)
                          else SequenceCache(dialect.value, idProperty.value, Table(), old(idSeqSql))
      ensures r.Failure? ==> bindings == []
      ensures r.Success? ==> |bindings| == |list| == |created|
                             && forall k :: 0 <= k < |list| ==> bindings[k] == ReadableValues(Props(), created[k])
      ensures list != [] && SequenceRefusal(dialect.value, idProperty.value, Table(), old(idSeqSql)).Some? ==>
                && created == list
                && r == Failure(SequenceRefusal(dialect.value, idProperty.value, Table(), old(idSeqSql)).value)
      ensures list == [] || SequenceRefusal(dialect.value, idProperty.value, Table(), old(idSeqSql)).None? ==>
                r == Success(Statuses(batch))
      ensures r.Success? ==> |created| == |list|
      ensures r.Success? ==> forall k :: 0 <= k < |list| ==>
                created[k] == WithSequenceId(dialect.value, idProperty.value, list[k], if k < |nexts| then nexts[k] else None)
    {
      sql := GetInsertSql();
      created, bindings := [], [];
      ghost var v, idp, props, table := dialect.value, idProperty.value, beanInfo.value, Table();
      var k := 0;
      while k < |list|
        invariant 0 <= k <= |list| && |created| == k && |bindings| == k && Ready()
        invariant dialect == old(dialect) && idProperty == old(idProperty) && insertSql == Some(sql)
        invariant beanInfo == old(beanInfo) && tableName == old(tableName)
        invariant insertSql == Cached(old(insertSql), InsertSql(table, props))
        invariant k == 0 ==> idSeqSql == old(idSeqSql)
        invariant k > 0 ==> idSeqSql == SequenceCache(v, idp, table, old(idSeqSql))
        invariant k > 0 ==> SequenceRefusal(v, idp, table, old(idSeqSql)).None?
        invariant forall j :: 0 <= j < k ==>
                    created[j] == WithSequenceId(v, idp, list[j], if j < |nexts| then nexts[j] else None)
        invariant forall j :: 0 <= j < k ==> bindings[j] == ReadableValues(props, created[j])
      {
        var entity, _ := SetId(list[k], if k < |nexts| then nexts[k] else None);
        if entity.Failure? {
          assert k == 0;
          return sql, [], list, Failure(entity.error);
        }
        var bound := ReadableBindings(beanInfo.value, entity.value);
        created := created + [entity.value];
        bindings := bindings + [bound];
        k := k + 1;
      }
      var statuses := BatchStatuses(batch);
      r := Success(statuses);
    }

    /** The status loop of `create(list)`: `result[i] = batch[i] > 0`. */
    static method BatchStatuses(batch: seq<int>) returns (statuses: seq<bool>)
      ensures statuses == Statuses(batch)
    {
      var result := new bool[|batch|];
      for i := 0 to |batch|
        invariant forall j :: 0 <= j < i ==> result[j] == (batch[j] > 0)
      {
        result[i] := batch[i] > 0;
      }
      assert result[..] == Statuses(batch);
      statuses := result[..];
    }

    /** `update(list)`: each entity is filled by `fillForUpdate` (the first
        failure passes through); the statuses are then filled as written,
        with an index that never advances. */
    method UpdateAll(list: seq<Entity>, batch: seq<int>)
      returns (sql: string, bindings: seq<seq<Value>>, r: Result<seq<bool>>)
      requires Ready()
      modifies this`updateSql, this`idProperty
      ensures Ready()
      ensures updateSql == Cached(old(updateSql), UpdateSql(Table(), Props())) && updateSql == Some(sql)
      ensures (forall k :: 0 <= k < |list| ==> UpdateBindings(Props(), idProperty.value, list[k]).Success?) ==>
                |bindings| == |list|
                && forall k :: 0 <= k < |list| ==> bindings[k] == UpdateBindings(Props(), idProperty.value, list[k]).value
      ensures list != [] ==> idProperty == Some(UpdateIdProperty(Props(), old(idProperty).value))
      ensures list == [] ==> idProperty == old(idProperty)
      ensures (exists k :: 0 <= k < |list| && UpdateBindings(Props(), idProperty.value, list[k]).Failure?)
              ==> r.Failure?
      ensures forall k :: 0 <= k < |list| && UpdateBindings(Props(), idProperty.value, list[k]).Failure?
                          && (forall j :: 0 <= j < k ==> UpdateBindings(Props(), idProperty.value, list[j]).Success?)
                ==> r == Failure(UpdateBindings(Props(), idProperty.value, list[k]).error)
      ensures (forall k :: 0 <= k < |list| ==> UpdateBindings(Props(), idProperty.value, list[k]).Success?)
              ==> r == StatusesAsWritten(|list|, batch)
    {
      sql := GetUpdateSql();
      bindings := [];
      var k := 0;
      ghost var props := beanInfo.value;
      ghost var settled := UpdateIdProperty(props, idProperty.value);
      while k < |list|
        invariant 0 <= k <= |list| && Ready() && beanInfo == old(beanInfo) && updateSql == Some(sql)
        invariant k > 0 ==> idProperty.value == settled
        invariant k == 0 ==> idProperty == old(idProperty)
        invariant forall j :: 0 <= j < k ==> UpdateBindings(props, settled, list[j]).Success?
        invariant |bindings| == k && forall j :: 0 <= j < k ==> bindings[j] == UpdateBindings(props, settled, list[j]).value
      {
        UpdateIdPropertyStable(beanInfo.value, old(idProperty).value);
        var bound := FillForUpdate(list[k]);
        assert idProperty.value == settled;
        if bound.Failure? {
          return sql, bindings, Failure(bound.error);
        }
        bindings := bindings + [bound.value];
        k := k + 1;
      }
      if list != [] {
        UpdateIdPropertyStable(beanInfo.value, old(idProperty).value);
      }
      r := FillStatuses(|list|, batch);
    }

    /** The status loop of `update(list)` and `deleteByIds` as written: an
        array of `n` statuses and an index `i` that is never advanced. */
    static method FillStatuses(n: nat, batch: seq<int>) returns (r: Result<seq<bool>>)
      ensures r == StatusesAsWritten(n, batch)
    {
      if |batch| > 0 && n == 0 {
        return Failure(IndexOutOfBounds);
      }
      var result := new bool[n](_ => false);
      var i := 0;
      for b := 0 to |batch|
        invariant forall j :: 0 <= j < n ==> result[j] == (j == 0 && b > 0 && batch[b - 1] > 0)
      {
        result[i] := batch[b] > 0;
      }
      assert result[..] == StatusesAsWritten(n, batch).value;
      r := Success(result[..]);
    }

    /** `deleteByIds(ids)`: one DELETE per id in a batch; the statuses are
        filled as written, with an index that never advances. */
    method DeleteByIds(ids: seq<int>, batch: seq<int>) returns (sql: string, bindings: seq<seq<Value>>, r: Result<seq<bool>>)
      requires Ready()
      ensures sql == DeleteBySql(Table(), "id=?")
      ensures |bindings| == |ids| && forall k :: 0 <= k < |ids| ==> bindings[k] == [IntValue(ids[k])]
      ensures r == StatusesAsWritten(|batch|, batch)
    {
      sql := DeleteFrom + Table() + Where + "id=?";
      bindings := [];
      var k := 0;
      while k < |ids|
        invariant 0 <= k <= |ids| && |bindings| == k
        invariant forall j :: 0 <= j < k ==> bindings[j] == [IntValue(ids[j])]
      {
        bindings := bindings + [[IntValue(ids[k])]];
        k := k + 1;
      }
      r := FillStatuses(|batch|, batch);
    }

    /** The first loop of `save(list)`: the flags (true for id 0) and the
        two lists, in order; the first entity whose id cannot be read fails
        the call. */
    method Partition(list: seq<Entity>) returns (r: Result<(seq<bool>, seq<Entity>, seq<Entity>)>)
      requires Ready()
      ensures r.Success? <==> IdsReadable(list, idProperty.value)
      ensures r.Failure? ==> exists k :: 0 <= k < |list| && IdOf(list[k], idProperty.value) == Failure(r.error)
      ensures forall k :: 0 <= k < |list| && IdOf(list[k], idProperty.value).Failure? && IdsReadable(list[..k], idProperty.value)
                ==> r == Failure(IdOf(list[k], idProperty.value).error)
      ensures r.Success? ==> r.value == (Flags(list, idProperty.value), ToCreate(list, idProperty.value), ToUpdate(list, idProperty.value))
    {
      var idp := idProperty.value;
      var flags := new bool[|list|](_ => false);
      var toCreate: seq<Entity> := [];
      var toUpdate: seq<Entity> := [];
      var k := 0;
      while k < |list|
        invariant 0 <= k <= |list| && IdsReadable(list[..k], idp)
        invariant toCreate == ToCreate(list[..k], idp) && toUpdate == ToUpdate(list[..k], idp)
        invariant forall j :: 0 <= j < k ==> (flags[j] <==> IdOf(list[j], idp) == Success(0))
      {
        var id := IdOf(list[k], idp);
        if id.Failure? {
          FirstUnreadable(list, idp, k);
          return Failure(id.error);
        }
        PartitionStep(list, k, idp);
        if id.value == 0 {
          toCreate := toCreate + [list[k]];
          flags[k] := true;
        } else {
          toUpdate := toUpdate + [list[k]];
          flags[k] := false;
        }
        k := k + 1;
      }
      assert list[..k] == list;
      assert flags[..] == Flags(list, idp);
      r := Success((flags[..], toCreate, toUpdate));
    }

    /** `save(list)`: partition (the first unreadable id fails the call),
        create the id-0 entities (a refused sequence query fails it), update
        the others (the first entity `fillForUpdate` refuses fails it), then
        merge the statuses as written. */
    method SaveAll(list: seq<Entity>, nexts: seq<Option<int>>, createBatch: seq<int>, updateBatch: seq<int>)
      returns (r: Result<seq<bool>>)
      requires Ready()
      modifies this`insertSql, this`idSeqSql, this`updateSql, this`idProperty
      ensures Ready()
      ensures !IdsReadable(list, old(idProperty).value) ==> r.Failure?
      ensures forall k :: 0 <= k < |list| && IdOf(list[k], old(idProperty).value).Failure?
                          && IdsReadable(list[..k], old(idProperty).value)
                ==> r == Failure(IdOf(list[k], old(idProperty).value).error)
      ensures IdsReadable(list, old(idProperty).value) && ToCreate(list, old(idProperty).value) != []
              && SequenceRefusal(dialect.value, old(idProperty).value, Table(), old(idSeqSql)).Some? ==>
                r == Failure(SequenceRefusal(dialect.value, old(idProperty).value, Table(), old(idSeqSql)).value)
      ensures IdsReadable(list, old(idProperty).value)
              && (ToCreate(list, old(idProperty).value) == []
                  || SequenceRefusal(dialect.value, old(idProperty).value, Table(), old(idSeqSql)).None?) ==>
                var toUpdate := ToUpdate(list, old(idProperty).value);
                forall k :: 0 <= k < |toUpdate| && UpdateBindings(Props(), idProperty.value, toUpdate[k]).Failure?
                            && (forall j :: 0 <= j < k ==> UpdateBindings(Props(), idProperty.value, toUpdate[j]).Success?)
                  ==> r == Failure(UpdateBindings(Props(), idProperty.value, toUpdate[k]).error)
      ensures IdsReadable(list, old(idProperty).value)
              && (ToCreate(list, old(idProperty).value) == []
                  || SequenceRefusal(dialect.value, old(idProperty).value, Table(), old(idSeqSql)).None?) ==>
                var toUpdate := ToUpdate(list, old(idProperty).value);
                (forall k :: 0 <= k < |toUpdate| ==> UpdateBindings(Props(), idProperty.value, toUpdate[k]).Success?) ==>
                  r == match StatusesAsWritten(|toUpdate|, updateBatch)
                       case Failure(e) => Failure(e)
                       case Success(updated) =>
                         MergeAsWritten(Flags(list, old(idProperty).value), Statuses(createBatch), updated, 0, 0, 0)
      ensures !IdsReadable(list, old(idProperty).value) ==>
                && insertSql == old(insertSql) && idSeqSql == old(idSeqSql)
                && updateSql == old(updateSql) && idProperty == old(idProperty)
      ensures IdsReadable(list, old(idProperty).value) ==>
                var toCreate := ToCreate(list, old(idProperty).value);
                var refused := toCreate != [] && SequenceRefusal(dialect.value, old(idProperty).value, Table(), old(idSeqSql)).Some?;
                && insertSql == Cached(old(insertSql), InsertSql(Table(), Props()))
                && idSeqSql == (if toCreate == [] then old(idSeqSql)
                                else SequenceCache(dialect.value, old(idProperty).value, Table(), old(idSeqSql)))
                && updateSql == (if refused then old(updateSql) else Cached(old(updateSql), UpdateSql(Table(), Props())))
                && idProperty == (if refused || ToUpdate(list, old(idProperty).value) == [] then old(idProperty)
                                  else Some(UpdateIdProperty(Props(), old(idProperty).value)))
    {
      var parts := Partition(list);
      if parts.Failure? {
        return Failure(parts.error);
      }
      var (flags, toCreate, toUpdate) := parts.value;
      var _, _, _, created := CreateAll(toCreate, nexts, createBatch);
      if created.Failure? {
        return Failure(created.error);
      }
      var _, _, updated := UpdateAll(toUpdate, updateBatch);
      if updated.Failure? {
        return Failure(updated.error);
      }
      r := Merge(flags, created.value, updated.value);
    }

    /** The merge loop of `save(list)` as written. */
    static method Merge(flags: seq<bool>, created: seq<bool>, updated: seq<bool>) returns (r: Result<seq<bool>>)
      ensures r == MergeAsWritten(flags, created, updated, 0, 0, 0)
    {
      var result := flags;
      var i, j, k := 0, 0, 0;
      while i < |result|
        invariant |result| == |flags| && i % 2 == 0
        invariant MergeAsWritten(flags, created, updated, 0, 0, 0) == MergeAsWritten(result, created, updated, i, j, k)
        decreases |result| - i
      {
        if result[i] {
          if j >= |created| {
            return Failure(IndexOutOfBounds);
          }
          result := result[i := created[j]];
          j := j + 1;
        } else {
          if k >= |updated| {
            return Failure(IndexOutOfBounds);
          }
          result := result[i := updated[k]];
          k := k + 1;
        }
        i := i + 2;
      }
      r := Success(result);
    }

    //-------------------------------------------------------------------------
    // Reads and deletes

    /** The column loop of `listBy`. */
    static method SelectColumns(columns: Option<seq<string>>) returns (s: string)
      ensures s == SelectList(columns)
    {
      if columns.None? || |columns.value| == 0 || (|columns.value| == 1 && columns.value[0] == "*") {
        return "*";
      }
      var cs := columns.value;
      s := "";
      var first := true;
      var k := 0;
      while k < |cs|
        invariant 0 <= k <= |cs| && (first <==> k == 0)
        invariant s == Join(cs[..k], ',')
      {
        if first {
          first := false;
          s := cs[k];
        } else {
          JoinSnoc(cs[..k], cs[k], ',');
          s := s + [','] + cs[k];
        }
        assert cs[..k + 1] == cs[..k] + [cs[k]];
        k := k + 1;
      }
      assert cs[..k] == cs;
    }

    /** `listBy(columns, limit, sortBy, query, parameters)`; `rows` is what
        the query returns. The sort order is not used by the source. */
    method ListBy(columns: Option<seq<string>>, limit: Limits.Limit?, query: Option<string>,
                  params: Option<seq<Value>>, rows: seq<Row>) returns (r: Result<Listing>)
      requires Ready()
      ensures r == ListSpec(Table(), dialect.value, Props(), columns, LimitValues(limit), query, params, rows)
    {
      var statement := Statement(Table(), columns, query, params);
      if statement.Failure? {
        return Failure(statement.error);
      }
      var v := dialect.value;
      var off := if limit == null then 0 else limit.offset as int;
      var lmt := if limit == null || CoreDialects.UseMaxForLimit(v) then -1 else limit.limit as int;
      var end := if lmt > 0 then lmt else if limit != null then limit.limit as int else MaxInt as int;
      ghost var p := PagingOf(v, LimitValues(limit));
      assert p == Paging(off, lmt, end);
      var sql := statement.value;
      if CoreDialects.SupportsLimit(v) {
        var paged := CoreDialects.LimitStringFor(v, sql, off, lmt);
        if paged.Failure? {
          assert Paged(v, statement.value, p) == paged;
          return Failure(paged.error);
        }
        sql := paged.value;
      }
      assert Paged(v, statement.value, p) == Success(sql);
      var bindings := Bind(params, off, lmt);
      assert ListBindings(params, p) == bindings;
      if bindings.None? {
        return Failure(RepositoryFailure("Creating entity " + Describe(sql, None) + " error"));
      }
      var list := ReadRows(beanInfo.value, rows, end);
      if list.None? {
        return Failure(RepositoryFailure("Creating entity " + Describe(sql, ArgumentTexts(params)) + " error"));
      }
      r := Success(Listing(sql, bindings.value, list.value));
    }

    /** The statement text of `listBy` before paging: the select list, the
        table and the condition, or the refusal of arguments without one. */
    static method Statement(table: string, columns: Option<seq<string>>, query: Option<string>,
                            params: Option<seq<Value>>) returns (r: Result<string>)
      ensures r == ListSql(table, columns, query, params)
    {
      var select := SelectColumns(columns);
      var sql := "SELECT " + select + " FROM " + table;
      if query.None? || IsBlank(query.value) {
        if params.Some? && |params.value| > 0 {
          return Failure(IllegalArgument("There is parameter, but not query condition"));
        }
      } else {
        sql := sql + " WHERE " + query.value;
      }
      r := Success(sql);
    }

    /** The binding steps of `listBy`: the arguments by position, then the
        offset and the count, each at position n + 1. */
    static method Bind(params: Option<seq<Value>>, off: int, lmt: int) returns (r: Option<map<nat, Value>>)
      ensures r == ListBindings(params, Paging(off, lmt, 0))
    {
      var bindings := map[];
      if params.Some? {
        var k := 0;
        while k < |params.value|
          invariant 0 <= k <= |params.value| && bindings == Positions(params.value[..k])
        {
          assert params.value[..k + 1][..k] == params.value[..k];
          bindings := bindings[k + 1 := params.value[k]];
          k := k + 1;
        }
        assert params.value[..k] == params.value;
      }
      if off > 0 {
        if params.None? {
          return None;
        }
        bindings := bindings[|params.value| + 1 := IntValue(off)];
      }
      if lmt > 0 {
        if params.None? {
          return None;
        }
        bindings := bindings[|params.value| + 1 := IntValue(lmt)];
      }
      r := Some(bindings);
    }

    /** The row loop of `listBy`: `while (rs.next() && i < end)`. */
    static method ReadRows(props: seq<Property>, rows: seq<Row>, end: int) returns (r: Option<seq<Entity>>)
      ensures r == Capped(props, rows, end)
    {
      var list := [];
      var i := 0;
      while i < |rows| && i < end
        invariant 0 <= i <= |rows| && (end > 0 ==> i <= end) && (end <= 0 ==> i == 0)
        invariant Readable(props, rows, i) && list == EntitiesOf(props, rows, i)
      {
        var e := NewEntity(props, rows[i]);
        if e.None? {
          assert !Readable(props, rows, ReadCount(rows, end));
          return None;
        }
        list := list + [e.value];
        i := i + 1;
      }
      r := Some(list);
    }

    /** `getBy(query, parameters)`: the first row, if any, as an entity. */
    method GetBy(query: string, params: Option<seq<Value>>, rows: seq<Row>) returns (r: Result<Fetch>)
      requires Ready()
      ensures r == FetchSpec(Table(), Props(), query, params, rows)
    {
      var sql := SelectAllFrom + Table() + Where + query;
      var entity := None;
      if rows != [] {
        entity := NewEntity(beanInfo.value, rows[0]);
        if entity.None? {
          return Failure(RepositoryFailure("Creating entity " + Describe(sql, ArgumentTexts(params)) + " error"));
        }
      }
      r := Success(Fetch(sql, Arguments(params), entity));
    }

    /** `deleteBy(query, parameters)`: a blank condition is refused; success
        is an update count of at least 1. */
    method DeleteBy(query: string, params: Option<seq<Value>>, updated: int) returns (r: Result<Execution>)
      requires Ready()
      ensures r == DeleteSpec(Table(), query, params, updated)
    {
      if IsBlank(query) {
        return Failure(IllegalArgument("No any condition in the query:" + query));
      }
      r := Success(Execution(DeleteFrom + Table() + Where + query, Arguments(params), updated >= 1));
    }

    //-------------------------------------------------------------------------
    // The delegating defaults of Repository

    /** `listAll()`: `listAll(["*"])`. */
    method ListAll(rows: seq<Row>) returns (r: Result<Listing>)
      requires Ready()
      ensures r == ListSpec(Table(), dialect.value, Props(), Some(["*"]), Some((0, MaxInt)), None, Some([]), rows)
    {
      r := ListAllColumns(Some(["*"]), rows);
    }

    /** `listAll(columns)`: `listAll(columns, Limit.UNLIMITED, null)`. */
    method ListAllColumns(columns: Option<seq<string>>, rows: seq<Row>) returns (r: Result<Listing>)
      requires Ready()
      ensures r == ListSpec(Table(), dialect.value, Props(), columns, Some((0, MaxInt)), None, Some([]), rows)
    {
      var unlimited := Limits.Limit.Unlimited();
      r := ListAllLimited(columns, unlimited, rows);
    }

    /** `listAll(columns, limit, sortBy)`: `listBy(columns, limit, sortBy,
        null)`, that is no condition and an empty argument array. */
    method ListAllLimited(columns: Option<seq<string>>, limit: Limits.Limit?, rows: seq<Row>) returns (r: Result<Listing>)
      requires Ready()
      ensures r == ListSpec(Table(), dialect.value, Props(), columns, LimitValues(limit), None, Some([]), rows)
    {
      r := ListBy(columns, limit, None, Some([]), rows);
    }

    /** `getByColumn(column, value)`: `getBy(column + "=?", value)`. */
    method GetByColumn(column: string, value: Value, rows: seq<Row>) returns (r: Result<Fetch>)
      requires Ready()
      ensures r == FetchSpec(Table(), Props(), ByColumn(column), Some([value]), rows)
    {
      r := GetBy(column + "=?", Some([value]), rows);
    }

    /** `getById(id)`: `getByColumn("id", id)`. */
    method GetById(id: int, rows: seq<Row>) returns (r: Result<Fetch>)
      requires Ready()
      ensures r == FetchSpec(Table(), Props(), "id=?", Some([IntValue(id)]), rows)
    {
      assert ByColumn("id") == "id=?";
      r := GetByColumn("id", IntValue(id), rows);
    }

    /** `deleteByColumn(column, value)`: `deleteBy(column + "=?", value)`. */
    method DeleteByColumn(column: string, value: Value, updated: int) returns (r: Result<Execution>)
      requires Ready()
      ensures r == DeleteSpec(Table(), ByColumn(column), Some([value]), updated)
    {
      r := DeleteBy(column + "=?", Some([value]), updated);
    }

    /** `deleteById(id)`: `deleteByColumn("id", id)`. */
    method DeleteById(id: int, updated: int) returns (r: Result<Execution>)
      requires Ready()
      ensures r == DeleteSpec(Table(), "id=?", Some([IntValue(id)]), updated)
    {
      assert ByColumn("id") == "id=?";
      r := DeleteByColumn("id", IntValue(id), updated);
    }

    //-------------------------------------------------------------------------
    // Named parameters

    /** `toIndexedQuery(query)` with the per-repository cache: a blank
        condition gives null; a cached condition is answered from the
        cache; otherwise it is translated and only its entry is added. */
    method ToIndexedQuery(q: string) returns (r: Option<NamedParameters.IndexedQuery>)
      requires CacheValid()
      modifies this`queryMap
      ensures CacheValid()
      ensures r == NamedParameters.ToIndexedQuery(q)
      ensures IsBlank(q) || q in old(queryMap) ==> queryMap == old(queryMap)
      ensures !IsBlank(q) && q !in old(queryMap) ==> queryMap == old(queryMap)[q := r.value]
    {
      if IsBlank(q) {
        return None;
      }
      if q in queryMap {
        return Some(queryMap[q]);
      }
      r := NamedParameters.IndexQuery(q);
      queryMap := queryMap[q := r.value];
    }

    /** The translation shared by the named-parameter defaults: the cached
        indexed query, then `toParameters` over the named values. */
    method Named(q: string, params: map<string, Value>) returns (r: Result<(string, seq<Value>)>)
      requires CacheValid()
      modifies this`queryMap
      ensures CacheValid()
      ensures NamedRefusal(q).Some? <==> r.Failure?
      ensures r.Failure? ==> r.error == NamedRefusal(q).value
      ensures r.Success? ==> r.value == (NamedParameters.ToIndexedQuery(q).value.query, NamedArguments(q, params))
    {
      if IsBlank(q) {
        return Failure(IllegalArgument("No any condition in the query:" + q));
      }
      var iq := ToIndexedQuery(q);
      var laid := NamedParameters.ToParameters(iq.value.index, params);
      SlotsAreArguments(q, params, laid);
      if laid.Failure? {
        return Failure(laid.error);
      }
      r := Success((iq.value.query, Unwrapped(laid.value)));
    }

    /** The named `listBy`: refused like every named call, otherwise the
        positional `listBy` with the translated condition and values. */
    method ListByNamed(columns: Option<seq<string>>, limit: Limits.Limit?, q: string,
                       params: map<string, Value>, rows: seq<Row>) returns (r: Result<Listing>)
      requires Ready() && CacheValid()
      modifies this`queryMap
      ensures CacheValid()
      ensures NamedRefusal(q).Some? ==> r == Failure(NamedRefusal(q).value)
      ensures NamedRefusal(q).None? ==>
                r == ListSpec(Table(), dialect.value, Props(), columns, LimitValues(limit),
                              Some(NamedParameters.ToIndexedQuery(q).value.query), Some(NamedArguments(q, params)), rows)
    {
      var call := Named(q, params);
      if call.Failure? {
        return Failure(call.error);
      }
      r := ListBy(columns, limit, Some(call.value.0), Some(call.value.1), rows);
    }

    /** The named `getBy`. */
    method GetByNamed(q: string, params: map<string, Value>, rows: seq<Row>) returns (r: Result<Fetch>)
      requires Ready() && CacheValid()
      modifies this`queryMap
      ensures CacheValid()
      ensures NamedRefusal(q).Some? ==> r == Failure(NamedRefusal(q).value)
      ensures NamedRefusal(q).None? ==>
                r == FetchSpec(Table(), Props(), NamedParameters.ToIndexedQuery(q).value.query,
                               Some(NamedArguments(q, params)), rows)
    {
      var call := Named(q, params);
      if call.Failure? {
        return Failure(call.error);
      }
      r := GetBy(call.value.0, Some(call.value.1), rows);
    }

    /** The named `deleteBy`. */
    method DeleteByNamed(q: string, params: map<string, Value>, updated: int) returns (r: Result<Execution>)
      requires Ready() && CacheValid()
      modifies this`queryMap
      ensures CacheValid()
      ensures NamedRefusal(q).Some? ==> r == Failure(NamedRefusal(q).value)
      ensures NamedRefusal(q).None? ==>
                r == DeleteSpec(Table(), NamedParameters.ToIndexedQuery(q).value.query,
                                Some(NamedArguments(q, params)), updated)
    {
      var call := Named(q, params);
      if call.Failure? {
        return Failure(call.error);
      }
      r := DeleteBy(call.value.0, Some(call.value.1), updated);
    }
  }
}
