/** The registries: SimpleRepositoryFactory (one repository per table,
    created and initialised on first request) and SimpleRepositoryModule
    (one factory per data source, and the choice of the default data
    source), in both revisions. The caches are sequential maps. */
module Registries {
  import opened Outcomes
  import opened RepositorySql
  import opened Repositories
  import opened JdbcRepositories

  /** Why `_doInit` refuses a repository just given `ds` and class `c`: the
      class is the one reflection finds under its own name, so only a
      missing data source or a missing `id` property remain. */
  function InitRefusal(ds: Option<DataSource>, c: EntityClass): (r: Option<Error>)
    ensures r.Some? <==> ds.None? || FindProperty(c.properties, "id").None?
    ensures r.Some? ==> r.value.IllegalState?
  {
    if ds.None? then Some(IllegalState("No data source was bound to this repository for table:" + NullText(None)))
    else if FindProperty(c.properties, "id").None? then Some(IllegalState("No 'id' in the entity"))
    else None
  }

  class RepositoryFactory {
    var dataSource: Option<DataSource>
    /** The registered repositories, by name (the table name). */
    var repositories: map<string, JdbcRepository>

    constructor ()
      ensures dataSource == None && repositories == map[]
    {
      dataSource := None;
      repositories := map[];
    }

    method SetDataSource(ds: Option<DataSource>)
      modifies this`dataSource
      ensures dataSource == ds
    {
      dataSource := ds;
    }

    /** `getTypeSafeRepository(entityName)` is not implemented: always null. */
    function TypeSafeRepository(entityName: string): (r: Option<JdbcRepository>)
      ensures r.None?
    {
      None
    }

    /** `getRepository(domainClass)`: the repository registered under the
        class's table name, or a new one given this factory's data source
        and the class, initialised, and registered only once `init`
        succeeded. */
    method GetRepository(c: EntityClass) returns (r: Result<JdbcRepository>)
      modifies this`repositories
      ensures c.table in old(repositories) ==>
                r == Success(old(repositories)[c.table]) && repositories == old(repositories)
      ensures c.table !in old(repositories) && InitRefusal(dataSource, c).Some? ==>
                r == Failure(InitRefusal(dataSource, c).value) && repositories == old(repositories)
      ensures c.table !in old(repositories) && InitRefusal(dataSource, c).None? ==>
                && r.Success? && fresh(r.value)
                && repositories == old(repositories)[c.table := r.value]
                && r.value.Ready() && r.value.Name() == Some(c.table)
                && r.value.dataSource == dataSource && r.value.entityClass == Some(c)
                && r.value.Props() == c.properties
                && r.value.idProperty == FindProperty(c.properties, "id")
                && r.value.queryMap == map[] && r.value.insertSql.None? && r.value.updateSql.None?
    {
      if c.table in repositories {
        return Success(repositories[c.table]);
      }
      var repository, failure := Create(dataSource, c);
      if failure.Some? {
        return Failure(failure.value);
      }
      repositories := repositories[c.table := repository];
      r := Success(repository);
    }

    /** A new repository given `ds` and the class, initialised. */
    static method Create(ds: Option<DataSource>, c: EntityClass) returns (repository: JdbcRepository, failure: Option<Error>)
      ensures fresh(repository)
      ensures failure == InitRefusal(ds, c)
      ensures failure.None? ==>
                && repository.Ready() && repository.Name() == Some(c.table)
                && repository.dataSource == ds && repository.entityClass == Some(c)
                && repository.Props() == c.properties
                && repository.idProperty == FindProperty(c.properties, "id")
                && repository.queryMap == map[] && repository.insertSql.None? && repository.updateSql.None?
    {
      repository := new JdbcRepository();
      repository.SetDataSource(ds);
      repository.SetEntityClass(c);
      failure := repository.DoInit(map[c.name := c]);
    }
  }

  //---------------------------------------------------------------------------
  // Data sources registered by name

  predicate UniqueNames(sources: seq<DataSource>)
  {
    forall i, j :: 0 <= i < j < |sources| ==> sources[i].name != sources[j].name
  }

  /** The position of the source registered under `name`, or -1. */
  function Find(sources: seq<DataSource>, name: string): (r: int)
    ensures -1 <= r < |sources|
    ensures r >= 0 ==> sources[r].name == name
    ensures r == -1 <==> forall k :: 0 <= k < |sources| ==> sources[k].name != name
  {
    if sources == [] then -1
    else if sources[|sources| - 1].name == name then |sources| - 1
    else Find(sources[..|sources| - 1], name)
  }

  /** Registration by name: a source under a name already present takes
      that entry's place, any other is added last. */
  function Register(sources: seq<DataSource>, ds: DataSource): seq<DataSource>
  {
    var k := Find(sources, ds.name);
    if k < 0 then sources + [ds] else sources[k := ds]
  }

  /** Registering keeps the names unique, makes `ds` the source under its
      name, and keeps every other source where it was. */
  lemma RegisterKeeps(sources: seq<DataSource>, ds: DataSource)
    requires UniqueNames(sources)
    ensures var after := Register(sources, ds);
      && UniqueNames(after)
      && ds in after
      && |after| == (if Find(sources, ds.name) < 0 then |sources| + 1 else |sources|)
      && forall k :: 0 <= k < |sources| && sources[k].name != ds.name ==> after[k] == sources[k]
  {
    var k := Find(sources, ds.name);
    var after := Register(sources, ds);
    if k < 0 {
      assert after[|sources|] == ds;
    } else {
      assert after[k] == ds;
    }
  }

  /** The first source flagged as default, if any. */
  function FirstDefault(sources: seq<DataSource>): (r: Option<DataSource>)
  {
    if sources == [] then None
    else if sources[0].isDefault then Some(sources[0])
    else FirstDefault(sources[1..])
  }

  /** `getDefaultDataSource()`: none without sources, the only one when
      there is one, otherwise the first flagged as default, or failing that
      the first registered. */
  function DefaultOf(sources: seq<DataSource>): Option<DataSource>
  {
    if |sources| == 0 then None
    else if |sources| == 1 then Some(sources[0])
    else match FirstDefault(sources)
      case Some(d) => Some(d)
      case None => Some(sources[0])
  }

  lemma {:induction false} FirstDefaultIs(sources: seq<DataSource>)
    ensures FirstDefault(sources).None? <==> forall k :: 0 <= k < |sources| ==> !sources[k].isDefault
    ensures FirstDefault(sources).Some? ==>
              exists k :: (0 <= k < |sources| && FirstDefault(sources).value == sources[k]
                           && sources[k].isDefault && forall j :: 0 <= j < k ==> !sources[j].isDefault)
  {
    if sources != [] && !sources[0].isDefault {
      FirstDefaultIs(sources[1..]);
      if FirstDefault(sources[1..]).Some? {
        var k :| 0 <= k < |sources[1..]| && FirstDefault(sources[1..]).value == sources[1..][k]
                 && sources[1..][k].isDefault && forall j :: 0 <= j < k ==> !sources[1..][j].isDefault;
        assert sources[k + 1] == sources[1..][k];
        assert forall j :: 0 < j < k + 1 ==> sources[j] == sources[1..][j - 1];
      } else {
        assert forall k :: 0 < k < |sources| ==> sources[k] == sources[1..][k - 1];
      }
    }
  }

  /** The default policy: the choice is absent only without sources; it is
      always a registered source; among several, a flagged source wins and
      no flagged source precedes it; with none flagged it is the first. */
  lemma DefaultPolicy(sources: seq<DataSource>)
    ensures DefaultOf(sources).None? <==> sources == []
    ensures DefaultOf(sources).Some? ==> DefaultOf(sources).value in sources
    ensures |sources| == 1 ==> DefaultOf(sources) == Some(sources[0])
    ensures |sources| > 1 && (exists k :: 0 <= k < |sources| && sources[k].isDefault) ==>
              exists k :: 0 <= k < |sources| && DefaultOf(sources) == Some(sources[k]) && sources[k].isDefault
                && forall j :: 0 <= j < k ==> !sources[j].isDefault
    ensures |sources| > 1 && (forall k :: 0 <= k < |sources| ==> !sources[k].isDefault) ==>
              DefaultOf(sources) == Some(sources[0])
  {
    FirstDefaultIs(sources);
  }

  class RepositoryModule {
    /** The registered data sources, in registration order. */
    var sources: seq<DataSource>
    var factories: map<DataSource, RepositoryFactory>

    constructor ()
      ensures sources == [] && factories == map[]
    {
      sources := [];
      factories := map[];
    }

    /** Every stored factory is bound to the source it is stored under. */
    predicate Valid()
      reads this, factories.Values
    {
      UniqueNames(sources) && forall ds :: ds in factories ==> factories[ds].dataSource == Some(ds)
    }

    /** `addDatasource(ds)`: registers the source under its name. */
    method AddDatasource(ds: DataSource)
      requires Valid()
      modifies this`sources
      ensures Valid()
      ensures sources == Register(old(sources), ds)
    {
      RegisterKeeps(sources, ds);
      var k := FindIndex(sources, ds.name);
      if k < 0 {
        sources := sources + [ds];
      } else {
        sources := sources[k := ds];
      }
    }

    /** The lookup by name behind registration. */
    static method FindIndex(sources: seq<DataSource>, name: string) returns (k: int)
      ensures k == Find(sources, name)
    {
      k := |sources| - 1;
      assert sources[..k + 1] == sources;
      while k >= 0 && sources[k].name != name
        invariant -1 <= k < |sources|
        invariant Find(sources, name) == Find(sources[..k + 1], name)
      {
        assert sources[..k + 1][..k] == sources[..k];
        k := k - 1;
      }
      if k >= 0 {
        assert sources[..k + 1][k] == sources[k];
      }
    }

    /** `getRepositoryFactory(ds)`: the factory stored for `ds`, or a new one
        bound to `ds`, stored under `ds` alone. */
    method GetRepositoryFactory(ds: DataSource) returns (f: RepositoryFactory)
      requires Valid()
      modifies this`factories
      ensures Valid()
      ensures ds in old(factories) ==> f == old(factories)[ds] && factories == old(factories)
      ensures ds !in old(factories) ==>
                fresh(f) && f.repositories == map[] && factories == old(factories)[ds := f]
      ensures f.dataSource == Some(ds)
    {
      if ds in factories {
        return factories[ds];
      }
      f := new RepositoryFactory();
      f.SetDataSource(Some(ds));
      factories := factories[ds := f];
    }

    /** `getDefaultDataSource()`, searching the sources in order. */
    method DefaultDataSource() returns (r: Option<DataSource>)
      ensures r == DefaultOf(sources)
    {
      if |sources| == 0 {
        return None;
      }
      if |sources| == 1 {
        return Some(sources[0]);
      }
      var k := 0;
      while k < |sources|
        invariant 0 <= k <= |sources|
        invariant FirstDefault(sources) == FirstDefault(sources[k..])
      {
        assert sources[k..][1..] == sources[k + 1..];
        if sources[k].isDefault {
          return Some(sources[k]);
        }
        k := k + 1;
      }
      r := Some(sources[0]);
    }
  }

  /** The older revision of SimpleRepositoryModule: only the factory cache. */
  class LegacyRepositoryModule {
    var factories: map<DataSource, RepositoryFactory>

    constructor ()
      ensures factories == map[]
    {
      factories := map[];
    }

    predicate Valid()
      reads this, factories.Values
    {
      forall ds :: ds in factories ==> factories[ds].dataSource == Some(ds)
    }

    /** `getRepositoryFactory(ds)`, as in the current revision. */
    method GetRepositoryFactory(ds: DataSource) returns (f: RepositoryFactory)
      requires Valid()
      modifies this`factories
      ensures Valid()
      ensures ds in old(factories) ==> f == old(factories)[ds] && factories == old(factories)
      ensures ds !in old(factories) ==>
                fresh(f) && f.repositories == map[] && factories == old(factories)[ds := f]
      ensures f.dataSource == Some(ds)
    {
      if ds in factories {
        return factories[ds];
      }
      f := new RepositoryFactory();
      f.SetDataSource(Some(ds));
      factories := factories[ds := f];
    }
  }
}
