/** The HikariCP data source: the provider derived from the JDBC URL and
    cached, the default flag, the auto-configuration of `_doInit`, and the
    setters that only take effect until the pool has started. The pool
    itself (HikariDataSource) is reduced to the properties these touch. */
module Hikari {
  import opened Outcomes
  import Text
  import CoreDialects

  /** The bean lifecycle phases, in lifecycle order. */
  datatype BeanPhase = Disabled | Initializing | Initialized | Starting | Started
                     | Stopping | Stopped | Destroying | Destroyed

  function Rank(p: BeanPhase): nat
  {
    match p
    case Disabled => 0
    case Initializing => 1
    case Initialized => 2
    case Starting => 3
    case Started => 4
    case Stopping => 5
    case Stopped => 6
    case Destroying => 7
    case Destroyed => 8
  }

  /** `getBeanPhase().isBeforeOrCurrent(STARTING)`. */
  predicate Configurable(p: BeanPhase)
  {
    Rank(p) <= Rank(Starting)
  }

  const JdbcScheme := "jdbc:"

  /** The provider named by a JDBC URL: the text between `jdbc:` and the
      next `:`, when that text is not empty. */
  function ProviderOf(url: Option<string>): Option<string>
  {
    if url.None? || |url.value| < |JdbcScheme| || url.value[..|JdbcScheme|] != JdbcScheme then None
    else
      var index := Text.IndexOf(url.value, ':', |JdbcScheme|);
      if index > |JdbcScheme| then Some(url.value[|JdbcScheme|..index]) else None
  }

  /** A URL `jdbc:<p>:<rest>` names provider `p` whenever `p` is non-empty
      and free of `:`. */
  lemma ProviderOfUrl(p: string, rest: string)
    requires p != [] && ':' !in p
    ensures ProviderOf(Some(JdbcScheme + p + ":" + rest)) == Some(p)
  {
    var url := JdbcScheme + p + ":" + rest;
    assert url[..|JdbcScheme|] == JdbcScheme;
    Text.IndexOfAt(url, ':', |JdbcScheme|, |JdbcScheme| + |p|);
    assert url[|JdbcScheme|..|JdbcScheme| + |p|] == p;
  }

  /** Conversely, a derived provider is non-empty, free of `:`, and the URL
      is `jdbc:` + provider + `:` + the rest. */
  lemma ProviderShape(url: string)
    requires ProviderOf(Some(url)).Some?
    ensures var p := ProviderOf(Some(url)).value;
      && p != [] && ':' !in p
      && |url| > |JdbcScheme| + |p|
      && url == JdbcScheme + p + ":" + url[|JdbcScheme| + |p| + 1..]
  {
    var index := Text.IndexOf(url, ':', |JdbcScheme|);
    var p := url[|JdbcScheme|..index];
    assert forall k :: 0 <= k < |p| ==> p[k] == url[|JdbcScheme| + k];
    assert url == url[..|JdbcScheme|] + p + [url[index]] + url[index + 1..];
  }

  /** Without a `jdbc:` scheme, or with nothing between it and the next
      `:`, or with no further `:`, there is no provider. */
  lemma NoProvider(url: string)
    ensures |url| < |JdbcScheme| || url[..|JdbcScheme|] != JdbcScheme ==> ProviderOf(Some(url)).None?
    ensures |url| > |JdbcScheme| && url[..|JdbcScheme|] == JdbcScheme && url[|JdbcScheme|] == ':' ==>
              ProviderOf(Some(url)).None?
    ensures |url| >= |JdbcScheme| && ':' !in url[|JdbcScheme|..] ==> ProviderOf(Some(url)).None?
  {
    if |url| >= |JdbcScheme| && ':' !in url[|JdbcScheme|..] {
      Text.IndexOfNone(url, ':', |JdbcScheme|);
    }
  }

  class HikariCP {
    var provider: Option<string>
    var isDefault: bool
    var phase: BeanPhase
    var poolName: Option<string>
    var jdbcUrl: Option<string>
    var connectionInitSql: Option<string>
    var connectionTestQuery: Option<string>
    var dataSourceClassName: Option<string>
    var driverClassName: Option<string>

    constructor ()
      ensures provider == None && !isDefault && phase == Disabled
      ensures poolName == None && jdbcUrl == None && connectionInitSql == None
      ensures connectionTestQuery == None && dataSourceClassName == None && driverClassName == None
    {
      provider := None;
      isDefault := false;
      phase := Disabled;
      poolName := None;
      jdbcUrl := None;
      connectionInitSql := None;
      connectionTestQuery := None;
      dataSourceClassName := None;
      driverClassName := None;
    }

    /** `getProvider()`: a provider already known is returned as it is;
        otherwise it is derived from the URL and kept once found. */
    method GetProvider() returns (r: Option<string>)
      modifies this`provider
      ensures old(provider).Some? ==> r == old(provider)
      ensures old(provider).None? ==> r == ProviderOf(jdbcUrl)
      ensures provider == r
    {
      if provider.None? {
        var url := jdbcUrl;
        if url.Some? && |url.value| >= |JdbcScheme| && url.value[..|JdbcScheme|] == JdbcScheme {
          var index := Text.IndexOf(url.value, ':', |JdbcScheme|);
          if index > |JdbcScheme| {
            provider := Some(url.value[|JdbcScheme|..index]);
          }
        }
      }
      r := provider;
    }

    /** `setProvider(p)`; None stands for null. */
    method SetProvider(p: Option<string>)
      modifies this`provider
      ensures provider == p
    {
      provider := p;
    }

    method SetDefault(flag: bool)
      modifies this`isDefault
      ensures isDefault == flag
    {
      isDefault := flag;
    }

    method SetPhase(p: BeanPhase)
      modifies this`phase
      ensures phase == p
    {
      phase := p;
    }

    /** `setName(name)`: the pool name, only until the pool has started. */
    method SetName(name: string)
      modifies this`poolName
      ensures poolName == if Configurable(phase) then Some(name) else old(poolName)
    {
      if Configurable(phase) {
        poolName := Some(name);
      }
    }

    method SetJdbcUrl(url: string)
      modifies this`jdbcUrl
      ensures jdbcUrl == if Configurable(phase) then Some(url) else old(jdbcUrl)
    {
      if Configurable(phase) {
        jdbcUrl := Some(url);
      }
    }

    method SetConnectionInitSql(sql: string)
      modifies this`connectionInitSql
      ensures connectionInitSql == if Configurable(phase) then Some(sql) else old(connectionInitSql)
    {
      if Configurable(phase) {
        connectionInitSql := Some(sql);
      }
    }

    method SetConnectionTestQuery(sql: string)
      modifies this`connectionTestQuery
      ensures connectionTestQuery == if Configurable(phase) then Some(sql) else old(connectionTestQuery)
    {
      if Configurable(phase) {
        connectionTestQuery := Some(sql);
      }
    }

    method SetDataSourceClassName(className: string)
      modifies this`dataSourceClassName
      ensures dataSourceClassName == if Configurable(phase) then Some(className) else old(dataSourceClassName)
    {
      if Configurable(phase) {
        dataSourceClassName := Some(className);
      }
    }

    method SetDriverClassName(className: string)
      modifies this`driverClassName
      ensures driverClassName == if Configurable(phase) then Some(className) else old(driverClassName)
    {
      if Configurable(phase) {
        driverClassName := Some(className);
      }
    }

    /** The auto-configuration of `_doInit`: with a provider that names a
        dialect (`dialects` stands for the dialect lookup by provider), the
        driver class and the test query are taken from the dialect where
        each is still unset, through the phase-gated setters. */
    method DoInit(dialects: map<string, CoreDialects.Vendor>)
      modifies this`provider, this`driverClassName, this`connectionTestQuery
      ensures provider == if old(provider).Some? then old(provider) else ProviderOf(jdbcUrl)
      ensures var fill := Configurable(phase) && provider.Some? && provider.value in dialects;
        && driverClassName == (if fill && old(driverClassName).None?
                               then Some(CoreDialects.Driver(dialects[provider.value])) else old(driverClassName))
        && connectionTestQuery == (if fill && old(connectionTestQuery).None?
                                   then Some(CoreDialects.TestQuery(dialects[provider.value])) else old(connectionTestQuery))
    {
      var p := GetProvider();
      if p.Some? && p.value in dialects {
        var dialect := dialects[p.value];
        if driverClassName.None? {
          SetDriverClassName(CoreDialects.Driver(dialect));
        }
        if connectionTestQuery.None? {
          SetConnectionTestQuery(CoreDialects.TestQuery(dialect));
        }
      }
    }
  }
}
