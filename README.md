# femto-orm core, modelled in Dafny

femto-orm is a small Java object-relational mapper. This project models the
parts of it that build SQL text and keep state, and proves what that code
promises. The modelled parts are:

- **the named-parameter translator of `Repository`**: `toIndexedQuery`
  turns `:name` tokens into `?` and builds the name-to-ordinal index, and
  `toParameters` lays the named values out by ordinal;
- **the dialects of both revisions**: the orm-core classes (MySQL,
  SQL Server, Oracle, DB2, Derby, EnterpriseDB over the interface defaults
  of `RdbmsDialect`) and the older root `src/` classes (MySQL, DB2, Derby,
  PostgreSQL);
- **the `JdbcRepository` engine**: `_doInit`, the SELECT/INSERT/UPDATE/DELETE
  text, dialect-gated paging and the row cap, `fillForUpdate`, `setId`,
  `save` and its list form, and the query cache;
- **the delegating defaults of `Repository`** (`listAll`, `getById`,
  `deleteById`, the named-parameter `listBy`/`getBy`/`deleteBy`);
- **the registries**: `SimpleRepositoryFactory` (one repository per table)
  and `SimpleRepositoryModule` in both revisions (one factory per data
  source, and the default data source policy);
- **`TypeMapping`, `Limit`, and the `HikariCP` data source**: the provider
  read from the JDBC URL, the default flag, the auto-configuration and the
  phase-gated setters.

JDBC execution is replaced by its outcomes, which are passed in as
parameters: the rows a query returns, an update count, the batch counts,
and the sequence value. The operations that run a statement (`create`,
`update`, their list forms, `listBy`, `getBy`, `deleteBy`, `deleteByIds`)
return its text and the values bound to it; `save` and its list form return
only the source's result, and the state they leave behind. Where the source is defective (see "Findings"), the
operations follow the code as written, and the intended behaviour is
defined and proved beside them.

Files, in dependency order:

- `outcomes.dfy`: Option, Result, the Java exceptions as errors, `int32`.
- `text.dfy`: the parts of `java.lang.String` the code relies on.
- `named_parameters.dfy`: `toIndexedQuery` and `toParameters`.
- `row_number_paging.dfy`: the DB2 row-number rewrite.
- `legacy_dialects.dfy`: the older dialects.
- `core_dialects.dfy`: the current dialects.
- `limit.dfy`: `Limit`.
- `type_mapping.dfy`: `TypeMapping`.
- `repository_sql.dfy`: properties, entities and the statement texts.
- `repository.dfy`: the engine's specification functions and their lemmas.
- `jdbc_repository.dfy`: the `JdbcRepository` class.
- `registries.dfy`: the factory and the modules.
- `hikari.dfy`: `HikariCP`.

## Model

Source paths are relative to the repository root.

| member | source | states |
|---|---|---|
| NamedParameters.TokenizeRender | orm-core/src/main/java/org/femtoframework/orm/Repository.java:432-452 | Putting the scanned tokens back as `:name` gives the condition back: all text outside tokens is copied verbatim and in order |
| NamedParameters.TokenizeWellFormed | orm-core/src/main/java/org/femtoframework/orm/Repository.java:432-452 | The scanner's reading is maximal: each token runs to the next space or the end, and each literal runs to the next `:` |
| NamedParameters.TokenizeUnique | orm-core/src/main/java/org/femtoframework/orm/Repository.java:432-452 | A maximal reading is unique: scanning the rendering of a well-formed reading gives that reading back |
| NamedParameters.IndexedQueryMeaning | orm-core/src/main/java/org/femtoframework/orm/Repository.java:424-462 | For a non-blank condition, the positional query is the reading with each token replaced by `?`, and the index maps each name to an ordinal |
| NamedParameters.NoTokens | orm-core/src/main/java/org/femtoframework/orm/Repository.java:428-461 | When the condition has no `:`, or its first `:` is at position 0, the condition comes back unchanged with an empty index |
| NamedParameters.ExamplesWithoutTokens | orm-core/src/main/java/org/femtoframework/orm/Repository.java:425-430 | `"id=1"` comes back unchanged with an empty index; `""` gives null |
| NamedParameters.ExampleSpaced | orm-core/src/main/java/org/femtoframework/orm/Repository.java:432-452 | `id = :foo_id AND name = :foo_name` becomes `id = ? AND name = ?` with foo_id→0 and foo_name→1 |
| NamedParameters.ExampleNoSpaceBeforeToken | orm-core/src/main/java/org/femtoframework/orm/Repository.java:432-452 | `id =:foo_id AND name =:foo_name OR id=1` becomes `id =? AND name =? OR id=1` |
| NamedParameters.TwoTokens | orm-core/src/main/java/org/femtoframework/orm/Repository.java:432-452 | For any `:`-free literals and space-free distinct names, `a:m b:n` becomes `a?b?` with m→0 and n→1 |
| NamedParameters.TwoTokensThenText | orm-core/src/main/java/org/femtoframework/orm/Repository.java:432-452 | The same, with trailing text copied after the last `?` |
| NamedParameters.OrdinalsAreLastPositions | orm-core/src/main/java/org/femtoframework/orm/Repository.java:434-444 | A repeated name is re-put: each name maps to the position of its last occurrence |
| NamedParameters.OrdinalsKeys | orm-core/src/main/java/org/femtoframework/orm/Repository.java:443 | The index keys are exactly the token names |
| NamedParameters.OrdinalsOfDistinct | orm-core/src/main/java/org/femtoframework/orm/Repository.java:443-444 | With distinct names, the ordinals are exactly 0..k-1 in token order |
| NamedParameters.OrdinalsSize | orm-core/src/main/java/org/femtoframework/orm/Repository.java:443-444 | The index is never larger than the token count, and equal to it exactly when the names are distinct |
| NamedParameters.OrdinalsInjective | orm-core/src/main/java/org/femtoframework/orm/Repository.java:443-444 | Whatever the names, the ordinals are distinct and below the token count |
| NamedParameters.MarkCounts | orm-core/src/main/java/org/femtoframework/orm/Repository.java:432-452 | The positional query holds the literals' own `?` plus exactly one `?` per token |
| NamedParameters.PlaceholderCount | orm-core/src/main/java/org/femtoframework/orm/Repository.java:424-462 | For a condition with no `?` of its own, the `?` count equals the token count, and equals the index size exactly when the names are distinct |
| NamedParameters.IndexShape | orm-core/src/main/java/org/femtoframework/orm/Repository.java:424-462 | The index is injective; every ordinal fits an array of the index size exactly when the names are distinct; in that case name j has ordinal j |
| NamedParameters.IndexQuery | orm-core/src/main/java/org/femtoframework/orm/Repository.java:424-462 | The cursor loop (`start`/`end`, builder and index) computes exactly the functional reading `ToIndexedQuery` |
| NamedParameters.ToParameters | orm-core/src/main/java/org/femtoframework/orm/Repository.java:471-477 | The array has `index.size()` slots and slot `ordinal` holds the value of its name, null when absent; it fails with an index error exactly when some ordinal is out of range |
| NamedParameters.Translate | orm-core/src/main/java/org/femtoframework/orm/Repository.java:151-157 | The named-call default: a blank condition is refused with IllegalArgumentException; a repeated name fails; otherwise slot j holds the value of the j-th token's name |
| RowNumberPaging.OrderTail | orm-core/src/main/java/org/femtoframework/orm/dialect/Db2Dialect.java:31-46 | The ORDER BY tail is copied into `over(...)` only when it is at an index > 0 and the query has no `select distinct`; then it runs from that index to the end |
| RowNumberPaging.LimitString | orm-core/src/main/java/org/femtoframework/orm/dialect/Db2Dialect.java:56-84 | The rewrite fails, with an index error, exactly when the query has no `select` in any case |
| RowNumberPaging.SelectAt | orm-core/src/main/java/org/femtoframework/orm/dialect/Db2Dialect.java:58 | The position of the first `select`, in any case, or -1 exactly when there is none |
| RowNumberPaging.PrefixAndWindow | orm-core/src/main/java/org/femtoframework/orm/dialect/Db2Dialect.java:58-73 | The text before the first `select` reaches the output unchanged, and the output ends with the row-number window ` ) as temp_ where rownumber_ ` and its bound marks |
| RowNumberPaging.NestedQuery | orm-core/src/main/java/org/femtoframework/orm/dialect/Db2Dialect.java:64-68 | A DISTINCT query is nested whole, from its `select` on, after an empty `over()`; any other query has its ORDER BY tail inside `over(...)` and continues right after its own `select` keyword |
| RowNumberPaging.Placeholders | orm-core/src/main/java/org/femtoframework/orm/dialect/Db2Dialect.java:56-84 | The output keeps the query's `?` marks, repeats those of the copied ORDER BY tail, and adds two marks with an offset, one without |
| LegacyDialects.LimitPlaceholders | src/main/java/org/femtoframework/orm/dialect/MysqlDialect.java:32-38 | Every rewrite keeps the query's `?` marks and adds one, or two with an offset; DB2 and Derby also repeat the copied ORDER BY marks. Only DB2 and Derby fail, and only for a query without `select` |
| LegacyDialects.LimitKeepsQuery | src/main/java/org/femtoframework/orm/dialect/PostgresDialect.java:23-25 | MySQL keeps the trimmed query and PostgreSQL keeps the untrimmed query as the prefix of the output, followed by their LIMIT suffix |
| LegacyDialects.SequenceForms | src/main/java/org/femtoframework/orm/dialect/Db2Dialect.java:94-110 | DB2 and Derby prefix `select ` to the plain form (`values nextval for n`); PostgreSQL prefixes it to the expression `nextval ('n')` |
| LegacyDialects.SuffixMarks | src/main/java/org/femtoframework/orm/dialect/PostgresDialect.java:23-25 | The MySQL and PostgreSQL suffixes hold one `?`, or two with an offset |
| CoreDialects.LimitPlaceholders | orm-core/src/main/java/org/femtoframework/orm/dialect/MssqlDialect.java:48-51 | Every dialect's rewrite keeps the query's `?` marks and adds one, or two with an offset (DB2 and Derby also repeat the copied ORDER BY marks) |
| CoreDialects.LimitIgnoresCount | orm-core/src/main/java/org/femtoframework/orm/dialect/RdbmsDialect.java:46-48 | `getLimitString(sql, offset, limit)` depends only on whether the offset is positive; the row count never reaches the text |
| CoreDialects.LimitFailure | orm-core/src/main/java/org/femtoframework/orm/dialect/MysqlDialect.java:30-45 | The dialects declaring LIMIT support never fail to rewrite; only DB2 and Derby fail, and only for a query without `select` |
| CoreDialects.OracleLayout | orm-core/src/main/java/org/femtoframework/orm/dialect/OracleDialect.java:37-64 | Oracle nests the trimmed query without its trailing ` FOR UPDATE` (any case), and the output ends with ` FOR UPDATE` exactly when the query did |
| CoreDialects.OracleInner | orm-core/src/main/java/org/femtoframework/orm/dialect/OracleDialect.java:38-43 | The nested query is a prefix of the trimmed query, shorter by exactly ` FOR UPDATE` when the query ends with it |
| CoreDialects.SequenceSupport | orm-core/src/main/java/org/femtoframework/orm/dialect/RdbmsDialect.java:65-94 | Both sequence forms succeed exactly for the dialects declaring sequence support; otherwise both fail with `DB:<name> doesn't support sequence` |
| CoreDialects.SequenceForms | orm-core/src/main/java/org/femtoframework/orm/dialect/MssqlDialect.java:71-87 | SQL Server's select form is `SELECT ` + the plain form; Oracle's corrected form adds ` FROM DUAL`; EnterpriseDB's plain form is `select ` + the expression; DB2 and Derby end with the name |
| CoreDialects.OracleSelectSequenceDiverges | orm-core/src/main/java/org/femtoframework/orm/dialect/OracleDialect.java:99-101 | As written, Oracle's select form never returns, although its plain form exists; every other dialect's select form is the intended one |
| CoreDialects.DerbyIsDb2 | orm-core/src/main/java/org/femtoframework/orm/dialect/DerbyDialect.java:6-25 | Derby inherits DB2's paging, sequence strings, test query and flags; only its name, driver and data source class differ |
| CoreDialects.TestQueries | orm-core/src/main/java/org/femtoframework/orm/dialect/RdbmsDialect.java:101-103 | Every test query starts with `SELECT 1`; only Oracle, DB2 and Derby add a FROM clause |
| CoreDialects.DataSourceClasses | orm-core/src/main/java/org/femtoframework/orm/dialect/DerbyDialect.java:22-25 | Every current dialect except EnterpriseDB declares a data source class; Derby's is not DB2's |
| CoreDialects.NamesDistinct | orm-core/src/main/java/org/femtoframework/orm/dialect/OracleDialect.java:109-111 | No two dialects share a name |
| Limits.Limit.Default | src/main/java/org/femtoframework/orm/Limit.java:15-19 | The default limit starts at 0 and allows 100 rows |
| Limits.Limit.WithLimit | src/main/java/org/femtoframework/orm/Limit.java:21-23 | `Limit(n)` is `Limit(0, n)` |
| Limits.Limit.constructor | src/main/java/org/femtoframework/orm/Limit.java:25-28 | Both values are kept as given, unchecked |
| Limits.Limit.Unlimited | src/main/java/org/femtoframework/orm/Limit.java:13 | UNLIMITED starts at 0 and allows `Integer.MAX_VALUE` rows |
| Limits.Limit.SetOffset | src/main/java/org/femtoframework/orm/Limit.java:46-48 | Changes the offset and leaves the limit |
| Limits.Limit.SetLimit | src/main/java/org/femtoframework/orm/Limit.java:54-56 | Changes the limit and leaves the offset |
| Limits.Limit.ReadExternal | src/main/java/org/femtoframework/orm/Limit.java:37-40 | Reads the offset, then the limit; a stream that ends early fails after whatever was read |
| Limits.Write | src/main/java/org/femtoframework/orm/Limit.java:31-34 | `writeExternal` writes exactly two ints |
| Limits.Read | src/main/java/org/femtoframework/orm/Limit.java:37-40 | Reading succeeds exactly when two ints are available, and splits them off the front of the stream |
| Limits.ReadWrite | src/main/java/org/femtoframework/orm/Limit.java:31-40 | Reading what was written restores the offset and the limit, in that order, and leaves the rest of the stream |
| Limits.WriteRead | src/main/java/org/femtoframework/orm/Limit.java:31-40 | Writing what was read gives back the consumed prefix of the stream |
| Limits.CopyThroughStream | src/main/java/org/femtoframework/orm/Limit.java:31-40 | Writing one Limit and reading it into another copies both fields |
| TypeMappings.SqlTypeDomain | src/main/java/org/femtoframework/orm/TypeMapping.java:14-57 | `toSQLType` fails with IllegalArgumentException exactly for null and for the unsupported classes |
| TypeMappings.DateSubclassesFirst | src/main/java/org/femtoframework/orm/TypeMapping.java:42-50 | Time and Timestamp are matched before the general Date case |
| TypeMappings.RoundTrip | src/main/java/org/femtoframework/orm/TypeMapping.java:14-105 | For each supported class, `toJavaType(toSQLType(v))` is v's class, except that a plain `java.util.Date` comes back as `java.sql.Date` |
| TypeMappings.JavaTypeCollapses | src/main/java/org/femtoframework/orm/TypeMapping.java:65-105 | NUMERIC, DECIMAL and BIGINT all map to Long; REAL and DOUBLE map to Double; unlisted and vendor types map to Object; NULL maps to null |
| TypeMappings.JavaTypeImage | src/main/java/org/femtoframework/orm/TypeMapping.java:14-105 | Every class `toJavaType` yields other than Object is accepted by `toSQLType` and maps back to itself |
| RepositorySql.FindProperty | orm-core/src/main/java/org/femtoframework/orm/ext/JdbcRepository.java:647 | `getProperty(name)` finds a property with exactly that name, and is null exactly when there is none |
| RepositorySql.SelectListColumns | orm-core/src/main/java/org/femtoframework/orm/ext/JdbcRepository.java:66-87 | Apart from the `*` cases, the SELECT list is the columns joined by `,`, and splitting it at `,` gives them back |
| RepositorySql.SelectListStar | orm-core/src/main/java/org/femtoframework/orm/ext/JdbcRepository.java:66-87 | The SELECT list is `*` exactly for null, empty or `["*"]` columns (for columns free of `*`) |
| RepositorySql.InsertMarks | orm-core/src/main/java/org/femtoframework/orm/ext/JdbcRepository.java:232-260 | The INSERT has one `?` per readable column (one for none), and one value per `?` is bound |
| RepositorySql.InsertColumns | orm-core/src/main/java/org/femtoframework/orm/ext/JdbcRepository.java:232-260 | The INSERT's column list is the readable columns joined by `,`, and splitting it at `,` gives them back |
| RepositorySql.MarksCount | orm-core/src/main/java/org/femtoframework/orm/ext/JdbcRepository.java:250-256 | The VALUES list holds n marks for n ≥ 1 (one for n = 0) |
| RepositorySql.UpdateMarks | orm-core/src/main/java/org/femtoframework/orm/ext/JdbcRepository.java:264-289 | The UPDATE has one `?` per readable non-id column, plus one for the id |
| RepositorySql.SetColumnMarks | orm-core/src/main/java/org/femtoframework/orm/ext/JdbcRepository.java:270-284 | Each SET item holds exactly one `?` |
| RepositorySql.SetValuesPerColumn | orm-core/src/main/java/org/femtoframework/orm/ext/JdbcRepository.java:392-403 | `fillForUpdate` binds one value per SET column |
| RepositorySql.ValuesPerColumn | orm-core/src/main/java/org/femtoframework/orm/ext/JdbcRepository.java:308-313 | `create` binds one value per readable column |
| RepositorySql.LastIdProperty | orm-core/src/main/java/org/femtoframework/orm/ext/JdbcRepository.java:392-403 | The id property `fillForUpdate` records is a readable property of the class whose name is `id` in any case |
| RepositorySql.Describe | orm-core/src/main/java/org/femtoframework/orm/ext/JdbcRepository.java:548-558 | `toString(sql, parameters)` starts with the statement and equals it exactly when there are no parameters |
| RepositorySql.ByColumnMarks | orm-core/src/main/java/org/femtoframework/orm/Repository.java:178-180 | The statements `getByColumn` and `deleteByColumn` build hold exactly one `?`, for the one value they bind |
| Repositories.NewEntity | orm-core/src/main/java/org/femtoframework/orm/ext/JdbcRepository.java:193-202 | An entity is made exactly when the row holds the column of every writable property (otherwise `getObject` throws); it then holds a value for exactly the writable properties of the class |
| Repositories.NewEntityValues | orm-core/src/main/java/org/femtoframework/orm/ext/JdbcRepository.java:193-202 | Each writable property holds the value of its own column; of two writable properties with one name, the later one's column wins |
| Repositories.Positions | orm-core/src/main/java/org/femtoframework/orm/ext/JdbcRepository.java:108-113 | Arguments are bound at positions 1..n, argument k-1 at position k |
| Repositories.ListWhereRule | orm-core/src/main/java/org/femtoframework/orm/ext/JdbcRepository.java:89-96 | A listing is refused with IllegalArgumentException exactly when the condition is blank and there are arguments; a non-blank condition is appended after ` WHERE ` |
| Repositories.ListPaging | orm-core/src/main/java/org/femtoframework/orm/ext/JdbcRepository.java:98-103 | The statement is rewritten only by a dialect that supports LIMIT, with offset `limit.offset` (or 0) and count -1 for a null limit or `useMaxForLimit` |
| Repositories.ListRowCap | orm-core/src/main/java/org/femtoframework/orm/ext/JdbcRepository.java:121-131 | The entities are made from the leading rows, in order, never more than there are rows; without a limit every row is read; with a limit at most that many (none for a limit ≤ 0), and every row when the limit covers them; entity k is what `newEntity` makes of row k |
| Repositories.ListUnreadableRow | orm-core/src/main/java/org/femtoframework/orm/ext/JdbcRepository.java:121-138 | Once the statement and its bindings are made, the listing fails exactly when one of the rows read lacks a writable property's column, and then with RepositoryException "Creating entity <statement and arguments> error" |
| Repositories.ListBindsOneSlot | orm-core/src/main/java/org/femtoframework/orm/ext/JdbcRepository.java:114-119 | As written, on MySQL with both an offset and a count, only the count is bound, at position n+1, while the text holds two marks for them |
| Repositories.MsSqlCountUnbound | orm-core/src/main/java/org/femtoframework/orm/ext/JdbcRepository.java:98-119 | As written, on SQL Server the row count is never bound (`useMaxForLimit` makes it -1), yet the paged text always ends in its mark: one mark more than the values bound |
| Repositories.IntendedBindsEveryMark | orm-core/src/main/java/org/femtoframework/orm/ext/JdbcRepository.java:107-119 | With the offset bound at n+1 and the count after it, every mark of the MySQL and SQL Server paged statements is bound exactly once: the arguments, the offset, the count |
| Repositories.FetchFirstRow | orm-core/src/main/java/org/femtoframework/orm/ext/JdbcRepository.java:156-191 | `getBy` runs `SELECT * FROM t WHERE q` with the arguments; it fails exactly when there is a first row lacking a writable property's column; otherwise the entity is present exactly when there is a row, holding that row's columns |
| Repositories.Statuses | orm-core/src/main/java/org/femtoframework/orm/ext/JdbcRepository.java:350-356 | `create(list)` reports one status per batch count, true exactly for a positive count |
| Repositories.StatusesLoseCounts | orm-core/src/main/java/org/femtoframework/orm/ext/JdbcRepository.java:434-437 | As written, `update(list)` and `deleteByIds` lose every count but the last: counts [1, 0] report [false, false] |
| Repositories.UpdateIdPropertyStable | orm-core/src/main/java/org/femtoframework/orm/ext/JdbcRepository.java:392-403 | Running `fillForUpdate` again records the same id property, and keeps the current one when no property is named `id` |
| Repositories.UpdateFillsStatement | orm-core/src/main/java/org/femtoframework/orm/ext/JdbcRepository.java:387-412 | What `fillForUpdate` binds fills the UPDATE exactly: one value per `?`, with the id last |
| Repositories.InsertFillsStatement | orm-core/src/main/java/org/femtoframework/orm/ext/JdbcRepository.java:299-319 | The INSERT binds one readable value of the entity per `?`, after `setId` |
| Repositories.SequenceQueryExists | orm-core/src/main/java/org/femtoframework/orm/ext/JdbcRepository.java:206-211 | The `<table>_id_seq` query that `setId` builds exists exactly for the dialects with sequence support other than Oracle, where it is the intended select form; on Oracle building it overflows the stack |
| Repositories.OnlyOracleRefuses | orm-core/src/main/java/org/femtoframework/orm/ext/JdbcRepository.java:206-211 | `setId` fails only on Oracle with a writable id and no cached query, and then with a stack overflow; once a query is cached it never fails |
| Repositories.Flags | orm-core/src/main/java/org/femtoframework/orm/ext/JdbcRepository.java:483-493 | `result[i]` is true exactly for the entities with id 0 |
| Repositories.PartitionComplete | orm-core/src/main/java/org/femtoframework/orm/ext/JdbcRepository.java:483-493 | The partition loses and invents nothing: the two lists together hold exactly the input entities, and the create list holds as many as there are true flags |
| Repositories.PartitionKinds | orm-core/src/main/java/org/femtoframework/orm/ext/JdbcRepository.java:483-493 | The create list holds only id-0 entities, and the update list only entities with another id |
| Repositories.MergeKeepsOddFlags | orm-core/src/main/java/org/femtoframework/orm/ext/JdbcRepository.java:498-505 | As written, the merge steps by two: it keeps the length, and every odd position keeps its partition flag instead of a status |
| Repositories.MergeExample | orm-core/src/main/java/org/femtoframework/orm/ext/JdbcRepository.java:497-505 | Saving a new entity whose create fails and an existing one whose update succeeds reports [false, false] as written: slot 1 keeps its partition flag; the intended merge reports [false, true] |
| Repositories.MergeStatusesRoundTrip | orm-core/src/main/java/org/femtoframework/orm/ext/JdbcRepository.java:497-505 | The intended merge, given one created status per id-0 entity and one updated status per other entity, succeeds, keeps the length, and puts the created statuses at the create positions and the updated ones at the update positions, each in order |
| JdbcRepositories.NamedArguments | orm-core/src/main/java/org/femtoframework/orm/Repository.java:471-477 | There is one positional argument per token |
| JdbcRepositories.SlotsAreArguments | orm-core/src/main/java/org/femtoframework/orm/Repository.java:471-477 | The argument array fails exactly on a repeated name; otherwise it holds, at each token's position, the value of that token's name, null where the name has none |
| JdbcRepositories.JdbcRepository.DoInit | orm-core/src/main/java/org/femtoframework/orm/ext/JdbcRepository.java:624-652 | The checks run in order (data source, entity type, class, `id` property), each failing with its IllegalStateException and keeping what earlier steps set; an unset table name defaults from the class; success makes the repository ready |
| JdbcRepositories.JdbcRepository.SetEntityClass | orm-core/src/main/java/org/femtoframework/orm/ext/JdbcRepository.java:716-719 | Setting the class also sets the entity type to its name |
| JdbcRepositories.JdbcRepository.constructor | orm-core/src/main/java/org/femtoframework/orm/ext/JdbcRepository.java:30-41 | A new repository has nothing set, nothing cached and no dialect |
| JdbcRepositories.JdbcRepository.SetDataSource | orm-core/src/main/java/org/femtoframework/orm/ext/JdbcRepository.java:662-664 | The data source reads back as set |
| JdbcRepositories.JdbcRepository.SetTableName | orm-core/src/main/java/org/femtoframework/orm/ext/JdbcRepository.java:678-680 | The table name reads back as set |
| JdbcRepositories.JdbcRepository.SetEntityType | orm-core/src/main/java/org/femtoframework/orm/ext/JdbcRepository.java:674-676 | The entity type reads back as set |
| JdbcRepositories.JdbcRepository.Name | orm-core/src/main/java/org/femtoframework/orm/ext/JdbcRepository.java:707-710 | The repository's name is its table name |
| JdbcRepositories.JdbcRepository.GetInsertSql | orm-core/src/main/java/org/femtoframework/orm/ext/JdbcRepository.java:232-260 | The column and mark loops build the INSERT text on first use, and later calls return the cached text |
| JdbcRepositories.JdbcRepository.ValueMarks | orm-core/src/main/java/org/femtoframework/orm/ext/JdbcRepository.java:252-256 | The VALUES list holds one comma-separated `?` per readable column, and one even when there is none |
| JdbcRepositories.JdbcRepository.GetUpdateSql | orm-core/src/main/java/org/femtoframework/orm/ext/JdbcRepository.java:264-289 | The loop builds the UPDATE text on first use, and later calls return the cached text |
| JdbcRepositories.JdbcRepository.FillForUpdate | orm-core/src/main/java/org/femtoframework/orm/ext/JdbcRepository.java:387-412 | Binds the SET values in order and then the id; a missing, non-int or zero id fails (`The id is zero`); records the id property |
| JdbcRepositories.JdbcRepository.SetId | orm-core/src/main/java/org/femtoframework/orm/ext/JdbcRepository.java:206-226 | The sequence query runs only for a dialect with sequences and a writable id; it is built once, and a returned value becomes the id; on Oracle building it fails with a stack overflow before anything is cached or set |
| JdbcRepositories.JdbcRepository.Create | orm-core/src/main/java/org/femtoframework/orm/ext/JdbcRepository.java:299-319 | The INSERT text is built and cached first; a failing `setId` fails the call; otherwise the INSERT binds every readable value of the entity as `setId` left it, and success means an update count of at least 1; afterwards the sequence cache holds the query built on first use for a dialect with sequences and a writable id, unless building it failed, and is otherwise unchanged |
| JdbcRepositories.JdbcRepository.ReadableBindings | orm-core/src/main/java/org/femtoframework/orm/ext/JdbcRepository.java:305-310 | The INSERT's binding loop binds the readable properties' values, in order |
| JdbcRepositories.JdbcRepository.Update | orm-core/src/main/java/org/femtoframework/orm/ext/JdbcRepository.java:369-384 | The UPDATE is filled by `fillForUpdate`, whose failures pass through; success means an update count of at least 1; the UPDATE text is cached and the id property is the one `fillForUpdate` records |
| JdbcRepositories.JdbcRepository.Save | orm-core/src/main/java/org/femtoframework/orm/ext/JdbcRepository.java:456-467 | Id 0 creates (1, or -1 without an update) unless `setId` fails, caching the INSERT text and the sequence query as `create` does; any other id updates (0, or -1) unless `fillForUpdate` refuses, caching the UPDATE text and the id property as `update` does; an unreadable id fails and changes nothing |
| JdbcRepositories.JdbcRepository.CreateAll | orm-core/src/main/java/org/femtoframework/orm/ext/JdbcRepository.java:329-359 | The INSERT text is built and cached first; a non-empty list fails exactly when its first `setId` fails, leaving the entities as they were and adding nothing to the batch; otherwise each entity is given its sequence id in order, the batch holds one statement per entity binding its readable values, and the statuses are the batch counts read as positive; the sequence cache is left as `setId` leaves it |
| JdbcRepositories.JdbcRepository.UpdateAll | orm-core/src/main/java/org/femtoframework/orm/ext/JdbcRepository.java:422-446 | The UPDATE text is built and cached first; the first entity that `fillForUpdate` refuses fails the call with that entity's error; otherwise the batch holds each entity's UPDATE bindings in order and the statuses are as written (index never advanced); an empty list leaves the id property alone |
| JdbcRepositories.JdbcRepository.BatchStatuses | orm-core/src/main/java/org/femtoframework/orm/ext/JdbcRepository.java:347-351 | The status loop of `create(list)` yields the batch counts read as positive, one per count |
| JdbcRepositories.JdbcRepository.FillStatuses | orm-core/src/main/java/org/femtoframework/orm/ext/JdbcRepository.java:434-437 | The status loop of `update(list)` and `deleteByIds` yields the as-written statuses: the last count's status in slot 0, false elsewhere, and an index error when a count has no slot |
| JdbcRepositories.JdbcRepository.DeleteByIds | orm-core/src/main/java/org/femtoframework/orm/ext/JdbcRepository.java:516-539 | One `DELETE ... WHERE id=?` per id in a batch; statuses are filled as written |
| Repositories.FirstUnreadable | orm-core/src/main/java/org/femtoframework/orm/ext/JdbcRepository.java:483-487 | The first entity whose id cannot be read is unique: every id before it is readable and no longer prefix is, so the failure `save(list)` reports is determined |
| JdbcRepositories.JdbcRepository.Partition | orm-core/src/main/java/org/femtoframework/orm/ext/JdbcRepository.java:483-493 | The loop yields exactly the flags and the create and update lists, in order; the first entity with an unreadable id fails the call with that entity's error |
| JdbcRepositories.JdbcRepository.SaveAll | orm-core/src/main/java/org/femtoframework/orm/ext/JdbcRepository.java:477-507 | The first unreadable id fails the call and changes nothing; then a refused `setId` on a non-empty create list; then the first update `fillForUpdate` refuses; otherwise the statuses are the merge as written of the create and update statuses; the INSERT text is always cached, the sequence cache as `create(list)` leaves it, and the UPDATE text and id property as `update(list)` leaves them unless the creation was refused |
| JdbcRepositories.JdbcRepository.Merge | orm-core/src/main/java/org/femtoframework/orm/ext/JdbcRepository.java:498-505 | The merge loop computes the as-written merge, stepping by two |
| JdbcRepositories.JdbcRepository.SelectColumns | orm-core/src/main/java/org/femtoframework/orm/ext/JdbcRepository.java:66-87 | The column loop computes the SELECT list |
| JdbcRepositories.JdbcRepository.Statement | orm-core/src/main/java/org/femtoframework/orm/ext/JdbcRepository.java:66-96 | The unpaged statement, or the refusal of arguments without a condition |
| JdbcRepositories.JdbcRepository.Bind | orm-core/src/main/java/org/femtoframework/orm/ext/JdbcRepository.java:108-119 | The binding loop yields the arguments by position, then the offset and the count at n+1; a null argument array fails once either is bound |
| JdbcRepositories.JdbcRepository.ReadRows | orm-core/src/main/java/org/femtoframework/orm/ext/JdbcRepository.java:121-131 | The row loop makes the entities of at most `end` leading rows, and fails at a row that lacks a writable property's column |
| JdbcRepositories.JdbcRepository.ListBy | orm-core/src/main/java/org/femtoframework/orm/ext/JdbcRepository.java:63-146 | The listing is exactly the specification: statement, dialect paging, bindings, row cap, and the failure on a row that lacks a column |
| JdbcRepositories.JdbcRepository.GetBy | orm-core/src/main/java/org/femtoframework/orm/ext/JdbcRepository.java:156-191 | The result is exactly the specification of `getBy`, including its failure on a first row that lacks a column |
| JdbcRepositories.JdbcRepository.DeleteBy | orm-core/src/main/java/org/femtoframework/orm/ext/JdbcRepository.java:568-589 | A blank condition is refused; otherwise `DELETE FROM t WHERE q` with the arguments |
| JdbcRepositories.JdbcRepository.ListAll | orm-core/src/main/java/org/femtoframework/orm/Repository.java:49-51 | `listAll()` lists every column, UNLIMITED, with no condition and no arguments |
| JdbcRepositories.JdbcRepository.ListAllColumns | orm-core/src/main/java/org/femtoframework/orm/Repository.java:84-86 | `listAll(columns)` is `listAll(columns, UNLIMITED, null)` |
| JdbcRepositories.JdbcRepository.ListAllLimited | orm-core/src/main/java/org/femtoframework/orm/Repository.java:123-125 | `listAll(columns, limit, sortBy)` is `listBy(columns, limit, sortBy, null)` |
| JdbcRepositories.JdbcRepository.GetByColumn | orm-core/src/main/java/org/femtoframework/orm/Repository.java:178-180 | `getByColumn(c, v)` is `getBy(c + "=?", v)` |
| JdbcRepositories.JdbcRepository.GetById | orm-core/src/main/java/org/femtoframework/orm/Repository.java:166-168 | `getById(id)` is `getByColumn("id", id)`, that is `getBy("id=?", id)` |
| JdbcRepositories.JdbcRepository.DeleteByColumn | orm-core/src/main/java/org/femtoframework/orm/Repository.java:370-372 | `deleteByColumn(c, v)` is `deleteBy(c + "=?", v)` |
| JdbcRepositories.JdbcRepository.DeleteById | orm-core/src/main/java/org/femtoframework/orm/Repository.java:349-351 | `deleteById(id)` is `deleteBy("id=?", id)` |
| JdbcRepositories.JdbcRepository.ToIndexedQuery | orm-core/src/main/java/org/femtoframework/orm/ext/JdbcRepository.java:682-700 | A blank condition gives null; a cached condition is answered from the cache; otherwise the translation is added under that key alone; every cached entry is its key's translation |
| JdbcRepositories.JdbcRepository.Named | orm-core/src/main/java/org/femtoframework/orm/Repository.java:151-157 | The named translation through the cache: refused for a blank condition or a repeated name, else the translated condition and one value per token |
| JdbcRepositories.JdbcRepository.ListByNamed | orm-core/src/main/java/org/femtoframework/orm/Repository.java:151-157 | The named `listBy` is refused as above, else the positional `listBy` with the translated condition and values |
| JdbcRepositories.JdbcRepository.GetByNamed | orm-core/src/main/java/org/femtoframework/orm/Repository.java:201-207 | The named `getBy`, likewise |
| JdbcRepositories.JdbcRepository.DeleteByNamed | orm-core/src/main/java/org/femtoframework/orm/Repository.java:393-399 | The named `deleteBy`, likewise |
| Registries.InitRefusal | orm-core/src/main/java/org/femtoframework/orm/ext/JdbcRepository.java:624-652 | A new repository given a class and a data source fails to initialise exactly when there is no data source or no `id` property |
| Registries.RepositoryFactory.GetRepository | orm-core/src/main/java/org/femtoframework/orm/ext/SimpleRepositoryFactory.java:25-42 | A repository registered under the table name is returned as it is; otherwise a new one gets this factory's data source and the class, is initialised, and is registered under its table name only if that succeeds |
| Registries.RepositoryFactory.Create | orm-core/src/main/java/org/femtoframework/orm/ext/SimpleRepositoryFactory.java:32-35 | A new repository, given the data source and the class and then initialised, fails exactly as the initialisation refuses; otherwise it is ready, named after the table, with the class's properties and its `id` property and empty caches |
| Registries.RepositoryFactory.TypeSafeRepository | orm-core/src/main/java/org/femtoframework/orm/ext/SimpleRepositoryFactory.java:53-55 | Always null |
| Registries.RepositoryFactory.SetDataSource | orm-core/src/main/java/org/femtoframework/orm/ext/SimpleRepositoryFactory.java:57-63 | The data source read back is the one set |
| Registries.RepositoryFactory.constructor | orm-core/src/main/java/org/femtoframework/orm/ext/SimpleRepositoryFactory.java:15-16 | A new factory has no data source and no repositories |
| Registries.RegisterKeeps | orm-core/src/main/java/org/femtoframework/orm/ext/SimpleRepositoryModule.java:24-26 | Registering a source keeps names unique, makes it the source under its name, and keeps every other source in place |
| Registries.Find | orm-core/src/main/java/org/femtoframework/orm/ext/SimpleRepositoryModule.java:24-26 | The position of the source with the given name, or -1 exactly when no source has it |
| Registries.RepositoryModule.FindIndex | orm-core/src/main/java/org/femtoframework/orm/ext/SimpleRepositoryModule.java:24-26 | The search loop finds the position `Find` specifies |
| Registries.DefaultPolicy | orm-core/src/main/java/org/femtoframework/orm/ext/SimpleRepositoryModule.java:56-73 | No default without sources; the only source when there is one; else the first flagged as default; else the first registered |
| Registries.FirstDefaultIs | orm-core/src/main/java/org/femtoframework/orm/ext/SimpleRepositoryModule.java:64-70 | The search finds the first flagged source, or none exactly when no source is flagged |
| Registries.RepositoryModule.DefaultDataSource | orm-core/src/main/java/org/femtoframework/orm/ext/SimpleRepositoryModule.java:56-73 | The search loop computes the default policy |
| Registries.RepositoryModule.AddDatasource | orm-core/src/main/java/org/femtoframework/orm/ext/SimpleRepositoryModule.java:24-26 | Registers the source by name |
| Registries.RepositoryModule.GetRepositoryFactory | orm-core/src/main/java/org/femtoframework/orm/ext/SimpleRepositoryModule.java:35-44 | A stored factory is returned as it is; on a miss a new factory bound to the source is stored under that source alone; every factory stays bound to its key |
| Registries.LegacyRepositoryModule.GetRepositoryFactory | src/main/java/org/femtoframework/orm/ext/SimpleRepositoryModule.java:20-30 | The older revision does the same |
| Hikari.ProviderOfUrl | orm-hikari/src/main/java/org/femtoframework/orm/hikari/HikariCP.java:119-124 | `jdbc:<p>:<rest>` names provider `p` for any non-empty `p` without `:` |
| Hikari.ProviderShape | orm-hikari/src/main/java/org/femtoframework/orm/hikari/HikariCP.java:119-124 | Conversely, a derived provider is non-empty and free of `:`, and the URL is `jdbc:` + provider + `:` + the rest |
| Hikari.NoProvider | orm-hikari/src/main/java/org/femtoframework/orm/hikari/HikariCP.java:120-122 | There is no provider for a URL without the `jdbc:` scheme, with `:` right after the scheme, or with no `:` after the scheme |
| Hikari.HikariCP.GetProvider | orm-hikari/src/main/java/org/femtoframework/orm/hikari/HikariCP.java:117-128 | A known provider is returned unchanged; otherwise it is derived from the URL and kept once found |
| Hikari.HikariCP.SetDefault | orm-hikari/src/main/java/org/femtoframework/orm/hikari/HikariCP.java:137-143 | The default flag reads back as set; it starts false |
| Hikari.HikariCP.SetJdbcUrl | orm-hikari/src/main/java/org/femtoframework/orm/hikari/HikariCP.java:155-159 | The URL changes only while the phase is at or before STARTING |
| Hikari.HikariCP.SetName | orm-hikari/src/main/java/org/femtoframework/orm/hikari/HikariCP.java:145-149 | The pool name changes only while the phase is at or before STARTING |
| Hikari.HikariCP.SetConnectionInitSql | orm-hikari/src/main/java/org/femtoframework/orm/hikari/HikariCP.java:162-166 | The init SQL changes only while the phase is at or before STARTING |
| Hikari.HikariCP.SetConnectionTestQuery | orm-hikari/src/main/java/org/femtoframework/orm/hikari/HikariCP.java:168-172 | The test query changes only while the phase is at or before STARTING |
| Hikari.HikariCP.SetDataSourceClassName | orm-hikari/src/main/java/org/femtoframework/orm/hikari/HikariCP.java:174-178 | The data source class changes only while the phase is at or before STARTING |
| Hikari.HikariCP.SetDriverClassName | orm-hikari/src/main/java/org/femtoframework/orm/hikari/HikariCP.java:180-184 | The driver class changes only while the phase is at or before STARTING |
| Hikari.HikariCP.SetProvider | orm-hikari/src/main/java/org/femtoframework/orm/hikari/HikariCP.java:151-153 | The provider is set without a phase check, and `getProvider` then returns it |
| Hikari.HikariCP.constructor | orm-hikari/src/main/java/org/femtoframework/orm/hikari/HikariCP.java:23-33 | A new pool has no provider, is not the default, is DISABLED, and has nothing configured |
| Hikari.HikariCP.DoInit | orm-hikari/src/main/java/org/femtoframework/orm/hikari/HikariCP.java:58-75 | The provider is resolved as `getProvider` does; with a configurable phase and a provider naming a dialect, the driver class and the test query are taken from the dialect where each is unset, and are otherwise left as they were |

## Left out

- JDBC execution: connections, statements, result sets, batches and logging. Their outcomes are parameters (rows, update counts, batch counts, the sequence value). Of the SQL exceptions the code catches, only the one `getObject` raises for a column the row lacks is modelled.
- Reflection and naming: `BeanInfo` and `NamingConvention.format` are replaced by an `EntityClass` value that carries the ordered properties and the table name.
- `RepositoryUtil.getDialect`: the repository takes its dialect from `DataSource.vendor`, and `HikariCP` takes a map from provider to dialect.
- Registration of a HikariCP pool in the global module (`RepositoryUtil.getModule().addDatasource(this)`): this is a foreign singleton.
- `validate`, `_doStart` and `_doDestroy` of HikariCP, and all of HikariModule: these wrap the pool library.
- Concurrency: the concurrent maps and the double-checked lock of the factory are modelled as sequential maps.
- `BaseFactory` (registration by name, lookup, iteration order) is not part of this model. Registration replaces an entry with the same name in place, and iteration follows registration order.
- Data sources are values compared by content. Java keys the factory map by object identity.
- BeanPhase is not part of this model. Its order is taken to be DISABLED, INITIALIZING, INITIALIZED, STARTING, STARTED, STOPPING, STOPPED, DESTROYING, DESTROYED.
- Case mapping (`toLowerCase`/`toUpperCase`) covers ASCII letters only.
- Text.IsBlank: `StringUtil.isInvalid` belongs to a foreign utility library that is not part of this model; it is taken to mean `s == null || s.trim().isEmpty()`.
- Values are integers, other text, or null. Numeric widths other than the `int` id are not modelled.
- JdbcRepositories.JdbcRepository.ListBy: the sort order is ignored, as in the source. A null condition with a non-null argument array is covered, but null conditions passed to `getBy`/`deleteBy` are not.
- JdbcRepositories.JdbcRepository.UpdateAll: the statuses are proved only as written, because the source's index never advances.
- JdbcRepositories.JdbcRepository.DeleteByIds: the statuses are proved only as written, for the same reason.
- JdbcRepositories.JdbcRepository.Merge: the method computes the as-written merge, because the source steps by two; the intended merge is the separate Repositories.MergeStatuses.
- NamedParameters.ToParameters: a repeated name is modelled as the index error the source raises, not as a shared ordinal. The parameter map is never null here; in the source a null map throws a NullPointerException at Repository.java:474 once the condition has a token.
- NamedParameters.Translate: a null parameter map is not modelled, for the same reason.
- JdbcRepositories.JdbcRepository.Named: a null parameter map is not modelled, for the same reason.
- JdbcRepositories.JdbcRepository.ListByNamed: a null parameter map is not modelled, for the same reason.
- JdbcRepositories.JdbcRepository.GetByNamed: a null parameter map is not modelled, for the same reason.
- JdbcRepositories.JdbcRepository.DeleteByNamed: a null parameter map is not modelled, for the same reason.
- Every repository operation requires a repository that `_doInit` has prepared (`Ready`). Calls before initialisation fail with a null dereference in the source and are not modelled.
- `Limit.UNLIMITED` is modelled as a fresh object equal to the constant, because the model does not share objects between calls.
- The older `src/` JdbcRepository, Repository and TypeMapping-free interfaces are stubs or declarations and are not part of this model. The `src/` revision has no SimpleRepositoryFactory. The orm-core revision's PostgresDialect is not part of this model: EnterpriseDB extends the `src/` PostgresDialect here. The `src/` RdbmsDialect defaults are not part of this model: unset capabilities read as None.
- CoreDialects.DataSourceClass keeps Oracle's trailing newline, as the source writes it.
- The `create(list)` sequence values are passed in one per entity, in order.

## Findings

| source | as written | input that shows it | evidently intended | confidence | as-written member | corrected member |
|---|---|---|---|---|---|---|
| orm-core/src/main/java/org/femtoframework/orm/dialect/OracleDialect.java:99-101 | `getSelectSequenceNextVal(name)` calls itself with the same argument, so it never returns (stack overflow); `setId` (JdbcRepository.java:210) inherits this, so an Oracle repository with a writable id cannot create entities | any name, e.g. `"users_id_seq"` | `"SELECT " + getSequenceNextVal(name) + " FROM DUAL"`, built on the plain form as the other dialects build theirs | high (not executed) | CoreDialects.OracleSelectSequenceDiverges | CoreDialects.SequenceForms |
| orm-core/src/main/java/org/femtoframework/orm/ext/JdbcRepository.java:434-437 | `update(list)` never advances `i`, so every batch count is written to slot 0 (the same at :527-530 for `deleteByIds`) | counts [1, 0] for two entities report [false, false] | `result[i++] = r > 0`, one status per count as `create(list)` fills them | high (not executed) | Repositories.StatusesLoseCounts | Repositories.Statuses |
| orm-core/src/main/java/org/femtoframework/orm/ext/JdbcRepository.java:497-505 | the merge loop of `save(list)` advances `i` twice per round, so odd positions keep their partition flag and statuses are skipped | a new entity whose create fails, then an existing one whose update succeeds, reports [false, false] | advance `i` once per round, so each entity gets its own status | high (not executed) | Repositories.MergeExample | Repositories.MergeStatusesRoundTrip |
| orm-core/src/main/java/org/femtoframework/orm/ext/JdbcRepository.java:114-119 | the offset and the row count are both bound at `parameters.length+1`, so with both positive the count overwrites the offset and the second `?` of MySQL's ` LIMIT ?, ?` is never bound | MySQL, no arguments, `new Limit(10, 20)`: the statement ends in ` LIMIT ?, ?` and only position 1 is bound, to 20 | bind the offset at n+1 and the count at n+2 | high (not executed) | Repositories.ListBindsOneSlot | Repositories.IntendedBindsEveryMark |
| orm-core/src/main/java/org/femtoframework/orm/ext/JdbcRepository.java:99 | SQL Server's `useMaxForLimit` makes `lmt` -1, so the count is never bound, while its `getLimitString` (MssqlDialect.java:48-51) always appends ` FETCH NEXT ? ROWS ONLY` | SQL Server, no arguments, `new Limit(0, 10)`: the statement ends in ` FETCH NEXT ? ROWS ONLY` and nothing is bound | bind the row count after the offset | high (not executed) | Repositories.MsSqlCountUnbound | Repositories.IntendedBindsEveryMark |
