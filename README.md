# Metrics string indexer

A Dafny model of Sentry's metrics string indexer. The indexer assigns integer
ids to (organization id, string) pairs and looks them up in both directions.
The model covers three parts.

- **`SimpleIndexer`** (`mock.dfy`, module `Mock`) is the in-memory indexer:
  - a counter from 10000 on;
  - a store that gives each new pair the counter's next value on first write;
  - a reverse table from id to string;
  - the hard-coded shared strings, which take precedence over the store.
- **`PGStringIndexerV2` and `StaticStringsIndexerDecorator`**
  (`postgres_v2.dfy`, module `PostgresV2`) are the production indexer and its
  shared-strings wrapper. `bulk_record` resolves pairs in stages:
  1. the cache;
  2. a read of the use case's table;
  3. a write of new rows for the pairs the writes limiter accepts.

  Each stage sees only the pairs the earlier stages left unmapped, and all
  the stages' answers are merged. The decorator answers shared strings with
  their hard-coded ids and hands only the rest to the indexer.
- **Use cases and the ingestion configuration registry**
  (`configuration.dfy`, module `Configuration`): `UseCaseKey.from_str`,
  `DbKey`, `_register_ingest_config` and `get_ingest_config`. The registry
  chooses the table each use case writes to.

`keys.dfy` (module `Keys`) holds the vocabulary all three share.
- A pair is a `Key`.
- A `KeyCollection` is the set of pairs it names.
- A `KeyResults` is a partial map from a pair to its answer (an optional id and
  an optional fetch type).
- It also holds the operations the indexers use on these: collect, unmapped
  keys, merge and mapped ids.

`wrappers.dfy` holds `Option` and `Result`.

The storage the Postgres indexer talks to is abstracted as values.
- **Cache:** one pair → id map per use-case namespace.
- **Table (`DbTable`):**
  - its unique (organization, string) index;
  - its rows by primary key;
  - its id sequence.

  `bulk_create` with conflicts ignored is an idempotent insert of each record.
- **Writes limiter:** an arbitrary choice (`:|`) of the subset of write
  pairs it accepts.

`bulk_record`'s stages are value-level methods over the use case's cache
namespace and table (`BulkRecordStages`, `ReadStage`, `WriteStage`). The
class method writes the resulting namespace and table back. The central
specification is the predicate `Outcome`, which says what one
`bulk_record` call achieves.
- Every requested pair is answered. The answer is the cached id (`CACHE_HIT`),
  else the stored id (`DB_READ`), else the id of the row created now
  (`FIRST_SEEN`); a pair the limiter dropped gets no id (`RATE_LIMITED`).
- The cache namespace keeps its entries. It gains the id of every requested
  pair the table now holds, and nothing else.
- The table keeps every row with its id and gains rows only for requested
  pairs.

Every method also keeps the storage `Consistent`:
- every cached id is the id the table stores;
- ids are positive and below the table's sequence;
- index and rows are inverse.

## Model

| member | source | states |
|---|---|---|
| Configuration.FromStr | src/sentry/sentry_metrics/configuration.py:13-19 | "performance" and only it parses to PERFORMANCE; "release-health" and "releaseHealth" and only they parse to RELEASE_HEALTH; every other string is a failure (ValueError) |
| Configuration.UseCaseKey.Value | src/sentry/sentry_metrics/configuration.py:9-10 | each member's value is a string `from_str` parses back to that member |
| Configuration.FromStrValue | src/sentry/sentry_metrics/configuration.py:8-17 | parsing an enum member's own value gives that member back (a corollary of `UseCaseKey.Value`'s contract) |
| Configuration.FromStrAliases | src/sentry/sentry_metrics/configuration.py:13-19 | a string that parses is the member's value or the camel-case alias of release health |
| Configuration.DefaultConfigs | src/sentry/sentry_metrics/configuration.py:44-63 | after the two registrations, release health uses StringIndexer and performance PerfStringIndexer, each filed under its own use case |
| Configuration.DefaultConfigsTotal | src/sentry/sentry_metrics/configuration.py:44-67 | every use case is registered, so get_ingest_config never raises after start-up |
| Configuration.ConfigRegistry.constructor | src/sentry/sentry_metrics/configuration.py:37 | the registry starts empty |
| Configuration.ConfigRegistry.Register | src/sentry/sentry_metrics/configuration.py:40-41 | files the config under its use case, overwriting an earlier one and leaving all other entries unchanged; keeps every entry filed under its own use case |
| Configuration.ConfigRegistry.GetIngestConfig | src/sentry/sentry_metrics/configuration.py:66-67 | a result exactly for registered use cases, and the config returned belongs to the use case asked for |
| Configuration.LoadIngestConfigs | src/sentry/sentry_metrics/configuration.py:37-63 | module initialisation yields exactly the two default registrations |
| Keys.Collect | src/sentry/sentry_metrics/indexer/postgres_v2.py:81 | a pair is in the collection exactly when its string is in the set of its organization |
| Keys.CollectOne | src/sentry/sentry_metrics/indexer/postgres_v2.py:192 | the collection `{org_id: {string}}` names exactly the one pair |
| Keys.Mapping | src/sentry/sentry_metrics/indexer/postgres_v2.py:269 | the mapping has an entry for exactly the organizations of the collection, and lists a string under an organization exactly when the pair is in the collection |
| Keys.IsMapped | src/sentry/sentry_metrics/indexer/postgres_v2.py:109 | a pair counts as mapped only with a nonzero id; a pair answered with an id that is not mapped has id 0 (the truthiness test) |
| Keys.CollectMapping | src/sentry/sentry_metrics/indexer/postgres_v2.py:263-270 | turning the leftover pairs into a mapping and back loses no pair and invents none |
| Keys.Unmapped | src/sentry/sentry_metrics/indexer/postgres_v2.py:109 | the pairs of the collection whose answer is missing, has no id or has id 0 (the truthiness test of get_unmapped_keys) |
| Keys.Merge | src/sentry/sentry_metrics/indexer/postgres_v2.py:184-188 | the merge answers every pair either side answers, with the receiver's answer on a pair both hold |
| Keys.Tagged | src/sentry/sentry_metrics/indexer/postgres_v2.py:114-121 | one answer per pair that was looked up and found, carrying its id and the stage's fetch type |
| Keys.RateLimitedResults | src/sentry/sentry_metrics/indexer/postgres_v2.py:147-153 | every dropped pair, and only those, answered with no id and RATE_LIMITED |
| Keys.MappedIds | src/sentry/sentry_metrics/indexer/postgres_v2.py:122 | exactly the answered pairs that have an id, each with that id |
| Mock.SimpleIndexer.constructor | src/sentry/sentry_metrics/indexer/mock.py:15-20 | the counter starts at 10000 with an empty store and reverse table |
| Mock.SimpleIndexer.Resolve | src/sentry/sentry_metrics/indexer/mock.py:42-49 | a shared string gives its hard-coded id; any other pair gives an id exactly when it was recorded, and allocates nothing; a recorded id lies in the counter's range and maps back to the string |
| Mock.SimpleIndexer.ReverseResolve | src/sentry/sentry_metrics/indexer/mock.py:51-56 | the shared reverse table is consulted first; otherwise the string of the pair recorded with that id, and None when no pair has it |
| Mock.SimpleIndexer.RecordPair | src/sentry/sentry_metrics/indexer/mock.py:58-62 | a recorded pair keeps its id and the counter stays; a new pair gets the counter's value and the counter advances by one; the reverse table maps the id to the string |
| Mock.SimpleIndexer.Record | src/sentry/sentry_metrics/indexer/mock.py:37-40 | a shared string returns its hard-coded id and changes nothing; otherwise the _record id; afterwards resolve returns that id and reverse_resolve gives the string back unless the id is hard-coded |
| Mock.SimpleIndexer.BulkRecord | src/sentry/sentry_metrics/indexer/mock.py:22-35 | one answer per requested pair, equal to what resolve gives afterwards; stored ids kept; the store gains exactly the requested unshared pairs it lacked, each with a new counter value, and the counter advances once per pair gained |
| Mock.RecordedShared | src/sentry/sentry_metrics/indexer/mock.py:29-30 | answering a shared pair with its hard-coded id keeps the loop's bookkeeping |
| Mock.RecordedUnshared | src/sentry/sentry_metrics/indexer/mock.py:31-33 | answering an unshared pair with its _record id keeps the loop's bookkeeping |
| Mock.DistinctPairsDistinctIds | src/sentry/sentry_metrics/indexer/mock.py:16-19 | distinct recorded pairs, the same string in two organizations included, never share an id |
| PostgresV2.TableMapping | src/sentry/sentry_metrics/indexer/postgres_v2.py:25-28 | STRING_INDEXER maps to the StringIndexer table and PERF_STRING_INDEXER to PerfStringIndexer, in both directions |
| PostgresV2.TableFor | src/sentry/sentry_metrics/indexer/postgres_v2.py:239-240 | a table exactly for registered use cases, the one of the registered db model |
| PostgresV2.DefaultTables | src/sentry/sentry_metrics/indexer/postgres_v2.py:239-240 | with the default registrations, release health uses StringIndexer and performance PerfStringIndexer |
| PostgresV2.DbTable.Insert | src/sentry/sentry_metrics/indexer/postgres_v2.py:166-170 | inserting with conflicts ignored keeps a present pair's row; a new pair gets the sequence's next id; the table stays consistent |
| PostgresV2.DbTable.BulkCreate | src/sentry/sentry_metrics/indexer/postgres_v2.py:166-170 | afterwards the table holds its old rows with their ids and every record, nothing else; new rows get ids the sequence had not handed out; the table stays consistent |
| PostgresV2.DbTable.Select | src/sentry/sentry_metrics/indexer/postgres_v2.py:37-45 | exactly the requested pairs that have a row, with their stored ids; demands a non-empty request |
| PostgresV2.CacheHits | src/sentry/sentry_metrics/indexer/postgres_v2.py:103-107 | exactly the requested pairs found in the cache, answered with the cached id and CACHE_HIT |
| PostgresV2.Store | src/sentry/sentry_metrics/indexer/postgres_v2.py:181-182 | writing back a namespace coherent with a table that keeps all old rows keeps the storage consistent for every use case |
| PostgresV2.NewRecords | src/sentry/sentry_metrics/indexer/postgres_v2.py:159-164 | the new records name exactly the accepted pairs |
| PostgresV2.BulkRecordStages | src/sentry/sentry_metrics/indexer/postgres_v2.py:81-112 | the whole pipeline on one namespace and table achieves Outcome, and the namespace and table handed back are consistent and coherent |
| PostgresV2.ReadStage | src/sentry/sentry_metrics/indexer/postgres_v2.py:114-138 | given the pairs the cache missed, the rest of the pipeline achieves Outcome |
| PostgresV2.WriteStage | src/sentry/sentry_metrics/indexer/postgres_v2.py:140-188 | given the pairs the table lacks, the limiter's choice, the rows created and the re-read achieve Outcome |
| PostgresV2.AllCached | src/sentry/sentry_metrics/indexer/postgres_v2.py:109-112 | when no pair is left after the cache, the cache answers alone achieve Outcome with nothing written |
| PostgresV2.AllStored | src/sentry/sentry_metrics/indexer/postgres_v2.py:136-138 | when the table holds every pair the cache missed, the cache and read answers with the read ids cached achieve Outcome |
| PostgresV2.NoneAccepted | src/sentry/sentry_metrics/indexer/postgres_v2.py:155-157 | when the limiter accepts nothing, cache, read and rate-limited answers achieve Outcome and the table is unchanged |
| PostgresV2.StagedWrite | src/sentry/sentry_metrics/indexer/postgres_v2.py:140-170 | after bulk_create of the accepted pairs, the table holds what it held and the accepted pairs |
| PostgresV2.WrittenAnswers | src/sentry/sentry_metrics/indexer/postgres_v2.py:184-188 | the four-way merge answers every requested pair, and no other, as Answered says |
| PostgresV2.WrittenCache | src/sentry/sentry_metrics/indexer/postgres_v2.py:181-182 | the read and created ids added to the namespace grow it as CacheGrown says, agree with the table, and only requested pairs got rows |
| PostgresV2.WrittenOutcome | src/sentry/sentry_metrics/indexer/postgres_v2.py:172-188 | the return after bulk_create achieves Outcome with the grown table |
| PostgresV2.OutcomeStored | src/sentry/sentry_metrics/indexer/postgres_v2.py:184-188 | a pair answered with an id has that id stored, and a dropped pair has no row, so resolve agrees with bulk_record |
| PostgresV2.RecordTwice | src/sentry/sentry_metrics/indexer/postgres_v2.py:103-112 | a second bulk_record of the same pairs answers every pair that got an id as a cache hit with the same id |
| PostgresV2.PGStringIndexerV2.constructor | src/sentry/sentry_metrics/indexer/postgres_v2.py:31-35 | empty cache namespaces and empty tables, consistent |
| PostgresV2.PGStringIndexerV2.Table | src/sentry/sentry_metrics/indexer/postgres_v2.py:239-240 | the table TABLE_MAPPING gives for the use case's registered db model |
| PostgresV2.PGStringIndexerV2.BulkRecord | src/sentry/sentry_metrics/indexer/postgres_v2.py:47-188 | Outcome for the requested pairs against the use case's namespace and table; storage stays consistent; no other namespace or table changes |
| PostgresV2.PGStringIndexerV2.Record | src/sentry/sentry_metrics/indexer/postgres_v2.py:190-193 | the answer bulk_record gives the single pair: an id exactly when the pair is stored afterwards, the stored one; a pair stored before keeps its id; reverse_resolve gives the string back; the namespace and the table grow for that one pair alone, as bulk_record of it does |
| PostgresV2.PGStringIndexerV2.Resolve | src/sentry/sentry_metrics/indexer/postgres_v2.py:197-220 | the stored id, or None when there is no row; a nonzero cached id is returned and nothing changes; a miss with a row caches the id; a miss without one changes nothing; tables unchanged |
| PostgresV2.PGStringIndexerV2.ReverseResolve | src/sentry/sentry_metrics/indexer/postgres_v2.py:224-237 | the string of the pair stored with that id, and None exactly when no stored pair has it |
| PostgresV2.HardcodedResults | src/sentry/sentry_metrics/indexer/postgres_v2.py:254-261 | exactly the requested pairs with a shared string, each answered with its hard-coded id and HARDCODED |
| PostgresV2.HardcodedLeft | src/sentry/sentry_metrics/indexer/postgres_v2.py:263 | the pairs left after the hard-coded answers are exactly those whose string is not shared |
| PostgresV2.StaticStringsIndexerDecorator.constructor | src/sentry/sentry_metrics/indexer/postgres_v2.py:248-249 | wraps a new, consistent Postgres indexer whose cache namespaces and tables all start empty |
| PostgresV2.StaticStringsIndexerDecorator.BulkRecord | src/sentry/sentry_metrics/indexer/postgres_v2.py:251-272 | every requested pair answered; shared strings with their hard-coded id and HARDCODED; the others as the indexer's Outcome says, with the namespace and table grown for the unshared pairs alone; when every string is shared the indexer is untouched |
| PostgresV2.StaticStringsIndexerDecorator.Record | src/sentry/sentry_metrics/indexer/postgres_v2.py:274-277 | a shared string's hard-coded id with nothing changed, else the indexer's record: the stored id, kept for a pair stored before, which reverse_resolve maps back to the string unless it is a hard-coded id; the namespace and table grow for that pair alone and nothing else of the indexer changes |
| PostgresV2.StaticStringsIndexerDecorator.Resolve | src/sentry/sentry_metrics/indexer/postgres_v2.py:281-286 | a shared string's hard-coded id with nothing changed, else the id stored for the pair or None; a nonzero cached id or a miss without a row leaves the cache as it was, a miss with a row caches the id; tables unchanged |
| PostgresV2.StaticStringsIndexerDecorator.ReverseResolve | src/sentry/sentry_metrics/indexer/postgres_v2.py:290-295 | a hard-coded id gives its shared string; any other id the string of the pair stored with it, and None exactly when no pair has it |

## Left out

- The two React files in the repository's `static/app` tree are view composition and are not part of this model.
- `base.py`, `strings.py`, `cache.py`, `models.py` and `ratelimiters.py` are not part of this model:
  - `KeyCollection` is modelled as a set of pairs and `KeyResults` as a partial map;
  - `SHARED_STRINGS` and `REVERSE_SHARED_STRINGS` are a parameter, required to be mutually inverse with positive ids.
- `Keys.Merge`: the merge of `KeyResults` is assumed to keep the receiver's answer on a pair both sides hold. Every merge in the indexers is of disjoint result sets, so the choice does not affect any result.
- The writes limiter is an arbitrary choice of accepted pairs:
  - its quota consumption on exit is not modelled;
  - each dropped string's fetch type is assumed to be `RATE_LIMITED` with no id;
  - `fetch_type_ext` is not modelled.
- Metrics calls (`metrics.incr`, `gauge`, `timer`) are telemetry with no effect on results.
- The Django ORM is not modelled:
  - the `Q` filter built with `reduce(or_, ...)` becomes `DbTable.Select`, which keeps the precondition of a non-empty request;
  - replica reads and `get_from_cache` are plain reads of the table.
- The race `ignore_conflicts=True` guards against (another writer inserting between the read and the write) is concurrency; `bulk_create` is an idempotent insert here.
- Memcache internals are not modelled:
  - expiry and eviction;
  - the `"org:string"` key encoding (the cache is keyed by the pair);
  - values that are not integers (the `isinstance` test in `resolve` always passes here).
- The order of side effects inside `bulk_record` is not modelled: the stages compute the new namespace and table as values and `BulkRecord` writes both back at the end. Nothing observes the intermediate state in a sequential model.
- Iteration order over sets and dictionaries is unspecified; loops pick the next pair with `:|`.
- Kafka topics and `writes_limiter_cluster_options` in the ingestion configuration are deployment settings and are not modelled.
- In `SimpleIndexer`:
  - the empty per-organization dictionary that `resolve` leaves behind through the `defaultdict` holds no ids and is not modelled;
  - `_record`'s `Optional` result is never None there, so it is an `int`;
  - `MockIndexer`'s prepared strings are not modelled.
- `PostgresV2.StaticStringsIndexerDecorator.ReverseResolve` and `PostgresV2.StaticStringsIndexerDecorator.Record`: ids handed out dynamically are not kept apart from hard-coded ids, so the round trip through `reverse_resolve` is stated only for ids that are not hard-coded.
- The `use_case_id` parameter of `SimpleIndexer`'s methods is dropped: `mock.py` never reads it, so its members take no use case. `PGStringIndexerV2` and `StaticStringsIndexerDecorator` take the use case explicitly on every call; the default `use_case_id=UseCaseKey.RELEASE_HEALTH` of their `resolve` and `reverse_resolve` is not modelled.
- In the source, every `PGStringIndexerV2` instance talks to the same process-wide database and cache, and the class has no `__init__`. Here each indexer owns its storage, which starts empty, so two instances do not see each other's writes.
