/**
 * The Postgres-backed string indexer and its shared-strings decorator.
 *
 * The indexer resolves (organization, string) pairs in stages: ids already in
 * the cache, then ids already stored in the use case's table, then new rows
 * for the pairs the writes limiter accepts. Each stage only sees the pairs
 * the stages before it left unmapped, and the answers of all stages are
 * merged. The decorator answers shared strings with their hard-coded ids and
 * delegates every other pair to the indexer.
 *
 * The cache, the two indexer tables and the writes limiter are abstracted:
 * the cache is one pair -> id map per use case namespace, a table is its
 * unique (organization, string) index together with its rows by primary key
 * and its id sequence, and the limiter is an arbitrary choice of the write
 * pairs it accepts.
 */
module PostgresV2 {
  import opened Wrappers
  import opened Keys
  import opened Configuration

  /** The two indexer tables (`StringIndexer` and `PerfStringIndexer` models). */
  datatype IndexerTable = StringIndexerTable | PerfStringIndexerTable

  /** `TABLE_MAPPING`: each db key names its own table. */
  function TableMapping(db: DbKey): (t: IndexerTable)
    ensures t == StringIndexerTable <==> db == StringIndexer
    ensures t == PerfStringIndexerTable <==> db == PerfStringIndexer
  {
    match db
    case StringIndexer => StringIndexerTable
    case PerfStringIndexer => PerfStringIndexerTable
  }

  /**
   * `_table`: the table of the db model registered for a use case; None where
   * `get_ingest_config` would raise because nothing is registered.
   */
  function TableFor(configs: map<UseCaseKey, IngestConfig>, u: UseCaseKey): (t: Option<IndexerTable>)
    ensures t.Some? <==> u in configs
    ensures t.Some? && configs[u].dbModel == StringIndexer ==> t.value == StringIndexerTable
    ensures t.Some? && configs[u].dbModel == PerfStringIndexer ==> t.value == PerfStringIndexerTable
  {
    if u in configs then Some(TableMapping(configs[u].dbModel)) else None
  }

  /** With the registered configurations, release health uses `StringIndexer` and performance `PerfStringIndexer`. */
  lemma DefaultTables()
    ensures TableFor(DefaultConfigs(), ReleaseHealth) == Some(StringIndexerTable)
    ensures TableFor(DefaultConfigs(), Performance) == Some(PerfStringIndexerTable)
  {
  }

  /**
   * One indexer table: `ids` is its unique (organization_id, string) index,
   * `rows` its rows by primary key, and `next` the value its id sequence
   * yields next.
   */
  datatype DbTable = DbTable(ids: map<Key, int>, rows: map<int, Key>, next: int)
  {
    /** Ids are positive and below the sequence, and the index and the rows agree. */
    ghost predicate Valid()
    {
      && 0 < next
      && (forall k :: k in ids ==> 0 < ids[k] < next && ids[k] in rows && rows[ids[k]] == k)
      && (forall i :: i in rows ==> rows[i] in ids && ids[rows[i]] == i)
    }

    /**
     * Inserting one row with conflicts ignored: a pair already present keeps
     * its row and id; a new pair gets the sequence's next id.
     */
    function Insert(k: Key): (r: DbTable)
      requires Valid()
      ensures r.Valid() && k in r.ids
      ensures forall j :: j in ids ==> j in r.ids && r.ids[j] == ids[j]
      ensures forall j :: j in r.ids ==> j in ids || j == k
      ensures k in ids ==> r == this
      ensures k !in ids ==> r.ids[k] == next && r.next == next + 1
    {
      if k in ids then this
      else DbTable(ids[k := next], rows[next := k], next + 1)
    }

    /**
     * `bulk_create(new_records, ignore_conflicts=True)`: every record ends up
     * in the table, rows already present are kept with their ids, no other
     * row appears, and every new row gets an id the sequence had not yet
     * handed out.
     */
    function BulkCreate(records: seq<Key>): (r: DbTable)
      requires Valid()
      ensures r.Valid()
      ensures forall j :: j in r.ids <==> j in ids || j in records
      ensures forall j :: j in ids ==> r.ids[j] == ids[j]
      ensures forall j :: j in r.ids && j !in ids ==> next <= r.ids[j]
      decreases |records|
    {
      if records == [] then this
      else Insert(records[0]).BulkCreate(records[1..])
    }

    /**
     * `_get_db_records`: the stored ids of the given pairs. The query ORs one
     * filter per pair together, which raises on an empty collection, so it
     * demands at least one pair.
     */
    function Select(keys: set<Key>): (r: map<Key, int>)
      requires keys != {}
      ensures forall k :: k in r <==> k in keys && k in ids
      ensures forall k :: k in r ==> r[k] == ids[k]
    {
      map k | k in keys && k in ids :: ids[k]
    }
  }

  /** The table with no rows. */
  const EmptyTable := DbTable(map[], map[], 1)

  /** Every cached id is the id the table stores for the pair. */
  ghost predicate Coherent(cached: map<Key, int>, db: DbTable)
  {
    forall k :: k in cached ==> k in db.ids && cached[k] == db.ids[k]
  }

  /** The pairs of `keys` the cache answers. */
  function CacheHits(cached: map<Key, int>, keys: set<Key>): (r: KeyResults)
    ensures forall k :: k in r <==> k in keys && k in cached
    ensures forall k :: k in r ==> r[k] == Resolved(Some(cached[k]), Some(CacheHit))
  {
    Tagged(cached, keys, CacheHit)
  }

  /**
   * The storage the indexer talks to is consistent: every use case has a
   * configuration, both tables exist and are consistent, and every cache
   * namespace agrees with its use case's table.
   */
  ghost predicate Consistent(configs: map<UseCaseKey, IngestConfig>, cache: map<UseCaseKey, map<Key, int>>,
                             tables: map<IndexerTable, DbTable>)
  {
    && (forall u: UseCaseKey :: u in configs)
    && (forall t: IndexerTable :: t in tables && tables[t].Valid())
    && (forall u: UseCaseKey :: u in cache && Coherent(cache[u], tables[TableMapping(configs[u].dbModel)]))
  }

  /**
   * Writing back a use case's cache namespace and table keeps the storage
   * consistent when the new table keeps every row of the old one with its id
   * and the new namespace agrees with the new table: the namespaces of the
   * other use cases sharing the table stay in agreement with it.
   */
  lemma Store(configs: map<UseCaseKey, IngestConfig>, cache: map<UseCaseKey, map<Key, int>>,
              tables: map<IndexerTable, DbTable>, u: UseCaseKey, cached: map<Key, int>, db: DbTable)
    requires Consistent(configs, cache, tables)
    requires db.Valid() && Coherent(cached, db)
    requires forall k :: k in tables[TableMapping(configs[u].dbModel)].ids ==>
               k in db.ids && db.ids[k] == tables[TableMapping(configs[u].dbModel)].ids[k]
    ensures Consistent(configs, cache[u := cached], tables[TableMapping(configs[u].dbModel) := db])
  {
    var t := TableMapping(configs[u].dbModel);
    var cache', tables' := cache[u := cached], tables[t := db];
    forall t': IndexerTable ensures t' in tables' && tables'[t'].Valid() {
      assert t' in tables;
    }
    forall u': UseCaseKey ensures u' in cache' && Coherent(cache'[u'], tables'[TableMapping(configs[u'].dbModel)]) {
      assert Coherent(cache[u'], tables[TableMapping(configs[u'].dbModel)]);
    }
  }

  /**
   * The `new_records` list of `bulk_record`: one new record per accepted pair; the
   * records name exactly the accepted pairs.
   */
  method NewRecords(accepted: set<Key>) returns (records: seq<Key>)
    ensures forall k :: k in records <==> k in accepted
  {
    records := [];
    var todo := accepted;
    while todo != {}
      invariant todo <= accepted
      invariant forall k :: k in records <==> k in accepted && k !in todo
      decreases todo
    {
      var k :| k in todo;
      records := records + [k];
      todo := todo - {k};
    }
  }

  /**
   * The stages of `bulk_record` for one use case, on its cache namespace
   * `cached` and its table `db`: every requested pair is answered as
   * `Outcome` says, and the namespace and the table to write back are
   * returned; they agree with each other as the ones given did.
   */
  method BulkRecordStages(cached: map<Key, int>, db: DbTable, keys: set<Key>)
    returns (results: KeyResults, cachedAfter: map<Key, int>, dbAfter: DbTable)
    requires db.Valid() && Coherent(cached, db)
    ensures dbAfter.Valid() && Coherent(cachedAfter, dbAfter)
    ensures Outcome(cached, db.ids, dbAfter.ids, keys, results, cachedAfter)
  {
    var cacheResults := CacheHits(cached, keys);
    var dbReadKeys := Unmapped(cacheResults, keys);
    if |dbReadKeys| == 0 {
      AllCached(cached, db, keys);
      return cacheResults, cached, db;
    }
    results, cachedAfter, dbAfter := ReadStage(cached, db, keys, dbReadKeys);
  }

  /**
   * The database-read stage of `bulk_record`: the pairs the cache missed are read from
   * the table; when it holds all of them, their ids are to be cached and the
   * answers of both stages are returned.
   */
  method ReadStage(cached: map<Key, int>, db: DbTable, keys: set<Key>, dbReadKeys: set<Key>)
    returns (results: KeyResults, cachedAfter: map<Key, int>, dbAfter: DbTable)
    requires db.Valid() && Coherent(cached, db)
    requires dbReadKeys == Unmapped(CacheHits(cached, keys), keys) && dbReadKeys != {}
    ensures dbAfter.Valid() && Coherent(cachedAfter, dbAfter)
    ensures Outcome(cached, db.ids, dbAfter.ids, keys, results, cachedAfter)
  {
    var dbReadResults := Tagged(db.Select(dbReadKeys), dbReadKeys, DbRead);
    var newResultsToCache := MappedIds(dbReadResults);
    var dbWriteKeys := Unmapped(dbReadResults, dbReadKeys);
    if |dbWriteKeys| == 0 {
      AllStored(cached, db, keys, dbReadKeys);
      return Merge(CacheHits(cached, keys), dbReadResults), cached + newResultsToCache, db;
    }
    results, cachedAfter, dbAfter := WriteStage(cached, db, keys, dbReadKeys, dbWriteKeys);
  }

  /**
   * The database-write stage of `bulk_record`: the writes limiter accepts some of the
   * pairs the table lacks and drops the rest; rows are created for the
   * accepted ones (unless there are none), the ids read and created are to
   * be cached, and the answers of all stages are returned.
   */
  method WriteStage(cached: map<Key, int>, db: DbTable, keys: set<Key>, dbReadKeys: set<Key>, dbWriteKeys: set<Key>)
    returns (results: KeyResults, cachedAfter: map<Key, int>, dbAfter: DbTable)
    requires db.Valid() && Coherent(cached, db)
    requires dbReadKeys == Unmapped(CacheHits(cached, keys), keys) && dbReadKeys != {}
    requires dbWriteKeys == Unmapped(Tagged(db.Select(dbReadKeys), dbReadKeys, DbRead), dbReadKeys)
    ensures dbAfter.Valid() && Coherent(cachedAfter, dbAfter)
    ensures Outcome(cached, db.ids, dbAfter.ids, keys, results, cachedAfter)
  {
    var dbReadResults := Tagged(db.Select(dbReadKeys), dbReadKeys, DbRead);
    var newResultsToCache := MappedIds(dbReadResults);
    var accepted :| accepted <= dbWriteKeys;
    var rateLimited := RateLimitedResults(dbWriteKeys - accepted);
    if |accepted| == 0 {
      NoneAccepted(cached, db, keys, dbReadKeys, dbWriteKeys, accepted);
      return Merge(Merge(CacheHits(cached, keys), dbReadResults), rateLimited), cached + newResultsToCache, db;
    }
    var newRecords := NewRecords(accepted);
    dbAfter := db.BulkCreate(newRecords);
    var dbWriteResults := Tagged(dbAfter.Select(accepted), accepted, FirstSeen);
    WrittenOutcome(cached, db, keys, dbReadKeys, dbWriteKeys, accepted, newRecords);
    cachedAfter := cached + (newResultsToCache + MappedIds(dbWriteResults));
    results := Merge(Merge(Merge(CacheHits(cached, keys), dbReadResults), dbWriteResults), rateLimited);
  }

  /**
   * The Postgres indexer together with the storage it talks to: the
   * configurations registered at start-up, the cache, and the two tables.
   */
  class PGStringIndexerV2 {
    const configs: map<UseCaseKey, IngestConfig>
    /** `indexer_cache`, one namespace per use case. */
    var cache: map<UseCaseKey, map<Key, int>>
    /** The contents of the two indexer tables. */
    var tables: map<IndexerTable, DbTable>

    ghost predicate Valid()
      reads this
    {
      Consistent(configs, cache, tables)
    }

    constructor (configs: map<UseCaseKey, IngestConfig>)
      requires forall u: UseCaseKey :: u in configs
      ensures Valid() && this.configs == configs
      ensures forall u: UseCaseKey :: cache[u] == map[]
      ensures forall t: IndexerTable :: tables[t] == EmptyTable
    {
      this.configs := configs;
      cache := map[ReleaseHealth := map[], Performance := map[]];
      tables := map[StringIndexerTable := EmptyTable, PerfStringIndexerTable := EmptyTable];
      new;
      forall u: UseCaseKey ensures u in cache {
        match u
        case ReleaseHealth =>
        case Performance =>
      }
      forall t: IndexerTable ensures t in tables {
        match t
        case StringIndexerTable =>
        case PerfStringIndexerTable =>
      }
    }

    /** `_table(use_case_id)`. */
    function Table(u: UseCaseKey): (t: IndexerTable)
      requires u in configs
      ensures TableFor(configs, u) == Some(t)
    {
      TableFor(configs, u).value
    }

    /**
     * `bulk_record`: one answer per requested pair, found in the cache, else
     * among the stored rows, else in a row created now for the pairs the
     * writes limiter accepts, the others answered as rate limited (see
     * `Outcome`). The ids read from the table are written back to the use
     * case's cache namespace. No other namespace and no other table changes.
     */
    method BulkRecord(u: UseCaseKey, orgStrings: map<int, set<string>>) returns (results: KeyResults)
      requires Valid()
      modifies this
      ensures Valid()
      ensures Outcome(old(cache)[u], old(tables)[Table(u)].ids, tables[Table(u)].ids, Collect(orgStrings), results, cache[u])
      ensures cache == old(cache)[u := cache[u]]
      ensures tables == old(tables)[Table(u) := tables[Table(u)]]
    {
      var t := Table(u);
      var cachedAfter, dbAfter;
      results, cachedAfter, dbAfter := BulkRecordStages(cache[u], tables[t], Collect(orgStrings));
      Store(configs, cache, tables, u, cachedAfter, dbAfter);
      cache := cache[u := cachedAfter];
      tables := tables[t := dbAfter];
    }

    /**
     * `record`: `bulk_record` of the single pair, and the id it was answered
     * with. A stored pair keeps its id; otherwise the id is the one of the
     * row created for it, or None when the writes limiter dropped it. The
     * answer is what `resolve` and `reverse_resolve` give afterwards.
     */
    method Record(u: UseCaseKey, org: int, s: string) returns (id: Option<int>)
      requires Valid()
      modifies this
      ensures Valid()
      ensures id.Some? <==> (org, s) in tables[Table(u)].ids
      ensures id.Some? ==> id.value == tables[Table(u)].ids[(org, s)] && ReverseResolve(u, id.value) == Some(s)
      ensures old((org, s) in tables[Table(u)].ids) ==> id == Some(old(tables[Table(u)].ids[(org, s)]))
      ensures CacheGrown(old(cache)[u], tables[Table(u)].ids, {(org, s)}, cache[u])
      ensures TableGrown(old(tables)[Table(u)].ids, tables[Table(u)].ids, {(org, s)})
      ensures cache == old(cache)[u := cache[u]]
      ensures tables == old(tables)[Table(u) := tables[Table(u)]]
    {
      ghost var cached, before := cache[u], tables[Table(u)].ids;
      assert Coherent(cached, tables[Table(u)]);
      CollectOne(org, s);
      var results := BulkRecord(u, map[org := {s}]);
      id := results[(org, s)].id;
    }

    /**
     * `resolve`: a nonzero cached id is returned as it is; otherwise the id
     * stored in the table, which is then cached, or None when the table has
     * no row for the pair. Either way the answer is the stored id.
     */
    method Resolve(u: UseCaseKey, org: int, s: string) returns (id: Option<int>)
      requires Valid()
      modifies this
      ensures Valid()
      ensures id.Some? <==> (org, s) in tables[Table(u)].ids
      ensures id.Some? ==> id.value == tables[Table(u)].ids[(org, s)]
      ensures tables == old(tables)
      ensures old((org, s) in cache[u] && cache[u][(org, s)] != 0) || id.None? ==> cache == old(cache)
      ensures old(!((org, s) in cache[u] && cache[u][(org, s)] != 0)) && id.Some? ==>
                cache == old(cache)[u := old(cache)[u][(org, s) := id.value]]
    {
      var k := (org, s);
      var t := Table(u);
      assert Coherent(cache[u], tables[t]);
      if k in cache[u] && cache[u][k] != 0 {
        return Some(cache[u][k]);
      }
      if k !in tables[t].ids {
        return None;
      }
      id := Some(tables[t].ids[k]);
      Store(configs, cache, tables, u, cache[u][k := id.value], tables[t]);
      assert tables[t := tables[t]] == tables;
      cache := cache[u := cache[u][k := id.value]];
    }

    /**
     * `reverse_resolve`: the string of the row the id names in the use
     * case's table, and None when no stored pair has that id.
     */
    function ReverseResolve(u: UseCaseKey, id: int): (r: Option<string>)
      reads this
      requires Valid()
      ensures r.None? <==> forall k :: k in tables[Table(u)].ids ==> tables[Table(u)].ids[k] != id
      ensures forall k :: k in tables[Table(u)].ids && tables[Table(u)].ids[k] == id ==> r == Some(k.1)
    {
      var db := tables[Table(u)];
      if id in db.rows then Some(db.rows[id].1) else None
    }
  }

  /**
   * The answer `bulk_record` gives a pair, given the cache namespace as it
   * was and the table's index before and after the call: the cached id, else
   * the stored id, else the id of the row created now, and no id at all for
   * a pair the writes limiter dropped.
   */
  ghost predicate Answered(cached: map<Key, int>, before: map<Key, int>, after: map<Key, int>, k: Key, r: Resolved)
  {
    if k in cached then r == Resolved(Some(cached[k]), Some(CacheHit))
    else if k in before then r == Resolved(Some(before[k]), Some(DbRead))
    else if k in after then r == Resolved(Some(after[k]), Some(FirstSeen))
    else r == Resolved(None, Some(RateLimited))
  }

  /** Every requested pair, and no other, is answered as `Answered` says. */
  ghost predicate AnsweredAll(cached: map<Key, int>, before: map<Key, int>, after: map<Key, int>,
                              keys: set<Key>, results: KeyResults)
  {
    && (forall k :: k in results <==> k in keys)
    && (forall k :: k in results ==> Answered(cached, before, after, k, results[k]))
  }

  /**
   * The cache namespace after a call keeps its entries and gains the id of
   * every requested pair the table now holds, and nothing else.
   */
  ghost predicate CacheGrown(cached: map<Key, int>, after: map<Key, int>, keys: set<Key>, cachedAfter: map<Key, int>)
  {
    && (forall k :: k in cachedAfter <==> k in cached || (k in keys && k in after))
    && (forall k :: k in cached ==> cachedAfter[k] == cached[k])
  }

  /**
   * What one `bulk_record` call achieves for the requested pairs `keys`,
   * given the cache namespace and the table's index before the call and the
   * index after it: every pair answered as `Answered` says, the namespace
   * grown as `CacheGrown` says, every stored row kept with its id, and new
   * rows only for requested pairs.
   */
  ghost predicate Outcome(cached: map<Key, int>, before: map<Key, int>, after: map<Key, int>,
                          keys: set<Key>, results: KeyResults, cachedAfter: map<Key, int>)
  {
    && AnsweredAll(cached, before, after, keys, results)
    && CacheGrown(cached, after, keys, cachedAfter)
    && TableGrown(before, after, keys)
  }

  /** The table keeps every row with its id and gains rows only for requested pairs. */
  ghost predicate TableGrown(before: map<Key, int>, after: map<Key, int>, keys: set<Key>)
  {
    && (forall k :: k in before ==> k in after && after[k] == before[k])
    && (forall k :: k in after && k !in before ==> k in keys)
  }

  /** The early return when the cache answers every pair. */
  lemma AllCached(cached: map<Key, int>, db: DbTable, keys: set<Key>)
    requires db.Valid() && Coherent(cached, db)
    requires Unmapped(CacheHits(cached, keys), keys) == {}
    ensures Outcome(cached, db.ids, db.ids, keys, CacheHits(cached, keys), cached)
  {
    forall k | k in keys ensures k in cached {
      assert k !in Unmapped(CacheHits(cached, keys), keys);
    }
  }

  /** The early return when the table holds every pair the cache missed. */
  lemma AllStored(cached: map<Key, int>, db: DbTable, keys: set<Key>, readKeys: set<Key>)
    requires db.Valid() && Coherent(cached, db)
    requires readKeys == Unmapped(CacheHits(cached, keys), keys) && readKeys != {}
    requires Unmapped(Tagged(db.Select(readKeys), readKeys, DbRead), readKeys) == {}
    ensures Coherent(cached + MappedIds(Tagged(db.Select(readKeys), readKeys, DbRead)), db)
    ensures Outcome(cached, db.ids, db.ids, keys,
                    Merge(CacheHits(cached, keys), Tagged(db.Select(readKeys), readKeys, DbRead)),
                    cached + MappedIds(Tagged(db.Select(readKeys), readKeys, DbRead)))
  {
    var readIds := db.Select(readKeys);
    MappedTagged(readIds, readKeys, DbRead);
    forall k | k in readKeys ensures k in readIds {
      assert k !in Unmapped(Tagged(readIds, readKeys, DbRead), readKeys);
    }
    forall k | k in keys && k !in cached ensures k in readKeys {
      assert !IsMapped(CacheHits(cached, keys), k);
    }
  }

  /**
   * The stages after the cache: the pairs it missed are `readKeys`, those
   * the table lacks are `writeKeys`, of which the writes limiter accepts
   * `accepted`; afterwards the table holds what it held and the accepted
   * pairs. With nothing accepted, `after` is `before`.
   */
  ghost predicate Staged(cached: map<Key, int>, before: map<Key, int>, after: map<Key, int>, keys: set<Key>,
                         readKeys: set<Key>, readIds: map<Key, int>, writeKeys: set<Key>, accepted: set<Key>)
  {
    && (forall k :: k in cached ==> cached[k] != 0 && k in before && cached[k] == before[k])
    && (forall k :: k in before ==> before[k] != 0)
    && readKeys == Unmapped(CacheHits(cached, keys), keys)
    && (forall k :: k in readIds <==> k in readKeys && k in before)
    && (forall k :: k in readIds ==> readIds[k] == before[k])
    && writeKeys == Unmapped(Tagged(readIds, readKeys, DbRead), readKeys)
    && accepted <= writeKeys
    && (forall k :: k in after <==> k in before || k in accepted)
    && (forall k :: k in before ==> after[k] == before[k])
  }

  /** The answers of the return after the writes limiter. */
  lemma WrittenAnswers(cached: map<Key, int>, before: map<Key, int>, after: map<Key, int>, keys: set<Key>,
                       readKeys: set<Key>, readIds: map<Key, int>, writeKeys: set<Key>, accepted: set<Key>,
                       writeIds: map<Key, int>)
    requires Staged(cached, before, after, keys, readKeys, readIds, writeKeys, accepted)
    requires forall k :: k in writeIds <==> k in accepted && k in after
    requires forall k :: k in writeIds ==> writeIds[k] == after[k]
    ensures AnsweredAll(cached, before, after, keys,
                        Merge(Merge(Merge(CacheHits(cached, keys), Tagged(readIds, readKeys, DbRead)),
                                    Tagged(writeIds, accepted, FirstSeen)),
                              RateLimitedResults(writeKeys - accepted)))
  {
    UnmappedTagged(cached, keys, CacheHit);
    UnmappedTagged(readIds, readKeys, DbRead);
    var hits, found := CacheHits(cached, keys), Tagged(readIds, readKeys, DbRead);
    var writes, dropped := Tagged(writeIds, accepted, FirstSeen), RateLimitedResults(writeKeys - accepted);
    var results := Merge(Merge(Merge(hits, found), writes), dropped);
    assert results.Keys <= keys;
    forall k | k in keys ensures k in results {
      if k !in cached && k !in before && k !in accepted {
        assert k in dropped;
      }
    }
    forall k | k in results ensures Answered(cached, before, after, k, results[k]) {
      if k in cached {
        assert k in hits;
      } else if k in before {
        assert k in found;
      } else if k in accepted {
        assert k in writes;
      } else {
        assert k in dropped;
      }
    }
  }

  /** The cache namespace after the return that follows the writes limiter. */
  lemma WrittenCache(cached: map<Key, int>, before: map<Key, int>, after: map<Key, int>, keys: set<Key>,
                     readKeys: set<Key>, readIds: map<Key, int>, writeKeys: set<Key>, accepted: set<Key>,
                     writeIds: map<Key, int>)
    requires Staged(cached, before, after, keys, readKeys, readIds, writeKeys, accepted)
    requires forall k :: k in writeIds <==> k in accepted && k in after
    requires forall k :: k in writeIds ==> writeIds[k] == after[k]
    ensures CacheGrown(cached, after, keys,
                       cached + (MappedIds(Tagged(readIds, readKeys, DbRead)) + MappedIds(Tagged(writeIds, accepted, FirstSeen))))
    ensures TableGrown(before, after, keys)
    ensures var cachedAfter := cached + (MappedIds(Tagged(readIds, readKeys, DbRead)) + MappedIds(Tagged(writeIds, accepted, FirstSeen)));
            forall k :: k in cachedAfter ==> k in after && cachedAfter[k] == after[k]
  {
    MappedTagged(readIds, readKeys, DbRead);
    MappedTagged(writeIds, accepted, FirstSeen);
  }

  /** The return when the writes limiter accepts none of the pairs the table lacks. */
  lemma NoneAccepted(cached: map<Key, int>, db: DbTable, keys: set<Key>,
                     readKeys: set<Key>, writeKeys: set<Key>, accepted: set<Key>)
    requires db.Valid() && Coherent(cached, db)
    requires readKeys == Unmapped(CacheHits(cached, keys), keys) && readKeys != {}
    requires writeKeys == Unmapped(Tagged(db.Select(readKeys), readKeys, DbRead), readKeys)
    requires accepted == {}
    ensures Coherent(cached + MappedIds(Tagged(db.Select(readKeys), readKeys, DbRead)), db)
    ensures Outcome(cached, db.ids, db.ids, keys,
                    Merge(Merge(CacheHits(cached, keys), Tagged(db.Select(readKeys), readKeys, DbRead)),
                          RateLimitedResults(writeKeys - accepted)),
                    cached + MappedIds(Tagged(db.Select(readKeys), readKeys, DbRead)))
  {
    var readIds := db.Select(readKeys);
    MappedTagged(readIds, readKeys, DbRead);
    UnmappedTagged(cached, keys, CacheHit);
    UnmappedTagged(readIds, readKeys, DbRead);
    var hits, found, dropped := CacheHits(cached, keys), Tagged(readIds, readKeys, DbRead), RateLimitedResults(writeKeys - accepted);
    var results := Merge(Merge(hits, found), dropped);
    forall k | k in keys ensures k in results {
      if k !in cached && k !in db.ids {
        assert k in dropped;
      }
    }
    forall k | k in results ensures Answered(cached, db.ids, db.ids, k, results[k]) {
      if k in cached {
        assert k in hits;
      } else if k in db.ids {
        assert k in found;
      } else {
        assert k in dropped;
      }
    }
  }

  /** The return after rows were created for the accepted pairs. */
  lemma WrittenOutcome(cached: map<Key, int>, db: DbTable, keys: set<Key>, readKeys: set<Key>,
                       writeKeys: set<Key>, accepted: set<Key>, records: seq<Key>)
    requires db.Valid() && Coherent(cached, db)
    requires readKeys == Unmapped(CacheHits(cached, keys), keys) && readKeys != {}
    requires writeKeys == Unmapped(Tagged(db.Select(readKeys), readKeys, DbRead), readKeys)
    requires accepted <= writeKeys && accepted != {}
    requires forall k :: k in records <==> k in accepted
    ensures Coherent(cached + (MappedIds(Tagged(db.Select(readKeys), readKeys, DbRead))
                               + MappedIds(Tagged(db.BulkCreate(records).Select(accepted), accepted, FirstSeen))),
                     db.BulkCreate(records))
    ensures Outcome(cached, db.ids, db.BulkCreate(records).ids, keys,
                    Merge(Merge(Merge(CacheHits(cached, keys), Tagged(db.Select(readKeys), readKeys, DbRead)),
                                Tagged(db.BulkCreate(records).Select(accepted), accepted, FirstSeen)),
                          RateLimitedResults(writeKeys - accepted)),
                    cached + (MappedIds(Tagged(db.Select(readKeys), readKeys, DbRead))
                              + MappedIds(Tagged(db.BulkCreate(records).Select(accepted), accepted, FirstSeen))))
  {
    var after := db.BulkCreate(records);
    var readIds, writeIds := db.Select(readKeys), after.Select(accepted);
    StagedWrite(cached, db, keys, readKeys, writeKeys, accepted, records);
    WrittenAnswers(cached, db.ids, after.ids, keys, readKeys, readIds, writeKeys, accepted, writeIds);
    WrittenCache(cached, db.ids, after.ids, keys, readKeys, readIds, writeKeys, accepted, writeIds);
  }

  /** The facts `Staged` records hold once rows were created for the accepted pairs. */
  lemma StagedWrite(cached: map<Key, int>, db: DbTable, keys: set<Key>, readKeys: set<Key>,
                    writeKeys: set<Key>, accepted: set<Key>, records: seq<Key>)
    requires db.Valid() && Coherent(cached, db)
    requires readKeys == Unmapped(CacheHits(cached, keys), keys) && readKeys != {}
    requires writeKeys == Unmapped(Tagged(db.Select(readKeys), readKeys, DbRead), readKeys)
    requires accepted <= writeKeys
    requires forall k :: k in records <==> k in accepted
    ensures db.BulkCreate(records).Valid()
    ensures Staged(cached, db.ids, db.BulkCreate(records).ids, keys, readKeys, db.Select(readKeys), writeKeys, accepted)
  {
  }

  /**
   * After `bulk_record`, a pair answered with an id has that id stored in the
   * table, and a pair answered without one (dropped by the writes limiter)
   * has no row; so `resolve` afterwards gives the same answer.
   */
  lemma OutcomeStored(cached: map<Key, int>, before: map<Key, int>, after: map<Key, int>,
                      keys: set<Key>, results: KeyResults, cachedAfter: map<Key, int>)
    requires forall k :: k in cached ==> k in before && cached[k] == before[k]
    requires Outcome(cached, before, after, keys, results, cachedAfter)
    ensures forall k :: k in results ==> (results[k].id.Some? <==> k in after)
    ensures forall k :: k in results && k in after ==> results[k].id == Some(after[k])
  {
    forall k | k in results
      ensures (results[k].id.Some? <==> k in after) && (k in after ==> results[k].id == Some(after[k]))
    {
      assert Answered(cached, before, after, k, results[k]);
    }
  }

  /**
   * Recording the same pairs twice: the second `bulk_record` answers every
   * pair the first one gave an id to from the cache, with the same id, and
   * creates no row for it.
   */
  lemma RecordTwice(cached: map<Key, int>, before: map<Key, int>, after: map<Key, int>, keys: set<Key>,
                    results: KeyResults, cachedAfter: map<Key, int>,
                    after2: map<Key, int>, results2: KeyResults, cachedAfter2: map<Key, int>)
    requires forall k :: k in cached ==> k in before && cached[k] == before[k]
    requires Outcome(cached, before, after, keys, results, cachedAfter)
    requires forall k :: k in cachedAfter ==> k in after && cachedAfter[k] == after[k]
    requires Outcome(cachedAfter, after, after2, keys, results2, cachedAfter2)
    ensures forall k :: k in results && results[k].id.Some? ==> results2[k] == Resolved(results[k].id, Some(CacheHit))
    ensures forall k :: k in after2 && k !in after ==> k in results && results[k].id.None?
  {
    OutcomeStored(cached, before, after, keys, results, cachedAfter);
    forall k | k in results && results[k].id.Some?
      ensures results2[k] == Resolved(results[k].id, Some(CacheHit))
    {
      assert k in after && k in cachedAfter;
      assert Answered(cachedAfter, after, after2, k, results2[k]);
    }
  }

  /**
   * The shared-strings loop of the decorator's `bulk_record`: the requested pairs
   * whose string is shared, each answered with its hard-coded id.
   */
  method HardcodedResults(shared: SharedStrings, keys: set<Key>) returns (results: KeyResults)
    ensures forall k :: k in results <==> k in keys && k.1 in shared.ids
    ensures forall k :: k in results ==> results[k] == Resolved(Some(shared.ids[k.1]), Some(Hardcoded))
  {
    results := map[];
    var todo := keys;
    while todo != {}
      invariant todo <= keys
      invariant forall k :: k in results <==> k in keys && k !in todo && k.1 in shared.ids
      invariant forall k :: k in results ==> results[k] == Resolved(Some(shared.ids[k.1]), Some(Hardcoded))
      decreases todo
    {
      var k :| k in todo;
      if k.1 in shared.ids {
        results := results[k := Resolved(Some(shared.ids[k.1]), Some(Hardcoded))];
      }
      todo := todo - {k};
    }
  }

  /** With positive hard-coded ids, the pairs the hard-coded answers leave unmapped are those whose string is not shared. */
  lemma HardcodedLeft(shared: SharedStrings, keys: set<Key>, results: KeyResults)
    requires shared.Valid()
    requires forall k :: k in results <==> k in keys && k.1 in shared.ids
    requires forall k :: k in results ==> results[k] == Resolved(Some(shared.ids[k.1]), Some(Hardcoded))
    ensures Unmapped(results, keys) == shared.Unshared(keys)
  {
    forall k | k in keys && k.1 in shared.ids ensures IsMapped(results, k) {
      assert results[k].id.value == shared.ids[k.1] > 0;
    }
  }

  /**
   * `StaticStringsIndexerDecorator`: answers shared strings with their
   * hard-coded ids and hands every other pair to the Postgres indexer.
   */
  class StaticStringsIndexerDecorator {
    const shared: SharedStrings
    const indexer: PGStringIndexerV2

    ghost predicate Valid()
      reads this, indexer
    {
      shared.Valid() && indexer.Valid()
    }

    constructor (shared: SharedStrings, configs: map<UseCaseKey, IngestConfig>)
      requires shared.Valid()
      requires forall u: UseCaseKey :: u in configs
      ensures Valid() && this.shared == shared && fresh(indexer) && indexer.configs == configs
      ensures forall u: UseCaseKey :: indexer.cache[u] == map[]
      ensures forall t: IndexerTable :: indexer.tables[t] == EmptyTable
    {
      this.shared := shared;
      indexer := new PGStringIndexerV2(configs);
    }

    /**
     * `bulk_record`: a pair with a shared string gets its hard-coded id;
     * the others are handed, in one call, to the indexer, which answers them
     * as `Answered` says and grows its cache namespace and table for them
     * alone. When every string is shared the indexer is not called.
     */
    method BulkRecord(u: UseCaseKey, orgStrings: map<int, set<string>>) returns (results: KeyResults)
      requires Valid()
      modifies indexer
      ensures Valid()
      ensures forall k :: k in results <==> k in Collect(orgStrings)
      ensures forall k :: k in results && k.1 in shared.ids ==> results[k] == Resolved(Some(shared.ids[k.1]), Some(Hardcoded))
      ensures forall k :: k in results && k.1 !in shared.ids ==>
                Answered(old(indexer.cache)[u], old(indexer.tables)[indexer.Table(u)].ids,
                         indexer.tables[indexer.Table(u)].ids, k, results[k])
      ensures CacheGrown(old(indexer.cache)[u], indexer.tables[indexer.Table(u)].ids,
                         shared.Unshared(Collect(orgStrings)), indexer.cache[u])
      ensures TableGrown(old(indexer.tables)[indexer.Table(u)].ids, indexer.tables[indexer.Table(u)].ids,
                         shared.Unshared(Collect(orgStrings)))
      ensures indexer.cache == old(indexer.cache)[u := indexer.cache[u]]
      ensures indexer.tables == old(indexer.tables)[indexer.Table(u) := indexer.tables[indexer.Table(u)]]
      ensures shared.Unshared(Collect(orgStrings)) == {} ==> unchanged(indexer)
    {
      var keys := Collect(orgStrings);
      var staticResults := HardcodedResults(shared, keys);
      var left := Unmapped(staticResults, keys);
      HardcodedLeft(shared, keys, staticResults);
      if |left| == 0 {
        return staticResults;
      }
      CollectMapping(left);
      var indexerResults := indexer.BulkRecord(u, Mapping(left));
      results := Merge(staticResults, indexerResults);
    }

    /** `record`: a shared string's hard-coded id, else the indexer's `record`. */
    method Record(u: UseCaseKey, org: int, s: string) returns (id: Option<int>)
      requires Valid()
      modifies indexer
      ensures Valid()
      ensures s in shared.ids ==> id == Some(shared.ids[s]) && unchanged(indexer)
      ensures s !in shared.ids ==>
                && (id.Some? <==> (org, s) in indexer.tables[indexer.Table(u)].ids)
                && (id.Some? ==> id.value == indexer.tables[indexer.Table(u)].ids[(org, s)])
                && (id.Some? && id.value !in shared.strings ==> ReverseResolve(u, id.value) == Some(s))
      ensures s !in shared.ids && old((org, s) in indexer.tables[indexer.Table(u)].ids) ==>
                id == Some(old(indexer.tables[indexer.Table(u)].ids[(org, s)]))
      ensures s !in shared.ids ==>
                && CacheGrown(old(indexer.cache)[u], indexer.tables[indexer.Table(u)].ids, {(org, s)}, indexer.cache[u])
                && TableGrown(old(indexer.tables)[indexer.Table(u)].ids, indexer.tables[indexer.Table(u)].ids, {(org, s)})
      ensures indexer.cache == old(indexer.cache)[u := indexer.cache[u]]
      ensures indexer.tables == old(indexer.tables)[indexer.Table(u) := indexer.tables[indexer.Table(u)]]
    {
      if s in shared.ids {
        return Some(shared.ids[s]);
      }
      id := indexer.Record(u, org, s);
    }

    /** `resolve`: a shared string's hard-coded id, else the indexer's `resolve`. */
    method Resolve(u: UseCaseKey, org: int, s: string) returns (id: Option<int>)
      requires Valid()
      modifies indexer
      ensures Valid()
      ensures s in shared.ids ==> id == Some(shared.ids[s]) && unchanged(indexer)
      ensures s !in shared.ids ==>
                && (id.Some? <==> (org, s) in indexer.tables[indexer.Table(u)].ids)
                && (id.Some? ==> id.value == indexer.tables[indexer.Table(u)].ids[(org, s)])
      ensures indexer.tables == old(indexer.tables)
      ensures s !in shared.ids && (old((org, s) in indexer.cache[u] && indexer.cache[u][(org, s)] != 0) || id.None?) ==>
                indexer.cache == old(indexer.cache)
      ensures s !in shared.ids && old(!((org, s) in indexer.cache[u] && indexer.cache[u][(org, s)] != 0)) && id.Some? ==>
                indexer.cache == old(indexer.cache)[u := old(indexer.cache)[u][(org, s) := id.value]]
    {
      if s in shared.ids {
        return Some(shared.ids[s]);
      }
      id := indexer.Resolve(u, org, s);
    }

    /**
     * `reverse_resolve`: the shared string of a hard-coded id, else what the
     * indexer's `reverse_resolve` gives.
     */
    function ReverseResolve(u: UseCaseKey, id: int): (r: Option<string>)
      reads this, indexer
      requires Valid()
      ensures id in shared.strings ==> r == Some(shared.strings[id]) && r.value in shared.ids
      ensures id !in shared.strings ==> (r.None? <==> forall k :: k in indexer.tables[indexer.Table(u)].ids ==> indexer.tables[indexer.Table(u)].ids[k] != id)
      ensures id !in shared.strings ==>
                forall k :: k in indexer.tables[indexer.Table(u)].ids && indexer.tables[indexer.Table(u)].ids[k] == id ==> r == Some(k.1)
    {
      if id in shared.strings then Some(shared.strings[id]) else indexer.ReverseResolve(u, id)
    }
  }
}
