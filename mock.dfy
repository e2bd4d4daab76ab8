/**
 * The in-memory string indexer: a counter that hands out ids from 10000 on,
 * a store that gives each new (organization, string) pair the next counter
 * value on first write, a reverse table from id to string, and the shared
 * strings, whose hard-coded ids take precedence over the store.
 */
module Mock {
  import opened Wrappers
  import opened Keys

  /** The first id the counter yields (`itertools.count(start=10000)`). */
  const FirstId := 10000

  class SimpleIndexer {
    const shared: SharedStrings
    /** The value the counter yields next. */
    var counter: int
    /** `_strings`, the per-organization dictionaries, keyed here by the pair. */
    var strings: map<Key, int>
    /** `_reverse`. */
    var reverse: map<int, string>
    /** The pair each handed-out id was allocated to. */
    ghost var owner: map<int, Key>

    /**
     * The ids handed out lie in FirstId .. counter-1, one per stored pair,
     * each belongs to exactly one pair (so no two pairs share one), the
     * reverse table maps each back to its pair's string, and no shared string
     * is ever stored.
     */
    ghost predicate Valid()
      reads this
    {
      && shared.Valid()
      && FirstId <= counter
      && (forall k :: k in strings ==> strings[k] in owner && owner[strings[k]] == k)
      && (forall i :: i in owner ==>
            && FirstId <= i < counter
            && owner[i] in strings && strings[owner[i]] == i
            && i in reverse && reverse[i] == owner[i].1
            && owner[i].1 !in shared.ids)
      && (forall i :: i in reverse ==> i in owner)
    }

    constructor (shared: SharedStrings)
      requires shared.Valid()
      ensures Valid() && this.shared == shared
      ensures counter == FirstId && strings == map[] && reverse == map[]
    {
      this.shared := shared;
      counter := FirstId;
      strings := map[];
      reverse := map[];
      owner := map[];
    }

    /**
     * `resolve`: a shared string's hard-coded id, otherwise the id stored for
     * the pair, and None for a pair never recorded; nothing is allocated.
     */
    function Resolve(org: int, s: string): (r: Option<int>)
      reads this
      requires Valid()
      ensures s in shared.ids ==> r == Some(shared.ids[s])
      ensures s !in shared.ids ==> (r.Some? <==> (org, s) in strings)
      ensures s !in shared.ids && r.Some? ==> FirstId <= r.value < counter && r.value in reverse && reverse[r.value] == s
    {
      if s in shared.ids then Some(shared.ids[s])
      else if (org, s) in strings then Some(strings[(org, s)])
      else None
    }

    /**
     * `reverse_resolve`: the shared string of a hard-coded id, otherwise the
     * string some pair was recorded under with that id, and None for an id
     * never handed out.
     */
    function ReverseResolve(id: int): (r: Option<string>)
      reads this
      requires Valid()
      ensures id in shared.strings ==> r == Some(shared.strings[id])
      ensures id !in shared.strings && r.Some? ==> exists k :: k in strings && strings[k] == id && k.1 == r.value
      ensures id !in shared.strings && r.None? ==> forall k :: k in strings ==> strings[k] != id
    {
      if id in shared.strings then Some(shared.strings[id])
      else if id in reverse then assert owner[id] in strings; Some(reverse[id])
      else None
    }

    /**
     * `_record`: the id stored for the pair, allocating the next counter
     * value on its first write, and noting the id's string in the reverse table.
     * Both callers pass only strings that are not shared.
     */
    method RecordPair(org: int, s: string) returns (id: int)
      requires Valid()
      requires s !in shared.ids
      modifies this
      ensures Valid()
      ensures old((org, s) in strings) ==> id == old(strings[(org, s)]) && counter == old(counter)
      ensures old((org, s) !in strings) ==> id == old(counter) && counter == old(counter) + 1
      ensures strings == old(strings)[(org, s) := id]
      ensures reverse == old(reverse)[id := s]
    {
      if (org, s) !in strings {
        owner := owner[counter := (org, s)];
        strings := strings[(org, s) := counter];
        counter := counter + 1;
      }
      id := strings[(org, s)];
      reverse := reverse[id := s];
    }

    /**
     * `record`: a shared string's hard-coded id, with nothing stored;
     * otherwise `_record`. Afterwards `resolve` gives the same id and, unless
     * it collides with a hard-coded id, `reverse_resolve` gives the string back.
     */
    method Record(org: int, s: string) returns (id: int)
      requires Valid()
      modifies this
      ensures Valid()
      ensures s in shared.ids ==> id == shared.ids[s] && counter == old(counter) && strings == old(strings) && reverse == old(reverse)
      ensures s !in shared.ids && old((org, s) in strings) ==> id == old(strings[(org, s)]) && counter == old(counter) && strings == old(strings)
      ensures s !in shared.ids && old((org, s) !in strings) ==> id == old(counter) && counter == old(counter) + 1 && strings == old(strings)[(org, s) := id]
      ensures Resolve(org, s) == Some(id)
      ensures s !in shared.ids && id !in shared.strings ==> ReverseResolve(id) == Some(s)
    {
      if s in shared.ids {
        id := shared.ids[s];
      } else {
        id := RecordPair(org, s);
      }
    }

    /**
     * `bulk_record`: one answer per requested pair, the hard-coded id for a
     * shared string and the `_record` id for any other. Stored ids are kept,
     * the store gains exactly the requested pairs it lacked, and the counter
     * advances once per pair gained, each new pair getting a new counter value.
     */
    method BulkRecord(orgStrings: map<int, set<string>>) returns (results: KeyResults)
      requires Valid()
      modifies this
      ensures Valid()
      ensures results.Keys == Collect(orgStrings)
      ensures forall k :: k in results ==> results[k].fetchType.None? && results[k].id == Resolve(k.0, k.1) && results[k].id.Some?
      ensures forall k :: k in old(strings) ==> k in strings && strings[k] == old(strings)[k]
      ensures forall k :: k in strings <==> k in old(strings) || (k in results && k.1 !in shared.ids)
      ensures counter - old(counter) == |strings| - |old(strings)|
      ensures forall k :: k in strings && k !in old(strings) ==> old(counter) <= strings[k] < counter
    {
      var keys := Collect(orgStrings);
      ghost var store0, counter0 := strings, counter;
      var todo := keys;
      results := map[];
      while todo != {}
        invariant Valid()
        invariant todo <= keys
        invariant forall k :: k in results <==> k in keys && k !in todo
        invariant Recorded(shared, results, store0, counter0, strings, counter)
        decreases todo
      {
        var k :| k in todo;
        var id;
        if k.1 in shared.ids {
          id := shared.ids[k.1];
          RecordedShared(shared, results, store0, counter0, strings, counter, k);
        } else {
          ghost var strings1, counter1 := strings, counter;
          id := RecordPair(k.0, k.1);
          RecordedUnshared(shared, results, store0, counter0, strings1, counter1, k, id, counter);
        }
        results := results[k := Resolved(Some(id), None)];
        todo := todo - {k};
      }
    }
  }

  /**
   * What a bulk_record run has achieved once the pairs in `results` are
   * answered, starting from store `store0` and counter `counter0`.
   */
  ghost predicate Recorded(shared: SharedStrings, results: KeyResults, store0: map<Key, int>, counter0: int, strings: map<Key, int>, counter: int)
  {
    && (forall k :: k in results && k.1 in shared.ids ==> results[k] == Resolved(Some(shared.ids[k.1]), None))
    && (forall k :: k in results && k.1 !in shared.ids ==> k in strings && results[k] == Resolved(Some(strings[k]), None))
    && (forall k :: k in store0 ==> k in strings && strings[k] == store0[k])
    && (forall k :: k in strings ==> k in store0 || (k in results && k.1 !in shared.ids))
    && counter0 <= counter && |strings| - |store0| == counter - counter0
    && (forall k :: k in strings && k !in store0 ==> counter0 <= strings[k] < counter)
  }

  /** Answering one more pair with its shared string's hard-coded id keeps `Recorded`; the store is untouched. */
  lemma RecordedShared(shared: SharedStrings, results: KeyResults, store0: map<Key, int>, counter0: int,
                       strings: map<Key, int>, counter: int, k: Key)
    requires Recorded(shared, results, store0, counter0, strings, counter)
    requires k.1 in shared.ids
    ensures Recorded(shared, results[k := Resolved(Some(shared.ids[k.1]), None)], store0, counter0, strings, counter)
  {
  }

  /**
   * Answering one more unshared pair with the id `_record` gave it keeps
   * `Recorded`: the id already stored, or the counter's value for a new pair.
   */
  lemma RecordedUnshared(shared: SharedStrings, results: KeyResults, store0: map<Key, int>, counter0: int,
                         strings: map<Key, int>, counter: int, k: Key, id: int, counter': int)
    requires Recorded(shared, results, store0, counter0, strings, counter)
    requires k !in results && k.1 !in shared.ids
    requires k in strings ==> id == strings[k] && counter' == counter
    requires k !in strings ==> id == counter && counter' == counter + 1
    ensures Recorded(shared, results[k := Resolved(Some(id), None)], store0, counter0, strings[k := id], counter')
  {
  }

  /** Distinct pairs, the same string in two organizations included, never share an id. */
  lemma DistinctPairsDistinctIds(indexer: SimpleIndexer, k1: Key, k2: Key)
    requires indexer.Valid()
    requires k1.1 !in indexer.shared.ids && k2.1 !in indexer.shared.ids
    requires k1 != k2
    requires indexer.Resolve(k1.0, k1.1).Some? && indexer.Resolve(k2.0, k2.1).Some?
    ensures indexer.Resolve(k1.0, k1.1) != indexer.Resolve(k2.0, k2.1)
  {
  }
}
