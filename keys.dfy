/**
 * The vocabulary the string indexers share: the (organization, string)
 * pairs they assign ids to, the collections of such pairs they are asked
 * about (`KeyCollection`), the per-pair answers they give (`KeyResults`),
 * and the table of hard-coded shared strings.
 *
 * `KeyCollection` and `KeyResults` live in the indexer's base module, which
 * is not part of this model; here a collection is the set of pairs it names
 * and a result set is a partial map from pairs to their answers.
 */
module Keys {
  import opened Wrappers

  /** An (organization id, string) pair. */
  type Key = (int, string)

  /** How an answer was obtained. */
  datatype FetchType = CacheHit | Hardcoded | DbRead | FirstSeen | RateLimited

  /** One answer: the id (None when none could be given) and how it was obtained. */
  datatype Resolved = Resolved(id: Option<int>, fetchType: Option<FetchType>)

  type KeyResults = map<Key, Resolved>

  /** The pairs named by an organization -> strings mapping (`KeyCollection(mapping)`). */
  function Collect(orgStrings: map<int, set<string>>): (keys: set<Key>)
    ensures forall k: Key :: k in keys <==> k.0 in orgStrings && k.1 in orgStrings[k.0]
  {
    var keys := set org, s | org in orgStrings && s in orgStrings[org] :: (org, s);
    CollectMembers(orgStrings, keys);
    keys
  }

  /** The collection of one organization's one string is that single pair. */
  lemma CollectOne(org: int, s: string)
    ensures Collect(map[org := {s}]) == {(org, s)}
  {
    var keys := Collect(map[org := {s}]);
    assert (org, s) in keys;
    forall k | k in keys ensures k == (org, s) {
      assert k.0 == org && k.1 in {s};
    }
  }

  lemma CollectMembers(orgStrings: map<int, set<string>>, keys: set<Key>)
    requires keys == set org, s | org in orgStrings && s in orgStrings[org] :: (org, s)
    ensures forall k: Key :: k in keys <==> k.0 in orgStrings && k.1 in orgStrings[k.0]
  {
    forall k: Key | k.0 in orgStrings && k.1 in orgStrings[k.0] ensures k in keys {
      var org, s := k.0, k.1;
      assert org in orgStrings && s in orgStrings[org] && k == (org, s);
    }
  }

  /** The organizations a collection of pairs mentions. */
  function Orgs(keys: set<Key>): set<int>
  {
    set k | k in keys :: k.0
  }

  /** A collection of pairs as an organization -> strings mapping (`KeyCollection.mapping`). */
  function Mapping(keys: set<Key>): (m: map<int, set<string>>)
    ensures m.Keys == Orgs(keys)
    ensures forall org, s :: org in m && s in m[org] ==> (org, s) in keys
    ensures forall k :: k in keys ==> k.0 in m && k.1 in m[k.0]
  {
    map org | org in Orgs(keys) :: set k | k in keys && k.0 == org :: k.1
  }

  /** Turning a collection into its mapping and back loses and invents no pair. */
  lemma CollectMapping(keys: set<Key>)
    ensures Collect(Mapping(keys)) == keys
  {
    var m := Mapping(keys);
    forall k: Key | k in keys ensures k in Collect(m) {
      assert k.0 in Orgs(keys);
      assert k.1 in m[k.0];
    }
    forall k: Key | k in Collect(m) ensures k in keys {
      var j :| j in keys && j.0 == k.0 && j.1 == k.1;
      assert j == k;
    }
  }

  /**
   * Whether a result set holds a usable id for a pair. The base module tests
   * `not results[org].get(string)`, so a missing entry, a None id and an id
   * of 0 all count as unmapped.
   */
  function IsMapped(results: KeyResults, k: Key): (mapped: bool)
    ensures mapped ==> k in MappedIds(results) && MappedIds(results)[k] != 0
    ensures !mapped && k in results && results[k].id.Some? ==> results[k].id == Some(0)
  {
    k in results && results[k].id.Some? && results[k].id.value != 0
  }

  /** `KeyResults.get_unmapped_keys(keys)`: the pairs of `keys` still lacking an id. */
  function Unmapped(results: KeyResults, keys: set<Key>): (left: set<Key>)
    ensures left <= keys
    ensures forall k :: k in left <==> k in keys && !IsMapped(results, k)
  {
    set k | k in keys && !IsMapped(results, k)
  }

  /**
   * `self.merge(other)`: the answers of both; the receiver's answer wins on a
   * pair both hold (every merge in the indexers is of disjoint result sets).
   */
  function Merge(self: KeyResults, other: KeyResults): (r: KeyResults)
    ensures forall k :: k in r <==> k in self || k in other
    ensures forall k :: k in self ==> r[k] == self[k]
    ensures forall k :: k in other && k !in self ==> r[k] == other[k]
  {
    other + self
  }

  /** Ids found for some pairs, turned into answers tagged with how they were found. */
  function Tagged(ids: map<Key, int>, keys: set<Key>, tag: FetchType): (r: KeyResults)
    ensures forall k :: k in r <==> k in keys && k in ids
    ensures forall k :: k in r ==> r[k] == Resolved(Some(ids[k]), Some(tag))
  {
    map k | k in keys && k in ids :: Resolved(Some(ids[k]), Some(tag))
  }

  /** Answers for pairs the writes limiter dropped: no id, tagged as rate limited. */
  function RateLimitedResults(dropped: set<Key>): (r: KeyResults)
    ensures forall k :: k in r <==> k in dropped
    ensures forall k :: k in r ==> r[k] == Resolved(None, Some(RateLimited))
  {
    map k | k in dropped :: Resolved(None, Some(RateLimited))
  }

  /** `KeyResults.get_mapped_key_strings_to_ints()`: every pair with an id, and that id. */
  function MappedIds(results: KeyResults): (ids: map<Key, int>)
    ensures forall k :: k in ids <==> k in results && results[k].id.Some?
    ensures forall k :: k in ids ==> results[k].id == Some(ids[k])
  {
    map k | k in results && results[k].id.Some? :: results[k].id.value
  }

  /** Reading the ids back out of tagged answers gives the ids that were tagged. */
  lemma MappedTagged(ids: map<Key, int>, keys: set<Key>, tag: FetchType)
    requires ids.Keys <= keys
    ensures MappedIds(Tagged(ids, keys, tag)) == ids
  {
  }

  /** Looking up pairs that have nonzero ids leaves exactly the pairs that have none. */
  lemma UnmappedTagged(ids: map<Key, int>, keys: set<Key>, tag: FetchType)
    requires forall k :: k in ids ==> ids[k] != 0
    ensures Unmapped(Tagged(ids, keys, tag), keys) == keys - ids.Keys
  {
  }

  /**
   * The hard-coded strings every organization shares (`SHARED_STRINGS`) and
   * their reverse table (`REVERSE_SHARED_STRINGS`). The tables themselves
   * are not part of this model; they are taken as a parameter.
   */
  datatype SharedStrings = SharedStrings(ids: map<string, int>, strings: map<int, string>)
  {
    /** The two tables are inverse to each other and every shared id is positive. */
    ghost predicate Valid()
    {
      && (forall s :: s in ids ==> 0 < ids[s] && ids[s] in strings && strings[ids[s]] == s)
      && (forall i :: i in strings ==> strings[i] in ids && ids[strings[i]] == i)
    }

    /** The pairs of a collection whose string is not shared. */
    function Unshared(keys: set<Key>): (r: set<Key>)
      ensures forall k :: k in r <==> k in keys && k.1 !in ids
    {
      set k | k in keys && k.1 !in ids
    }
  }
}
