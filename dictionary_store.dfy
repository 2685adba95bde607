/** ConcurrentDictionaryStore: an in-memory dictionary keyed by TradeKey's field-wise equality. */
module DictionaryStore {
  import opened Wrappers
  import opened TradeKeys
  import opened Guids
  import opened GetOrCreate

  datatype StoreError = RecoveryNotSupported

  class ConcurrentDictionaryStore {
    /** The dictionary; TradeKey is a value type, so map keys compare as TradeKeyComparer does. */
    var entries: map<TradeKey, Guid>

    constructor ()
      ensures entries == map[]
    {
      entries := map[];
    }

    /**
     * GetOrAdd with a factory minting a new id: `minted` is that id, used only
     * when the key is absent.
     */
    method GetOrCreateKey(key: TradeKey, minted: Guid) returns (id: Guid)
      modifies this
      ensures Resolution(id, entries) == GetOrAdd(old(entries), key, minted)
    {
      if key in entries {
        id := entries[key];
      } else {
        entries := entries[key := minted];
        id := minted;
      }
    }

    /** The async variant wraps the sync result. */
    method GetOrCreateKeyAsync(key: TradeKey, minted: Guid) returns (id: Guid)
      modifies this
      ensures Resolution(id, entries) == GetOrAdd(old(entries), key, minted)
    {
      id := GetOrCreateKey(key, minted);
    }

    /** Cleanup does nothing. */
    method Cleanup()
      ensures entries == old(entries)
    {
    }

    /** Recover always throws NotImplementedException. */
    method Recover() returns (r: Result<(), StoreError>)
      ensures r == Err(RecoveryNotSupported)
    {
      r := Err(RecoveryNotSupported);
    }
  }

  /**
   * The correctness check of Benchmarks.GlobalSetup: two calls for the same key
   * return the same id, and the second leaves the dictionary as the first left it.
   */
  lemma SameKeySameId(entries: map<TradeKey, Guid>, key: TradeKey, first: Guid, second: Guid)
    ensures var r1 := GetOrAdd(entries, key, first);
            var r2 := GetOrAdd(r1.entries, key, second);
            r2.id == r1.id && r2.entries == r1.entries
  {
    GetOrAddIdempotent(entries, key, first, second);
  }

  /** Keys the comparer calls equal resolve to the same id. */
  lemma ComparerEqualKeysShareId(entries: map<TradeKey, Guid>, x: TradeKey, y: TradeKey, first: Guid, second: Guid)
    requires KeysEqual(x, y)
    ensures GetOrAdd(GetOrAdd(entries, x, first).entries, y, second).id == GetOrAdd(entries, x, first).id
  {
    KeysEqualIsEquality(x, y);
  }
}
