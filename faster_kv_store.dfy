/**
 * FasterKvStore: a FASTER key-value store keyed by TradeKey itself, driven by
 * read-modify-write through the TradeKeyFunctions callbacks. The hybrid log is
 * modelled by the map of records it holds.
 */
module FasterKvStores {
  import opened Wrappers
  import opened TradeKeys
  import opened Guids
  import opened GetOrCreate
  import opened FasterFunctions
  import opened Benchmarks

  datatype StoreError = NotImplemented

  class FasterKvStore {
    /** The records the store holds, one id per trade key. */
    var records: map<TradeKey, Guid>
    /** Whether the checkpoint directory exists on disk. */
    var checkpointDirectory: bool
    /** Whether the custom key and value serializers are installed in the settings. */
    const serializersInstalled: bool
    /** Whether an RMW waits for the next commit before returning. */
    const waitForCommit: bool

    /**
     * Every variant but plain FasterKV installs the serializers; every variant
     * but FasterKVNoCommit waits for commits. The store starts with no records.
     */
    constructor (kind: StoresEnum, checkpointsOnDisk: bool)
      ensures serializersInstalled <==> kind != FasterKV
      ensures waitForCommit <==> kind != FasterKVNoCommit
      ensures records == map[] && checkpointDirectory == checkpointsOnDisk
    {
      serializersInstalled := kind != FasterKV;
      waitForCommit := kind != FasterKVNoCommit;
      records := map[];
      checkpointDirectory := checkpointsOnDisk;
    }

    /** The synchronous entry point is not implemented by this store. */
    method GetOrCreateKey(key: TradeKey) returns (r: Result<Guid, StoreError>)
      ensures r == Err(NotImplemented)
    {
      r := Err(NotImplemented);
    }

    /**
     * One RMW on `key`: `minted` is the id InitialUpdater would create, `region`
     * where FASTER finds an existing record. Returns the callbacks' output: the
     * id of the key, which the records keep, a new key's being `minted`.
     */
    method GetOrCreateKeyAsync(key: TradeKey, minted: Guid, region: Region) returns (rmwOutput: Guid)
      modifies this
      ensures Resolution(rmwOutput, records) == GetOrAdd(old(records), key, minted)
      ensures checkpointDirectory == old(checkpointDirectory)
    {
      var resolution := Rmw(records, key, minted, region);
      RmwIsGetOrAdd(records, key, minted, region);
      records := resolution.entries;
      rmwOutput := resolution.id;
    }

    /** Cleanup deletes the checkpoint directory if there is one; the records stay. */
    method Cleanup()
      modifies this
      ensures !checkpointDirectory && records == old(records)
    {
      if checkpointDirectory {
        checkpointDirectory := false;
      }
    }
  }

  /**
   * Keyed by the TradeKey value, this store keeps apart two keys whose raw
   * byte forms coincide: each gets its own id.
   */
  lemma SeparatesRawCollision(records: map<TradeKey, Guid>, date: DayNumber, first: Guid, second: Guid)
    requires TradeKey(date, [97, 98], [99]) !in records && TradeKey(date, [97], [98, 99]) !in records
    ensures var r1 := GetOrAdd(records, TradeKey(date, [97, 98], [99]), first);
            var r2 := GetOrAdd(r1.entries, TradeKey(date, [97], [98, 99]), second);
            r1.id == first && r2.id == second && r2.entries[TradeKey(date, [97, 98], [99])] == first
  {
    RawKeyCollision(date);
  }
}
