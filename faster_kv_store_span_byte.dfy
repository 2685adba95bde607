/**
 * FasterKvStoreSpanByte: a FASTER store keyed by the raw bytes TradeKey.Write
 * produces, driven by read-modify-write through its TradeKeyFunctions, whose
 * updaters are those of FasterFunctions.
 */
module FasterKvStoreSpanBytes {
  import opened Bytes
  import opened TradeKeys
  import opened Guids
  import opened GetOrCreate
  import opened FasterFunctions
  import opened Benchmarks

  class FasterKvStoreSpanByte {
    /** The records the store holds, keyed by the raw key bytes. */
    var records: map<seq<byte>, Guid>
    /** Whether pending operations spin until the next commit. */
    const waitForCommit: bool
    /** Whether the checkpoint thread was started. */
    const checkpointThreadStarted: bool

    /** Every variant but FasterKVNoCommit waits for commits and only then starts checkpointing. */
    constructor (kind: StoresEnum)
      ensures waitForCommit <==> kind != FasterKVNoCommit
      ensures checkpointThreadStarted == waitForCommit
      ensures records == map[]
    {
      waitForCommit := kind != FasterKVNoCommit;
      checkpointThreadStarted := kind != FasterKVNoCommit;
      records := map[];
    }

    /**
     * Writes the key into a SpanSize-byte buffer and runs one RMW on those
     * bytes. Returns the callbacks' output: the id recorded under the raw key,
     * `minted` if the raw key was new.
     */
    method GetOrCreateKey(key: TradeKey, minted: Guid, region: Region) returns (rmwOutput: Guid)
      modifies this
      ensures Resolution(rmwOutput, records) == GetOrAdd(old(records), RawKey(key), minted)
    {
      var keySpan := new byte[SpanSize(key)];
      var _ := WriteCorrected(key, keySpan);
      assert keySpan[..] == keySpan[..SpanSize(key)];
      var keySpanByte := keySpan[..];
      var resolution := Rmw(records, keySpanByte, minted, region);
      RmwIsGetOrAdd(records, keySpanByte, minted, region);
      records := resolution.entries;
      rmwOutput := resolution.id;
    }

    /** The async variant returns what the sync call returns. */
    method GetOrCreateKeyAsync(key: TradeKey, minted: Guid, region: Region) returns (rmwOutput: Guid)
      modifies this
      ensures Resolution(rmwOutput, records) == GetOrAdd(old(records), RawKey(key), minted)
    {
      rmwOutput := GetOrCreateKey(key, minted, region);
    }
  }

  /** A second call with the same key yields the first call's id and changes nothing. */
  lemma RepeatCallSameId(records: map<seq<byte>, Guid>, key: TradeKey, first: Guid, second: Guid)
    ensures var r1 := GetOrAdd(records, RawKey(key), first);
            var r2 := GetOrAdd(r1.entries, RawKey(key), second);
            r2.id == r1.id && r2.entries == r1.entries
  {
    GetOrAddIdempotent(records, RawKey(key), first, second);
  }

  /**
   * Keyed by the raw bytes, two different trade keys whose raw forms coincide
   * share one record: the second key is handed the first key's id.
   */
  lemma RawCollisionSharesId(records: map<seq<byte>, Guid>, date: DayNumber, first: Guid, second: Guid)
    requires RawKey(TradeKey(date, [97, 98], [99])) !in records
    ensures var r1 := GetOrAdd(records, RawKey(TradeKey(date, [97, 98], [99])), first);
            var r2 := GetOrAdd(r1.entries, RawKey(TradeKey(date, [97], [98, 99])), second);
            r1.id == first && r2.id == first && r2.entries == r1.entries
  {
    RawKeyCollision(date);
  }
}
