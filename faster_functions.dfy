/**
 * The read-modify-write callbacks (TradeKeyFunctions) both FASTER stores hand
 * to their sessions. Each callback only assigns to its ref arguments; here it
 * returns what it assigns: the record's value and the operation's output.
 */
module FasterFunctions {
  import opened Guids
  import opened GetOrCreate

  datatype Assigned = Assigned(value: Guid, output: Guid)

  /** InitialUpdater: the record is new; the freshly minted id becomes both value and output. */
  function InitialUpdater(minted: Guid): Assigned
  {
    Assigned(minted, minted)
  }

  /** InPlaceUpdater: the record is in the mutable region; output the value, leave it alone. */
  function InPlaceUpdater(value: Guid): Assigned
  {
    Assigned(value, value)
  }

  /** CopyUpdater: the record is copied forward; the new value and the output are the old value. */
  function CopyUpdater(oldValue: Guid): Assigned
  {
    Assigned(oldValue, oldValue)
  }

  /** SingleWriter and ConcurrentWriter: the destination and the output are the source. */
  function Writer(src: Guid): Assigned
  {
    Assigned(src, src)
  }

  /** Where FASTER finds an existing record, which decides the updater it calls. */
  datatype Region = Mutable | ReadOnly

  /** One RMW over the record map, dispatched to the callbacks as FASTER does. */
  function Rmw<K>(records: map<K, Guid>, key: K, minted: Guid, region: Region): (r: Resolution<K, Guid>)
    ensures key in r.entries && r.entries[key] == r.id
    ensures r.entries.Keys == records.Keys + {key}
  {
    if key !in records then
      var a := InitialUpdater(minted);
      Resolution(a.output, records[key := a.value])
    else if region == Mutable then
      var a := InPlaceUpdater(records[key]);
      Resolution(a.output, records[key := a.value])
    else
      var a := CopyUpdater(records[key]);
      Resolution(a.output, records[key := a.value])
  }

  /** Every callback hands out the value it stores: the output is the record's id. */
  lemma CallbacksOutputStoredValue(minted: Guid, value: Guid)
    ensures InitialUpdater(minted).output == InitialUpdater(minted).value == minted
    ensures InPlaceUpdater(value) == Assigned(value, value)
    ensures CopyUpdater(value).value == value && CopyUpdater(value).output == value
    ensures Writer(value).value == value && Writer(value).output == value
  {
  }

  /**
   * An RMW is a get-or-create whichever updater runs: a new key gets the minted
   * id, an existing id is returned and kept, in place or across a copy.
   */
  lemma RmwIsGetOrAdd<K>(records: map<K, Guid>, key: K, minted: Guid, region: Region)
    ensures Rmw(records, key, minted, region) == GetOrAdd(records, key, minted)
  {
    if key in records {
      assert records[key := records[key]] == records;
    }
  }

  /** The log region an existing record happens to be in does not change the outcome. */
  lemma RegionIrrelevant<K>(records: map<K, Guid>, key: K, minted: Guid)
    ensures Rmw(records, key, minted, Mutable) == Rmw(records, key, minted, ReadOnly)
  {
    RmwIsGetOrAdd(records, key, minted, Mutable);
    RmwIsGetOrAdd(records, key, minted, ReadOnly);
  }
}
