/**
 * LightningLmdbStore: an LMDB database keyed by TradeKey.Write's raw bytes,
 * holding each id's sixteen bytes. Each call runs in its own transaction.
 */
module LmdbStore {
  import opened Bytes
  import opened Wrappers
  import opened TradeKeys
  import opened Guids
  import opened GetOrCreate

  /**
   * The MDB result codes this store meets; Other stands for every code a put
   * can fail with besides KeyExist (a full map, a full transaction, ...).
   */
  datatype ResultCode = Success | KeyExist | NotFound | Other(code: int)

  datatype LmdbError =
    | GetFailed(code: ResultCode)   // the Get after KeyExist did not succeed
    | ValueNotAGuid(length: nat)   // the stored value is not sixteen bytes

  type Database = map<seq<byte>, seq<byte>>

  /**
   * tx.Put(db, key, value, PutOptions.NoOverwrite) on a transaction's view.
   * Whether LMDB can store a new record depends on its environment, so the
   * code it refuses with, if any, is a parameter.
   */
  function PutNoOverwrite(view: Database, key: seq<byte>, value: seq<byte>, refusal: Option<int>): (r: (ResultCode, Database))
    ensures r.0 == Success <==> key !in view && refusal.None?
    ensures r.0 == KeyExist <==> key in view
    ensures r.0 == Success ==> r.1 == view[key := value]
    ensures r.0 != Success ==> r.1 == view
  {
    if key in view then (KeyExist, view)
    else if refusal.Some? then (Other(refusal.value), view)
    else (Success, view[key := value])
  }

  /** tx.Get(db, key) on a transaction's view. */
  function Get(view: Database, key: seq<byte>): (ResultCode, seq<byte>)
  {
    if key in view then (Success, view[key]) else (NotFound, [])
  }

  /** What one GetOrCreateKey call returns, leaves committed, and whether it calls Commit. */
  datatype Step = Step(result: Result<Guid, LmdbError>, db: Database, committed: bool)

  /**
   * One call: a present raw key returns its stored id without committing;
   * otherwise the call commits and returns the minted id, which is stored
   * only if the put succeeded. Any put result but KeyExist takes that path.
   */
  function GetOrCreateStep(db: Database, key: TradeKey, minted: Guid, refusal: Option<int>): (step: Step)
    ensures step.committed <==> RawKey(key) !in db
    ensures step.committed ==> step.result == Ok(minted)
    ensures step.db == db || (step.committed && refusal.None? && step.db == db[RawKey(key) := GuidBytes(minted)])
  {
    var k := RawKey(key);
    if k !in db then
      if refusal.None? then Step(Ok(minted), db[k := GuidBytes(minted)], true) else Step(Ok(minted), db, true)
    else
      match GuidFromBytes(db[k])
      case Ok(id) => Step(Ok(id), db, false)
      case Err(_) => Step(Err(ValueNotAGuid(|db[k]|)), db, false)
  }

  class LightningLmdbStore {
    /** The committed contents of the database. */
    var db: Database
    /** How many times a write transaction's Commit has been called. */
    var commits: nat

    /** Opens the environment, truncates the database and commits the truncation. */
    constructor ()
      ensures db == map[] && commits == 1
    {
      db := map[];
      commits := 1;
    }

    /**
     * Put-if-absent, else get: the key is the SpanSize-byte raw form, the value
     * the minted id's bytes. The KeyExist path returns the stored id and
     * abandons its transaction; every other put result commits and returns
     * the minted id, stored or not.
     */
    method GetOrCreateKey(key: TradeKey, minted: Guid, refusal: Option<int>) returns (r: Result<Guid, LmdbError>)
      modifies this
      ensures var step := GetOrCreateStep(old(db), key, minted, refusal);
              r == step.result && db == step.db
              && commits == old(commits) + (if step.committed then 1 else 0)
    {
      var keyBytes := new byte[SpanSize(key)];
      var _ := WriteCorrected(key, keyBytes);
      assert keyBytes[..] == keyBytes[..SpanSize(key)];
      var k := keyBytes[..];
      var id := minted;
      var valueBytes := GuidBytes(id);

      var tx := db;
      var put := PutNoOverwrite(tx, k, valueBytes, refusal);
      var result := put.0;
      tx := put.1;

      if result == KeyExist {
        var got := Get(tx, k);
        if got.0 != Success {
          return Err(GetFailed(got.0));
        }
        var stored := GuidFromBytes(got.1);
        r := match stored
          case Ok(g) => Ok(g)
          case Err(_) => Err(ValueNotAGuid(|got.1|));
        return;
      }

      db := tx;
      commits := commits + 1;
      r := Ok(id);
    }

    /** The async variant runs the same transaction and wraps its result. */
    method GetOrCreateKeyAsync(key: TradeKey, minted: Guid, refusal: Option<int>) returns (r: Result<Guid, LmdbError>)
      modifies this
      ensures var step := GetOrCreateStep(old(db), key, minted, refusal);
              r == step.result && db == step.db
              && commits == old(commits) + (if step.committed then 1 else 0)
    {
      r := GetOrCreateKey(key, minted, refusal);
    }
  }

  /** The database holds exactly the byte form of an id map keyed by raw keys. */
  function Encoded(ids: map<seq<byte>, Guid>): Database
  {
    map k | k in ids :: GuidBytes(ids[k])
  }

  /**
   * A call is a get-or-create on the id map the database encodes, keyed by the
   * raw form: it returns that map's id and commits exactly when the raw key
   * was absent. The database then encodes the get-or-create's new map, unless
   * LMDB refused the put: then it is unchanged and the returned id is stored
   * nowhere.
   */
  lemma StepIsGetOrAdd(ids: map<seq<byte>, Guid>, key: TradeKey, minted: Guid, refusal: Option<int>)
    ensures var step := GetOrCreateStep(Encoded(ids), key, minted, refusal);
            var expected := GetOrAdd(ids, RawKey(key), minted);
            && step.result == Ok(expected.id)
            && (step.committed <==> RawKey(key) !in ids)
            && (RawKey(key) in ids || refusal.None? ==> step.db == Encoded(expected.entries))
            && (RawKey(key) !in ids && refusal.Some? ==> step.db == Encoded(ids))
  {
    var k := RawKey(key);
    if k in ids {
      GuidRoundTrip(ids[k]);
    } else {
      assert Encoded(ids)[k := GuidBytes(minted)] == Encoded(ids[k := minted]);
    }
  }

  /**
   * Once a call has stored (or found) a key's id, a second call with the same
   * key returns that id, changes nothing and commits nothing.
   */
  lemma SecondCallReturnsFirstId(ids: map<seq<byte>, Guid>, key: TradeKey, first: Guid, second: Guid,
                                 refusal1: Option<int>, refusal2: Option<int>)
    ensures var s1 := GetOrCreateStep(Encoded(ids), key, first, refusal1);
            var s2 := GetOrCreateStep(s1.db, key, second, refusal2);
            && s1.result.Ok?
            && (RawKey(key) in ids || refusal1.None? ==> s2.result == s1.result && s2.db == s1.db && !s2.committed)
  {
    StepIsGetOrAdd(ids, key, first, refusal1);
    if RawKey(key) in ids || refusal1.None? {
      var r1 := GetOrAdd(ids, RawKey(key), first);
      StepIsGetOrAdd(r1.entries, key, second, refusal2);
    }
  }

  /**
   * A refused put still commits and hands out its minted id, but stores
   * nothing: the next call for the same key creates again and returns its
   * own minted id.
   */
  lemma RefusedPutForgetsId(ids: map<seq<byte>, Guid>, key: TradeKey, first: Guid, second: Guid,
                            code: int, refusal2: Option<int>)
    requires RawKey(key) !in ids
    ensures var s1 := GetOrCreateStep(Encoded(ids), key, first, Some(code));
            var s2 := GetOrCreateStep(s1.db, key, second, refusal2);
            s1.result == Ok(first) && s1.committed && s1.db == Encoded(ids)
            && s2.result == Ok(second) && s2.committed
  {
    StepIsGetOrAdd(ids, key, first, Some(code));
  }

  /**
   * Two different trade keys whose raw forms coincide share one record: once
   * the first is stored, the second is handed the first one's id.
   */
  lemma RawCollisionSharesId(ids: map<seq<byte>, Guid>, date: DayNumber, first: Guid, second: Guid, refusal2: Option<int>)
    requires RawKey(TradeKey(date, [97, 98], [99])) !in ids
    ensures var s1 := GetOrCreateStep(Encoded(ids), TradeKey(date, [97, 98], [99]), first, None);
            var s2 := GetOrCreateStep(s1.db, TradeKey(date, [97], [98, 99]), second, refusal2);
            s1.result == Ok(first) && s2.result == Ok(first) && !s2.committed
  {
    var x, y := TradeKey(date, [97, 98], [99]), TradeKey(date, [97], [98, 99]);
    RawKeyCollision(date);
    StepIsGetOrAdd(ids, x, first, None);
    StepIsGetOrAdd(GetOrAdd(ids, RawKey(x), first).entries, y, second, refusal2);
  }
}
