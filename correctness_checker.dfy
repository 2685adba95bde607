/**
 * The correctness checker: a Run pass installs an id for every generated key
 * and kills the process; a later Verify pass recovers the store and checks
 * that every key still resolves to an id minted between the Run pass's start
 * and the Verify pass's start.
 *
 * The store is seen as a get-or-create map. The time the checker reads from
 * an id (`new Ulid(guid).Time`, in milliseconds) is `timeOf(id)`; it is a mint
 * time only for ids minted as ULIDs. The id minted for the i-th call of a pass
 * is `minted(i)`.
 */
module CorrectnessChecker {
  import opened Wrappers
  import opened Bytes
  import opened TradeKeys
  import opened Guids
  import opened GetOrCreate
  import opened Benchmarks
  import opened KeyGeneration

  datatype Mode = Run | Verify

  datatype Options = Options(run: Mode, store: StoresEnum, number: int, minTime: int)

  /** The store operations a pass performs, in order. */
  datatype StoreCall = Cleanup | Recover | GetOrCreateKey(key: TradeKey)

  datatype Failure =
    | KeyGenerationFailed                                             // a negative Number
    | RecoveryFailed                                                  // the store's Recover threw
    | KeyAfterStart(index: nat, id: Guid, keyTime: int, startTime: int)  // minted after Verify began
    | KeyBeforeMinTime(index: nat, id: Guid, keyTime: int, minTime: int) // minted before the Run pass

  datatype Outcome = FailFast(added: nat) | Verified(count: nat) | Failed(failure: Failure)

  /** One GetOrCreateKey call per key, in order. */
  function Creations(keys: seq<TradeKey>): (calls: seq<StoreCall>)
    ensures |calls| == |keys|
  {
    seq(|keys|, i requires 0 <= i < |keys| => GetOrCreateKey(keys[i]))
  }

  predicate InWindow(keyTime: int, minTime: int, startTime: int)
  {
    minTime <= keyTime <= startTime
  }

  /**
   * Run mode: Cleanup, then one GetOrCreateKey per generated key in index
   * order, then FailFast. Returns the calls made and the store's map after them.
   */
  method RunPass(number: int, minted: nat -> Guid)
    returns (outcome: Outcome, calls: seq<StoreCall>, entries: map<TradeKey, Guid>)
    ensures number < 0 ==> outcome == Failed(KeyGenerationFailed) && calls == [Cleanup] && entries == map[]
    ensures number >= 0 ==>
              && outcome == FailFast(number)
              && calls == [Cleanup] + Creations(GeneratedKeys(number))
              && entries == Replay(map[], GeneratedKeys(number), minted)
  {
    calls := [Cleanup];
    entries := map[];
    var generated := Generate(number);
    if generated.Err? {
      return Failed(KeyGenerationFailed), calls, entries;
    }
    var keys := generated.value;
    for i := 0 to |keys|
      invariant calls == [Cleanup] + Creations(keys[..i])
      invariant entries == Replay(map[], keys[..i], minted)
    {
      ReplayStep(map[], keys, minted, i);
      assert Creations(keys[..i + 1]) == Creations(keys[..i]) + [GetOrCreateKey(keys[i])];
      var resolution := GetOrAdd(entries, keys[i], minted(i));
      entries := resolution.entries;
      calls := calls + [GetOrCreateKey(keys[i])];
    }
    assert keys[..|keys|] == keys;
    outcome := FailFast(number);
  }

  /** The ids of the first n calls all lie in [minTime, startTime]. */
  predicate WindowHolds(recovered: map<TradeKey, Guid>, keys: seq<TradeKey>, minted: nat -> Guid,
                        timeOf: Guid -> int, minTime: int, startTime: int, n: nat)
    requires n <= |keys|
  {
    forall j :: 0 <= j < n ==> InWindow(timeOf(ResponseAt(recovered, keys, minted, j)), minTime, startTime)
  }

  /** The pass's key checks stopped at call `index`, whose id fell outside the window. */
  predicate FailsFirstAt(recovered: map<TradeKey, Guid>, keys: seq<TradeKey>, minted: nat -> Guid,
                         timeOf: Guid -> int, minTime: int, startTime: int, f: Failure)
  {
    match f
    case KeyAfterStart(index, id, keyTime, start) =>
      && index < |keys| && id == ResponseAt(recovered, keys, minted, index)
      && keyTime == timeOf(id) && keyTime > startTime && start == startTime
      && WindowHolds(recovered, keys, minted, timeOf, minTime, startTime, index)
    case KeyBeforeMinTime(index, id, keyTime, min) =>
      && index < |keys| && id == ResponseAt(recovered, keys, minted, index)
      && keyTime == timeOf(id) && keyTime <= startTime && keyTime < minTime && min == minTime
      && WindowHolds(recovered, keys, minted, timeOf, minTime, startTime, index)
    case _ => false
  }

  /**
   * The loop of Verify mode over the keys: each key's id must not be newer
   * than `startTime` (checked first) nor older than `minTime`; the first key
   * that fails either check ends the pass.
   */
  method CheckKeys(recovered: map<TradeKey, Guid>, keys: seq<TradeKey>, minted: nat -> Guid,
                   timeOf: Guid -> int, minTime: int, startTime: int)
    returns (outcome: Outcome)
    ensures outcome == Verified(|keys|) <==> WindowHolds(recovered, keys, minted, timeOf, minTime, startTime, |keys|)
    ensures outcome != Verified(|keys|) ==>
              outcome.Failed? && FailsFirstAt(recovered, keys, minted, timeOf, minTime, startTime, outcome.failure)
  {
    var entries := recovered;
    for i := 0 to |keys|
      invariant entries == Replay(recovered, keys[..i], minted)
      invariant WindowHolds(recovered, keys, minted, timeOf, minTime, startTime, i)
    {
      ReplayStep(recovered, keys, minted, i);
      var resolution := GetOrAdd(entries, keys[i], minted(i));
      var id := resolution.id;
      assert id == ResponseAt(recovered, keys, minted, i);
      var keyTime := timeOf(id);
      if keyTime > startTime {
        return Failed(KeyAfterStart(i, id, keyTime, startTime));
      }
      if keyTime < minTime {
        return Failed(KeyBeforeMinTime(i, id, keyTime, minTime));
      }
      entries := resolution.entries;
    }
    outcome := Verified(|keys|);
  }

  /**
   * Verify mode: `startTime` is taken before Recover, which yields the
   * recovered map or throws (None); then the generated keys are checked.
   */
  method VerifyPass(number: int, minTime: int, startTime: int, recovered: Option<map<TradeKey, Guid>>,
                    minted: nat -> Guid, timeOf: Guid -> int)
    returns (outcome: Outcome)
    ensures recovered.None? ==> outcome == Failed(RecoveryFailed)
    ensures recovered.Some? && number < 0 ==> outcome == Failed(KeyGenerationFailed)
    ensures recovered.Some? && number >= 0 ==>
              && (outcome == Verified(number) <==>
                    WindowHolds(recovered.value, GeneratedKeys(number), minted, timeOf, minTime, startTime, number))
              && (outcome != Verified(number) ==>
                    outcome.Failed?
                    && FailsFirstAt(recovered.value, GeneratedKeys(number), minted, timeOf, minTime, startTime, outcome.failure))
  {
    if recovered.None? {
      return Failed(RecoveryFailed);
    }
    var generated := Generate(number);
    if generated.Err? {
      return Failed(KeyGenerationFailed);
    }
    outcome := CheckKeys(recovered.value, generated.value, minted, timeOf, minTime, startTime);
  }

  /**
   * The dispatch on the options' mode. A Run pass ends in FailFast exactly when
   * keys can be generated; a Verify pass succeeds exactly when recovery works
   * and every key's id lies in [MinTime, startTime].
   */
  method Check(options: Options, startTime: int, recovered: Option<map<TradeKey, Guid>>,
               minted: nat -> Guid, timeOf: Guid -> int)
    returns (outcome: Outcome)
    ensures options.run == Run ==>
              (outcome.FailFast? <==> options.number >= 0) && (outcome.FailFast? ==> outcome.added == options.number)
    ensures options.run == Verify ==>
              && (outcome.Verified? <==>
                    && recovered.Some? && options.number >= 0
                    && WindowHolds(recovered.value, GeneratedKeys(options.number), minted, timeOf,
                                   options.minTime, startTime, options.number))
              && (outcome.Verified? ==> outcome.count == options.number)
  {
    if options.run == Run {
      var calls, entries;
      outcome, calls, entries := RunPass(options.number, minted);
    } else {
      outcome := VerifyPass(options.number, options.minTime, startTime, recovered, minted, timeOf);
    }
  }

  /** After a Run pass every generated key holds the id minted for its own call. */
  lemma RunInstallsMintedIds(number: nat, minted: nat -> Guid)
    ensures forall k :: k in Replay(map[], GeneratedKeys(number), minted) <==> k in GeneratedKeys(number)
    ensures forall i :: 0 <= i < number ==> Replay(map[], GeneratedKeys(number), minted)[GeneratedKeys(number)[i]] == minted(i)
  {
    GeneratedKeysDistinct(number);
    ReplayDistinctFromEmpty(GeneratedKeys(number), minted);
  }

  /** The raw forms of a key sequence: what a store keyed by Write's bytes is asked about. */
  function RawKeys(keys: seq<TradeKey>): (raw: seq<seq<byte>>)
    ensures |raw| == |keys|
  {
    seq(|keys|, i requires 0 <= i < |keys| => RawKey(keys[i]))
  }

  /**
   * The same Run pass on raw keys, as LMDB and FasterKvStoreSpanByte (the
   * default store) are keyed: every generated key's raw form holds the id
   * minted for its own call, and nothing else is stored.
   */
  lemma RawRunInstallsMintedIds(number: nat, minted: nat -> Guid)
    ensures forall k :: k in Replay(map[], RawKeys(GeneratedKeys(number)), minted) <==> k in RawKeys(GeneratedKeys(number))
    ensures forall i :: 0 <= i < number ==>
              var stored := Replay(map[], RawKeys(GeneratedKeys(number)), minted);
              RawKey(KeyFor(i)) in stored && stored[RawKey(KeyFor(i))] == minted(i)
  {
    var raw := RawKeys(GeneratedKeys(number));
    GeneratedRawKeysDistinct(number);
    ReplayDistinctFromEmpty(raw, minted);
    forall i | 0 <= i < number
      ensures RawKey(KeyFor(i)) in Replay(map[], raw, minted)
      ensures Replay(map[], raw, minted)[RawKey(KeyFor(i))] == minted(i)
    {
      assert raw[i] == RawKey(KeyFor(i));
    }
  }

  /**
   * On raw keys too, a faithful recovery of a Run pass whose ids' times lie
   * in the window makes every Verify call return the Run pass's id.
   */
  lemma RawRecoveredRunPassesVerify(number: nat, runMinted: nat -> Guid, verifyMinted: nat -> Guid,
                                    timeOf: Guid -> int, minTime: int, startTime: int)
    requires forall i :: 0 <= i < number ==> InWindow(timeOf(runMinted(i)), minTime, startTime)
    ensures forall i :: 0 <= i < number ==>
              var raw := RawKeys(GeneratedKeys(number));
              var id := ResponseAt(Replay(map[], raw, runMinted), raw, verifyMinted, i);
              id == runMinted(i) && InWindow(timeOf(id), minTime, startTime)
  {
    var raw := RawKeys(GeneratedKeys(number));
    var recovered := Replay(map[], raw, runMinted);
    RawRunInstallsMintedIds(number, runMinted);
    ReplayOnStoredKeys(recovered, raw, verifyMinted);
    forall i | 0 <= i < number
      ensures recovered[raw[i]] == runMinted(i)
    {
      assert raw[i] == RawKey(KeyFor(i));
    }
  }

  /**
   * If recovery restores exactly what the Run pass left, and the Run pass
   * minted its ids between MinTime and the Verify pass's start, then every
   * Verify call returns the Run pass's id and every check passes.
   */
  lemma RecoveredRunPassesVerify(number: nat, runMinted: nat -> Guid, verifyMinted: nat -> Guid,
                                 timeOf: Guid -> int, minTime: int, startTime: int)
    requires forall i :: 0 <= i < number ==> InWindow(timeOf(runMinted(i)), minTime, startTime)
    ensures forall i :: 0 <= i < number ==>
              var id := ResponseAt(Replay(map[], GeneratedKeys(number), runMinted), GeneratedKeys(number), verifyMinted, i);
              id == runMinted(i) && InWindow(timeOf(id), minTime, startTime)
  {
    var keys := GeneratedKeys(number);
    var recovered := Replay(map[], keys, runMinted);
    RunInstallsMintedIds(number, runMinted);
    ReplayOnStoredKeys(recovered, keys, verifyMinted);
  }

  /**
   * A key the recovered store lost is created anew by Verify; if the fresh
   * id's time is later than startTime, it fails the upper-bound check.
   */
  lemma LostKeyIsDetected(number: nat, recovered: map<TradeKey, Guid>, minted: nat -> Guid,
                          timeOf: Guid -> int, startTime: int, i: nat)
    requires i < number && KeyFor(i) !in recovered && timeOf(minted(i)) > startTime
    ensures ResponseAt(recovered, GeneratedKeys(number), minted, i) == minted(i)
    ensures timeOf(ResponseAt(recovered, GeneratedKeys(number), minted, i)) > startTime
  {
    var keys := GeneratedKeys(number);
    GeneratedKeysDistinct(number);
    ReplayKeepsEntries(recovered, keys[..i], minted);
    assert keys[i] !in keys[..i];
  }

  /**
   * A key whose recovered id predates MinTime (Cleanup was not run before the
   * Run pass) keeps that id in Verify and fails the lower-bound check.
   */
  lemma StaleKeyIsDetected(number: nat, recovered: map<TradeKey, Guid>, minted: nat -> Guid,
                           timeOf: Guid -> int, minTime: int, i: nat)
    requires i < number && KeyFor(i) in recovered && timeOf(recovered[KeyFor(i)]) < minTime
    ensures ResponseAt(recovered, GeneratedKeys(number), minted, i) == recovered[KeyFor(i)]
    ensures timeOf(ResponseAt(recovered, GeneratedKeys(number), minted, i)) < minTime
  {
    ReplayKeepsEntries(recovered, GeneratedKeys(number)[..i], minted);
  }

  // ---- Alternation through the last-run file ----

  /** What the last-run file's text parses to. */
  datatype LastRunText = Blank | Instant(time: int) | Unparsable

  datatype LastRunFile = NoFile | Holding(text: LastRunText)

  datatype AlternationError = StampUnparsable

  /** The recorded time: the default text form keeps whole seconds, so milliseconds are dropped. */
  function Stamp(now: nat): (t: nat)
    ensures t <= now < t + 1000 && t % 1000 == 0
  {
    now / 1000 * 1000
  }

  /**
   * A missing or empty file: record the current time and run. Otherwise parse
   * the recorded time, delete the file and verify from that time on.
   */
  function Alternation(file: LastRunFile, options: Options, now: nat): (r: (Result<Options, AlternationError>, LastRunFile))
    ensures r.0.Err? <==> file == Holding(Unparsable)
    ensures r.0.Err? ==> r.1 == file
    ensures r.0.Ok? ==> r.0.value.store == options.store && r.0.value.number == options.number
    ensures r.0.Ok? && r.0.value.run == Run ==> r.0.value.minTime == options.minTime && r.1 == Holding(Instant(Stamp(now)))
    ensures r.0.Ok? && r.0.value.run == Verify ==> file.Holding? && file.text == Instant(r.0.value.minTime) && r.1 == NoFile
  {
    if file == NoFile || file == Holding(Blank) then
      (Ok(options.(run := Run)), Holding(Instant(Stamp(now))))
    else if file.text.Instant? then
      (Ok(options.(run := Verify, minTime := file.text.time)), NoFile)
    else
      (Err(StampUnparsable), file)
  }

  class LastRunRecord {
    var file: LastRunFile

    constructor (existing: LastRunFile)
      ensures file == existing
    {
      file := existing;
    }

    /** Chooses the next pass's options and updates the file; Check then runs that pass. */
    method Alternate(options: Options, now: nat) returns (r: Result<Options, AlternationError>)
      modifies this
      ensures (r, file) == Alternation(old(file), options, now)
    {
      var lastRun: LastRunText := Blank;
      if file.Holding? {
        lastRun := file.text;
      }
      if lastRun == Blank {
        file := Holding(Instant(Stamp(now)));
        r := Ok(options.(run := Run));
      } else {
        if lastRun == Unparsable {
          return Err(StampUnparsable);
        }
        file := NoFile;
        r := Ok(options.(run := Verify, minTime := lastRun.time));
      }
    }
  }

  /**
   * From no file, two invocations run, then verify with MinTime at most the
   * first invocation's time, and leave no file: the cycle starts over.
   */
  lemma AlternationCycles(options: Options, now: nat, later: nat)
    ensures var (first, afterRun) := Alternation(NoFile, options, now);
            var (second, afterVerify) := Alternation(afterRun, options, later);
            && first == Ok(options.(run := Run))
            && second.Ok? && second.value.run == Verify
            && now - 1000 < second.value.minTime <= now
            && afterVerify == NoFile
  {
  }
}
