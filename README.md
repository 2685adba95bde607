# KeyValue.Benchmarks in Dafny

KeyValue.Benchmarks compares key-value stores on one operation. Given a
`TradeKey` (a trade date, an exchange link id and an exchange trade id), it
returns the identifier already assigned to that key, or else creates and
stores a new one. The stores are FASTER (keyed by the `TradeKey` value or by its raw bytes),
LMDB and an in-memory `ConcurrentDictionary`. A separate correctness checker
writes a deterministic corpus of keys, kills the process, recovers the store
and checks that every key still resolves to an id minted in the right time
window.

This project models that core:

- `TradeKeys` (trade_key.dfy): the key, its `SpanSize`, the raw byte form
  `Write` fills in place, the field-wise comparer and its hash, and the
  `ToString` text. `Bytes`, `Guids` and `Texts` give the little-endian
  `int`, the 16-byte `Guid` layout and ASCII text these use.
- `FasterSerializers` (faster_serializers.dfy): `TradeKeySerializer` and
  `GuidSerializer` as classes over a `Streams.ByteStream`. Each serializer
  sets and clears its stream, and writes or reads records with a cursor.
- `FasterFunctions` (faster_functions.dfy): the read-modify-write callbacks.
  `GetOrCreate` (get_or_create.dfy) gives the get-or-add map semantics every
  store implements, and sequences of such calls.
- One class per store: `FasterKvStores.FasterKvStore`,
  `FasterKvStoreSpanBytes.FasterKvStoreSpanByte`,
  `LmdbStore.LightningLmdbStore` and `DictionaryStore.ConcurrentDictionaryStore`.
  Each holds its records as a map field that its methods update.
- `Benchmarks` (benchmarks.dfy): the benchmark-case filter and `GetKey`.
- `KeyGeneration` (key_generator.dfy) and `CorrectnessChecker`
  (correctness_checker.dfy): the key corpus, the Run and Verify passes, and
  the alternation between them through the last-run file.

Outside effects are parameters:
- A freshly minted id (`Ulid.NewUlid`, `Guid.NewGuid`) is `minted`.
- The current time is `now` or `startTime`.
- The creation time the checker reads from an id, `new Ulid(guid).Time`, is `timeOf(id)`. It is a real mint time only for ids minted as ULIDs (`ConcurrentDictionaryStore`, `FasterKvStore`). LMDB and `FasterKvStoreSpanByte` mint random `Guid.NewGuid()` ids, whose "time" is random bits.
- The log region in which FASTER finds an existing record is `region`.
- What a store's `Recover` restores is `recovered`; `None` means it throws.
- The code with which LMDB refuses to store a new record (a full map, say) is `refusal`; `None` means the put succeeds.

Exceptions become `Result` errors.

## Model

| member | source | states |
|---|---|---|
| Bytes.Int32RoundTrip | KeyValue.Benchmarks/Stores/FasterKvStore.cs:186-191 | reading back the four little-endian bytes of an int gives the int |
| Guids.GuidFromBytes | KeyValue.Benchmarks/Stores/LightningLmdbStore.cs:58 | building a Guid from a byte span fails exactly when the span is not 16 bytes |
| Guids.GuidRoundTrip | KeyValue.Benchmarks/Stores/LightningLmdbStore.cs:39-58 | the 16 bytes of an id read back as that same id |
| Guids.GuidBytesInjective | KeyValue.Benchmarks/Stores/LightningLmdbStore.cs:39-45 | distinct ids have distinct byte forms |
| Texts.Decimal | KeyValue.CorrectnessChecker/DeterministicKeyGenerator.cs:12-13 | `i.ToString()` of a non-negative int is a non-empty text; its digits and injectivity are the two rows below |
| Texts.DecimalInjective | KeyValue.CorrectnessChecker/DeterministicKeyGenerator.cs:12-13 | different numbers have different decimal texts |
| Texts.DecimalIsDigits | KeyValue.CorrectnessChecker/DeterministicKeyGenerator.cs:12-13 | a number's decimal text consists of ASCII digits only |
| Texts.GetBytes | KeyValue.Benchmarks/Program.cs:353 | encoding into a span at an offset succeeds exactly when the text fits; the span then holds the text at the offset, the count is its length, and no other byte changes |
| TradeKeys.SpanSize | KeyValue.Benchmarks/Program.cs:333 | defines the size as 4 day-number bytes plus both ids' lengths; `RawKeyLayout` proves the raw form is exactly this long |
| TradeKeys.RawKey | KeyValue.Benchmarks/Program.cs:335-361 | defines the bytes Write leaves in the span: the day number, the link id, the trade id; `Write` and `WriteCorrected` are proved to produce it |
| TradeKeys.RawKeyLayout | KeyValue.Benchmarks/Program.cs:333-361 | the raw form is SpanSize bytes long: the day number (decoding back), then the link id, then the trade id |
| TradeKeys.Write | KeyValue.Benchmarks/Program.cs:335-362 | a span shorter than SpanSize fails and is untouched; otherwise its first SpanSize bytes become the raw form, the rest is unchanged, and the count returned is 4 + 2·(link id bytes) |
| TradeKeys.WriteCorrected | KeyValue.Benchmarks/Program.cs:335-362 | the same buffer effect as Write, returning the number of bytes written |
| TradeKeys.WriteCountMismatch | KeyValue.Benchmarks/Program.cs:359 | for link "a" and trade "bc", Write reports 6 bytes but writes 7 |
| TradeKeys.WriteCountExactIff | KeyValue.Benchmarks/Program.cs:353-361 | Write's count equals the bytes written if and only if both ids have the same length |
| TradeKeys.RawKeyCollision | KeyValue.Benchmarks/Program.cs:353-358 | two different keys ("ab","c") and ("a","bc") on one date have the same raw form |
| TradeKeys.KeysEqual | KeyValue.Benchmarks/Program.cs:311-314 | defines the comparer's equality as the three-field conjunction; `KeysEqualIsEquality` proves it is value equality |
| TradeKeys.KeyHash | KeyValue.Benchmarks/Program.cs:316-319 | defines the hash as the combiner applied to the three fields; `KeyHashRespectsEquality` proves it agrees with the comparer |
| TradeKeys.KeysEqualIsEquality | KeyValue.Benchmarks/Program.cs:311-314 | the comparer calls two keys equal if and only if all three fields are equal |
| TradeKeys.KeyHashRespectsEquality | KeyValue.Benchmarks/Program.cs:316-319 | keys the comparer calls equal hash alike, whatever the combining function |
| TradeKeys.CivilFromDayNumber | KeyValue.Benchmarks/Program.cs:330 | the calendar date of a day number has a year of at least 1, a month in 1..12 and a day of at least 1; the round-trip row below states that it is the right date |
| TradeKeys.DayNumberOf | KeyValue.CorrectnessChecker/DeterministicKeyGenerator.cs:11 | defines `DateOnly(year, month, day).DayNumber`: the days of the whole years before, of the months before in that year (Gregorian leap rule), and the day |
| TradeKeys.CivilFromDayNumberRoundTrip | KeyValue.Benchmarks/Program.cs:330 | the computed date is a real date, its day within its month's length in its year, and its day number is the one it was computed from |
| TradeKeys.CivilFromDayNumberInjective | KeyValue.Benchmarks/Program.cs:330 | distinct day numbers give distinct dates |
| TradeKeys.Jan1st2021IsCivil | KeyValue.CorrectnessChecker/DeterministicKeyGenerator.cs:11 | `new DateOnly(2021, 1, 1)` has day number 737790, and day number 737790 is 2021-01-01 |
| TradeKeys.ToString | KeyValue.Benchmarks/Program.cs:328-331 | defines the text as the date, a hyphen, the link id, a hyphen, the trade id; the collision row below shows it is not injective |
| TradeKeys.ToStringCollision | KeyValue.Benchmarks/Program.cs:328-331 | ToString is not injective: ("a-b","c") and ("a","b-c") on one date print alike |
| Streams.ByteStream.Write | KeyValue.Benchmarks/Stores/FasterKvStore.cs:210-211 | writing appends the bytes to the stream's content |
| Streams.ByteStream.ReadExactly | KeyValue.Benchmarks/Stores/FasterKvStore.cs:230-236 | reading n bytes yields the next n unread bytes and advances by n, or fails at the end of the stream |
| FasterSerializers.SerializedRecordLayout | KeyValue.Benchmarks/Stores/FasterKvStore.cs:180-212 | a serialized key is a 4-byte length L followed by exactly L = 6 + link + trade bytes of body |
| FasterSerializers.EncodeBody | KeyValue.Benchmarks/Stores/FasterKvStore.cs:182-205 | filling the 100-byte scratch buffer succeeds exactly when the body fits and yields the record body; otherwise it fails with the error of the step that overflows |
| FasterSerializers.DecodeBody | KeyValue.Benchmarks/Stores/FasterKvStore.cs:238-256 | parsing a body with the bytesRead cursor gives the key or the index, slice or day-number error the source raises |
| FasterSerializers.BodyRoundTrip | KeyValue.Benchmarks/Stores/FasterKvStore.cs:180-256 | parsing the body of a key that fits gives the key back |
| FasterSerializers.RecordBodyInjective | KeyValue.Benchmarks/Stores/FasterKvStore.cs:195-203 | the length-prefixed body is injective on keys that fit |
| FasterSerializers.RecordBodySeparatesRawCollision | KeyValue.Benchmarks/Stores/FasterKvStore.cs:195-203 | the serialized bodies of the two keys whose raw forms collide differ |
| FasterSerializers.ReadRecord | KeyValue.Benchmarks/Stores/FasterKvStore.cs:224-257 | reading a record never consumes more than the unread bytes, and one that parses consumes at least 10: the 4-byte length and a 6-byte minimal body |
| FasterSerializers.RecordRoundTrip | KeyValue.Benchmarks/Stores/FasterKvStore.cs:207-236 | deserializing a serialized key returns it and consumes exactly its record, whatever follows |
| FasterSerializers.TradeKeySerializer.constructor | KeyValue.Benchmarks/Stores/FasterKvStore.cs:171-173 | a new serializer has no stream |
| FasterSerializers.TradeKeySerializer.BeginSerialize | KeyValue.Benchmarks/Stores/FasterKvStore.cs:175-178 | the stream becomes the one given |
| FasterSerializers.TradeKeySerializer.Serialize | KeyValue.Benchmarks/Stores/FasterKvStore.cs:180-212 | succeeds exactly when the body fits, then appends the serialized record; on failure the stream is unchanged |
| FasterSerializers.TradeKeySerializer.EndSerialize | KeyValue.Benchmarks/Stores/FasterKvStore.cs:214-217 | the stream is cleared |
| FasterSerializers.TradeKeySerializer.BeginDeserialize | KeyValue.Benchmarks/Stores/FasterKvStore.cs:219-222 | the stream becomes the one given |
| FasterSerializers.TradeKeySerializer.Deserialize | KeyValue.Benchmarks/Stores/FasterKvStore.cs:224-257 | the result and the bytes consumed are those of reading one record from the unread bytes; the content is unchanged |
| FasterSerializers.TradeKeySerializer.EndDeserialize | KeyValue.Benchmarks/Stores/FasterKvStore.cs:259-262 | the stream is cleared |
| FasterSerializers.ReadGuid | KeyValue.Benchmarks/Stores/FasterKvStore.cs:291-296 | reading an id succeeds exactly when 16 bytes remain, and never consumes more than remain |
| FasterSerializers.GuidRecordRoundTrip | KeyValue.Benchmarks/Stores/FasterKvStore.cs:274-296 | reading 16 bytes after writing an id returns the id |
| FasterSerializers.GuidSerializer.constructor | KeyValue.Benchmarks/Stores/FasterKvStore.cs:265-267 | a new serializer has no stream |
| FasterSerializers.GuidSerializer.BeginSerialize | KeyValue.Benchmarks/Stores/FasterKvStore.cs:269-272 | the stream becomes the one given |
| FasterSerializers.GuidSerializer.Serialize | KeyValue.Benchmarks/Stores/FasterKvStore.cs:274-279 | appends the id's 16 bytes |
| FasterSerializers.GuidSerializer.EndSerialize | KeyValue.Benchmarks/Stores/FasterKvStore.cs:281-284 | the stream is cleared |
| FasterSerializers.GuidSerializer.BeginDeserialize | KeyValue.Benchmarks/Stores/FasterKvStore.cs:286-289 | the stream becomes the one given |
| FasterSerializers.GuidSerializer.Deserialize | KeyValue.Benchmarks/Stores/FasterKvStore.cs:291-296 | reads the next 16 bytes as an id, or fails at the end of the stream |
| FasterSerializers.GuidSerializer.EndDeserialize | KeyValue.Benchmarks/Stores/FasterKvStore.cs:298-301 | the stream is cleared |
| GetOrCreate.GetOrAdd | KeyValue.Benchmarks/Stores/ConcurrentDictionaryStore.cs:14-17 | the key ends up mapped to the returned id; a present key keeps its id and the map is unchanged; an absent key gets the candidate; no other entry changes |
| GetOrCreate.GetOrAddIdempotent | KeyValue.Benchmarks/Program.cs:173-180 | a second call for the same key returns the first call's id and changes nothing |
| GetOrCreate.ReplayKeepsEntries | KeyValue.Benchmarks/Stores/ConcurrentDictionaryStore.cs:14-17 | a sequence of calls never alters or removes an entry and adds exactly the keys asked about |
| GetOrCreate.ReplayRecordsResponses | KeyValue.Benchmarks/Stores/ConcurrentDictionaryStore.cs:14-17 | after a sequence of calls every key maps to the id its call returned |
| GetOrCreate.ReplayDistinctFromEmpty | KeyValue.CorrectnessChecker/Program.cs:30-41 | from an empty store, pairwise distinct keys each get the id minted for their own call and nothing else is stored |
| GetOrCreate.ReplayOnStoredKeys | KeyValue.CorrectnessChecker/Program.cs:58-82 | when every key is already stored, the calls change nothing and return the stored ids |
| FasterFunctions.InitialUpdater | KeyValue.Benchmarks/Stores/FasterKvStore.cs:107-117 | defines the new record's value and the output as the freshly minted id |
| FasterFunctions.InPlaceUpdater | KeyValue.Benchmarks/Stores/FasterKvStore.cs:94-104 | defines the output as the record's value, which stays as it is |
| FasterFunctions.CopyUpdater | KeyValue.Benchmarks/Stores/FasterKvStore.cs:81-91 | defines the copied value and the output as the old value |
| FasterFunctions.Writer | KeyValue.Benchmarks/Stores/FasterKvStoreSpanByte.cs:91-115 | defines the destination and the output as the source, for SingleWriter and ConcurrentWriter alike |
| FasterFunctions.Rmw | KeyValue.Benchmarks/Stores/FasterKvStore.cs:81-117 | after a read-modify-write the key is stored with the id the operation outputs, and it is the only key added |
| FasterFunctions.CallbacksOutputStoredValue | KeyValue.Benchmarks/Stores/FasterKvStoreSpanByte.cs:91-152 | every callback outputs the value it stores: InitialUpdater the fresh id, InPlaceUpdater and CopyUpdater the old value, the writers the source |
| FasterFunctions.RmwIsGetOrAdd | KeyValue.Benchmarks/Stores/FasterKvStore.cs:81-117 | a read-modify-write through the callbacks is a get-or-add, whichever updater runs |
| FasterFunctions.RegionIrrelevant | KeyValue.Benchmarks/Stores/FasterKvStore.cs:81-104 | the outcome is the same whether an existing record is updated in place or copied |
| FasterKvStores.FasterKvStore.constructor | KeyValue.Benchmarks/Stores/FasterKvStore.cs:20-39 | serializers are installed unless the variant is FasterKV; commits are awaited unless it is FasterKVNoCommit; the store is empty |
| FasterKvStores.FasterKvStore.GetOrCreateKey | KeyValue.Benchmarks/Stores/FasterKvStore.cs:71-74 | always fails as not implemented |
| FasterKvStores.FasterKvStore.GetOrCreateKeyAsync | KeyValue.Benchmarks/Stores/FasterKvStore.cs:120-137 | the RMW's output and the new records are those of a get-or-add of the key with the minted id; the checkpoint directory is untouched |
| FasterKvStores.FasterKvStore.Cleanup | KeyValue.Benchmarks/Stores/FasterKvStore.cs:139-145 | the checkpoint directory no longer exists and the records are unchanged |
| FasterKvStores.SeparatesRawCollision | KeyValue.Benchmarks/Stores/FasterKvStore.cs:10-14 | keyed by value, two keys whose raw forms collide get their own ids |
| FasterKvStoreSpanBytes.FasterKvStoreSpanByte.constructor | KeyValue.Benchmarks/Stores/FasterKvStoreSpanByte.cs:15-62 | commits are awaited, and the checkpoint thread started, exactly when the variant is not FasterKVNoCommit; the store is empty |
| FasterKvStoreSpanBytes.FasterKvStoreSpanByte.GetOrCreateKey | KeyValue.Benchmarks/Stores/FasterKvStoreSpanByte.cs:64-84 | the RMW's output and the new records are those of a get-or-add of the key's raw form with the minted id |
| FasterKvStoreSpanBytes.FasterKvStoreSpanByte.GetOrCreateKeyAsync | KeyValue.Benchmarks/Stores/FasterKvStoreSpanByte.cs:169-172 | does exactly what the sync call does |
| FasterKvStoreSpanBytes.RepeatCallSameId | KeyValue.Benchmarks/Program.cs:173-180 | a second call for the same key returns the first id and changes nothing |
| FasterKvStoreSpanBytes.RawCollisionSharesId | KeyValue.Benchmarks/Stores/FasterKvStoreSpanByte.cs:70-76 | two different keys whose raw forms collide share one record: the second gets the first one's id |
| LmdbStore.LightningLmdbStore.constructor | KeyValue.Benchmarks/Stores/LightningLmdbStore.cs:10-23 | the database is truncated to empty and the truncation committed |
| LmdbStore.PutNoOverwrite | KeyValue.Benchmarks/Stores/LightningLmdbStore.cs:47 | the put reports KeyExist exactly when the key is present, and succeeds exactly when it is absent and LMDB does not refuse it; only a successful put changes the view, by adding the value |
| LmdbStore.GetOrCreateStep | KeyValue.Benchmarks/Stores/LightningLmdbStore.cs:25-64 | a call commits exactly when the raw key is absent, and then returns the minted id; the database either stays as it was or, for an unrefused put, gains the minted id's bytes under the raw key |
| LmdbStore.LightningLmdbStore.GetOrCreateKey | KeyValue.Benchmarks/Stores/LightningLmdbStore.cs:25-64 | the result, the new database and the commit count are those of one step: a present raw key returns the stored id (or fails if the value is not 16 bytes) without committing; any other put result commits and returns the minted id, stored only if the put succeeded |
| LmdbStore.LightningLmdbStore.GetOrCreateKeyAsync | KeyValue.Benchmarks/Stores/LightningLmdbStore.cs:66-101 | the same transaction and result as the sync call |
| LmdbStore.StepIsGetOrAdd | KeyValue.Benchmarks/Stores/LightningLmdbStore.cs:39-63 | on a database holding id bytes, a call returns the id of a get-or-add on the raw key and commits exactly when that key was absent; the database encodes the get-or-add's new map unless the put was refused, and is then unchanged |
| LmdbStore.SecondCallReturnsFirstId | KeyValue.Benchmarks/Stores/LightningLmdbStore.cs:47-63 | once the first call found or stored the key, a second call returns the first id, leaves the database as it was and does not commit |
| LmdbStore.RefusedPutForgetsId | KeyValue.Benchmarks/Stores/LightningLmdbStore.cs:47-63 | a refused put still commits and returns its minted id but stores nothing, so the next call for the key returns its own minted id |
| LmdbStore.RawCollisionSharesId | KeyValue.Benchmarks/Stores/LightningLmdbStore.cs:35-59 | two different keys whose raw forms collide share one record: once the first is stored, the second gets its id without a commit |
| DictionaryStore.ConcurrentDictionaryStore.constructor | KeyValue.Benchmarks/Stores/ConcurrentDictionaryStore.cs:9-12 | the dictionary starts empty |
| DictionaryStore.ConcurrentDictionaryStore.GetOrCreateKey | KeyValue.Benchmarks/Stores/ConcurrentDictionaryStore.cs:14-17 | the returned id and the new dictionary are those of a get-or-add with the minted id |
| DictionaryStore.ConcurrentDictionaryStore.GetOrCreateKeyAsync | KeyValue.Benchmarks/Stores/ConcurrentDictionaryStore.cs:19-22 | does exactly what the sync call does |
| DictionaryStore.ConcurrentDictionaryStore.Cleanup | KeyValue.Benchmarks/Stores/ConcurrentDictionaryStore.cs:24-26 | the dictionary is unchanged |
| DictionaryStore.ConcurrentDictionaryStore.Recover | KeyValue.Benchmarks/Stores/ConcurrentDictionaryStore.cs:28-31 | always fails: recovery is not supported |
| DictionaryStore.SameKeySameId | KeyValue.Benchmarks/Program.cs:173-180 | a second call for the same key returns the first id and leaves the dictionary as it was |
| DictionaryStore.ComparerEqualKeysShareId | KeyValue.Benchmarks/Stores/ConcurrentDictionaryStore.cs:11 | keys the comparer calls equal resolve to the same id |
| Benchmarks.Filter | KeyValue.Benchmarks/Program.cs:48-83 | an unparsable case throws; a parsed case is excluded exactly when it has more than 10 000 iterations on a Redis store |
| Benchmarks.CsRemainder | KeyValue.Benchmarks/Program.cs:247 | C#'s remainder lies strictly between -n and n and agrees with the mathematical one for non-negative dividends |
| Benchmarks.GetKey | KeyValue.Benchmarks/Program.cs:243-248 | Random mode yields the new random key; Exist mode with no keys divides by zero; with keys and a non-negative index it yields the key at index mod count |
| Benchmarks.GetKeyNegativeIndex | KeyValue.Benchmarks/Program.cs:247 | a negative index fails exactly when it is not a multiple of the key count |
| KeyGeneration.GeneratedKeys | KeyValue.CorrectnessChecker/DeterministicKeyGenerator.cs:3-20 | the corpus of a run has exactly count keys, the i-th being key i |
| KeyGeneration.Generate | KeyValue.CorrectnessChecker/DeterministicKeyGenerator.cs:3-20 | a negative count fails; otherwise the result is the first count generated keys in index order |
| KeyGeneration.GeneratedKeyShape | KeyValue.CorrectnessChecker/DeterministicKeyGenerator.cs:9-14 | key i is dated 2021-01-01 and has i's decimal text as both link id and trade id |
| KeyGeneration.GeneratedKeysDistinct | KeyValue.CorrectnessChecker/DeterministicKeyGenerator.cs:7-14 | the generated keys are pairwise distinct |
| KeyGeneration.GeneratedRawKeysDistinct | KeyValue.CorrectnessChecker/DeterministicKeyGenerator.cs:7-14 | the generated keys' raw forms are pairwise distinct too, so the raw-keyed stores keep them apart |
| KeyGeneration.GeneratedKeysPrefix | KeyValue.CorrectnessChecker/DeterministicKeyGenerator.cs:3-20 | a longer run generates the shorter run's keys first |
| KeyGeneration.GeneratedWriteCountExact | KeyValue.CorrectnessChecker/DeterministicKeyGenerator.cs:12-13 | for every generated key, Write's count equals the bytes written and SpanSize |
| CorrectnessChecker.RunPass | KeyValue.CorrectnessChecker/Program.cs:30-48 | Cleanup, then one GetOrCreateKey per generated key in order, then FailFast; the store then holds the replay of those calls; a negative count fails at generation |
| CorrectnessChecker.CheckKeys | KeyValue.CorrectnessChecker/Program.cs:60-81 | succeeds if and only if every key's id time lies in [MinTime, startTime]; otherwise it fails at the first key outside the window, the upper bound checked first |
| CorrectnessChecker.VerifyPass | KeyValue.CorrectnessChecker/Program.cs:49-82 | a Recover failure ends the pass; then the generated keys are checked as above against the recovered store |
| CorrectnessChecker.Check | KeyValue.CorrectnessChecker/Program.cs:26-89 | in Run mode ends in FailFast exactly when keys can be generated; in Verify mode succeeds exactly when recovery works and every id lies in the window |
| CorrectnessChecker.RunInstallsMintedIds | KeyValue.CorrectnessChecker/Program.cs:30-41 | after a Run pass the store holds exactly the generated keys, each with the id minted for its call |
| CorrectnessChecker.RecoveredRunPassesVerify | KeyValue.CorrectnessChecker/Program.cs:49-82 | if recovery restores the Run pass's state and its ids were minted in the window, every Verify call returns the Run pass's id and passes |
| CorrectnessChecker.RawRunInstallsMintedIds | KeyValue.CorrectnessChecker/Program.cs:30-41 | a Run pass on raw keys, as LMDB and FasterKvStoreSpanByte (the default store) are keyed, leaves exactly the generated keys' raw forms, each with the id minted for its own call |
| CorrectnessChecker.RawRecoveredRunPassesVerify | KeyValue.CorrectnessChecker/Program.cs:49-82 | on raw keys too, a faithful recovery of a Run pass whose ids' times lie in the window makes every Verify call return the Run pass's id and pass |
| CorrectnessChecker.LostKeyIsDetected | KeyValue.CorrectnessChecker/Program.cs:68-71 | a key the recovery lost gets a fresh id; if that id's time is greater than startTime it fails the upper-bound check |
| CorrectnessChecker.StaleKeyIsDetected | KeyValue.CorrectnessChecker/Program.cs:73-78 | a recovered id older than MinTime is returned unchanged and fails the lower-bound check |
| CorrectnessChecker.Stamp | KeyValue.CorrectnessChecker/Program.cs:104 | the recorded time is the current time truncated to whole seconds: at most now and less than a second before it |
| CorrectnessChecker.Alternation | KeyValue.CorrectnessChecker/Program.cs:91-124 | an unparsable file fails and is left alone; otherwise the store and count are kept, a Run records a stamp of now, and a Verify takes MinTime from the file and deletes it |
| CorrectnessChecker.LastRunRecord.constructor | KeyValue.CorrectnessChecker/Program.cs:93-100 | the record holds the file found on disk |
| CorrectnessChecker.LastRunRecord.Alternate | KeyValue.CorrectnessChecker/Program.cs:91-124 | the chosen options and the file left behind are those of the alternation rule |
| CorrectnessChecker.AlternationCycles | KeyValue.CorrectnessChecker/Program.cs:102-123 | from no file, one invocation runs and records a time; the next verifies with MinTime within the second before that time and leaves no file |

## Left out

- Checkpointing: the FASTER checkpoint threads, their timing and cancellation, and `Dispose` are not modelled. This is timing and concurrency. The model does not capture that `FasterKvStoreSpanByte.Dispose` joins a thread it may never have started.
- FASTER session plumbing is not modelled: `RMWAsync`, pending completion, `CompletePending`, `WaitForCommitAsync` and `Recover`.
- FasterKvStores.FasterKvStore.GetOrCreateKeyAsync: returns the callbacks' output, not the `guid` local the source returns. That local is passed as FASTER's input argument, and the FASTER library's overloads decide whether it ever receives the output. The FASTER library is not part of this model.
- FasterKvStoreSpanBytes.FasterKvStoreSpanByte.GetOrCreateKey: returns the callbacks' output, for the same reason.
- FasterKvStores.FasterKvStore.Cleanup: checkpoints themselves are not modelled; only whether the checkpoint directory exists is.
- FasterSerializers.TradeKeySerializer.Serialize: requires a stream set by BeginSerialize. A serializer without a stream throws a null reference in the source; FASTER always calls Begin first. The same holds for Deserialize and for GuidSerializer.
- LmdbStore.LightningLmdbStore.GetOrCreateKey: after a refused put the model counts the source's `tx.Commit()` call and leaves the database unchanged. What LMDB does with a transaction whose put failed is not modelled.
- CorrectnessChecker.RawRecoveredRunPassesVerify: LMDB and `FasterKvStoreSpanByte` mint random `Guid.NewGuid()` ids (LightningLmdbStore.cs:39, 76; FasterKvStoreSpanByte.cs:125). Their ULID "time" carries no mint time, so their ids do not meet the premise that every id's time lies in the window. In the source, Verify against these stores throws at the first key whose random time falls outside the window, however faithful the recovery. The lemma is a property of the checker's protocol on raw keys, not of a shipped store.
- CorrectnessChecker.RecoveredRunPassesVerify: no shipped `TradeKey`-keyed store meets its premise either. `ConcurrentDictionaryStore.Recover` always fails, and `FasterKvStore`'s sync `GetOrCreateKey`, which the checker calls, always throws. The lemma is a property of the checker's protocol.
- CorrectnessChecker.LostKeyIsDetected: a ULID's time is whole milliseconds, while `startTime` is a finer `DateTimeOffset.UtcNow`. A key re-minted within the same millisecond as `startTime` can therefore pass the upper-bound check, so the lemma assumes the fresh id's time exceeds `startTime` rather than deriving it.
- Streams.ByteStream.Write: a .NET stream writes at `Position` and advances it. The model keeps a write end (appending to the content) and a read cursor (`position`) apart. FASTER gives the serializers separate streams for writing and reading, so no modelled sequence writes and then reads one stream without a seek.
- Concurrency is not modelled. Under parallel races only one writer wins; the model is sequential and states idempotence instead.
- ULID generation, the ULID timestamp of a Guid and `ToGuidFast` are not modelled. They come from the NUlid library and a memory-layout reinterpretation. Fresh ids are parameters and their times a function `timeOf`.
- UTF-8 transcoding is not modelled. Ids are ASCII byte sequences, where the character count equals the byte count.
- Parsing is not modelled: the benchmark-case regex with its int and enum parsing, and `DateTimeOffset` text parsing and formatting. The filter takes the parsed triple, or `None` when parsing fails. The last-run file holds the parsed time, or a marker that it does not parse.
- The `yyyy-MM-dd` text of a date: the date it prints is proved right (`TradeKeys.CivilFromDayNumberRoundTrip`), but the zero-padded digits are not proved against the numbers. About the text, only the non-injectivity of `ToString` is proved.
- FasterSerializers.TradeKeySerializer.Deserialize: the source allocates the body buffer on the stack from the length prefix (FasterKvStore.cs:234), so a prefix too large for the stack ends the process with an uncatchable stack overflow. The model has no stack limit: such a prefix reads as `StreamEnded` when the stream is shorter than it, and as a record otherwise.
- File I/O, console output, `Environment.FailFast` and `Environment.Exit` are not modelled. Outcomes are returned values.
- Store creation by `StoresEnum` is not modelled. The correctness checker sees its store as a get-or-add map. `ConcurrentDictionaryStore` is proved to be one keyed by `TradeKey`. LMDB and `FasterKvStoreSpanByte` (the checker's default store) are proved to be one keyed by the raw form. `CorrectnessChecker.RawRunInstallsMintedIds` and `RawRecoveredRunPassesVerify` restate the checker's protocol on raw keys. `FasterKvStore` is the exception: the checker calls the sync `GetOrCreateKey`, which always throws for that store, so a pass against it throws at its first key. The Cleanup/Recover interface the checker calls on a store is not part of this model.
- `PostgresStore` and `RedisTradeKeyStore` are not modelled. Their semantics live in a database server or on the network.
- The benchmark drivers are not modelled: `RunParallelLoop`, `RunParallelAsyncLoop`, `RunEnumerableAsyncLoop` and `CreateTradeKey`. They are measurement and concurrency plumbing with random keys.
- The two raw-keyed stores (LMDB and FasterKvStoreSpanByte) give two different keys the same record when their raw forms collide. `TradeKeys.RawKeyCollision` and the two `RawCollisionSharesId` lemmas prove this as the code behaves. The benchmark's keys are GUID strings of one fixed length and the checker's keys are provably collision-free (`KeyGeneration.GeneratedRawKeysDistinct`), so this is recorded as a property rather than a finding.

## Findings

| source | as written | input that shows it | evidently intended | confidence | as-written member | corrected member |
|---|---|---|---|---|---|---|
| KeyValue.Benchmarks/Program.cs:359 | `Write` adds the link id's byte count a second time instead of the trade id's, so it returns 4 + 2·(link bytes) | link id "a", trade id "bc": 7 bytes written, 6 returned | return the number of bytes written, 4 + link bytes + trade bytes = SpanSize | not executed; high | TradeKeys.WriteCountMismatch | TradeKeys.WriteCorrected |

Every caller in the repository discards `Write`'s return value. The stores here call
`TradeKeys.WriteCorrected`, which fills the buffer exactly as `TradeKeys.Write` does.
