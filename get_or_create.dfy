/**
 * The get-or-create contract every backend implements, stated on a map from
 * keys to ids: return the id already stored for the key, or store the
 * candidate id and return it.
 */
module GetOrCreate {

  /** The id a call returns and the entries it leaves behind. */
  datatype Resolution<K, V> = Resolution(id: V, entries: map<K, V>)

  /** One get-or-create call; `candidate` is the minted id the backend would mint. */
  function GetOrAdd<K, V>(entries: map<K, V>, key: K, candidate: V): (r: Resolution<K, V>)
    ensures key in r.entries && r.entries[key] == r.id
    ensures key in entries ==> r.id == entries[key] && r.entries == entries
    ensures key !in entries ==> r.id == candidate
    ensures r.entries.Keys == entries.Keys + {key}
    ensures forall k :: k in entries ==> r.entries[k] == entries[k]
  {
    if key in entries then Resolution(entries[key], entries) else Resolution(candidate, entries[key := candidate])
  }

  /** A second call for the same key returns the first call's id and changes nothing, whatever its candidate. */
  lemma GetOrAddIdempotent<K, V>(entries: map<K, V>, key: K, first: V, second: V)
    ensures var r1 := GetOrAdd(entries, key, first);
            var r2 := GetOrAdd(r1.entries, key, second);
            r2.id == r1.id && r2.entries == r1.entries
  {
  }

  /** The entries after a sequence of calls, the i-th with candidate `minted(i)`. */
  function Replay<K, V>(entries: map<K, V>, keys: seq<K>, minted: nat -> V): map<K, V>
    decreases |keys|
  {
    if keys == [] then entries
    else GetOrAdd(Replay(entries, keys[..|keys| - 1], minted), keys[|keys| - 1], minted(|keys| - 1)).entries
  }

  /** The id returned by the i-th call of such a sequence. */
  function ResponseAt<K, V>(entries: map<K, V>, keys: seq<K>, minted: nat -> V, i: nat): V
    requires i < |keys|
  {
    GetOrAdd(Replay(entries, keys[..i], minted), keys[i], minted(i)).id
  }

  /** Replaying one more call extends the replay of the prefix. */
  lemma ReplayStep<K, V>(entries: map<K, V>, keys: seq<K>, minted: nat -> V, i: nat)
    requires i < |keys|
    ensures Replay(entries, keys[..i + 1], minted)
         == GetOrAdd(Replay(entries, keys[..i], minted), keys[i], minted(i)).entries
  {
    assert keys[..i + 1][..i] == keys[..i];
  }

  /** Calls never alter or remove an entry; they only add the keys they are asked about. */
  lemma {:induction false} ReplayKeepsEntries<K, V>(entries: map<K, V>, keys: seq<K>, minted: nat -> V)
    ensures Replay(entries, keys, minted).Keys == entries.Keys + set k | k in keys
    ensures forall k :: k in entries ==> Replay(entries, keys, minted)[k] == entries[k]
    decreases |keys|
  {
    if keys != [] {
      var init := keys[..|keys| - 1];
      ReplayKeepsEntries(entries, init, minted);
      assert (set k | k in keys) == (set k | k in init) + {keys[|keys| - 1]} by {
        assert keys == init + [keys[|keys| - 1]];
      }
    }
  }

  /** Every key of the sequence ends up mapped to the id its call returned. */
  lemma {:induction false} ReplayRecordsResponses<K, V>(entries: map<K, V>, keys: seq<K>, minted: nat -> V, i: nat)
    requires i < |keys|
    ensures keys[i] in Replay(entries, keys, minted)
    ensures Replay(entries, keys, minted)[keys[i]] == ResponseAt(entries, keys, minted, i)
    decreases |keys|
  {
    var n := |keys| - 1;
    var init := keys[..n];
    if i < n {
      ReplayRecordsResponses(entries, init, minted, i);
      assert init[..i] == keys[..i] && init[i] == keys[i];
    }
  }

  /**
   * Starting from no entries with pairwise distinct keys, every call creates:
   * the i-th key is mapped to the i-th candidate and nothing else is stored.
   */
  lemma {:induction false} ReplayDistinctFromEmpty<K, V>(keys: seq<K>, minted: nat -> V)
    requires forall i, j :: 0 <= i < j < |keys| ==> keys[i] != keys[j]
    ensures forall k :: k in Replay(map[], keys, minted) <==> k in keys
    ensures forall i :: 0 <= i < |keys| ==> Replay(map[], keys, minted)[keys[i]] == minted(i)
    decreases |keys|
  {
    if keys != [] {
      var n := |keys| - 1;
      var init := keys[..n];
      ReplayDistinctFromEmpty(init, minted);
      var before := Replay(map[], init, minted);
      assert keys[n] !in init;
      var after := Replay(map[], keys, minted);
      assert after == before[keys[n] := minted(n)];
      forall i | 0 <= i < n
        ensures after[keys[i]] == minted(i)
      {
        assert init[i] == keys[i];
      }
      assert keys == init + [keys[n]];
    }
  }

  /** When every key is already stored, the calls change nothing and return the stored ids. */
  lemma {:induction false} ReplayOnStoredKeys<K, V>(entries: map<K, V>, keys: seq<K>, minted: nat -> V)
    requires forall k :: k in keys ==> k in entries
    ensures Replay(entries, keys, minted) == entries
    ensures forall i :: 0 <= i < |keys| ==> ResponseAt(entries, keys, minted, i) == entries[keys[i]]
    decreases |keys|
  {
    if keys != [] {
      var init := keys[..|keys| - 1];
      ReplayOnStoredKeys(entries, init, minted);
      forall i | 0 <= i < |keys|
        ensures ResponseAt(entries, keys, minted, i) == entries[keys[i]]
      {
        if i < |keys| - 1 {
          assert keys[..i] == init[..i];
          ReplayOnStoredKeys(entries, keys[..i], minted);
        }
      }
    }
  }
}
