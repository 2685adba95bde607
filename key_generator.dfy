/**
 * DeterministicKeyGenerator: the fixed corpus of trade keys the correctness
 * checker writes and then verifies.
 */
module KeyGeneration {
  import opened Bytes
  import opened Wrappers
  import opened Texts
  import opened TradeKeys

  /** The i-th generated key: dated 2021-01-01, with i's decimal text as both ids. */
  function KeyFor(i: nat): TradeKey
  {
    TradeKey(Jan1st2021, Decimal(i), Decimal(i))
  }

  /** The first `count` generated keys, in index order. */
  function GeneratedKeys(count: nat): (keys: seq<TradeKey>)
    ensures |keys| == count
  {
    seq(count, i requires 0 <= i => KeyFor(i))
  }

  /** A list constructed with a negative capacity throws. */
  datatype GenerateError = NegativeCapacity

  /** Appends the keys one by one; a negative count fails before any key is made. */
  method Generate(count: int) returns (r: Result<seq<TradeKey>, GenerateError>)
    ensures count < 0 <==> r == Err(NegativeCapacity)
    ensures count >= 0 ==> r == Ok(GeneratedKeys(count))
  {
    if count < 0 {
      return Err(NegativeCapacity);
    }
    var keys: seq<TradeKey> := [];
    for i := 0 to count
      invariant |keys| == i
      invariant forall j :: 0 <= j < i ==> keys[j] == KeyFor(j)
    {
      var key := TradeKey(Jan1st2021, Decimal(i), Decimal(i));
      keys := keys + [key];
    }
    assert keys == GeneratedKeys(count);
    r := Ok(keys);
  }

  /** Every generated key is dated 2021-01-01 and carries the same decimal text in both ids. */
  lemma GeneratedKeyShape(count: nat, i: nat)
    requires i < count
    ensures CivilFromDayNumber(GeneratedKeys(count)[i].tradeDate) == CivilDate(2021, 1, 1)
    ensures GeneratedKeys(count)[i].exchangeLinkId == GeneratedKeys(count)[i].exchangeTradeId == Decimal(i)
  {
    Jan1st2021IsCivil();
  }

  /** The generated keys are pairwise distinct. */
  lemma GeneratedKeysDistinct(count: nat)
    ensures forall i, j :: 0 <= i < j < count ==> GeneratedKeys(count)[i] != GeneratedKeys(count)[j]
  {
    forall i, j | 0 <= i < j < count
      ensures GeneratedKeys(count)[i] != GeneratedKeys(count)[j]
    {
      DecimalInjective(i, j);
    }
  }

  /** Even their raw byte forms are pairwise distinct, so the raw-keyed stores keep them apart. */
  lemma GeneratedRawKeysDistinct(count: nat)
    ensures forall i, j :: 0 <= i < j < count ==> RawKey(GeneratedKeys(count)[i]) != RawKey(GeneratedKeys(count)[j])
  {
    forall i, j | 0 <= i < j < count
      ensures RawKey(GeneratedKeys(count)[i]) != RawKey(GeneratedKeys(count)[j])
    {
      var x, y := KeyFor(i), KeyFor(j);
      if RawKey(x) == RawKey(y) {
        RawKeyLayout(x);
        RawKeyLayout(y);
        assert |Decimal(i)| == |Decimal(j)|;
        assert Decimal(i) == RawKey(x)[4..4 + |Decimal(i)|];
        DecimalInjective(i, j);
        assert false;
      }
    }
  }

  /** A longer run generates the shorter run's keys first: generation is deterministic. */
  lemma GeneratedKeysPrefix(m: nat, n: nat)
    requires m <= n
    ensures GeneratedKeys(m) == GeneratedKeys(n)[..m]
  {
  }

  /** For every generated key Write's returned count is exactly the key's SpanSize. */
  lemma GeneratedWriteCountExact(count: nat)
    ensures forall i :: 0 <= i < count ==>
              4 + 2 * |GeneratedKeys(count)[i].exchangeLinkId| == |RawKey(GeneratedKeys(count)[i])| == SpanSize(GeneratedKeys(count)[i])
  {
  }
}
