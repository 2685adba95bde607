/** The benchmark program's enums, its case filter and its key selection. */
module Benchmarks {
  import opened Wrappers
  import opened TradeKeys

  datatype StoresEnum =
    | RedisFsync1Sec | RedisFsyncAlways | Redis | Postgres | Lightning
    | FasterKV | FasterKVSerialiser | FasterKVNoCommit | FasterKVSpanByte | ConcurrentDictionary

  datatype KeyRandomness = Random | Exist

  /** The three values a case's "[Count=…, Store=…, Key=…]" parameter string carries. */
  datatype CaseParameters = CaseParameters(count: int, store: StoresEnum, key: KeyRandomness)

  datatype FilterError = UnparsableParameters

  /** The Redis stores, which time out beyond ten thousand parallel iterations. */
  predicate IsRedis(store: StoresEnum)
  {
    store == RedisFsyncAlways || store == RedisFsync1Sec || store == Redis
  }

  /**
   * The SimpleFilter of Config: `None` stands for a parameter string that the
   * pattern or the int/enum parsers reject, which makes the filter throw.
   */
  function Filter(parameters: Option<CaseParameters>): (r: Result<bool, FilterError>)
    ensures parameters.None? <==> r.Err?
    ensures parameters.Some? ==>
              (r == Ok(false) <==> parameters.value.count > 10_000 && IsRedis(parameters.value.store))
  {
    match parameters
    case None => Err(UnparsableParameters)
    case Some(p) =>
      if p.count > 10_000 then
        match p.store
        case RedisFsyncAlways => Ok(false)
        case RedisFsync1Sec => Ok(false)
        case Redis => Ok(false)
        case _ => Ok(true)
      else Ok(true)
  }

  /** C#'s `%`: the remainder takes the sign of the dividend. */
  function CsRemainder(a: int, n: int): (r: int)
    requires n > 0
    ensures -n < r < n
    ensures a >= 0 ==> r == a % n
  {
    if a >= 0 then a % n else -((-a) % n)
  }

  datatype GetKeyError = DivideByZero | IndexOutOfRange

  /**
   * Benchmarks.GetKey: a new random key in Random mode (given, since it comes
   * from Random.Shared and Guid.NewGuid), otherwise the stored key at i modulo
   * the number of keys.
   */
  function GetKey(mode: KeyRandomness, keys: seq<TradeKey>, i: int, randomKey: TradeKey): (r: Result<TradeKey, GetKeyError>)
    ensures mode == Random ==> r == Ok(randomKey)
    ensures mode == Exist && keys == [] ==> r == Err(DivideByZero)
    ensures mode == Exist && keys != [] && i >= 0 ==> r == Ok(keys[i % |keys|])
  {
    match mode
    case Random => Ok(randomKey)
    case Exist =>
      if keys == [] then Err(DivideByZero)
      else
        var index := CsRemainder(i, |keys|);
        if index < 0 then Err(IndexOutOfRange) else Ok(keys[index])
  }

  /** A negative index fails only when its C# remainder is negative. */
  lemma GetKeyNegativeIndex(keys: seq<TradeKey>, i: int, randomKey: TradeKey)
    requires keys != [] && i < 0
    ensures GetKey(Exist, keys, i, randomKey).Err? <==> (-i) % |keys| != 0
  {
  }
}
