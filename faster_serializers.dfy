/**
 * The object serializers FasterKvStore installs for its hybrid log:
 * TradeKeySerializer writes a length-prefixed record, GuidSerializer sixteen bytes.
 */
module FasterSerializers {
  import opened Bytes
  import opened Texts
  import opened Wrappers
  import opened TradeKeys
  import opened Guids
  import opened Streams

  /** The stack scratch buffer Serialize encodes a key into. */
  const ScratchSize: nat := 100

  /** The record body fits the scratch buffer: day number, two length bytes and both ids. */
  predicate BodyFits(key: TradeKey)
  {
    6 + |key.exchangeLinkId| + |key.exchangeTradeId| <= ScratchSize
  }

  /** The record body: day number, link-id length byte, link id, trade-id length byte, trade id. */
  function RecordBody(key: TradeKey): seq<byte>
  {
    Int32Bytes(key.tradeDate)
      + [|key.exchangeLinkId| % 256] + key.exchangeLinkId
      + [|key.exchangeTradeId| % 256] + key.exchangeTradeId
  }

  /** What Serialize writes to the stream: the body's length as a 4-byte int, then the body. */
  function SerializedRecord(key: TradeKey): seq<byte>
    requires BodyFits(key)
  {
    Int32Bytes(|RecordBody(key)|) + RecordBody(key)
  }

  /** The record is a 4-byte length L followed by exactly L = 6 + link bytes + trade bytes bytes. */
  lemma SerializedRecordLayout(key: TradeKey)
    requires BodyFits(key)
    ensures |SerializedRecord(key)| == 4 + 6 + |key.exchangeLinkId| + |key.exchangeTradeId|
    ensures Int32FromBytes(SerializedRecord(key)[..4]) == |SerializedRecord(key)| - 4
    ensures SerializedRecord(key)[4..] == RecordBody(key)
  {
    var body := RecordBody(key);
    assert SerializedRecord(key)[..4] == Int32Bytes(|body|);
    Int32RoundTrip(|body|);
  }

  datatype SerializeError =
    | LinkIdTooLong           // GetBytes: the link id does not fit the scratch buffer
    | ScratchSliceOutOfRange  // Slice(1) of an exhausted scratch buffer
    | TradeIdTooLong          // GetBytes: the trade id does not fit what is left

  /** The steps of EncodeBody, as successive snapshots of the scratch buffer, leave the record body. */
  lemma AssembleRecordBody(key: TradeKey, s1: seq<byte>, s2: seq<byte>, s4: seq<byte>)
    requires BodyFits(key) && |s1| == |s2| == |s4| == ScratchSize
    requires s1[..4] == Int32Bytes(key.tradeDate)
    requires var t := 5 + |key.exchangeLinkId|;
             s2[..5] == s1[..5] && s2[5..t] == key.exchangeLinkId
    requires var t := 5 + |key.exchangeLinkId|;
             s4[..t + 1] == s2[4 := |key.exchangeLinkId| % 256][..t + 1]
             && s4[t + 1..t + 1 + |key.exchangeTradeId|] == key.exchangeTradeId
    ensures var t := 5 + |key.exchangeLinkId|;
            s4[t := |key.exchangeTradeId| % 256][..t + 1 + |key.exchangeTradeId|] == RecordBody(key)
  {
    var link, trade := key.exchangeLinkId, key.exchangeTradeId;
    var t := 5 + |link|;
    var s3 := s2[4 := |link| % 256];
    var s5 := s4[t := |trade| % 256];
    assert s5[..4] == s3[..4] == s1[..4];
    assert s5[5..t] == s3[5..t] == link;
    var body := s5[..t + 1 + |trade|];
    assert body == s5[..4] + [s5[4]] + s5[5..t] + [s5[t]] + s5[t + 1..t + 1 + |trade|];
  }

  /**
   * The encoding half of TradeKeySerializer.Serialize: fills a 100-byte scratch
   * buffer with a moving cursor and returns the filled prefix.
   */
  method EncodeBody(key: TradeKey) returns (r: Result<seq<byte>, SerializeError>)
    ensures r.Ok? <==> BodyFits(key)
    ensures r.Ok? ==> r.value == RecordBody(key)
    ensures |key.exchangeLinkId| > 95 ==> r == Err(LinkIdTooLong)
    ensures |key.exchangeLinkId| == 95 ==> r == Err(ScratchSliceOutOfRange)
    ensures |key.exchangeLinkId| < 95 && !BodyFits(key) ==> r == Err(TradeIdTooLong)
  {
    var link, trade := key.exchangeLinkId, key.exchangeTradeId;
    var keyBytes := new byte[ScratchSize];
    WriteInt32(keyBytes, key.tradeDate);
    ghost var s1 := keyBytes[..];
    var bytesCount := 4;

    var linkResult := GetBytes(link, keyBytes, bytesCount + 1);
    if linkResult.Err? {
      return Err(LinkIdTooLong);
    }
    ghost var s2 := keyBytes[..];
    var bytes := linkResult.value;
    var lengthByte: byte := bytes % 256;
    keyBytes[bytesCount] := lengthByte;
    assert keyBytes[..] == s2[4 := lengthByte];
    bytesCount := bytesCount + bytes + 1;

    if bytesCount + 1 > ScratchSize {
      return Err(ScratchSliceOutOfRange);
    }
    var tradeResult := GetBytes(trade, keyBytes, bytesCount + 1);
    if tradeResult.Err? {
      return Err(TradeIdTooLong);
    }
    ghost var s4 := keyBytes[..];
    bytes := tradeResult.value;
    lengthByte := bytes % 256;
    keyBytes[bytesCount] := lengthByte;
    assert keyBytes[..] == s4[bytesCount := lengthByte];
    AssembleRecordBody(key, s1, s2, s4);
    bytesCount := bytesCount + bytes + 1;
    r := Ok(keyBytes[..bytesCount]);
  }

  datatype DeserializeError =
    | StreamEnded           // ReadExactly ran out of bytes (EndOfStreamException)
    | NegativeLength        // stackalloc of a negative length
    | ShortDayNumber        // fewer than four bytes for the day number
    | IndexOutOfRange       // a length byte lies past the record
    | SliceOutOfRange       // an id runs past the record
    | DayNumberOutOfRange   // DateOnly.FromDayNumber rejects the value

  /** The parsing half of TradeKeySerializer.Deserialize, over the record body it read. */
  function ParseBody(body: seq<byte>): Result<TradeKey, DeserializeError>
  {
    if |body| < 4 then Err(ShortDayNumber)
    else
      var dayNumber := Int32FromBytes(body[..4]);
      if |body| <= 4 then Err(IndexOutOfRange)
      else
        var linkLength := body[4];
        if 5 + linkLength > |body| then Err(SliceOutOfRange)
        else
          var tradeLengthAt := 5 + linkLength;
          if tradeLengthAt >= |body| then Err(IndexOutOfRange)
          else
            var tradeLength := body[tradeLengthAt];
            if tradeLengthAt + 1 + tradeLength > |body| then Err(SliceOutOfRange)
            else if !(0 <= dayNumber <= MaxDayNumber) then Err(DayNumberOutOfRange)
            else Ok(TradeKey(dayNumber, body[5..tradeLengthAt],
                             body[tradeLengthAt + 1..tradeLengthAt + 1 + tradeLength]))
  }

  /** The parse of a record body, as Deserialize does it with its `bytesRead` cursor. */
  method DecodeBody(body: seq<byte>) returns (r: Result<TradeKey, DeserializeError>)
    ensures r == ParseBody(body)
  {
    if |body| < 4 {
      return Err(ShortDayNumber);
    }
    var bytesRead := 0;
    var dayNumber := Int32FromBytes(body[..4]);
    bytesRead := bytesRead + 4;

    if bytesRead >= |body| {
      return Err(IndexOutOfRange);
    }
    var linkLength := body[bytesRead];
    bytesRead := bytesRead + 1;
    if bytesRead + linkLength > |body| {
      return Err(SliceOutOfRange);
    }
    var link := body[bytesRead..bytesRead + linkLength];
    bytesRead := bytesRead + linkLength;

    if bytesRead >= |body| {
      return Err(IndexOutOfRange);
    }
    var tradeLength := body[bytesRead];
    bytesRead := bytesRead + 1;
    if bytesRead + tradeLength > |body| {
      return Err(SliceOutOfRange);
    }
    var trade := body[bytesRead..bytesRead + tradeLength];

    if !(0 <= dayNumber <= MaxDayNumber) {
      return Err(DayNumberOutOfRange);
    }
    r := Ok(TradeKey(dayNumber, link, trade));
  }

  /** Parsing a record body gives back the key it was written from. */
  lemma BodyRoundTrip(key: TradeKey)
    requires BodyFits(key)
    ensures ParseBody(RecordBody(key)) == Ok(key)
  {
    var body := RecordBody(key);
    var l, t := |key.exchangeLinkId|, |key.exchangeTradeId|;
    assert body[..4] == Int32Bytes(key.tradeDate);
    Int32RoundTrip(key.tradeDate);
    assert body[4] == l;
    assert body[5..5 + l] == key.exchangeLinkId;
    assert body[5 + l] == t;
    assert body[6 + l..6 + l + t] == key.exchangeTradeId;
  }

  /** Two fitting keys with the same record body are the same key: the length-prefixed form is injective. */
  lemma RecordBodyInjective(x: TradeKey, y: TradeKey)
    requires BodyFits(x) && BodyFits(y)
    ensures RecordBody(x) == RecordBody(y) ==> x == y
  {
    BodyRoundTrip(x);
    BodyRoundTrip(y);
  }

  /** The two keys whose raw forms collide have different record bodies. */
  lemma RecordBodySeparatesRawCollision(date: DayNumber)
    ensures RecordBody(TradeKey(date, [97, 98], [99])) != RecordBody(TradeKey(date, [97], [98, 99]))
  {
    var x, y := TradeKey(date, [97, 98], [99]), TradeKey(date, [97], [98, 99]);
    assert RecordBody(x)[4] == 2 && RecordBody(y)[4] == 1;
  }

  /**
   * Deserialize on the unread bytes of its stream: the result and how many
   * bytes it consumed. Reads a 4-byte length, then that many bytes.
   */
  function ReadRecord(rest: seq<byte>): (r: (Result<TradeKey, DeserializeError>, nat))
    ensures r.1 <= |rest|
    ensures r.0.Ok? ==> 10 <= r.1
  {
    if |rest| < 4 then (Err(StreamEnded), |rest|)
    else
      var count := Int32FromBytes(rest[..4]);
      if count < 0 then (Err(NegativeLength), 4)
      else if |rest| - 4 < count then (Err(StreamEnded), |rest|)
      else (ParseBody(rest[4..4 + count]), 4 + count)
  }

  /** Deserialize(Serialize(k)) == k, whatever follows the record in the stream. */
  lemma RecordRoundTrip(key: TradeKey, following: seq<byte>)
    requires BodyFits(key)
    ensures ReadRecord(SerializedRecord(key) + following) == (Ok(key), |SerializedRecord(key)|)
  {
    var rest := SerializedRecord(key) + following;
    var body := RecordBody(key);
    SerializedRecordLayout(key);
    assert rest[..4] == SerializedRecord(key)[..4];
    assert rest[4..4 + |body|] == body;
    BodyRoundTrip(key);
  }

  class TradeKeySerializer {
    var stream: ByteStream?

    constructor ()
      ensures stream == null
    {
      stream := null;
    }

    method BeginSerialize(s: ByteStream)
      modifies this
      ensures stream == s
    {
      stream := s;
    }

    /**
     * Encodes the key; only when that succeeds are the length prefix and the
     * body written, so a failed Serialize leaves the stream as it was.
     */
    method Serialize(key: TradeKey) returns (r: Result<(), SerializeError>)
      requires stream != null && stream.Valid()
      modifies stream
      ensures stream.Valid() && stream.position == old(stream.position)
      ensures r.Ok? <==> BodyFits(key)
      ensures r.Ok? ==> stream.content == old(stream.content) + SerializedRecord(key)
      ensures r.Err? ==> stream.content == old(stream.content)
    {
      var body := EncodeBody(key);
      if body.Err? {
        return Err(body.error);
      }
      var bytesCountBytes := Int32Bytes(|body.value|);
      stream.Write(bytesCountBytes);
      stream.Write(body.value);
      r := Ok(());
    }

    method EndSerialize()
      modifies this
      ensures stream == null
    {
      stream := null;
    }

    method BeginDeserialize(s: ByteStream)
      modifies this
      ensures stream == s
    {
      stream := s;
    }

    /** Reads one record from the stream and parses it. */
    method Deserialize() returns (r: Result<TradeKey, DeserializeError>)
      requires stream != null && stream.Valid()
      modifies stream
      ensures stream.Valid() && stream.content == old(stream.content)
      ensures (r, stream.position - old(stream.position)) == ReadRecord(old(stream.Remaining()))
    {
      ghost var rest := stream.Remaining();
      var prefix := stream.ReadExactly(4);
      if prefix.Err? {
        return Err(StreamEnded);
      }
      var bytesCount := Int32FromBytes(prefix.value);
      if bytesCount < 0 {
        return Err(NegativeLength);
      }
      var objBytes := stream.ReadExactly(bytesCount);
      if objBytes.Err? {
        return Err(StreamEnded);
      }
      assert rest[4..][..bytesCount] == rest[4..4 + bytesCount];
      r := DecodeBody(objBytes.value);
    }

    method EndDeserialize()
      modifies this
      ensures stream == null
    {
      stream := null;
    }
  }

  /** GuidSerializer.Deserialize on the unread bytes: sixteen bytes read back as a Guid. */
  function ReadGuid(rest: seq<byte>): (r: (Result<Guid, DeserializeError>, nat))
    ensures r.1 <= |rest|
    ensures r.0.Ok? <==> 16 <= |rest|
  {
    if |rest| < 16 then (Err(StreamEnded), |rest|)
    else (Ok(GuidFromBytes(rest[..16]).value), 16)
  }

  /** A serialized Guid reads back as itself, consuming exactly sixteen bytes. */
  lemma GuidRecordRoundTrip(id: Guid, following: seq<byte>)
    ensures ReadGuid(GuidBytes(id) + following) == (Ok(id), 16)
  {
    assert (GuidBytes(id) + following)[..16] == GuidBytes(id);
    GuidRoundTrip(id);
  }

  class GuidSerializer {
    var stream: ByteStream?

    constructor ()
      ensures stream == null
    {
      stream := null;
    }

    method BeginSerialize(s: ByteStream)
      modifies this
      ensures stream == s
    {
      stream := s;
    }

    /** Writes exactly the sixteen bytes of the Guid. */
    method Serialize(id: Guid)
      requires stream != null && stream.Valid()
      modifies stream
      ensures stream.Valid() && stream.position == old(stream.position)
      ensures stream.content == old(stream.content) + GuidBytes(id)
    {
      var bytes := GuidBytes(id);
      stream.Write(bytes);
    }

    method EndSerialize()
      modifies this
      ensures stream == null
    {
      stream := null;
    }

    method BeginDeserialize(s: ByteStream)
      modifies this
      ensures stream == s
    {
      stream := s;
    }

    method Deserialize() returns (r: Result<Guid, DeserializeError>)
      requires stream != null && stream.Valid()
      modifies stream
      ensures stream.Valid() && stream.content == old(stream.content)
      ensures (r, stream.position - old(stream.position)) == ReadGuid(old(stream.Remaining()))
    {
      var bytes := stream.ReadExactly(16);
      if bytes.Err? {
        return Err(StreamEnded);
      }
      r := Ok(GuidFromBytes(bytes.value).value);
    }

    method EndDeserialize()
      modifies this
      ensures stream == null
    {
      stream := null;
    }
  }
}
