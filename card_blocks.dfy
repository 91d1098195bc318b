/**
 * One card as one four-byte block: the passcode read as a number, written as an
 * unsigned 32-bit little-endian integer; and back, by looking the number's
 * decimal text up in the card database.
 */
module CardBlocks {
  import opened Wrappers
  import opened Bytes
  import opened Decimal
  import opened Ygo

  /** Bytes per block: the size of one `Uint32Array` element. */
  const BlockByteSize: nat := 4

  /** `2 ** (BLOCK_BYTE_SIZE * 8)`: every encodable number is below it. */
  const Limit: nat := 0x1_0000_0000

  /** The all-zero block that separates deck parts in the query parameter format. */
  const DelimiterBlock: Bytes := [0, 0, 0, 0]

  /** The card database, keyed by passcode: `hasCard` is key membership and `getCard` the lookup. */
  type Catalog = map<string, Card>

  /** The errors the codec throws, one constructor per throw site or runtime failure. */
  datatype CodecError =
    | OutOfRange(number: JsNumber)               // encodeNumber's range check
    | UnknownCard(passcode: string)              // a passcode the card database does not have
    | TruncatedBlock                             // getUint32 on a block shorter than four bytes
    | WrongPartCount(expected: nat, found: nat)  // a ydke URI without exactly three parts
    | InvalidBase64                              // text the base64 decoder does not accept
    | InflateFailed                              // compressed data the inflater does not accept
    | MissingDeckPart(index: nat)                // a legacy value with cards in a fourth segment

  /** `setUint32(0, v, true)`: the four bytes of `v`, least significant first. */
  function LittleEndian(v: nat): (block: Bytes)
    requires v < Limit
    ensures |block| == BlockByteSize
  {
    var q1 := v / 256;
    var q2 := q1 / 256;
    [v % 256, q1 % 256, q2 % 256, q2 / 256]
  }

  /** `getUint32(0, true)` on a block: fails when the block has fewer than four bytes, and reads only the first four otherwise. */
  function DecodeNumber(block: Bytes): (r: Result<nat, CodecError>)
    ensures r.Ok? <==> |block| >= BlockByteSize
    ensures r.Err? ==> r.error == TruncatedBlock
    ensures r.Ok? ==> r.value < Limit
  {
    if |block| < BlockByteSize then Err(TruncatedBlock)
    else Ok(block[0] as int + 256 * (block[1] as int + 256 * (block[2] as int + 256 * block[3] as int)))
  }

  /** ECMAScript's ToUint32, as far as `setUint32` applies it to a modelled number: NaN becomes 0. */
  function ToUint32(n: JsNumber): (v: nat)
    ensures v < Limit
    ensures n.Finite? && 0 <= n.value < Limit ==> v == n.value
  {
    match n
    case NaN => 0
    case Finite(x) => x % Limit
  }

  /**
   * `encodeNumber` as written: the range check `number <= 0 || number >= LIMIT`
   * is false for NaN on both sides, so NaN passes and is written as zero.
   */
  function EncodeNumberAsWritten(n: JsNumber): (r: Result<Bytes, CodecError>)
    ensures r.Ok? <==> n.NaN? || 0 < n.value < Limit
    ensures r.Err? ==> r.error == OutOfRange(n)
    ensures r.Ok? ==> DecodeNumber(r.value) == Ok(ToUint32(n))
    ensures n.NaN? ==> r == Ok(DelimiterBlock)
  {
    if n.Finite? && (n.value <= 0 || n.value >= Limit) then Err(OutOfRange(n))
    else
      DecodeLittleEndian(ToUint32(n));
      Ok(LittleEndian(ToUint32(n)))
  }

  /** `encodeNumber` with NaN rejected like every other number outside `0 < n < LIMIT`. */
  function EncodeNumber(n: JsNumber): (r: Result<Bytes, CodecError>)
    ensures r.Ok? <==> n.Finite? && 0 < n.value < Limit
    ensures r.Err? ==> r.error == OutOfRange(n)
    ensures r.Ok? ==> DecodeNumber(r.value) == Ok(n.value) && r.value != DelimiterBlock
  {
    if n.NaN? || n.value <= 0 || n.value >= Limit then Err(OutOfRange(n))
    else
      DecodeLittleEndian(n.value);
      Ok(LittleEndian(n.value))
  }

  lemma SplitByte(lo: int, hi: int)
    requires 0 <= lo < 256
    ensures (lo + 256 * hi) / 256 == hi && (lo + 256 * hi) % 256 == lo
  {
  }

  /** Reading back a written number gives the number. */
  lemma DecodeLittleEndian(v: nat)
    requires v < Limit
    ensures DecodeNumber(LittleEndian(v)) == Ok(v)
  {
    var q1 := v / 256;
    var q2 := q1 / 256;
    assert q2 % 256 + 256 * (q2 / 256) == q2;
    assert q1 % 256 + 256 * q2 == q1;
    assert v % 256 + 256 * q1 == v;
  }

  /** Writing back a read number gives the block's first four bytes: distinct blocks are distinct numbers. */
  lemma LittleEndianDecode(block: Bytes)
    requires |block| >= BlockByteSize
    ensures LittleEndian(DecodeNumber(block).value) == block[..BlockByteSize]
  {
    var hi2: int := block[2] as int + 256 * block[3] as int;
    var hi1: int := block[1] as int + 256 * hi2;
    var v: int := block[0] as int + 256 * hi1;
    SplitByte(block[0], hi1);
    SplitByte(block[1], hi2);
    SplitByte(block[2], block[3]);
    assert v / 256 == hi1 && hi1 / 256 == hi2;
  }

  /** A four-byte block reads as zero exactly when it is the delimiter block. */
  lemma DecodeZero(block: Bytes)
    requires |block| == BlockByteSize
    ensures DecodeNumber(block) == Ok(0) <==> block == DelimiterBlock
  {
    if DecodeNumber(block) == Ok(0) {
      assert block[0] == 0 && block[1] == 0 && block[2] == 0 && block[3] == 0;
    }
  }

  /** As written and corrected agree on every number the range check sees; they differ on NaN only. */
  lemma EncodeNumberAgrees(n: JsNumber)
    ensures n.Finite? ==> EncodeNumberAsWritten(n) == EncodeNumber(n)
    ensures n.NaN? ==> EncodeNumberAsWritten(n) == Ok(DelimiterBlock) && EncodeNumber(n).Err?
  {
  }

  /**
   * The consequence in the codec: a card whose passcode `Number()` reads as NaN
   * is encoded as written to the delimiter block instead of raising an error.
   */
  lemma NonNumericPasscodeIsDelimiter(passcode: string)
    requires NonNumeric(passcode)
    ensures EncodeNumberAsWritten(ToNumber(passcode)) == Ok(DelimiterBlock)
    ensures EncodeNumber(ToNumber(passcode)) == Err(OutOfRange(NaN))
  {
    NonNumericIsNaN(passcode);
  }

  /** `encodeCardBlock`: `Number(card.passcode)`, encoded. */
  function EncodeCardBlock(card: Card): (r: Result<Bytes, CodecError>)
    ensures r.Ok? <==> AllDigits(card.passcode) && 0 < DigitsValue(card.passcode) < Limit
    ensures r.Ok? ==> |r.value| == BlockByteSize && r.value != DelimiterBlock
    ensures r.Ok? ==> DecodeNumber(r.value) == Ok(DigitsValue(card.passcode))
  {
    EncodeNumber(ToNumber(card.passcode))
  }

  /** `decodeCardBlock`: `String(decodeNumber(block))`, looked up in the catalog. */
  function DecodeCardBlock(block: Bytes, catalog: Catalog): (r: Result<Card, CodecError>)
    ensures r.Ok? <==> |block| >= BlockByteSize && NatToString(DecodeNumber(block).value) in catalog
    ensures r.Ok? ==> r.value == catalog[NatToString(DecodeNumber(block).value)]
    ensures |block| < BlockByteSize ==> r == Err(TruncatedBlock)
  {
    var n :- DecodeNumber(block);
    var passcode := NatToString(n);
    if passcode !in catalog then Err(UnknownCard(passcode)) else Ok(catalog[passcode])
  }

  /** A card the block codec can carry: a canonical passcode in range, filed under that passcode in the catalog. */
  predicate Resolvable(card: Card, catalog: Catalog) {
    Canonical(card.passcode) && 0 < DigitsValue(card.passcode) < Limit
    && card.passcode in catalog && catalog[card.passcode] == card
  }

  /** Decoding a card's block gives the card back whenever the card is resolvable. */
  lemma CardBlockRoundTrip(card: Card, catalog: Catalog)
    requires Resolvable(card, catalog)
    ensures EncodeCardBlock(card).Ok?
    ensures DecodeCardBlock(EncodeCardBlock(card).value, catalog) == Ok(card)
  {
    StringOfValue(card.passcode);
  }

  /**
   * The passcode a block resolves to is the encoded card's passcode exactly when
   * that passcode is canonical: "0123" is encoded, but looked up as "123".
   */
  lemma BlockPasscode(card: Card)
    requires EncodeCardBlock(card).Ok?
    ensures NatToString(DecodeNumber(EncodeCardBlock(card).value).value) == card.passcode
            <==> Canonical(card.passcode)
  {
    StringOfValue(card.passcode);
  }
}
