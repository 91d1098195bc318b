/**
 * The deck codec: three text forms of a deck and the parsers back.
 *
 * - A `ydke` URI: `ydke://` then, per default deck part, the base64 of the
 *   part's card blocks followed by `!`. The deck name is not stored.
 * - A URL query parameter value: the card blocks of each part, each part closed
 *   by the all-zero delimiter block, then the UTF-8 bytes of the deck name;
 *   the whole deflated and base64-encoded with the URL-safe substitutions.
 * - The legacy query parameter value (read only): `|`-separated parts of
 *   `;`-separated passcodes, each optionally prefixed by `*` and a one-digit count.
 *
 * Each operation is a method with the source's loops, proved equal to a
 * function that states the format; the lemmas are about those functions.
 */
module DeckUriEncodingService {
  import opened Wrappers
  import opened Bytes
  import opened Decimal
  import opened Ygo
  import opened CardBlocks
  import opened JsStrings
  import opened UrlSafeBase64

  const YdkeUriProtocol: string := "ydke://"
  const YdkeDelimiter: char := '!'

  /** `deflateRaw` and `inflateRaw`; the inflater fails (`None`) on data it cannot inflate. */
  datatype Compression = Compression(deflateRaw: Bytes -> Bytes, inflateRaw: Bytes -> Option<Bytes>)

  /** Inflating what was deflated gives it back. */
  ghost predicate Lossless(z: Compression) {
    forall b :: z.inflateRaw(z.deflateRaw(b)) == Some(b)
  }

  /** `TextEncoder.encode` (to UTF-8) and `TextDecoder.decode` (from UTF-8). */
  datatype TextCodec = TextCodec(encode: string -> Bytes, decode: Bytes -> string)

  /** Decoding what was encoded gives it back, and only the empty text encodes to no bytes. */
  ghost predicate NameRoundTrips(text: TextCodec) {
    forall s :: text.decode(text.encode(s)) == s && (s != [] ==> text.encode(s) != [])
  }

  // ---------------------------------------------------------------------------
  // The card blocks of one part

  /** Two encodings one after the other: the first error, or both byte runs concatenated. */
  function Concat(x: Result<Bytes, CodecError>, y: Result<Bytes, CodecError>): (r: Result<Bytes, CodecError>)
    ensures r.Ok? <==> x.Ok? && y.Ok?
    ensures x.Err? ==> r == x
    ensures x.Ok? && y.Err? ==> r == y
    ensures r.Ok? ==> r.value == x.value + y.value
  {
    var a :- x;
    var b :- y;
    Ok(a + b)
  }

  lemma ConcatAssoc(x: Result<Bytes, CodecError>, y: Result<Bytes, CodecError>, z: Result<Bytes, CodecError>)
    ensures Concat(x, Concat(y, z)) == Concat(Concat(x, y), z)
  {
    if x.Ok? && y.Ok? && z.Ok? {
      assert x.value + (y.value + z.value) == (x.value + y.value) + z.value;
    }
  }

  /** The blocks of `cards` in order, or the error of the first card that cannot be encoded. */
  function PartBlocks(cards: seq<Card>): (r: Result<Bytes, CodecError>)
    ensures r.Ok? ==> |r.value| == BlockByteSize * |cards|
  {
    if cards == [] then Ok([])
    else Concat(EncodeCardBlock(cards[0]), PartBlocks(cards[1..]))
  }

  /** The blocks of two runs of cards are the blocks of the first run, then those of the second. */
  lemma {:induction false} PartBlocksAppend(a: seq<Card>, b: seq<Card>)
    ensures PartBlocks(a + b) == Concat(PartBlocks(a), PartBlocks(b))
  {
    if a == [] {
      assert a + b == b;
      if PartBlocks(b).Ok? {
        assert [] + PartBlocks(b).value == PartBlocks(b).value;
      }
    } else {
      assert (a + b)[0] == a[0] && (a + b)[1..] == a[1..] + b;
      PartBlocksAppend(a[1..], b);
      ConcatAssoc(EncodeCardBlock(a[0]), PartBlocks(a[1..]), PartBlocks(b));
    }
  }

  lemma PartBlocksSingle(card: Card)
    ensures PartBlocks([card]) == EncodeCardBlock(card)
  {
    assert [card][1..] == [];
    if EncodeCardBlock(card).Ok? {
      assert EncodeCardBlock(card).value + [] == EncodeCardBlock(card).value;
    }
  }

  /** The blocks of a part are encoded exactly when every card of it can be encoded. */
  lemma {:induction false} PartBlocksOk(cards: seq<Card>)
    ensures PartBlocks(cards).Ok? <==> forall i :: 0 <= i < |cards| ==> EncodeCardBlock(cards[i]).Ok?
  {
    if cards != [] {
      PartBlocksOk(cards[1..]);
      assert forall i :: 1 <= i < |cards| ==> cards[i] == cards[1..][i - 1];
    }
  }

  // ---------------------------------------------------------------------------
  // ydke URI

  /** The base64 texts of the first `k` default deck parts, in order. */
  function UriParts(deck: Deck, k: nat): (r: Result<seq<string>, CodecError>)
    requires k <= |DefaultDeckParts|
    ensures r.Ok? ==> |r.value| == k
  {
    if k == 0 then Ok([])
    else
      var init :- UriParts(deck, k - 1);
      var blocks :- PartBlocks(deck.Part(DefaultDeckParts[k - 1]));
      Ok(init + [EncodeBase64String(blocks, false)])
  }

  /** An error in one part is the error of every longer run of parts. */
  lemma {:induction false} UriPartsErr(deck: Deck, k: nat, m: nat)
    requires k <= m <= |DefaultDeckParts|
    requires UriParts(deck, k).Err?
    ensures UriParts(deck, m) == UriParts(deck, k)
  {
    if k < m {
      UriPartsErr(deck, k, m - 1);
    }
  }

  /** What `toUri` returns: the protocol, the part texts joined by `!`, and a trailing `!`. */
  function UriOf(deck: Deck): Result<string, CodecError> {
    var parts :- UriParts(deck, |DefaultDeckParts|);
    Ok(YdkeUriProtocol + Join(parts, YdkeDelimiter) + [YdkeDelimiter])
  }

  /** The inner loop of `toUri` and `toUrlQueryParamValue`: the blocks of one part's cards, pushed one card at a time. */
  method EncodeCards(cards: seq<Card>) returns (r: Result<Bytes, CodecError>)
    ensures r == PartBlocks(cards)
  {
    var encodedCards: Bytes := [];
    for j := 0 to |cards|
      invariant PartBlocks(cards[..j]) == Ok(encodedCards)
    {
      var block := EncodeCardBlock(cards[j]);
      PartBlocksAppend(cards[..j], [cards[j]]);
      PartBlocksSingle(cards[j]);
      assert cards[..j + 1] == cards[..j] + [cards[j]];
      if block.Err? {
        PartBlocksAppend(cards[..j + 1], cards[j + 1..]);
        assert cards[..j + 1] + cards[j + 1..] == cards;
        return Err(block.error);
      }
      encodedCards := encodedCards + block.value;
    }
    assert cards[..|cards|] == cards;
    r := Ok(encodedCards);
  }

  /** `toUri`. */
  method ToUri(deck: Deck) returns (r: Result<string, CodecError>)
    ensures r == UriOf(deck)
  {
    var encodedDeckParts: seq<string> := [];
    for i := 0 to |DefaultDeckParts|
      invariant UriParts(deck, i) == Ok(encodedDeckParts)
    {
      var encodedCards := EncodeCards(deck.Part(DefaultDeckParts[i]));
      if encodedCards.Err? {
        UriPartsErr(deck, i + 1, |DefaultDeckParts|);
        return Err(encodedCards.error);
      }
      encodedDeckParts := encodedDeckParts + [EncodeBase64String(encodedCards.value, false)];
    }
    r := Ok(YdkeUriProtocol + Join(encodedDeckParts, YdkeDelimiter) + [YdkeDelimiter]);
  }

  /** `bytes.slice(start, start + BLOCK_BYTE_SIZE)`: the block at `start`, shorter at the end. */
  function BlockAt(bytes: Bytes, start: nat): (block: Bytes)
    requires start <= |bytes|
    ensures |block| == if |bytes| - start < BlockByteSize then |bytes| - start else BlockByteSize
    ensures block == bytes[start..start + |block|]
  {
    if |bytes| - start < BlockByteSize then bytes[start..] else bytes[start..start + BlockByteSize]
  }

  /** Each block of `bytes` decoded and appended to part `part` of `deck`, in order; the first failing block's error otherwise. */
  function DecodeBlocks(bytes: Bytes, part: DeckPart, deck: Deck, catalog: Catalog): Result<Deck, CodecError>
    decreases |bytes|
  {
    if bytes == [] then Ok(deck)
    else
      var card :- DecodeCardBlock(BlockAt(bytes, 0), catalog);
      DecodeBlocks(bytes[BlockByteSize..], part, deck.Append(part, card), catalog)
  }

  /** The inner loop of `fromUri`: every block of one part's bytes decoded and pushed onto that part. */
  method DecodeCards(bytes: Bytes, part: DeckPart, deck: Deck, catalog: Catalog) returns (r: Result<Deck, CodecError>)
    ensures r == DecodeBlocks(bytes, part, deck, catalog)
  {
    var result := deck;
    var blockStart := 0;
    while blockStart < |bytes|
      invariant blockStart <= |bytes|
      invariant DecodeBlocks(bytes[blockStart..], part, result, catalog) == DecodeBlocks(bytes, part, deck, catalog)
      decreases |bytes| - blockStart
    {
      var block := BlockAt(bytes, blockStart);
      assert block == BlockAt(bytes[blockStart..], 0);
      var card := DecodeCardBlock(block, catalog);
      if card.Err? {
        return Err(card.error);
      }
      assert bytes[blockStart..][BlockByteSize..] == bytes[blockStart + BlockByteSize..];
      result := result.Append(part, card.value);
      blockStart := blockStart + BlockByteSize;
    }
    assert bytes[blockStart..] == [];
    r := Ok(result);
  }

  /** The `!`-separated texts after the protocol, without the piece after the final `!`. */
  function UriSegments(uri: string): (segments: seq<string>) {
    var pieces := Split(Slice(uri, |YdkeUriProtocol|), YdkeDelimiter);
    pieces[..|pieces| - 1]
  }

  /** The deck holding the cards of the first `k` segments, each in its default deck part. */
  function SegmentsDeck(segments: seq<string>, k: nat, catalog: Catalog): Result<Deck, CodecError>
    requires k <= |segments| && k <= |DefaultDeckParts|
  {
    if k == 0 then Ok(EmptyDeck())
    else
      var deck :- SegmentsDeck(segments, k - 1, catalog);
      match Decode64String(segments[k - 1], false)
      case None => Err(InvalidBase64)
      case Some(bytes) => DecodeBlocks(bytes, DefaultDeckParts[k - 1], deck, catalog)
  }

  lemma {:induction false} SegmentsDeckErr(segments: seq<string>, k: nat, m: nat, catalog: Catalog)
    requires k <= m <= |segments| && m <= |DefaultDeckParts|
    requires SegmentsDeck(segments, k, catalog).Err?
    ensures SegmentsDeck(segments, m, catalog) == SegmentsDeck(segments, k, catalog)
  {
    if k < m {
      SegmentsDeckErr(segments, k, m - 1, catalog);
    }
  }

  /** What `fromUri` returns: an error unless there are exactly three segments, else the deck they hold, without a name. */
  function UriDeck(uri: string, catalog: Catalog): Result<Deck, CodecError> {
    var segments := UriSegments(uri);
    if |segments| != |DefaultDeckParts| then Err(WrongPartCount(|DefaultDeckParts|, |segments|))
    else SegmentsDeck(segments, |DefaultDeckParts|, catalog)
  }

  /** `fromUri`. */
  method FromUri(uri: string, catalog: Catalog) returns (r: Result<Deck, CodecError>)
    ensures r == UriDeck(uri, catalog)
  {
    var uriParts := Split(Slice(uri, |YdkeUriProtocol|), YdkeDelimiter);
    uriParts := uriParts[..|uriParts| - 1];
    if |uriParts| != |DefaultDeckParts| {
      return Err(WrongPartCount(|DefaultDeckParts|, |uriParts|));
    }
    var deck := EmptyDeck();
    for deckPartIndex := 0 to |uriParts|
      invariant SegmentsDeck(uriParts, deckPartIndex, catalog) == Ok(deck)
    {
      var decodedDeckPartCards := Decode64String(uriParts[deckPartIndex], false);
      if decodedDeckPartCards.None? {
        SegmentsDeckErr(uriParts, deckPartIndex + 1, |DefaultDeckParts|, catalog);
        return Err(InvalidBase64);
      }
      var next := DecodeCards(decodedDeckPartCards.value, DefaultDeckParts[deckPartIndex], deck, catalog);
      if next.Err? {
        SegmentsDeckErr(uriParts, deckPartIndex + 1, |DefaultDeckParts|, catalog);
        return Err(next.error);
      }
      deck := next.value;
    }
    r := Ok(deck);
  }

  // ---------------------------------------------------------------------------
  // URL query parameter value

  /** The UTF-8 bytes of the deck name: present only when the name is set and not empty. */
  function NameBytes(name: Option<string>, text: TextCodec): Bytes {
    if name.Some? && name.value != "" then text.encode(name.value) else []
  }

  /** The blocks of the first `k` default deck parts, each part closed by the delimiter block. */
  function QueryBlocks(deck: Deck, k: nat): (r: Result<Bytes, CodecError>)
    requires k <= |DefaultDeckParts|
  {
    if k == 0 then Ok([])
    else Concat(QueryBlocks(deck, k - 1), Concat(PartBlocks(deck.Part(DefaultDeckParts[k - 1])), Ok(DelimiterBlock)))
  }

  lemma {:induction false} QueryBlocksErr(deck: Deck, k: nat, m: nat)
    requires k <= m <= |DefaultDeckParts|
    requires QueryBlocks(deck, k).Err?
    ensures QueryBlocks(deck, m) == QueryBlocks(deck, k)
  {
    if k < m {
      QueryBlocksErr(deck, k, m - 1);
    }
  }

  /** The byte stream `toUrlQueryParamValue` deflates: every part's blocks and delimiter, then the name's bytes. */
  function QueryStream(deck: Deck, text: TextCodec): Result<Bytes, CodecError> {
    Concat(QueryBlocks(deck, |DefaultDeckParts|), Ok(NameBytes(deck.name, text)))
  }

  /** What `toUrlQueryParamValue` returns: the stream, deflated, in URL-safe base64. */
  function QueryValueOf(deck: Deck, z: Compression, text: TextCodec): Result<string, CodecError> {
    var stream :- QueryStream(deck, text);
    Ok(EncodeBase64String(z.deflateRaw(stream), true))
  }

  /** `toUrlQueryParamValue`. */
  method ToUrlQueryParamValue(deck: Deck, z: Compression, text: TextCodec) returns (r: Result<string, CodecError>)
    ensures r == QueryValueOf(deck, z, text)
  {
    var result: Bytes := [];
    for i := 0 to |DefaultDeckParts|
      invariant QueryBlocks(deck, i) == Ok(result)
    {
      var encodedCards := EncodeCards(deck.Part(DefaultDeckParts[i]));
      if encodedCards.Err? {
        QueryBlocksErr(deck, i + 1, |DefaultDeckParts|);
        return Err(encodedCards.error);
      }
      assert result + (encodedCards.value + DelimiterBlock) == result + encodedCards.value + DelimiterBlock;
      result := result + encodedCards.value + DelimiterBlock;
    }
    if deck.name.Some? && deck.name.value != "" {
      result := result + text.encode(deck.name.value);
    } else {
      assert result + [] == result;
    }
    var deflated := z.deflateRaw(result);
    r := Ok(EncodeBase64String(deflated, true));
  }

  /**
   * Reading an inflated stream from a block boundary on, in part `partIndex`:
   * a delimiter block moves to the next part, and after the last part's
   * delimiter any remaining bytes are the name; every other block is a card.
   */
  function ScanBlocks(rest: Bytes, partIndex: nat, deck: Deck, catalog: Catalog, text: TextCodec): Result<Deck, CodecError>
    requires partIndex < |DefaultDeckParts|
    decreases |rest|
  {
    if rest == [] then Ok(deck)
    else
      var block := BlockAt(rest, 0);
      if block == DelimiterBlock then
        if partIndex == |DefaultDeckParts| - 1 then
          if BlockByteSize < |rest| then Ok(deck.(name := Some(text.decode(rest[BlockByteSize..])))) else Ok(deck)
        else ScanBlocks(rest[BlockByteSize..], partIndex + 1, deck, catalog, text)
      else
        var card :- DecodeCardBlock(block, catalog);
        ScanBlocks(rest[BlockByteSize..], partIndex, deck.Append(DefaultDeckParts[partIndex], card), catalog, text)
  }

  /** What `fromUrlQueryParamValue` returns: base64-decode, inflate, then scan from the first block with an empty deck. */
  function QueryValueDeck(queryParamValue: string, catalog: Catalog, z: Compression, text: TextCodec): Result<Deck, CodecError> {
    match Decode64String(queryParamValue, true)
    case None => Err(InvalidBase64)
    case Some(decoded) =>
      match z.inflateRaw(decoded)
      case None => Err(InflateFailed)
      case Some(inflated) => ScanBlocks(inflated, 0, EmptyDeck(), catalog, text)
  }

  /** `fromUrlQueryParamValue`. */
  method FromUrlQueryParamValue(queryParamValue: string, catalog: Catalog, z: Compression, text: TextCodec)
    returns (r: Result<Deck, CodecError>)
    ensures r == QueryValueDeck(queryParamValue, catalog, z, text)
  {
    var deck := EmptyDeck();
    var decoded := Decode64String(queryParamValue, true);
    if decoded.None? {
      return Err(InvalidBase64);
    }
    var inflatedOrFailure := z.inflateRaw(decoded.value);
    if inflatedOrFailure.None? {
      return Err(InflateFailed);
    }
    var inflated := inflatedOrFailure.value;
    ghost var target := ScanBlocks(inflated, 0, EmptyDeck(), catalog, text);

    var deckPartIndex := 0;
    var metaDataStart: Option<nat> := None;
    var blockStart := 0;
    while blockStart < |inflated|
      invariant blockStart <= |inflated|
      invariant deckPartIndex < |DefaultDeckParts|
      invariant metaDataStart == None
      invariant ScanBlocks(inflated[blockStart..], deckPartIndex, deck, catalog, text) == target
      decreases |inflated| - blockStart
    {
      var blockEnd := blockStart + BlockByteSize;
      var block := BlockAt(inflated, blockStart);
      assert block == BlockAt(inflated[blockStart..], 0);
      if block == DelimiterBlock {
        if deckPartIndex == |DefaultDeckParts| - 1 {
          assert inflated[blockStart..][BlockByteSize..] == inflated[blockEnd..];
          metaDataStart := Some(blockEnd);
          break;
        }
        deckPartIndex := deckPartIndex + 1;
      } else {
        var card := DecodeCardBlock(block, catalog);
        if card.Err? {
          return Err(card.error);
        }
        deck := deck.Append(DefaultDeckParts[deckPartIndex], card.value);
      }
      assert inflated[blockStart..][BlockByteSize..] == inflated[blockEnd..];
      blockStart := blockEnd;
    }
    if metaDataStart.Some? && metaDataStart.value < |inflated| {
      deck := deck.(name := Some(text.decode(inflated[metaDataStart.value..])));
    }
    r := Ok(deck);
  }

  // ---------------------------------------------------------------------------
  // Legacy URL query parameter value

  const LegacyDeckPartDelimiter: char := '|'
  const LegacyPasscodeDelimiter: char := ';'
  const LegacyCardAmountMarker: char := '*'

  /** `count` copies of `card`. */
  function Repeat(card: Card, count: nat): (cards: seq<Card>)
    ensures |cards| == count
    ensures forall i :: 0 <= i < count ==> cards[i] == card
  {
    seq(count, _ => card)
  }

  /**
   * `Number(entry[1])` used as the bound of the push loop: a digit gives its
   * value; a missing character (`undefined`) or any other character gives NaN
   * or zero, and the loop runs zero times.
   */
  function RepeatCount(entry: string): (count: nat)
    ensures count < 10
    ensures count > 0 ==> |entry| >= 2 && IsDigit(entry[1]) && count == DigitValue(entry[1])
  {
    if |entry| < 2 then 0
    else
      NumberOfChar(entry[1]);
      match ToNumber([entry[1]])
      case Finite(v) => v
      case NaN => 0
  }

  /** Whether the entry carries a copy count: it starts with `*`. */
  predicate Counted(entry: string) {
    |entry| > 0 && entry[0] == LegacyCardAmountMarker
  }

  /** The passcode an entry names: everything after `*` and the count digit, or the whole entry. */
  function EntryPasscode(entry: string): string {
    if Counted(entry) then Slice(entry, 2) else entry
  }

  /** How many copies an entry adds: its count digit, or one. */
  function EntryCount(entry: string): nat {
    if Counted(entry) then RepeatCount(entry) else 1
  }

  /**
   * One entry of the segment at `index`: an unknown passcode is an error; then the
   * copies go into the part at `index`, and pushing onto a part that does not
   * exist (a fourth segment) fails at the first copy.
   */
  function LegacyEntry(entry: string, index: nat, deck: Deck, catalog: Catalog): Result<Deck, CodecError> {
    var passcode := EntryPasscode(entry);
    var count := EntryCount(entry);
    if passcode !in catalog then Err(UnknownCard(passcode))
    else if count == 0 then Ok(deck)
    else if index >= |DefaultDeckParts| then Err(MissingDeckPart(index))
    else Ok(deck.AppendAll(DefaultDeckParts[index], Repeat(catalog[passcode], count)))
  }

  /** The entries of one segment, in order; the first error stops the rest. */
  function LegacyEntries(entries: seq<string>, index: nat, deck: Deck, catalog: Catalog): Result<Deck, CodecError> {
    if entries == [] then Ok(deck)
    else
      var next :- LegacyEntry(entries[0], index, deck, catalog);
      LegacyEntries(entries[1..], index, next, catalog)
  }

  /** One segment: an empty segment adds nothing; any other is split at `;` into entries. */
  function LegacySegment(segment: string, index: nat, deck: Deck, catalog: Catalog): Result<Deck, CodecError> {
    if |segment| > 0 then LegacyEntries(Split(segment, LegacyPasscodeDelimiter), index, deck, catalog)
    else Ok(deck)
  }

  /** The segments from `index` on, in order. */
  function LegacySegments(segments: seq<string>, index: nat, deck: Deck, catalog: Catalog): Result<Deck, CodecError>
    decreases |segments|
  {
    if segments == [] then Ok(deck)
    else
      var next :- LegacySegment(segments[0], index, deck, catalog);
      LegacySegments(segments[1..], index + 1, next, catalog)
  }

  /** The deck an inflated legacy value describes: its `|`-separated segments fill the default deck parts in order. */
  function LegacyDeck(uncompressedValue: string, catalog: Catalog): Result<Deck, CodecError> {
    LegacySegments(Split(uncompressedValue, LegacyDeckPartDelimiter), 0, EmptyDeck(), catalog)
  }

  /** What `fromLegacyUrlQueryParamValue` returns: decode with the caller's decoder, inflate to text, read. */
  function LegacyValueDeck(value: string, base64Decoder: string -> string, inflateToString: string -> Option<string>,
                           catalog: Catalog): Result<Deck, CodecError> {
    match inflateToString(base64Decoder(value))
    case None => Err(InflateFailed)
    case Some(uncompressedValue) => LegacyDeck(uncompressedValue, catalog)
  }

  /** The callback for one entry: look the passcode up, then push the copies one at a time. */
  method AddLegacyEntry(entry: string, index: nat, deck: Deck, catalog: Catalog) returns (r: Result<Deck, CodecError>)
    ensures r == LegacyEntry(entry, index, deck, catalog)
  {
    var count := 1;
    var passcode := entry;
    if |entry| > 0 && entry[0] == LegacyCardAmountMarker {
      count := RepeatCount(entry);
      passcode := Slice(entry, 2);
    }
    if passcode !in catalog {
      return Err(UnknownCard(passcode));
    }
    var card := catalog[passcode];
    var result := deck;
    for i := 0 to count
      invariant index >= |DefaultDeckParts| ==> i == 0 && result == deck
      invariant index < |DefaultDeckParts| ==> result == deck.AppendAll(DefaultDeckParts[index], Repeat(card, i))
    {
      if index >= |DefaultDeckParts| {
        return Err(MissingDeckPart(index));
      }
      if i == 0 {
        AppendAllEmpty(deck, DefaultDeckParts[index]);
      }
      AppendAllThenAppend(deck, DefaultDeckParts[index], Repeat(card, i), card);
      assert Repeat(card, i) + [card] == Repeat(card, i + 1);
      result := result.Append(DefaultDeckParts[index], card);
    }
    if count == 0 {
      return Ok(deck);
    }
    r := Ok(result);
  }

  /** The callback for one segment: every entry, in order. */
  method AddLegacySegment(deckPartList: string, index: nat, deck: Deck, catalog: Catalog) returns (r: Result<Deck, CodecError>)
    ensures r == LegacySegment(deckPartList, index, deck, catalog)
  {
    if |deckPartList| == 0 {
      return Ok(deck);
    }
    var entries := Split(deckPartList, LegacyPasscodeDelimiter);
    var result := deck;
    for j := 0 to |entries|
      invariant LegacyEntries(entries[j..], index, result, catalog) == LegacyEntries(entries, index, deck, catalog)
    {
      assert entries[j..][1..] == entries[j + 1..];
      var next := AddLegacyEntry(entries[j], index, result, catalog);
      if next.Err? {
        return Err(next.error);
      }
      result := next.value;
    }
    assert entries[|entries|..] == [];
    r := Ok(result);
  }

  /** `fromLegacyUrlQueryParamValue`: the caller's base64 decoder and the inflater are parameters. */
  method FromLegacyUrlQueryParamValue(value: string, base64Decoder: string -> string,
                                      inflateToString: string -> Option<string>, catalog: Catalog)
    returns (r: Result<Deck, CodecError>)
    ensures r == LegacyValueDeck(value, base64Decoder, inflateToString, catalog)
  {
    var deck := EmptyDeck();
    var inflated := inflateToString(base64Decoder(value));
    if inflated.None? {
      return Err(InflateFailed);
    }
    var segments := Split(inflated.value, LegacyDeckPartDelimiter);
    for index := 0 to |segments|
      invariant LegacySegments(segments[index..], index, deck, catalog) == LegacySegments(segments, 0, EmptyDeck(), catalog)
    {
      assert segments[index..][1..] == segments[index + 1..];
      var next := AddLegacySegment(segments[index], index, deck, catalog);
      if next.Err? {
        return Err(next.error);
      }
      deck := next.value;
    }
    assert segments[|segments|..] == [];
    r := Ok(deck);
  }
}
