/**
 * What the deck codec promises, proved about the functions that state its formats:
 * each parser gives back the deck its encoder was given, as far as the format
 * carries it; the published examples hold.
 */
module DeckUriProperties {
  import opened Wrappers
  import opened Bytes
  import opened Decimal
  import opened Ygo
  import opened CardBlocks
  import opened JsStrings
  import opened UrlSafeBase64
  import opened DeckUriEncodingService

  /** Every card of the run is resolvable in the catalog. */
  predicate CardsResolvable(cards: seq<Card>, catalog: Catalog) {
    forall i :: 0 <= i < |cards| ==> Resolvable(cards[i], catalog)
  }

  /** Every card of every part of the deck is resolvable in the catalog. */
  predicate DeckResolvable(deck: Deck, catalog: Catalog) {
    CardsResolvable(deck.main, catalog) && CardsResolvable(deck.extra, catalog) && CardsResolvable(deck.side, catalog)
  }

  /** Decoding the blocks of resolvable cards appends exactly those cards, in order. */
  lemma {:induction false} DecodePartBlocks(cards: seq<Card>, part: DeckPart, deck: Deck, catalog: Catalog)
    requires CardsResolvable(cards, catalog)
    ensures PartBlocks(cards).Ok?
    ensures DecodeBlocks(PartBlocks(cards).value, part, deck, catalog) == Ok(deck.AppendAll(part, cards))
  {
    if cards == [] {
      AppendAllEmpty(deck, part);
    } else {
      var c := cards[0];
      CardBlockRoundTrip(c, catalog);
      assert CardsResolvable(cards[1..], catalog) by {
        forall i | 0 <= i < |cards[1..]|
          ensures Resolvable(cards[1..][i], catalog)
        {
          assert cards[1..][i] == cards[i + 1];
        }
      }
      DecodePartBlocks(cards[1..], part, deck.Append(part, c), catalog);
      var b := EncodeCardBlock(c).value;
      var rest := PartBlocks(cards[1..]).value;
      var bytes := b + rest;
      assert PartBlocks(cards).value == bytes;
      assert BlockAt(bytes, 0) == b;
      assert bytes[BlockByteSize..] == rest;
      AppendThenAppendAll(deck, part, c, cards[1..]);
      assert [c] + cards[1..] == cards;
    }
  }

  lemma UriPartsStep(deck: Deck, k: nat, init: seq<string>, blocks: Bytes)
    requires 1 <= k <= |DefaultDeckParts|
    requires UriParts(deck, k - 1) == Ok(init)
    requires PartBlocks(deck.Part(DefaultDeckParts[k - 1])) == Ok(blocks)
    ensures UriParts(deck, k) == Ok(init + [EncodeBase64String(blocks, false)])
  {
  }

  /** The texts of the three parts, once each part encodes. */
  lemma UriPartsValue(deck: Deck)
    requires PartBlocks(deck.main).Ok? && PartBlocks(deck.extra).Ok? && PartBlocks(deck.side).Ok?
    ensures UriParts(deck, |DefaultDeckParts|) == Ok([
      EncodeBase64String(PartBlocks(deck.main).value, false),
      EncodeBase64String(PartBlocks(deck.extra).value, false),
      EncodeBase64String(PartBlocks(deck.side).value, false)])
  {
    UriPartsOfBlocks(deck, PartBlocks(deck.main).value, PartBlocks(deck.extra).value, PartBlocks(deck.side).value);
  }

  lemma UriPartsOfBlocks(deck: Deck, bm: Bytes, be: Bytes, bs: Bytes)
    requires PartBlocks(deck.main) == Ok(bm) && PartBlocks(deck.extra) == Ok(be) && PartBlocks(deck.side) == Ok(bs)
    ensures UriParts(deck, |DefaultDeckParts|) == Ok([
      EncodeBase64String(bm, false), EncodeBase64String(be, false), EncodeBase64String(bs, false)])
  {
    var tm := EncodeBase64String(bm, false);
    var te := EncodeBase64String(be, false);
    var ts := EncodeBase64String(bs, false);
    assert DefaultDeckParts[0] == Main && DefaultDeckParts[1] == Extra && DefaultDeckParts[2] == Side;
    assert UriParts(deck, 0) == Ok([]);
    UriPartsStep(deck, 1, [], bm);
    assert [] + [tm] == [tm];
    UriPartsStep(deck, 2, [tm], be);
    assert [tm] + [te] == [tm, te];
    UriPartsStep(deck, 3, [tm, te], bs);
    assert [tm, te] + [ts] == [tm, te, ts];
  }

  lemma UriOfParts(deck: Deck, a: string, b: string, c: string)
    requires UriParts(deck, |DefaultDeckParts|) == Ok([a, b, c])
    ensures UriOf(deck) == Ok(YdkeUriProtocol + Join([a, b, c], YdkeDelimiter) + [YdkeDelimiter])
  {
  }

  lemma UriText(a: string, b: string, c: string)
    ensures YdkeUriProtocol + Join([a, b, c], YdkeDelimiter) + [YdkeDelimiter]
         == YdkeUriProtocol + a + [YdkeDelimiter] + b + [YdkeDelimiter] + c + [YdkeDelimiter]
  {
    JoinThree(a, b, c, YdkeDelimiter);
  }

  /** The URI of a deck whose parts all encode: protocol, then each part's base64 followed by `!`. */
  lemma UriOfLayout(deck: Deck)
    requires PartBlocks(deck.main).Ok? && PartBlocks(deck.extra).Ok? && PartBlocks(deck.side).Ok?
    ensures UriOf(deck) == Ok(YdkeUriProtocol
      + EncodeBase64String(PartBlocks(deck.main).value, false) + [YdkeDelimiter]
      + EncodeBase64String(PartBlocks(deck.extra).value, false) + [YdkeDelimiter]
      + EncodeBase64String(PartBlocks(deck.side).value, false) + [YdkeDelimiter])
  {
    var tm := EncodeBase64String(PartBlocks(deck.main).value, false);
    var te := EncodeBase64String(PartBlocks(deck.extra).value, false);
    var ts := EncodeBase64String(PartBlocks(deck.side).value, false);
    UriPartsValue(deck);
    UriOfParts(deck, tm, te, ts);
    UriText(tm, te, ts);
  }

  /** A URI fails to encode exactly when a part does, with the error of the first failing part in part order. */
  lemma UriOfErr(deck: Deck)
    ensures UriOf(deck).Ok? <==> PartBlocks(deck.main).Ok? && PartBlocks(deck.extra).Ok? && PartBlocks(deck.side).Ok?
    ensures PartBlocks(deck.main).Err? ==> UriOf(deck) == Err(PartBlocks(deck.main).error)
    ensures PartBlocks(deck.main).Ok? && PartBlocks(deck.extra).Err? ==> UriOf(deck) == Err(PartBlocks(deck.extra).error)
    ensures PartBlocks(deck.main).Ok? && PartBlocks(deck.extra).Ok? && PartBlocks(deck.side).Err?
            ==> UriOf(deck) == Err(PartBlocks(deck.side).error)
  {
    assert DefaultDeckParts[0] == Main && DefaultDeckParts[1] == Extra && DefaultDeckParts[2] == Side;
    assert UriParts(deck, 0) == Ok([]);
    if PartBlocks(deck.main).Err? {
      assert UriParts(deck, 1) == Err(PartBlocks(deck.main).error);
      UriPartsErr(deck, 1, 3);
    } else {
      var tm := EncodeBase64String(PartBlocks(deck.main).value, false);
      UriPartsStep(deck, 1, [], PartBlocks(deck.main).value);
      if PartBlocks(deck.extra).Err? {
        assert UriParts(deck, 2) == Err(PartBlocks(deck.extra).error);
        UriPartsErr(deck, 2, 3);
      } else {
        var te := EncodeBase64String(PartBlocks(deck.extra).value, false);
        UriPartsStep(deck, 2, [] + [tm], PartBlocks(deck.extra).value);
        if PartBlocks(deck.side).Err? {
          assert UriParts(deck, 3) == Err(PartBlocks(deck.side).error);
        } else {
          UriPartsValue(deck);
        }
      }
    }
  }

  /** Three `!`-free texts written as a URI come back as the three segments. */
  lemma UriSegmentsOf(a: string, b: string, c: string)
    requires YdkeDelimiter !in a && YdkeDelimiter !in b && YdkeDelimiter !in c
    ensures UriSegments(YdkeUriProtocol + a + [YdkeDelimiter] + b + [YdkeDelimiter] + c + [YdkeDelimiter]) == [a, b, c]
  {
    var uri := YdkeUriProtocol + a + [YdkeDelimiter] + b + [YdkeDelimiter] + c + [YdkeDelimiter];
    var pieces := [a, b, c, []];
    JoinFour(a, b, c, [], YdkeDelimiter);
    var joined := a + [YdkeDelimiter] + b + [YdkeDelimiter] + c + [YdkeDelimiter] + [];
    assert uri == YdkeUriProtocol + joined;
    assert Slice(uri, |YdkeUriProtocol|) == joined;
    SplitJoin(pieces, YdkeDelimiter);
  }

  lemma SegmentsDeckStep(segments: seq<string>, k: nat, catalog: Catalog, deck: Deck, bytes: Bytes)
    requires 1 <= k <= |segments| && k <= |DefaultDeckParts|
    requires SegmentsDeck(segments, k - 1, catalog) == Ok(deck)
    requires Decode64String(segments[k - 1], false) == Some(bytes)
    ensures SegmentsDeck(segments, k, catalog) == DecodeBlocks(bytes, DefaultDeckParts[k - 1], deck, catalog)
  {
  }

  /** Reading a URI made of three part texts, each of which decodes to the blocks of one part's cards. */
  lemma UriDeckOfTexts(deck: Deck, catalog: Catalog, tm: string, te: string, ts: string, bm: Bytes, be: Bytes, bs: Bytes)
    requires YdkeDelimiter !in tm && YdkeDelimiter !in te && YdkeDelimiter !in ts
    requires Decode64String(tm, false) == Some(bm) && Decode64String(te, false) == Some(be) && Decode64String(ts, false) == Some(bs)
    requires DecodeBlocks(bm, Main, EmptyDeck(), catalog) == Ok(EmptyDeck().AppendAll(Main, deck.main))
    requires DecodeBlocks(be, Extra, EmptyDeck().AppendAll(Main, deck.main), catalog)
          == Ok(EmptyDeck().AppendAll(Main, deck.main).AppendAll(Extra, deck.extra))
    requires DecodeBlocks(bs, Side, EmptyDeck().AppendAll(Main, deck.main).AppendAll(Extra, deck.extra), catalog)
          == Ok(EmptyDeck().AppendAll(Main, deck.main).AppendAll(Extra, deck.extra).AppendAll(Side, deck.side))
    ensures UriDeck(YdkeUriProtocol + tm + [YdkeDelimiter] + te + [YdkeDelimiter] + ts + [YdkeDelimiter], catalog)
         == Ok(deck.(name := None))
  {
    var d0 := EmptyDeck();
    var d1 := d0.AppendAll(Main, deck.main);
    var d2 := d1.AppendAll(Extra, deck.extra);
    var d3 := d2.AppendAll(Side, deck.side);
    UriSegmentsOf(tm, te, ts);
    var segments := [tm, te, ts];
    assert DefaultDeckParts[0] == Main && DefaultDeckParts[1] == Extra && DefaultDeckParts[2] == Side;
    assert SegmentsDeck(segments, 0, catalog) == Ok(d0);
    SegmentsDeckStep(segments, 1, catalog, d0, bm);
    SegmentsDeckStep(segments, 2, catalog, d1, be);
    SegmentsDeckStep(segments, 3, catalog, d2, bs);
    DeckEquality(d3, deck.(name := None));
  }

  /**
   * `fromUri(toUri(deck))` is the deck without its name, for every deck whose
   * cards are all resolvable in the catalog.
   */
  lemma UriRoundTrip(deck: Deck, catalog: Catalog)
    requires DeckResolvable(deck, catalog)
    ensures UriOf(deck).Ok?
    ensures UriDeck(UriOf(deck).value, catalog) == Ok(deck.(name := None))
  {
    var d0 := EmptyDeck();
    DecodePartBlocks(deck.main, Main, d0, catalog);
    var d1 := d0.AppendAll(Main, deck.main);
    DecodePartBlocks(deck.extra, Extra, d1, catalog);
    var d2 := d1.AppendAll(Extra, deck.extra);
    DecodePartBlocks(deck.side, Side, d2, catalog);
    var bm, be, bs := PartBlocks(deck.main).value, PartBlocks(deck.extra).value, PartBlocks(deck.side).value;
    var tm, te, ts := EncodeBase64String(bm, false), EncodeBase64String(be, false), EncodeBase64String(bs, false);
    UriOfLayout(deck);
    EncodedAlphabet(bm);
    EncodedAlphabet(be);
    EncodedAlphabet(bs);
    DecodeEncodeString(bm, false);
    DecodeEncodeString(be, false);
    DecodeEncodeString(bs, false);
    UriDeckOfTexts(deck, catalog, tm, te, ts, bm, be, bs);
  }

  /** Decoding blocks only pushes cards: the deck's name is left as it was. */
  lemma {:induction false} DecodeBlocksName(bytes: Bytes, part: DeckPart, deck: Deck, catalog: Catalog)
    ensures DecodeBlocks(bytes, part, deck, catalog).Ok? ==> DecodeBlocks(bytes, part, deck, catalog).value.name == deck.name
    decreases |bytes|
  {
    if bytes != [] {
      var card := DecodeCardBlock(BlockAt(bytes, 0), catalog);
      if card.Ok? {
        DecodeBlocksName(bytes[BlockByteSize..], part, deck.Append(part, card.value), catalog);
      }
    }
  }

  /** The deck read from the segments, starting from the empty deck, has no name. */
  lemma {:induction false} SegmentsDeckName(segments: seq<string>, k: nat, catalog: Catalog)
    requires k <= |segments| && k <= |DefaultDeckParts|
    ensures SegmentsDeck(segments, k, catalog).Ok? ==> SegmentsDeck(segments, k, catalog).value.name == None
  {
    if k > 0 {
      SegmentsDeckName(segments, k - 1, catalog);
      var deck := SegmentsDeck(segments, k - 1, catalog);
      if deck.Ok? {
        var bytes := Decode64String(segments[k - 1], false);
        if bytes.Some? {
          DecodeBlocksName(bytes.value, DefaultDeckParts[k - 1], deck.value, catalog);
        }
      }
    }
  }

  /**
   * What `fromUri` promises for every text: a URI without exactly three
   * `!`-closed segments is the part-count error, and a deck it returns never
   * has a name.
   */
  lemma UriDeckOutcome(uri: string, catalog: Catalog)
    ensures |UriSegments(uri)| != |DefaultDeckParts| ==>
      UriDeck(uri, catalog) == Err(WrongPartCount(|DefaultDeckParts|, |UriSegments(uri)|))
    ensures UriDeck(uri, catalog).Ok? ==> UriDeck(uri, catalog).value.name == None
  {
    if |UriSegments(uri)| == |DefaultDeckParts| {
      SegmentsDeckName(UriSegments(uri), |DefaultDeckParts|, catalog);
    }
  }

  /** `fromUri` slices off seven characters without looking at them: any seven-character prefix reads like `ydke://`. */
  lemma UriPrefixIgnored(prefix: string, s: string, catalog: Catalog)
    requires |prefix| == |YdkeUriProtocol|
    ensures UriDeck(prefix + s, catalog) == UriDeck(YdkeUriProtocol + s, catalog)
  {
    assert Slice(prefix + s, |YdkeUriProtocol|) == s;
    assert Slice(YdkeUriProtocol + s, |YdkeUriProtocol|) == s;
  }

  // ---------------------------------------------------------------------------
  // URL query parameter value

  lemma CardsResolvableTail(cards: seq<Card>, catalog: Catalog)
    requires cards != [] && CardsResolvable(cards, catalog)
    ensures Resolvable(cards[0], catalog) && CardsResolvable(cards[1..], catalog)
  {
    forall i | 0 <= i < |cards[1..]|
      ensures Resolvable(cards[1..][i], catalog)
    {
      assert cards[1..][i] == cards[i + 1];
    }
  }

  lemma QueryBlocksStep(deck: Deck, k: nat, init: Bytes, blocks: Bytes)
    requires 1 <= k <= |DefaultDeckParts|
    requires QueryBlocks(deck, k - 1) == Ok(init)
    requires PartBlocks(deck.Part(DefaultDeckParts[k - 1])) == Ok(blocks)
    ensures QueryBlocks(deck, k) == Ok(init + (blocks + DelimiterBlock))
  {
  }

  /** The stream of a deck whose parts all encode: each part's blocks followed by the delimiter, then the name's bytes. */
  lemma QueryStreamLayout(deck: Deck, text: TextCodec)
    requires PartBlocks(deck.main).Ok? && PartBlocks(deck.extra).Ok? && PartBlocks(deck.side).Ok?
    ensures QueryStream(deck, text) == Ok(PartBlocks(deck.main).value + (DelimiterBlock
      + (PartBlocks(deck.extra).value + (DelimiterBlock
      + (PartBlocks(deck.side).value + (DelimiterBlock + NameBytes(deck.name, text)))))))
  {
    var bm, be, bs := PartBlocks(deck.main).value, PartBlocks(deck.extra).value, PartBlocks(deck.side).value;
    var n := NameBytes(deck.name, text);
    var d := DelimiterBlock;
    assert DefaultDeckParts[0] == Main && DefaultDeckParts[1] == Extra && DefaultDeckParts[2] == Side;
    assert QueryBlocks(deck, 0) == Ok([]);
    QueryBlocksStep(deck, 1, [], bm);
    QueryBlocksStep(deck, 2, [] + (bm + d), be);
    QueryBlocksStep(deck, 3, [] + (bm + d) + (be + d), bs);
    StreamAssoc(bm, be, bs, n);
  }

  lemma StreamAssoc(bm: Bytes, be: Bytes, bs: Bytes, n: Bytes)
    ensures [] + (bm + DelimiterBlock) + (be + DelimiterBlock) + (bs + DelimiterBlock) + n
         == bm + (DelimiterBlock + (be + (DelimiterBlock + (bs + (DelimiterBlock + n)))))
  {
  }

  lemma ScanBlockStep(b: Bytes, rest: Bytes, partIndex: nat, deck: Deck, catalog: Catalog, text: TextCodec, card: Card)
    requires partIndex < |DefaultDeckParts|
    requires |b| == BlockByteSize && b != DelimiterBlock
    requires DecodeCardBlock(b, catalog) == Ok(card)
    ensures ScanBlocks(b + rest, partIndex, deck, catalog, text)
         == ScanBlocks(rest, partIndex, deck.Append(DefaultDeckParts[partIndex], card), catalog, text)
  {
    var bytes := b + rest;
    assert BlockAt(bytes, 0) == b;
    assert bytes[BlockByteSize..] == rest;
  }

  /** The cards of a resolvable run all encode. */
  lemma ResolvableEncodes(cards: seq<Card>, catalog: Catalog)
    requires CardsResolvable(cards, catalog)
    ensures PartBlocks(cards).Ok?
  {
    forall i | 0 <= i < |cards|
      ensures EncodeCardBlock(cards[i]).Ok?
    {
      CardBlockRoundTrip(cards[i], catalog);
    }
    PartBlocksOk(cards);
  }

  /** The blocks of a non-empty run: the first card's block, then the blocks of the others. */
  lemma PartBlocksCons(cards: seq<Card>, blocks: Bytes)
    requires cards != [] && PartBlocks(cards) == Ok(blocks)
    ensures EncodeCardBlock(cards[0]).Ok? && PartBlocks(cards[1..]).Ok?
    ensures blocks == EncodeCardBlock(cards[0]).value + PartBlocks(cards[1..]).value
  {
  }

  /** Scanning the blocks of resolvable cards appends exactly those cards to the current part. */
  lemma {:induction false} ScanCards(cards: seq<Card>, blocks: Bytes, rest: Bytes, partIndex: nat, deck: Deck, catalog: Catalog, text: TextCodec)
    requires partIndex < |DefaultDeckParts|
    requires CardsResolvable(cards, catalog)
    requires PartBlocks(cards) == Ok(blocks)
    ensures ScanBlocks(blocks + rest, partIndex, deck, catalog, text)
         == ScanBlocks(rest, partIndex, deck.AppendAll(DefaultDeckParts[partIndex], cards), catalog, text)
  {
    var part := DefaultDeckParts[partIndex];
    if cards == [] {
      assert blocks + rest == rest;
      AppendAllEmpty(deck, part);
    } else {
      var c := cards[0];
      PartBlocksCons(cards, blocks);
      var b := EncodeCardBlock(c).value;
      var t := PartBlocks(cards[1..]).value;
      CardsResolvableTail(cards, catalog);
      CardBlockRoundTrip(c, catalog);
      ScanCards(cards[1..], t, rest, partIndex, deck.Append(part, c), catalog, text);
      ScanCardsCons(c, cards[1..], b, t, rest, partIndex, deck, catalog, text);
      assert [c] + cards[1..] == cards;
    }
  }

  lemma ScanCardsCons(c: Card, cards: seq<Card>, b: Bytes, t: Bytes, rest: Bytes, partIndex: nat, deck: Deck, catalog: Catalog, text: TextCodec)
    requires partIndex < |DefaultDeckParts|
    requires |b| == BlockByteSize && b != DelimiterBlock && DecodeCardBlock(b, catalog) == Ok(c)
    requires ScanBlocks(t + rest, partIndex, deck.Append(DefaultDeckParts[partIndex], c), catalog, text)
          == ScanBlocks(rest, partIndex, deck.Append(DefaultDeckParts[partIndex], c).AppendAll(DefaultDeckParts[partIndex], cards), catalog, text)
    ensures ScanBlocks(b + t + rest, partIndex, deck, catalog, text)
         == ScanBlocks(rest, partIndex, deck.AppendAll(DefaultDeckParts[partIndex], [c] + cards), catalog, text)
  {
    assert b + t + rest == b + (t + rest);
    ScanBlockStep(b, t + rest, partIndex, deck, catalog, text, c);
    AppendThenAppendAll(deck, DefaultDeckParts[partIndex], c, cards);
  }

  /** A delimiter block before the last part's moves the scan to the next part. */
  lemma ScanDelimiter(rest: Bytes, partIndex: nat, deck: Deck, catalog: Catalog, text: TextCodec)
    requires partIndex < |DefaultDeckParts| - 1
    ensures ScanBlocks(DelimiterBlock + rest, partIndex, deck, catalog, text)
         == ScanBlocks(rest, partIndex + 1, deck, catalog, text)
  {
    var bytes := DelimiterBlock + rest;
    assert BlockAt(bytes, 0) == DelimiterBlock;
    assert bytes[BlockByteSize..] == rest;
  }

  /** After the last part's delimiter, the remaining bytes, when there are any, are the name. */
  lemma ScanName(nameBytes: Bytes, deck: Deck, catalog: Catalog, text: TextCodec)
    ensures ScanBlocks(DelimiterBlock + nameBytes, |DefaultDeckParts| - 1, deck, catalog, text)
         == Ok(if nameBytes == [] then deck else deck.(name := Some(text.decode(nameBytes))))
  {
    var bytes := DelimiterBlock + nameBytes;
    assert BlockAt(bytes, 0) == DelimiterBlock;
    assert bytes[BlockByteSize..] == nameBytes;
  }

  /**
   * With `encodeNumber` as written, a card whose passcode `Number()` reads as NaN
   * is written as the delimiter block, and the reader takes it for the end of the
   * part: the card is lost. In the main or extra part the cards after it are read
   * into the next part; in the side part the scan stops there and every byte
   * after it (the later side cards, the real delimiter and the name) is read as
   * the deck name.
   */
  lemma NonNumericCardEndsPart(card: Card, rest: Bytes, partIndex: nat, deck: Deck, catalog: Catalog, text: TextCodec)
    requires NonNumeric(card.passcode) && partIndex < |DefaultDeckParts|
    ensures EncodeNumberAsWritten(ToNumber(card.passcode)) == Ok(DelimiterBlock)
    ensures partIndex < |DefaultDeckParts| - 1 ==>
      ScanBlocks(EncodeNumberAsWritten(ToNumber(card.passcode)).value + rest, partIndex, deck, catalog, text)
      == ScanBlocks(rest, partIndex + 1, deck, catalog, text)
    ensures partIndex == |DefaultDeckParts| - 1 ==>
      ScanBlocks(EncodeNumberAsWritten(ToNumber(card.passcode)).value + rest, partIndex, deck, catalog, text)
      == Ok(if rest == [] then deck else deck.(name := Some(text.decode(rest))))
  {
    NonNumericPasscodeIsDelimiter(card.passcode);
    if partIndex < |DefaultDeckParts| - 1 {
      ScanDelimiter(rest, partIndex, deck, catalog, text);
    } else {
      ScanName(rest, deck, catalog, text);
    }
  }

  /** The scan reads back the stream of a deck: its cards part by part, and its name unless the name was empty. */
  lemma ScanStream(deck: Deck, catalog: Catalog, text: TextCodec)
    requires DeckResolvable(deck, catalog)
    requires NameRoundTrips(text)
    ensures QueryStream(deck, text).Ok?
    ensures ScanBlocks(QueryStream(deck, text).value, 0, EmptyDeck(), catalog, text)
         == Ok(deck.(name := if deck.name == Some([]) then None else deck.name))
  {
    ResolvableEncodes(deck.main, catalog);
    ResolvableEncodes(deck.extra, catalog);
    ResolvableEncodes(deck.side, catalog);
    var n := NameBytes(deck.name, text);
    var d := DelimiterBlock;
    var bm, be, bs := PartBlocks(deck.main).value, PartBlocks(deck.extra).value, PartBlocks(deck.side).value;
    QueryStreamLayout(deck, text);
    assert DefaultDeckParts[0] == Main && DefaultDeckParts[1] == Extra && DefaultDeckParts[2] == Side;
    var d0 := EmptyDeck();
    var d1 := d0.AppendAll(Main, deck.main);
    var d2 := d1.AppendAll(Extra, deck.extra);
    var d3 := d2.AppendAll(Side, deck.side);
    ScanCards(deck.main, bm, d + (be + (d + (bs + (d + n)))), 0, d0, catalog, text);
    ScanDelimiter(be + (d + (bs + (d + n))), 0, d1, catalog, text);
    ScanCards(deck.extra, be, d + (bs + (d + n)), 1, d1, catalog, text);
    ScanDelimiter(bs + (d + n), 1, d2, catalog, text);
    ScanCards(deck.side, bs, d + n, 2, d2, catalog, text);
    ScanName(n, d3, catalog, text);
    var expected := deck.(name := if deck.name == Some([]) then None else deck.name);
    if n == [] {
      DeckEquality(d3, expected);
    } else {
      DeckEquality(d3.(name := Some(text.decode(n))), expected);
    }
  }

  /**
   * `fromUrlQueryParamValue(toUrlQueryParamValue(deck))` is the deck, except that
   * an empty name comes back as no name; given resolvable cards, an inflater that
   * undoes the deflater and a text decoder that undoes the encoder.
   */
  lemma QueryRoundTrip(deck: Deck, catalog: Catalog, z: Compression, text: TextCodec)
    requires DeckResolvable(deck, catalog)
    requires Lossless(z) && NameRoundTrips(text)
    ensures QueryValueOf(deck, z, text).Ok?
    ensures QueryValueDeck(QueryValueOf(deck, z, text).value, catalog, z, text)
         == Ok(deck.(name := if deck.name == Some([]) then None else deck.name))
  {
    ScanStream(deck, catalog, text);
    var stream := QueryStream(deck, text).value;
    DecodeEncodeString(z.deflateRaw(stream), true);
  }
}
