/**
 * The published examples worked through the model: the ydke URI of main deck
 * 5050644, 29189613, 29189613, extra deck 38148100 and side deck 5050644 in
 * both directions, and the byte stream of the unnamed deck 123 / 456 / 789
 * that the query format compresses.
 */
module DeckUriExamples {
  import opened Wrappers
  import opened Bytes
  import opened Decimal
  import opened Ygo
  import opened CardBlocks
  import Base64
  import opened UrlSafeBase64
  import opened DeckUriEncodingService
  import opened DeckUriProperties

  lemma Passcode1()
    ensures AllDigits("5050644") && DigitsValue("5050644") == 5050644
  {
    DigitsAppend("", '5'); assert "" + ['5'] == "5";
    DigitsAppend("5", '0'); assert "5" + ['0'] == "50";
    DigitsAppend("50", '5'); assert "50" + ['5'] == "505";
    DigitsAppend("505", '0'); assert "505" + ['0'] == "5050";
    DigitsAppend("5050", '6'); assert "5050" + ['6'] == "50506";
    DigitsAppend("50506", '4'); assert "50506" + ['4'] == "505064";
    DigitsAppend("505064", '4'); assert "505064" + ['4'] == "5050644";
  }

  lemma Passcode2()
    ensures AllDigits("29189613") && DigitsValue("29189613") == 29189613
  {
    DigitsAppend("", '2'); assert "" + ['2'] == "2";
    DigitsAppend("2", '9'); assert "2" + ['9'] == "29";
    DigitsAppend("29", '1'); assert "29" + ['1'] == "291";
    DigitsAppend("291", '8'); assert "291" + ['8'] == "2918";
    DigitsAppend("2918", '9'); assert "2918" + ['9'] == "29189";
    DigitsAppend("29189", '6'); assert "29189" + ['6'] == "291896";
    DigitsAppend("291896", '1'); assert "291896" + ['1'] == "2918961";
    DigitsAppend("2918961", '3'); assert "2918961" + ['3'] == "29189613";
  }

  lemma Passcode3()
    ensures AllDigits("38148100") && DigitsValue("38148100") == 38148100
  {
    DigitsAppend("", '3'); assert "" + ['3'] == "3";
    DigitsAppend("3", '8'); assert "3" + ['8'] == "38";
    DigitsAppend("38", '1'); assert "38" + ['1'] == "381";
    DigitsAppend("381", '4'); assert "381" + ['4'] == "3814";
    DigitsAppend("3814", '8'); assert "3814" + ['8'] == "38148";
    DigitsAppend("38148", '1'); assert "38148" + ['1'] == "381481";
    DigitsAppend("381481", '0'); assert "381481" + ['0'] == "3814810";
    DigitsAppend("3814810", '0'); assert "3814810" + ['0'] == "38148100";
  }

  /** The block of a card whose passcode has value `n` is `n` in little-endian order. */
  lemma CardBlockOf(card: Card, n: nat, block: Bytes)
    requires AllDigits(card.passcode) && DigitsValue(card.passcode) == n && 0 < n < Limit
    requires LittleEndian(n) == block
    ensures EncodeCardBlock(card) == Ok(block)
  {
    LittleEndianDecode(EncodeCardBlock(card).value);
  }

  lemma Blocks(c1: Card, c2: Card, c3: Card)
    requires c1.passcode == "5050644" && c2.passcode == "29189613" && c3.passcode == "38148100"
    ensures EncodeCardBlock(c1) == Ok([20, 17, 77, 0])
    ensures EncodeCardBlock(c2) == Ok([237, 101, 189, 1])
    ensures EncodeCardBlock(c3) == Ok([4, 24, 70, 2])
  {
    Passcode1();
    Passcode2();
    Passcode3();
    CardBlockOf(c1, 5050644, [20, 17, 77, 0]);
    CardBlockOf(c2, 29189613, [237, 101, 189, 1]);
    CardBlockOf(c3, 38148100, [4, 24, 70, 2]);
  }

  lemma PartOfThree(a: Card, b: Card, c: Card, ba: Bytes, bb: Bytes, bc: Bytes)
    requires EncodeCardBlock(a) == Ok(ba) && EncodeCardBlock(b) == Ok(bb) && EncodeCardBlock(c) == Ok(bc)
    ensures PartBlocks([a, b, c]) == Ok(ba + (bb + bc))
  {
    assert [a, b, c][1..] == [b, c];
    assert [b, c][1..] == [c];
    PartBlocksSingle(c);
  }

  lemma PartOfOne(a: Card, ba: Bytes)
    requires EncodeCardBlock(a) == Ok(ba)
    ensures PartBlocks([a]) == Ok(ba)
  {
    PartBlocksSingle(a);
  }

  lemma EncodeGroup1() ensures Base64.Encode([20, 17, 77]) == "FBFN" {}
  lemma EncodeGroup2() ensures Base64.Encode([0, 237, 101]) == "AO1l" {}
  lemma EncodeGroup3() ensures Base64.Encode([189, 1, 237]) == "vQHt" {}
  lemma EncodeGroup4() ensures Base64.Encode([101, 189, 1]) == "Zb0B" {}

  lemma EncodeFourGroups(g1: Bytes, g2: Bytes, g3: Bytes, g4: Bytes, all: Bytes, e1: string, e2: string, e3: string, e4: string)
    requires |g1| == 3 && |g2| == 3 && |g3| == 3 && all == g1 + (g2 + (g3 + g4))
    requires Base64.Encode(g1) == e1 && Base64.Encode(g2) == e2 && Base64.Encode(g3) == e3 && Base64.Encode(g4) == e4
    ensures Base64.Encode(all) == e1 + (e2 + (e3 + e4))
  {
    Base64.EncodeGroups(g3, g4);
    Base64.EncodeGroups(g2, g3 + g4);
    Base64.EncodeGroups(g1, g2 + (g3 + g4));
  }

  lemma MainText(x: Bytes)
    requires x == [20, 17, 77, 0] + ([237, 101, 189, 1] + [237, 101, 189, 1])
    ensures EncodeBase64String(x, false) == "FBFNAO1lvQHtZb0B"
  {
    EncodeGroup1();
    EncodeGroup2();
    EncodeGroup3();
    EncodeGroup4();
    EncodeFourGroups([20, 17, 77], [0, 237, 101], [189, 1, 237], [101, 189, 1], x, "FBFN", "AO1l", "vQHt", "Zb0B");
    MainLiteral();
  }

  lemma MainLiteral()
    ensures "FBFN" + ("AO1l" + ("vQHt" + "Zb0B")) == "FBFNAO1lvQHtZb0B"
  {
  }

  lemma ExtraText() ensures EncodeBase64String([4, 24, 70, 2], false) == "BBhGAg==" {}
  lemma SideText() ensures EncodeBase64String([20, 17, 77, 0], false) == "FBFNAA==" {}

  /** The example deck as the model builds it. */
  function ExampleDeck(c1: Card, c2: Card, c3: Card): (d: Deck)
    ensures d.name == None && |d.main| == 3 && |d.extra| == 1 && |d.side| == 1
  {
    Deck(None, [c1, c2, c2], [c3], [c1])
  }

  /** `toUri` of the example deck is the published URI. */
  lemma UriExample(c1: Card, c2: Card, c3: Card)
    requires c1.passcode == "5050644" && c2.passcode == "29189613" && c3.passcode == "38148100"
    ensures UriOf(ExampleDeck(c1, c2, c3)) == Ok("ydke://FBFNAO1lvQHtZb0B!BBhGAg==!FBFNAA==!")
  {
    var deck := ExampleDeck(c1, c2, c3);
    Blocks(c1, c2, c3);
    PartOfThree(c1, c2, c2, [20, 17, 77, 0], [237, 101, 189, 1], [237, 101, 189, 1]);
    PartOfOne(c3, [4, 24, 70, 2]);
    PartOfOne(c1, [20, 17, 77, 0]);
    MainText(PartBlocks(deck.main).value);
    ExtraText();
    SideText();
    UriOfLayout(deck);
    UriLiteral();
  }

  lemma UriLiteral()
    ensures YdkeUriProtocol + "FBFNAO1lvQHtZb0B" + [YdkeDelimiter] + "BBhGAg==" + [YdkeDelimiter] + "FBFNAA==" + [YdkeDelimiter]
            == "ydke://FBFNAO1lvQHtZb0B!BBhGAg==!FBFNAA==!"
  {
  }

  /** `fromUri` of the published URI, with a catalog holding the three cards, is the example deck. */
  lemma FromUriExample(c1: Card, c2: Card, c3: Card, catalog: Catalog)
    requires c1.passcode == "5050644" && c2.passcode == "29189613" && c3.passcode == "38148100"
    requires "5050644" in catalog && catalog["5050644"] == c1
    requires "29189613" in catalog && catalog["29189613"] == c2
    requires "38148100" in catalog && catalog["38148100"] == c3
    ensures UriDeck("ydke://FBFNAO1lvQHtZb0B!BBhGAg==!FBFNAA==!", catalog) == Ok(ExampleDeck(c1, c2, c3))
  {
    Passcode1();
    Passcode2();
    Passcode3();
    assert Resolvable(c1, catalog) && Resolvable(c2, catalog) && Resolvable(c3, catalog);
    var deck := ExampleDeck(c1, c2, c3);
    assert DeckResolvable(deck, catalog);
    UriExample(c1, c2, c3);
    UriRoundTrip(deck, catalog);
    assert deck.(name := None) == deck;
  }

  /** The value of a three-digit passcode. */
  lemma ThreeDigits(s: string)
    requires |s| == 3 && AllDigits(s)
    ensures DigitsValue(s) == 100 * DigitValue(s[0]) + 10 * DigitValue(s[1]) + DigitValue(s[2])
  {
    DigitsAppend([], s[0]);
    DigitsAppend([s[0]], s[1]);
    DigitsAppend([s[0], s[1]], s[2]);
    assert [] + [s[0]] == [s[0]] && [s[0]] + [s[1]] == [s[0], s[1]] && [s[0], s[1]] + [s[2]] == s;
  }

  lemma StreamLiteral()
    ensures ([123, 0, 0, 0] + (DelimiterBlock + ([200, 1, 0, 0] + (DelimiterBlock + ([21, 3, 0, 0] + (DelimiterBlock + []))))))
         == [123, 0, 0, 0, 0, 0, 0, 0, 200, 1, 0, 0, 0, 0, 0, 0, 21, 3, 0, 0, 0, 0, 0, 0]
  {
  }

  /** The stream the query format compresses for the unnamed deck 123 / 456 / 789: each part's blocks closed by the delimiter block, and no name bytes. */
  lemma QueryStreamExample(c1: Card, c2: Card, c3: Card, text: TextCodec)
    requires c1.passcode == "123" && c2.passcode == "456" && c3.passcode == "789"
    ensures QueryStream(Deck(None, [c1], [c2], [c3]), text)
         == Ok([123, 0, 0, 0, 0, 0, 0, 0, 200, 1, 0, 0, 0, 0, 0, 0, 21, 3, 0, 0, 0, 0, 0, 0])
  {
    ThreeDigits("123");
    ThreeDigits("456");
    ThreeDigits("789");
    CardBlockOf(c1, 123, [123, 0, 0, 0]);
    CardBlockOf(c2, 456, [200, 1, 0, 0]);
    CardBlockOf(c3, 789, [21, 3, 0, 0]);
    var deck := Deck(None, [c1], [c2], [c3]);
    PartOfOne(c1, [123, 0, 0, 0]);
    PartOfOne(c2, [200, 1, 0, 0]);
    PartOfOne(c3, [21, 3, 0, 0]);
    QueryStreamLayout(deck, text);
    StreamLiteral();
  }
}
