/**
 * What the legacy reader promises: the published example, and a round trip
 * against a reference writer of the format (one plain passcode per copy, the
 * parts in default order).
 */
module LegacyProperties {
  import opened Wrappers
  import opened Decimal
  import opened Ygo
  import opened CardBlocks
  import opened JsStrings
  import opened DeckUriEncodingService

  /** An entry with a count digit and a known passcode adds that many copies of the card to the part at `index`; `*0` adds none. */
  lemma CountedEntry(d: char, passcode: string, index: nat, deck: Deck, catalog: Catalog)
    requires IsDigit(d) && passcode in catalog && index < |DefaultDeckParts|
    ensures LegacyEntry([LegacyCardAmountMarker, d] + passcode, index, deck, catalog)
         == Ok(deck.AppendAll(DefaultDeckParts[index], Repeat(catalog[passcode], DigitValue(d))))
  {
    var entry := [LegacyCardAmountMarker, d] + passcode;
    NumberOfChar(d);
    assert entry[1] == d;
    assert Slice(entry, 2) == passcode;
    if DigitValue(d) == 0 {
      AppendAllEmpty(deck, DefaultDeckParts[index]);
    }
  }

  /** Only one digit is read as the count: `*12345` is one copy of `2345`, not twelve of `345`. */
  lemma CountIsOneDigit(index: nat, deck: Deck, catalog: Catalog)
    requires "2345" in catalog && index < |DefaultDeckParts|
    ensures LegacyEntry("*12345", index, deck, catalog)
         == Ok(deck.AppendAll(DefaultDeckParts[index], [catalog["2345"]]))
  {
    assert "*12345" == [LegacyCardAmountMarker, '1'] + "2345";
    CountedEntry('1', "2345", index, deck, catalog);
    assert Repeat(catalog["2345"], 1) == [catalog["2345"]];
  }

  /** Whatever the segment, an entry whose passcode the catalog lacks is the unknown-card error, checked before any copy is pushed. */
  lemma UnknownEntry(entry: string, index: nat, deck: Deck, catalog: Catalog)
    requires EntryPasscode(entry) !in catalog
    ensures LegacyEntry(entry, index, deck, catalog) == Err(UnknownCard(EntryPasscode(entry)))
  {
  }

  /** A known entry whose count is zero (`*0`, or a count character that is not a digit) pushes nothing and never fails, in any segment. */
  lemma ZeroCountEntry(entry: string, index: nat, deck: Deck, catalog: Catalog)
    requires EntryPasscode(entry) in catalog && EntryCount(entry) == 0
    ensures LegacyEntry(entry, index, deck, catalog) == Ok(deck)
  {
  }

  /** A known entry with a non-zero count in a segment past the third fails at its first push: there is no such deck part. */
  lemma MissingPartEntry(entry: string, index: nat, deck: Deck, catalog: Catalog)
    requires index >= |DefaultDeckParts| && EntryPasscode(entry) in catalog && EntryCount(entry) > 0
    ensures LegacyEntry(entry, index, deck, catalog) == Err(MissingDeckPart(index))
  {
  }

  /**
   * A segment past the third: an empty one is ignored; otherwise its first
   * known entry fails when its count is non-zero, and is skipped when its
   * count is zero.
   */
  lemma FourthSegment(entry: string, rest: string, index: nat, deck: Deck, catalog: Catalog)
    requires index >= |DefaultDeckParts|
    requires LegacyPasscodeDelimiter !in entry && EntryPasscode(entry) in catalog
    ensures LegacySegment("", index, deck, catalog) == Ok(deck)
    ensures EntryCount(entry) > 0 ==>
      LegacySegment(entry + [LegacyPasscodeDelimiter] + rest, index, deck, catalog) == Err(MissingDeckPart(index))
    ensures EntryCount(entry) == 0 ==>
      LegacySegment(entry + [LegacyPasscodeDelimiter] + rest, index, deck, catalog)
      == LegacyEntries(Split(rest, LegacyPasscodeDelimiter), index, deck, catalog)
  {
    var segment := entry + [LegacyPasscodeDelimiter] + rest;
    SplitAfter(entry, LegacyPasscodeDelimiter, rest);
    var entries := [entry] + Split(rest, LegacyPasscodeDelimiter);
    assert |segment| > 0 && entries[0] == entry && entries[1..] == Split(rest, LegacyPasscodeDelimiter);
    if EntryCount(entry) > 0 {
      MissingPartEntry(entry, index, deck, catalog);
    } else {
      ZeroCountEntry(entry, index, deck, catalog);
    }
  }

  /** A fourth segment of zero-count entries is read without error: `"|||*0123"` is the empty deck. */
  lemma ZeroCountFourthSegment(catalog: Catalog)
    requires "123" in catalog
    ensures LegacyDeck("|||*0123", catalog) == Ok(EmptyDeck())
  {
    var e := EmptyDeck();
    var segments := ["", "", "", "*0123"];
    JoinFour("", "", "", "*0123", LegacyDeckPartDelimiter);
    assert "|||*0123" == Join(segments, LegacyDeckPartDelimiter);
    SplitJoin(segments, LegacyDeckPartDelimiter);
    SplitPiece("*0123", LegacyPasscodeDelimiter);
    assert Slice("*0123", 2) == "123";
    NumberOfChar('0');
    assert EntryCount("*0123") == 0;
    assert LegacyEntries(["*0123"], 3, e, catalog) == Ok(e);
    assert segments[1..] == ["", "", "*0123"] && segments[1..][1..] == ["", "*0123"];
    assert segments[1..][1..][1..] == ["*0123"] && segments[1..][1..][1..][1..] == [];
  }

  /** A passcode the reference writer can write and the reader finds back: non-empty, free of the three delimiters at the start, and filed under itself. */
  predicate Writable(card: Card, catalog: Catalog) {
    |card.passcode| > 0 && card.passcode[0] != LegacyCardAmountMarker
    && LegacyDeckPartDelimiter !in card.passcode && LegacyPasscodeDelimiter !in card.passcode
    && card.passcode in catalog && catalog[card.passcode] == card
  }

  predicate AllWritable(cards: seq<Card>, catalog: Catalog) {
    forall i :: 0 <= i < |cards| ==> Writable(cards[i], catalog)
  }

  function Passcodes(cards: seq<Card>): (passcodes: seq<string>)
    ensures |passcodes| == |cards|
    ensures forall i :: 0 <= i < |cards| ==> passcodes[i] == cards[i].passcode
  {
    seq(|cards|, i requires 0 <= i < |cards| => cards[i].passcode)
  }

  /** A reference writer: each part's passcodes joined by `;`, the parts joined by `|`. */
  function LegacyText(deck: Deck): string {
    Join([Join(Passcodes(deck.main), LegacyPasscodeDelimiter),
          Join(Passcodes(deck.extra), LegacyPasscodeDelimiter),
          Join(Passcodes(deck.side), LegacyPasscodeDelimiter)], LegacyDeckPartDelimiter)
  }

  lemma {:induction false} PlainEntries(cards: seq<Card>, index: nat, deck: Deck, catalog: Catalog)
    requires index < |DefaultDeckParts| && AllWritable(cards, catalog)
    ensures LegacyEntries(Passcodes(cards), index, deck, catalog) == Ok(deck.AppendAll(DefaultDeckParts[index], cards))
  {
    var part := DefaultDeckParts[index];
    if cards == [] {
      AppendAllEmpty(deck, part);
    } else {
      var c := cards[0];
      assert Writable(c, catalog);
      assert Repeat(c, 1) == [c];
      assert LegacyEntry(c.passcode, index, deck, catalog) == Ok(deck.Append(part, c));
      assert AllWritable(cards[1..], catalog) by {
        forall i | 0 <= i < |cards[1..]|
          ensures Writable(cards[1..][i], catalog)
        {
          assert cards[1..][i] == cards[i + 1];
        }
      }
      PlainEntries(cards[1..], index, deck.Append(part, c), catalog);
      assert Passcodes(cards)[1..] == Passcodes(cards[1..]);
      AppendThenAppendAll(deck, part, c, cards[1..]);
      assert [c] + cards[1..] == cards;
    }
  }

  /** The segment the reference writer makes of a part reads back as that part's cards. */
  lemma PlainSegment(cards: seq<Card>, index: nat, deck: Deck, catalog: Catalog)
    requires index < |DefaultDeckParts| && AllWritable(cards, catalog)
    ensures LegacyDelimiterFree(cards)
    ensures LegacySegment(Join(Passcodes(cards), LegacyPasscodeDelimiter), index, deck, catalog)
         == Ok(deck.AppendAll(DefaultDeckParts[index], cards))
  {
    var passcodes := Passcodes(cards);
    JoinAvoids(passcodes, LegacyPasscodeDelimiter, LegacyDeckPartDelimiter);
    if cards == [] {
      AppendAllEmpty(deck, DefaultDeckParts[index]);
    } else {
      JoinStart(passcodes, LegacyPasscodeDelimiter);
      SplitJoin(passcodes, LegacyPasscodeDelimiter);
      PlainEntries(cards, index, deck, catalog);
    }
  }

  predicate LegacyDelimiterFree(cards: seq<Card>) {
    LegacyDeckPartDelimiter !in Join(Passcodes(cards), LegacyPasscodeDelimiter)
  }

  /** Reading the reference writer's text gives the deck back, without a name, when every card is writable. */
  lemma LegacyRoundTrip(deck: Deck, catalog: Catalog)
    requires AllWritable(deck.main, catalog) && AllWritable(deck.extra, catalog) && AllWritable(deck.side, catalog)
    ensures LegacyDeck(LegacyText(deck), catalog) == Ok(deck.(name := None))
  {
    var tm := Join(Passcodes(deck.main), LegacyPasscodeDelimiter);
    var te := Join(Passcodes(deck.extra), LegacyPasscodeDelimiter);
    var ts := Join(Passcodes(deck.side), LegacyPasscodeDelimiter);
    assert DefaultDeckParts[0] == Main && DefaultDeckParts[1] == Extra && DefaultDeckParts[2] == Side;
    var d0 := EmptyDeck();
    PlainSegment(deck.main, 0, d0, catalog);
    var d1 := d0.AppendAll(Main, deck.main);
    PlainSegment(deck.extra, 1, d1, catalog);
    var d2 := d1.AppendAll(Extra, deck.extra);
    PlainSegment(deck.side, 2, d2, catalog);
    var d3 := d2.AppendAll(Side, deck.side);
    var segments := [tm, te, ts];
    SplitJoin(segments, LegacyDeckPartDelimiter);
    assert segments[1..] == [te, ts] && segments[1..][1..] == [ts] && segments[1..][1..][1..] == [];
    assert LegacySegments([], 3, d3, catalog) == Ok(d3);
    assert LegacySegments([ts], 2, d2, catalog) == Ok(d3);
    assert LegacySegments([te, ts], 1, d1, catalog) == Ok(d3);
    assert LegacySegments(segments, 0, d0, catalog) == Ok(d3);
    DeckEquality(d3, deck.(name := None));
  }

  /** One entry only pushes cards: the name is left as it was. */
  lemma LegacyEntryName(entry: string, index: nat, deck: Deck, catalog: Catalog)
    ensures LegacyEntry(entry, index, deck, catalog).Ok? ==> LegacyEntry(entry, index, deck, catalog).value.name == deck.name
  {
  }

  lemma {:induction false} LegacyEntriesName(entries: seq<string>, index: nat, deck: Deck, catalog: Catalog)
    ensures LegacyEntries(entries, index, deck, catalog).Ok? ==> LegacyEntries(entries, index, deck, catalog).value.name == deck.name
  {
    if entries != [] {
      LegacyEntryName(entries[0], index, deck, catalog);
      var next := LegacyEntry(entries[0], index, deck, catalog);
      if next.Ok? {
        LegacyEntriesName(entries[1..], index, next.value, catalog);
      }
    }
  }

  lemma {:induction false} LegacySegmentsName(segments: seq<string>, index: nat, deck: Deck, catalog: Catalog)
    ensures LegacySegments(segments, index, deck, catalog).Ok? ==> LegacySegments(segments, index, deck, catalog).value.name == deck.name
    decreases |segments|
  {
    if segments != [] {
      if |segments[0]| > 0 {
        LegacyEntriesName(Split(segments[0], LegacyPasscodeDelimiter), index, deck, catalog);
      }
      var next := LegacySegment(segments[0], index, deck, catalog);
      if next.Ok? {
        LegacySegmentsName(segments[1..], index + 1, next.value, catalog);
      }
    }
  }

  /** A deck the legacy reader returns never has a name: the format has no place for one. */
  lemma LegacyDeckName(uncompressedValue: string, catalog: Catalog)
    ensures LegacyDeck(uncompressedValue, catalog).Ok? ==> LegacyDeck(uncompressedValue, catalog).value.name == None
  {
    LegacySegmentsName(Split(uncompressedValue, LegacyDeckPartDelimiter), 0, EmptyDeck(), catalog);
  }

  lemma ExampleSplit()
    ensures Split("123|*2456|789;999;*3123", LegacyDeckPartDelimiter) == ["123", "*2456", "789;999;*3123"]
  {
    assert "123|*2456|789;999;*3123" == "123" + [LegacyDeckPartDelimiter] + "*2456" + [LegacyDeckPartDelimiter] + "789;999;*3123";
    JoinThree("123", "*2456", "789;999;*3123", LegacyDeckPartDelimiter);
    SplitJoin(["123", "*2456", "789;999;*3123"], LegacyDeckPartDelimiter);
  }

  /** An entry without `*` adds one copy of the card it names. */
  lemma PlainEntry(entry: string, index: nat, deck: Deck, catalog: Catalog)
    requires !Counted(entry) && entry in catalog && index < |DefaultDeckParts|
    ensures LegacyEntry(entry, index, deck, catalog) == Ok(deck.Append(DefaultDeckParts[index], catalog[entry]))
  {
    assert Repeat(catalog[entry], 1) == [catalog[entry]];
  }

  /** A segment without `;` is a single entry. */
  lemma SingleEntrySegment(entry: string, index: nat, deck: Deck, catalog: Catalog)
    requires |entry| > 0 && LegacyPasscodeDelimiter !in entry
    ensures LegacySegment(entry, index, deck, catalog) == LegacyEntry(entry, index, deck, catalog)
  {
    SplitPiece(entry, LegacyPasscodeDelimiter);
    EntriesSingle(entry, index, deck, catalog);
  }

  lemma EntriesSingle(entry: string, index: nat, deck: Deck, catalog: Catalog)
    ensures LegacyEntries([entry], index, deck, catalog) == LegacyEntry(entry, index, deck, catalog)
  {
    assert [entry][1..] == [];
  }

  /** The entries of a segment: the first entry, then the rest from the deck it gives. */
  lemma EntriesCons(entry: string, rest: seq<string>, index: nat, deck: Deck, next: Deck, catalog: Catalog)
    requires LegacyEntry(entry, index, deck, catalog) == Ok(next)
    ensures LegacyEntries([entry] + rest, index, deck, catalog) == LegacyEntries(rest, index, next, catalog)
  {
    assert ([entry] + rest)[1..] == rest;
  }

  lemma ExampleMain(deck: Deck, catalog: Catalog)
    requires "123" in catalog
    ensures LegacySegment("123", 0, deck, catalog) == Ok(deck.Append(Main, catalog["123"]))
  {
    SingleEntrySegment("123", 0, deck, catalog);
    PlainEntry("123", 0, deck, catalog);
  }

  lemma ExampleExtra(deck: Deck, catalog: Catalog)
    requires "456" in catalog
    ensures LegacySegment("*2456", 1, deck, catalog) == Ok(deck.AppendAll(Extra, [catalog["456"], catalog["456"]]))
  {
    SingleEntrySegment("*2456", 1, deck, catalog);
    assert "*2456" == [LegacyCardAmountMarker, '2'] + "456";
    CountedEntry('2', "456", 1, deck, catalog);
    assert Repeat(catalog["456"], 2) == [catalog["456"], catalog["456"]];
  }

  lemma ExampleSideEntries()
    ensures Split("789;999;*3123", LegacyPasscodeDelimiter) == ["789", "999", "*3123"]
  {
    assert "789;999;*3123" == "789" + [LegacyPasscodeDelimiter] + "999" + [LegacyPasscodeDelimiter] + "*3123";
    JoinThree("789", "999", "*3123", LegacyPasscodeDelimiter);
    SplitJoin(["789", "999", "*3123"], LegacyPasscodeDelimiter);
  }

  lemma ExampleSideDeck(deck: Deck, c1: Card, c3: Card, c4: Card)
    ensures deck.Append(Side, c3).Append(Side, c4).AppendAll(Side, [c1, c1, c1]) == deck.AppendAll(Side, [c3, c4, c1, c1, c1])
  {
    AppendAllEmpty(deck, Side);
    AppendAllThenAppend(deck, Side, [], c3);
    AppendAllThenAppend(deck, Side, [c3], c4);
    assert [] + [c3] == [c3] && [c3] + [c4] == [c3, c4];
    AppendAllTwice(deck, Side, [c3, c4], [c1, c1, c1]);
    assert [c3, c4] + [c1, c1, c1] == [c3, c4, c1, c1, c1];
  }

  lemma ExampleSideLast(deck: Deck, catalog: Catalog)
    requires "123" in catalog
    ensures LegacyEntries(["*3123"], 2, deck, catalog) == Ok(deck.AppendAll(Side, [catalog["123"], catalog["123"], catalog["123"]]))
  {
    var c1 := catalog["123"];
    assert "*3123" == [LegacyCardAmountMarker, '3'] + "123";
    CountedEntry('3', "123", 2, deck, catalog);
    assert Repeat(c1, 3) == [c1, c1, c1];
    EntriesCons("*3123", [], 2, deck, deck.AppendAll(Side, [c1, c1, c1]), catalog);
    assert ["*3123"] + [] == ["*3123"];
  }

  lemma ExampleSide(deck: Deck, catalog: Catalog)
    requires "789" in catalog && "999" in catalog && "123" in catalog
    ensures LegacySegment("789;999;*3123", 2, deck, catalog)
         == Ok(deck.AppendAll(Side, [catalog["789"], catalog["999"], catalog["123"], catalog["123"], catalog["123"]]))
  {
    var c1, c3, c4 := catalog["123"], catalog["789"], catalog["999"];
    ExampleSideEntries();
    var e1 := deck.Append(Side, c3);
    var e2 := e1.Append(Side, c4);
    PlainEntry("789", 2, deck, catalog);
    PlainEntry("999", 2, e1, catalog);
    ExampleSideLast(e2, catalog);
    EntriesCons("789", ["999", "*3123"], 2, deck, e1, catalog);
    EntriesCons("999", ["*3123"], 2, e1, e2, catalog);
    assert ["789"] + ["999", "*3123"] == ["789", "999", "*3123"];
    assert ["999"] + ["*3123"] == ["999", "*3123"];
    ExampleSideDeck(deck, c1, c3, c4);
  }

  /** The example of the repository's tests: `123|*2456|789;999;*3123`. */
  lemma LegacyExample(catalog: Catalog, c1: Card, c2: Card, c3: Card, c4: Card)
    requires "123" in catalog && catalog["123"] == c1
    requires "456" in catalog && catalog["456"] == c2
    requires "789" in catalog && catalog["789"] == c3
    requires "999" in catalog && catalog["999"] == c4
    ensures LegacyDeck("123|*2456|789;999;*3123", catalog) == Ok(Deck(None, [c1], [c2, c2], [c3, c4, c1, c1, c1]))
  {
    ExampleSplit();
    var d0 := EmptyDeck();
    ExampleMain(d0, catalog);
    var d1 := d0.Append(Main, c1);
    ExampleExtra(d1, catalog);
    var d2 := d1.AppendAll(Extra, [c2, c2]);
    ExampleSide(d2, catalog);
    var d3 := d2.AppendAll(Side, [c3, c4, c1, c1, c1]);
    var segments := ["123", "*2456", "789;999;*3123"];
    assert segments[1..] == ["*2456", "789;999;*3123"] && segments[1..][1..] == ["789;999;*3123"] && segments[1..][1..][1..] == [];
    assert LegacySegments([], 3, d3, catalog) == Ok(d3);
    assert LegacySegments(segments, 0, d0, catalog) == Ok(d3);
    DeckEquality(d3, Deck(None, [c1], [c2, c2], [c3, c4, c1, c1, c1]));
  }
}
