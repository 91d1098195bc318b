# Deck codec and card linking, modelled in Dafny

This project models two services of a Yu-Gi-Oh! deck builder:

- **The deck URI codec** (`DeckUriEncodingService`). It turns a deck into text and back in three formats:
  - **ydke URI**: `ydke://` followed by each deck part's base64 text, each closed by `!`.
  - **Compact query value**: the card blocks of each part, each part closed by an all-zero delimiter block, then the UTF-8 bytes of the deck name. The stream is raw-deflated and written in URL-safe base64, where `=`, `+` and `/` become `~`, `_` and `-`.
  - **Legacy query value** (read only): inflated text of `|`-separated parts holding `;`-separated passcodes. A `*N` prefix means N copies.

  A card is written as a *card block*: its passcode as an unsigned 32-bit little-endian number.
- **The card-linking service** (`CardLinkingService`). It resolves an unlinked card's type name and set names against lookup maps.

Layout:

| module | file | contents |
|---|---|---|
| `Wrappers`, `Bytes` | wrappers.dfy | `Option` (the source's `null`), `Result` (a thrown exception), bytes |
| `Decimal` | decimal.dfy | `Number(passcode)` and `String(n)` on decimal passcodes |
| `Base64` | base64.dfy | `fromByteArray` / `toByteArray` (standard alphabet, padded) |
| `JsStrings` | js_strings.dfy | `split`, `join`, `slice`, global `replace` of one character |
| `UrlSafeBase64` | url_safe_base64.dfy | `encodeBase64String`, `decode64String` |
| `Ygo` | ygo.dfy | `Card`, `CardType`, `ReleaseInfo`, `Deck`, `createEmptyDeck` |
| `CardBlocks` | card_blocks.dfy | `encodeNumber`, `decodeNumber`, `encodeCardBlock`, `decodeCardBlock` |
| `DeckUriEncodingService` | deck_uri_encoding_service.dfy | the formats as functions, and the service's methods with their loops proved equal to them |
| `DeckUriProperties` | deck_uri_properties.dfy | round trips and layout of the ydke and compact formats |
| `LegacyProperties` | legacy_properties.dfy | properties and the published example of the legacy reader |
| `DeckUriExamples` | deck_uri_examples.dfy | the published ydke example in both directions, and the byte stream of a compact-format example |
| `CardLinkingService` | card_linking_service.dfy | `linkCard`, `linkSets`, `linkType` |

The card database is a map from passcode to card. `hasCard` is key membership and `getCard` is lookup.

Three platform functions are parameters rather than code:
- pako's `deflateRaw` / `inflateRaw` come in as a `Compression` value;
- `TextEncoder` / `TextDecoder` come in as a `TextCodec` value;
- the legacy reader's `inflate(…, {to: "string"})` comes in as a function.

Round trips that go through these functions assume what they promise. For compression this is `Lossless`. For the text codec this is `NameRoundTrips`: decoding undoes encoding, and a non-empty name encodes to at least one byte.

Where the service mutates a deck in place (`push` onto a part's array, `deck.name = …`), the model reassigns a `Deck` value.

Code and specification disagree in two places:
- The compact reader does not require three delimiter blocks. A stream that ends early gives the deck read so far (`ScanBlocks` returns `Ok` at the end of the bytes). The model follows the code here.
- `encodeNumber` lets a passcode through when `Number()` reads it as NaN, and writes it as the delimiter block; see "Findings". The code as written is modelled by `CardBlocks.EncodeNumberAsWritten`, but the codec (`EncodeCardBlock`, `ToUri`, `ToUrlQueryParamValue`) uses the corrected encoder, which rejects such a passcode; see "Left out".

## Model

Source paths are relative to the repository root.

| member | source | states |
|---|---|---|
| Ygo.EmptyDeck | packages/core/spec/src/core/business/service/DeckService.spec.ts:28-38 | the new deck has no name and every part is empty |
| Ygo.Deck.AppendAll | packages/core/src/core/business/service/DeckUriEncodingService.ts:260-262 | pushing cards onto one part adds them at its end in order; the name and the other parts are unchanged |
| Ygo.Deck.Append | packages/core/src/core/business/service/DeckUriEncodingService.ts:118 | pushing one card adds it at the end of that part only |
| Ygo.AppendAllTwice | packages/core/src/core/business/service/DeckUriEncodingService.ts:260-262 | pushing two runs one after the other is pushing their concatenation |
| Ygo.DeckEquality | packages/core/src/core/model/ygo/Deck.ts:4-7 | a deck is determined by its name and its three parts |
| Decimal.NatToString | packages/core/src/core/business/service/DeckUriEncodingService.ts:275 | `String(n)` is canonical decimal text (no leading zeros) whose value is `n` |
| Decimal.StringOfValue | packages/core/src/core/business/service/DeckUriEncodingService.ts:271-282 | `String(Number(s)) == s` holds exactly when the digit string `s` is canonical |
| Decimal.ToNumber | packages/core/src/core/business/service/DeckUriEncodingService.ts:271 | `Number(s)` is finite exactly for digit strings; it is non-negative, and the empty string gives 0 |
| Decimal.NonNumericIsNaN | packages/core/src/core/business/service/DeckUriEncodingService.ts:271 | on a non-empty string whose first character is not white space, a digit, `+`, `-`, `.` or `I`, the modelled `Number(s)` is NaN, as JavaScript's is |
| Decimal.NumberOfString | packages/core/src/core/business/service/DeckUriEncodingService.ts:271-275 | `Number(String(n)) == n` |
| Decimal.NumberOfChar | packages/core/src/core/business/service/DeckUriEncodingService.ts:241 | `Number(entry[1])` is the digit's value, or NaN for any other character |
| Decimal.LeadingDigitPositive | packages/core/src/core/business/service/DeckUriEncodingService.ts:285-290 | a passcode with a non-zero leading digit has a value above 0 |
| CardBlocks.LittleEndian | packages/core/src/core/business/service/DeckUriEncodingService.ts:292-298 | `setUint32(…, true)` writes four bytes, least significant first |
| CardBlocks.DecodeNumber | packages/core/src/core/business/service/DeckUriEncodingService.ts:301-307 | `getUint32(0, true)` reads the first four bytes as a number below 2^32; a block shorter than four bytes is an error (`RangeError`) |
| CardBlocks.DecodeLittleEndian | packages/core/src/core/business/service/DeckUriEncodingService.ts:285-307 | decoding the bytes written for any `v < 2^32` gives `v` back |
| CardBlocks.LittleEndianDecode | packages/core/src/core/business/service/DeckUriEncodingService.ts:285-307 | writing the number read from a block gives back the block's first four bytes |
| CardBlocks.DecodeZero | packages/core/src/core/business/service/DeckUriEncodingService.ts:23-25 | a four-byte block reads as 0 exactly when it is the delimiter block |
| CardBlocks.EncodeNumberAsWritten | packages/core/src/core/business/service/DeckUriEncodingService.ts:285-299 | the code as written: succeeds for NaN and for finite `0 < n < 2^32`, otherwise fails with the number; the block decodes to `ToUint32(n)`, so NaN gives the all-zero delimiter block |
| CardBlocks.EncodeNumber | packages/core/src/core/business/service/DeckUriEncodingService.ts:285-299 | succeeds exactly for finite numbers with `0 < n < 2^32`; otherwise fails with the number; the block decodes back to `n` and is never the delimiter block |
| CardBlocks.EncodeNumberAgrees | packages/core/src/core/business/service/DeckUriEncodingService.ts:286 | the code as written and the corrected encoder agree on every finite number; they differ on NaN |
| CardBlocks.NonNumericPasscodeIsDelimiter | packages/core/src/core/business/service/DeckUriEncodingService.ts:285-299 | as written, a passcode that `Number()` reads as NaN (first character not white space, a digit, a sign, `.` or `I`) encodes to the all-zero delimiter block; the corrected encoder rejects it |
| CardBlocks.EncodeCardBlock | packages/core/src/core/business/service/DeckUriEncodingService.ts:270-272 | a card encodes exactly when its passcode is digits with value in `(0, 2^32)`; the block decodes back to that value |
| CardBlocks.DecodeCardBlock | packages/core/src/core/business/service/DeckUriEncodingService.ts:274-283 | succeeds exactly when the block has four bytes and `String` of its number is a catalog key; the result is that card; an unknown passcode or a short block is an error |
| CardBlocks.CardBlockRoundTrip | packages/core/src/core/business/service/DeckUriEncodingService.ts:270-283 | a card whose canonical passcode is in range and catalogued decodes from its own block to itself |
| CardBlocks.BlockPasscode | packages/core/src/core/business/service/DeckUriEncodingService.ts:271-275 | the passcode read back from a card's block is the card's passcode exactly when it is canonical |
| Base64.DecodeEncode | packages/core/src/core/business/service/DeckUriEncodingService.ts:309-335 | `toByteArray(fromByteArray(b)) == b` for all bytes |
| Base64.EncodeAlphabet | packages/core/src/core/business/service/DeckUriEncodingService.ts:313 | every character of base64 text is in the 64-character alphabet or is the `=` padding |
| Base64.EncodeGroups | packages/core/src/core/business/service/DeckUriEncodingService.ts:313 | bytes split after a multiple of three encode as the two halves' texts, one after the other |
| Base64.BytesOfSextetsOf | packages/core/src/core/business/service/DeckUriEncodingService.ts:309-335 | regrouping 6-bit values into bytes inverts the grouping of bytes into 6-bit values |
| JsStrings.Slice | packages/core/src/core/business/service/DeckUriEncodingService.ts:242 | `slice(start)` is the suffix from `start`, or empty past the end |
| JsStrings.ReplaceAll | packages/core/src/core/business/service/DeckUriEncodingService.ts:315-318 | a global one-character `replace` changes exactly the occurrences of that character |
| JsStrings.SplitJoin | packages/core/src/core/business/service/DeckUriEncodingService.ts:68-88 | splitting the join of separator-free pieces gives the pieces back |
| JsStrings.JoinSplit | packages/core/src/core/business/service/DeckUriEncodingService.ts:230-237 | joining the pieces of a split gives the text back, and no piece holds the separator |
| JsStrings.SplitAfter | packages/core/src/core/business/service/DeckUriEncodingService.ts:87 | splitting `a + sep + b`, with no `sep` in `a`, gives `a` and then the pieces of `b` |
| UrlSafeBase64.Substitute | packages/core/src/core/business/service/DeckUriEncodingService.ts:315-318 | three successive global one-character replaces, whose replacements later replaces leave alone, map each character at once and keep every other character |
| UrlSafeBase64.ToUrlSafe | packages/core/src/core/business/service/DeckUriEncodingService.ts:314-319 | `=`, `+`, `/` become `~`, `_`, `-`: the length is kept and none of `=`, `+`, `/` is left |
| UrlSafeBase64.FromUrlSafe | packages/core/src/core/business/service/DeckUriEncodingService.ts:328-333 | `~`, `_`, `-` become `=`, `+`, `/`: the length is kept and none of `~`, `_`, `-` is left |
| UrlSafeBase64.EncodeBase64String | packages/core/src/core/business/service/DeckUriEncodingService.ts:309-320 | `encodeBase64String` gives four characters per started group of three bytes, in either alphabet (its inverse is `DecodeEncodeString`, its alphabet `EncodedAlphabet`) |
| UrlSafeBase64.Decode64String | packages/core/src/core/business/service/DeckUriEncodingService.ts:322-335 | `decode64String` succeeds only on text whose length is a multiple of four, giving at most three bytes per four characters |
| UrlSafeBase64.UrlSafeRoundTrip | packages/core/src/core/business/service/DeckUriEncodingService.ts:309-335 | the substitutions undo each other on text without `~`, `_`, `-` |
| UrlSafeBase64.DecodeEncodeString | packages/core/src/core/business/service/DeckUriEncodingService.ts:309-335 | `decode64String(encodeBase64String(a, safe), safe) == a` for both alphabets |
| UrlSafeBase64.EncodedAlphabet | packages/core/src/core/business/service/DeckUriEncodingService.ts:314-319 | URL-safe output has no `=`, `+` or `/`; neither output has the ydke delimiter `!` |
| DeckUriEncodingService.PartBlocksAppend | packages/core/src/core/business/service/DeckUriEncodingService.ts:60-63 | the blocks of two runs of cards are the blocks of each run, concatenated; the first failure wins |
| DeckUriEncodingService.PartBlocksOk | packages/core/src/core/business/service/DeckUriEncodingService.ts:60-63 | a part encodes exactly when every card in it encodes |
| DeckUriEncodingService.EncodeCards | packages/core/src/core/business/service/DeckUriEncodingService.ts:60-63 | the inner loop of `toUri` gives the part's blocks, or the first card's error |
| DeckUriEncodingService.ToUri | packages/core/src/core/business/service/DeckUriEncodingService.ts:57-73 | `toUri` returns the ydke text of the deck (see `UriOfLayout`), or the first card's error |
| DeckUriEncodingService.DecodeCards | packages/core/src/core/business/service/DeckUriEncodingService.ts:105-119 | the block loop of `fromUri` pushes the decoded card of every 4-byte slice, in order, or stops at the first error |
| DeckUriEncodingService.FromUri | packages/core/src/core/business/service/DeckUriEncodingService.ts:84-122 | `fromUri` returns the deck the URI describes, or its error: wrong part count, invalid base64, short or unknown block |
| DeckUriEncodingService.ToUrlQueryParamValue | packages/core/src/core/business/service/DeckUriEncodingService.ts:143-160 | returns the URL-safe base64 of the deflated stream, or the first card's error |
| DeckUriEncodingService.FromUrlQueryParamValue | packages/core/src/core/business/service/DeckUriEncodingService.ts:168-210 | the scan loop, with its `break` at the last delimiter, returns the deck the stream describes, or its error |
| DeckUriEncodingService.RepeatCount | packages/core/src/core/business/service/DeckUriEncodingService.ts:238-243 | a `*` count is one digit: at most 9 copies, and a non-digit gives none |
| DeckUriEncodingService.AddLegacyEntry | packages/core/src/core/business/service/DeckUriEncodingService.ts:237-263 | one legacy entry: an unknown passcode is an error; otherwise `count` copies are pushed, and pushing onto a fourth part fails |
| DeckUriEncodingService.AddLegacySegment | packages/core/src/core/business/service/DeckUriEncodingService.ts:232-264 | an empty segment adds nothing; otherwise every `;`-separated entry is applied in order |
| DeckUriEncodingService.FromLegacyUrlQueryParamValue | packages/core/src/core/business/service/DeckUriEncodingService.ts:215-268 | the legacy reader returns the deck the inflated text describes, starting from an empty deck, or its error |
| DeckUriProperties.DecodePartBlocks | packages/core/src/core/business/service/DeckUriEncodingService.ts:57-122 | decoding a part's blocks appends exactly that part's resolvable cards, in order |
| DeckUriProperties.UriOfLayout | packages/core/src/core/business/service/DeckUriEncodingService.ts:57-73 | the URI is `ydke://`, then main, extra and side as base64, each followed by `!` |
| DeckUriProperties.UriOfErr | packages/core/src/core/business/service/DeckUriEncodingService.ts:57-73 | `toUri` fails exactly when some part fails, with the first failing part's error |
| DeckUriProperties.UriSegmentsOf | packages/core/src/core/business/service/DeckUriEncodingService.ts:85-88 | slicing off the scheme, splitting at `!` and dropping the last piece gives back the three part texts |
| DeckUriProperties.UriRoundTrip | packages/core/src/core/business/service/DeckUriEncodingService.ts:48-122 | for a deck of catalogued cards, `fromUri(toUri(deck))` is the deck without its name |
| DeckUriProperties.DecodeBlocksName | packages/core/src/core/business/service/DeckUriEncodingService.ts:105-119 | decoding a part's blocks leaves the deck name as it was |
| DeckUriProperties.SegmentsDeckName | packages/core/src/core/business/service/DeckUriEncodingService.ts:95-120 | the deck built from the URI segments, starting empty, has no name |
| DeckUriProperties.UriDeckOutcome | packages/core/src/core/business/service/DeckUriEncodingService.ts:84-122 | for every text: without exactly three `!`-closed segments `fromUri` fails with the part-count error, and a deck it returns has no name |
| DeckUriProperties.UriPrefixIgnored | packages/core/src/core/business/service/DeckUriEncodingService.ts:85-87 | `fromUri` never checks the first seven characters: any seven-character prefix reads like `ydke://` |
| DeckUriProperties.QueryStreamLayout | packages/core/src/core/business/service/DeckUriEncodingService.ts:134-156 | the stream is each part's blocks followed by a delimiter block, then the name's bytes when the name is non-empty |
| DeckUriProperties.ScanCards | packages/core/src/core/business/service/DeckUriEncodingService.ts:185-202 | the scan reads a part's blocks back as that part's cards |
| DeckUriProperties.ScanDelimiter | packages/core/src/core/business/service/DeckUriEncodingService.ts:185-196 | a delimiter block before the last part moves the scan to the next part |
| DeckUriProperties.ScanName | packages/core/src/core/business/service/DeckUriEncodingService.ts:191-208 | after the last part's delimiter, any remaining bytes decode to the name; with none left, the name stays empty |
| DeckUriProperties.NonNumericCardEndsPart | packages/core/src/core/business/service/DeckUriEncodingService.ts:185-208 | as written, a card whose passcode `Number()` reads as NaN is read back as a delimiter: in the main or extra part the following cards go to the next part; in the side part every byte after it becomes the name |
| DeckUriProperties.ScanStream | packages/core/src/core/business/service/DeckUriEncodingService.ts:168-210 | with a text codec that round-trips, scanning the stream of a deck of catalogued cards gives the deck back; an empty name comes back as none |
| DeckUriProperties.QueryRoundTrip | packages/core/src/core/business/service/DeckUriEncodingService.ts:124-210 | with lossless compression and a text codec that round-trips, `fromUrlQueryParamValue(toUrlQueryParamValue(deck))` is the deck; an empty name comes back as none |
| LegacyProperties.CountedEntry | packages/core/src/core/business/service/DeckUriEncodingService.ts:238-262 | `*d` followed by a known passcode pushes `d` copies of the card, for every digit `d`; `*0` pushes none and succeeds |
| LegacyProperties.CountIsOneDigit | packages/core/src/core/business/service/DeckUriEncodingService.ts:241-242 | `*12345` is one copy of card `2345`, not twelve copies of `345` |
| LegacyProperties.UnknownEntry | packages/core/src/core/business/service/DeckUriEncodingService.ts:245-254 | an entry whose passcode the catalog lacks is the unknown-card error, in any segment and before any push |
| LegacyProperties.ZeroCountEntry | packages/core/src/core/business/service/DeckUriEncodingService.ts:238-262 | a known entry with count 0 (`*0`, or a count character that is not a digit) pushes nothing and succeeds, in any segment |
| LegacyProperties.MissingPartEntry | packages/core/src/core/business/service/DeckUriEncodingService.ts:231-262 | in a segment past the third, a known entry with a non-zero count fails at its first push |
| LegacyProperties.FourthSegment | packages/core/src/core/business/service/DeckUriEncodingService.ts:230-262 | a segment past the third is ignored when empty; otherwise its first known entry fails when its count is non-zero and is skipped when its count is 0 |
| LegacyProperties.ZeroCountFourthSegment | packages/core/src/core/business/service/DeckUriEncodingService.ts:230-262 | three empty segments then `*0123`, joined by the part delimiter, read as the empty deck when card `123` is known: a fourth segment of zero-count entries is no error |
| LegacyProperties.PlainSegment | packages/core/src/core/business/service/DeckUriEncodingService.ts:236-263 | a segment of plain passcodes joined by `;` appends those cards in order |
| LegacyProperties.LegacyRoundTrip | packages/core/src/core/business/service/DeckUriEncodingService.ts:224-267 | the legacy text of a deck of catalogued, delimiter-free passcodes reads back as the deck without its name |
| LegacyProperties.LegacyEntryName | packages/core/src/core/business/service/DeckUriEncodingService.ts:237-263 | one legacy entry leaves the deck name as it was |
| LegacyProperties.LegacyEntriesName | packages/core/src/core/business/service/DeckUriEncodingService.ts:236-263 | the entries of a segment leave the deck name as it was |
| LegacyProperties.LegacySegmentsName | packages/core/src/core/business/service/DeckUriEncodingService.ts:230-264 | the segments leave the deck name as it was |
| LegacyProperties.LegacyDeckName | packages/core/src/core/business/service/DeckUriEncodingService.ts:215-268 | a deck the legacy reader returns has no name |
| LegacyProperties.LegacyExample | packages/core/spec/src/core/business/service/DeckUriEncodingService.spec.ts:44-93 | the parts `123`, `*2456` and `789;999;*3123`, joined by the part delimiter, read as main [123], extra [456, 456], side [789, 999, 123, 123, 123] |
| DeckUriExamples.UriExample | packages/core/spec/src/core/business/service/DeckUriEncodingService.spec.ts:219-237 | the published deck encodes to `ydke://FBFNAO1lvQHtZb0B!BBhGAg==!FBFNAA==!` |
| DeckUriExamples.FromUriExample | packages/core/spec/src/core/business/service/DeckUriEncodingService.spec.ts:239-278 | the published URI decodes to the published deck, with no name |
| DeckUriExamples.QueryStreamExample | packages/core/spec/src/core/business/service/DeckUriEncodingService.spec.ts:114-128 | the unnamed deck 123 / 456 / 789 gives the 24-byte stream `7B000000 00000000 C8010000 00000000 15030000 00000000` before compression |
| CardLinkingService.LinkType | packages/core/src/core/business/service/CardLinkingService.ts:80-92 | succeeds exactly when the type name is a key of the type map, giving that entry; otherwise fails naming the type |
| CardLinkingService.LinkSets | packages/core/src/core/business/service/CardLinkingService.ts:59-78 | `linkSets` never links more sets than there are appearances (the lemmas below state which) |
| CardLinkingService.LinkSetsLength | packages/core/src/core/business/service/CardLinkingService.ts:59-78 | the linked sets are as many as the appearances exactly when every set name is known; otherwise fewer |
| CardLinkingService.LinkSetsAllKnown | packages/core/src/core/business/service/CardLinkingService.ts:59-78 | with every name known, the i-th set is the set map's entry for the i-th appearance |
| CardLinkingService.LinkSetsMembers | packages/core/src/core/business/service/CardLinkingService.ts:63-77 | a set is linked exactly when some appearance's name maps to it |
| CardLinkingService.LinkSetsAppend | packages/core/src/core/business/service/CardLinkingService.ts:63-77 | linking keeps appearance order: the sets of `a + b` are the sets of `a`, then those of `b` |
| CardLinkingService.LinkSetsUnknown | packages/core/src/core/business/service/CardLinkingService.ts:65-70 | an appearance whose set is unknown is dropped without failing |
| CardLinkingService.LinkCard | packages/core/src/core/business/service/CardLinkingService.ts:24-57 | fails exactly when the type is unknown; the type and sets are linked; every other field is copied unchanged |
| CardLinkingService.LinkCardIgnoresSets | packages/core/src/core/business/service/CardLinkingService.ts:24-78 | whether a card links, and every field except its sets, does not depend on the set map |

## Left out

- Compression is a parameter. pako's `deflateRaw`, `inflateRaw` and `inflate(…, {to: "string"})` are not modelled. Round trips assume `Lossless`, and the published compact-format strings `q2aAgB…` cannot be reproduced. Only the byte stream before compression is checked (`DeckUriExamples.QueryStreamExample`).
- Text encoding is a parameter. `TextEncoder` / `TextDecoder` are not modelled. `NameRoundTrips` is an assumption of the round-trip lemma. It fails for a platform decoder that strips a leading U+FEFF, and for names with lone surrogates.
- Base64 decoding is strict: the model rejects any character outside the alphabet. base64-js `toByteArray` checks only the length and maps unknown characters to 0. It also accepts `-` and `_`. So some malformed values that the service would read produce an error in the model.
- Decimal.ToNumber, Decimal.NumberOfChar: `Number(s)` is modelled for strings of ASCII digits, which give their value, and for everything else, which gives NaN. JavaScript reads more strings as numbers: surrounding white space is stripped (so `Number(" ")` is 0, not NaN), and signed, hexadecimal, octal, binary, exponent, fractional and `Infinity` forms are finite or infinite. For those passcodes the model differs, and `Decimal.NonNumericIsNaN` names the strings on which it agrees. For the legacy count `Number(entry[1])` the difference is harmless: a white-space count gives 0 in JavaScript and NaN in the model, and both mean zero copies. The JavaScript double range and `ToUint32` wrap-around for numbers of 2^53 or more are not modelled either.
- CardBlocks.EncodeCardBlock: it uses the corrected `EncodeNumber`, not `encodeNumber` as written (`CardBlocks.EncodeNumberAsWritten`). For a passcode that `Number()` reads as NaN, such as `"abc"`, the model returns `OutOfRange(NaN)` where the code writes the all-zero block. This follows the "Findings" row: the bug is logged and proved about the as-written member, and the codec is modelled as intended.
- DeckUriEncodingService.ToUri: through `EncodeCardBlock`, a deck holding such a card is an error in the model; the code returns a URI with four zero bytes in that card's place (`"ydke://AAAAAA==!!!"` for a main deck of one such card).
- DeckUriEncodingService.ToUrlQueryParamValue: through `EncodeCardBlock`, a deck holding such a card is an error in the model; the code writes the delimiter block into the stream, with the effect `DeckUriProperties.NonNumericCardEndsPart` describes.
- JavaScript strings are sequences of UTF-16 code units, and the model's `string` is a sequence of Unicode scalar values. `uri.slice(7)`, `entry[1]`, `entry.slice(2)` and `split` count code units, so a character outside the Basic Multilingual Plane in the first seven characters of a URI, or at `entry[1]` of a legacy entry, is cut differently. Passcodes, base64 text and the format delimiters are ASCII, where both agree.
- `deck.parts` is a `Map` from part to array. The model is a `Deck` value with one field per default part, so a deck without one of the three parts cannot be expressed.
- Dependency injection, the logger calls in both services, and the card database beyond `hasCard`/`getCard` are left out. So are `DeckService` beyond `createEmptyDeck` and the other deck-part rulesets.
- `EncodeCards`, `DecodeCards`, `AddLegacyEntry` and `AddLegacySegment` are the inner loops and `forEach` callbacks of `toUri`, `fromUri` and `fromLegacyUrlQueryParamValue`. They are separate methods so that each loop carries its own invariant.
- `UnlinkedCard` and `CardSetAppearance` are not part of this model. Their shape is inferred from the fields `linkCard` and `linkSets` read: an appearance is modelled by its set name alone. `CardSet`, `BanlistInfo`, `CardImage` and `CardPrices` are opaque values that are carried but never inspected.

## Findings

| source | as written | input that shows it | evidently intended | confidence | as-written member | corrected member |
|---|---|---|---|---|---|---|
| packages/core/src/core/business/service/DeckUriEncodingService.ts:285-299 | both comparisons of the range check are false for NaN, so `encodeNumber(NaN)` does not throw. `setUint32(0, NaN)` writes 0, so the card becomes the all-zero delimiter block. | a card with passcode `"abc"`: `toUri` writes four zero bytes for it, and `toUrlQueryParamValue` writes `00000000`. `fromUrlQueryParamValue` then ends the part there. In the main or extra part it reads the following cards into the next part. In the side part it stops, and reads the later side cards, the real delimiter and the name bytes as the name | a passcode that is not a number in `(0, 2^32)` is rejected with the range error | not executed | CardBlocks.EncodeNumberAsWritten | CardBlocks.EncodeNumber |
