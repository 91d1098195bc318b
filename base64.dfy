/**
 * Standard base64 with padding, as in section 4 of RFC 4648 (the `base64-js`
 * package's `fromByteArray` / `toByteArray`).
 *
 * Encoding is split in two steps so that each can be inverted on its own:
 * bytes to 6-bit values (three bytes give four values), and values to
 * alphabet characters, followed by `=` padding.
 */
module Base64 {
  import opened Wrappers
  import opened Bytes

  /** A 6-bit value: one character of the encoding. */
  type Sextet = v: int | 0 <= v < 64

  /** The character for a 6-bit value: `A`-`Z`, `a`-`z`, `0`-`9`, `+`, `/`. */
  function CharOf(v: Sextet): (c: char)
    ensures c != '='
  {
    if v < 26 then ('A' as int + v) as char
    else if v < 52 then ('a' as int + (v - 26)) as char
    else if v < 62 then ('0' as int + (v - 52)) as char
    else if v == 62 then '+'
    else '/'
  }

  /** The 6-bit value of an alphabet character; `None` for every other character, the pad `=` included. */
  function ValueOf(c: char): Option<Sextet> {
    if 'A' <= c <= 'Z' then Some(c as int - 'A' as int)
    else if 'a' <= c <= 'z' then Some(c as int - 'a' as int + 26)
    else if '0' <= c <= '9' then Some(c as int - '0' as int + 52)
    else if c == '+' then Some(62)
    else if c == '/' then Some(63)
    else None
  }

  lemma ValueOfCharOf(v: Sextet)
    ensures ValueOf(CharOf(v)) == Some(v)
  {
  }

  /** Three bytes as four 6-bit values. */
  function Group(b0: Byte, b1: Byte, b2: Byte): seq<Sextet> {
    [b0 / 4, (b0 % 4) * 16 + b1 / 16, (b1 % 16) * 4 + b2 / 64, b2 % 64]
  }

  /** Bytes as 6-bit values, most significant bits first; a final group of one or two bytes gives two or three values. */
  function SextetsOf(b: Bytes): (vs: seq<Sextet>)
    ensures |vs| == 4 * (|b| / 3) + (if |b| % 3 == 0 then 0 else |b| % 3 + 1)
  {
    if |b| == 0 then []
    else if |b| == 1 then [b[0] / 4, (b[0] % 4) * 16]
    else if |b| == 2 then [b[0] / 4, (b[0] % 4) * 16 + b[1] / 16, (b[1] % 16) * 4]
    else Group(b[0], b[1], b[2]) + SextetsOf(b[3..])
  }

  /** 6-bit values back to bytes; a final group of two or three values gives one or two bytes, and any bits left over are dropped. */
  function BytesOf(vs: seq<Sextet>): Bytes
    requires |vs| % 4 != 1
  {
    if |vs| == 0 then []
    else
      var v0: int, v1: int := vs[0], vs[1];
      if |vs| == 2 then [v0 * 4 + v1 / 16]
      else
        var v2: int := vs[2];
        if |vs| == 3 then [v0 * 4 + v1 / 16, (v1 % 16) * 16 + v2 / 4]
        else
          var v3: int := vs[3];
          [v0 * 4 + v1 / 16, (v1 % 16) * 16 + v2 / 4, (v2 % 4) * 64 + v3] + BytesOf(vs[4..])
  }

  lemma GroupRoundTrip(b0: Byte, b1: Byte, b2: Byte)
    ensures BytesOf(Group(b0, b1, b2)) == [b0, b1, b2]
  {
    var v1 := (b0 % 4) * 16 + b1 / 16;
    var v2 := (b1 % 16) * 4 + b2 / 64;
    assert v1 / 16 == b0 % 4 && v1 % 16 == b1 / 16;
    assert v2 / 4 == b1 % 16 && v2 % 4 == b2 / 64;
  }

  lemma SingleRoundTrip(b0: Byte)
    ensures BytesOf([b0 / 4, (b0 % 4) * 16]) == [b0]
  {
  }

  lemma PairRoundTrip(b0: Byte, b1: Byte)
    ensures BytesOf([b0 / 4, (b0 % 4) * 16 + b1 / 16, (b1 % 16) * 4]) == [b0, b1]
  {
    var v1 := (b0 % 4) * 16 + b1 / 16;
    assert v1 / 16 == b0 % 4 && v1 % 16 == b1 / 16;
  }

  lemma SextetsOfShort(b: Bytes)
    requires 1 <= |b| <= 2
    ensures |b| == 1 ==> SextetsOf(b) == [b[0] / 4, (b[0] % 4) * 16]
    ensures |b| == 2 ==> SextetsOf(b) == [b[0] / 4, (b[0] % 4) * 16 + b[1] / 16, (b[1] % 16) * 4]
  {
  }

  lemma SextetsOfCons(b: Bytes)
    requires |b| >= 3
    ensures SextetsOf(b) == Group(b[0], b[1], b[2]) + SextetsOf(b[3..])
  {
    assert |b| != 0 && |b| != 1 && |b| != 2;
  }

  lemma BytesOfCons(head: seq<Sextet>, tail: seq<Sextet>)
    requires |head| == 4 && |tail| % 4 != 1
    ensures BytesOf(head + tail) == BytesOf(head) + BytesOf(tail)
  {
    var vs := head + tail;
    assert vs[..4] == head && vs[4..] == tail;
    assert head[4..] == [];
  }

  /** Regrouping inverts grouping. */
  lemma {:induction false} BytesOfSextetsOf(b: Bytes)
    ensures BytesOf(SextetsOf(b)) == b
  {
    if 1 <= |b| <= 2 {
      ShortRoundTrip(b);
    } else if |b| >= 3 {
      BytesOfSextetsOf(b[3..]);
      SextetsOfCons(b);
      GroupRoundTrip(b[0], b[1], b[2]);
      assert [b[0], b[1], b[2]] == b[..3];
      RegroupStep(b, Group(b[0], b[1], b[2]), SextetsOf(b[3..]));
    }
  }

  lemma ShortRoundTrip(b: Bytes)
    requires 1 <= |b| <= 2
    ensures BytesOf(SextetsOf(b)) == b
  {
    if |b| == 1 {
      OneRoundTrip(b);
    } else {
      TwoRoundTrip(b);
    }
  }

  lemma OneRoundTrip(b: Bytes)
    requires |b| == 1
    ensures BytesOf(SextetsOf(b)) == b
  {
    var b0 := b[0];
    SextetsOfShort(b);
    SingleRoundTrip(b0);
    assert b == [b0];
  }

  lemma TwoRoundTrip(b: Bytes)
    requires |b| == 2
    ensures BytesOf(SextetsOf(b)) == b
  {
    var b0, b1 := b[0], b[1];
    SextetsOfShort(b);
    PairRoundTrip(b0, b1);
    assert b == [b0, b1];
  }

  lemma RegroupStep(b: Bytes, g: seq<Sextet>, t: seq<Sextet>)
    requires |b| >= 3 && |g| == 4 && |t| % 4 != 1 && SextetsOf(b) == g + t
    requires BytesOf(g) == b[..3] && BytesOf(t) == b[3..]
    ensures BytesOf(SextetsOf(b)) == b
  {
    BytesOfCons(g, t);
    assert b == b[..3] + b[3..];
  }

  /** The characters of a sequence of 6-bit values. */
  function Chars(vs: seq<Sextet>): (s: string)
    ensures |s| == |vs|
  {
    if vs == [] then "" else [CharOf(vs[0])] + Chars(vs[1..])
  }

  /** The 6-bit values of a string; fails at the first character outside the alphabet. */
  function ValuesOf(s: string): Option<seq<Sextet>> {
    if s == [] then Some([])
    else
      var v :- ValueOf(s[0]);
      var rest :- ValuesOf(s[1..]);
      Some([v] + rest)
  }

  lemma {:induction false} ValuesOfChars(vs: seq<Sextet>)
    ensures ValuesOf(Chars(vs)) == Some(vs)
  {
    if vs != [] {
      var s := Chars(vs);
      assert s[0] == CharOf(vs[0]) && s[1..] == Chars(vs[1..]);
      ValueOfCharOf(vs[0]);
      ValuesOfChars(vs[1..]);
      assert vs == [vs[0]] + vs[1..];
    }
  }

  lemma {:induction false} CharsAvoid(vs: seq<Sextet>, c: char)
    requires forall v: Sextet :: CharOf(v) != c
    ensures c !in Chars(vs)
  {
    if vs != [] {
      CharsAvoid(vs[1..], c);
    }
  }

  /** The `=` padding that completes the last group of four characters. */
  function Padding(n: nat): string {
    if n % 3 == 1 then "==" else if n % 3 == 2 then "=" else ""
  }

  /**
   * `fromByteArray`: every three bytes become four alphabet characters; a final
   * group of one or two bytes becomes two or three characters and `==` or `=`.
   */
  function Encode(b: Bytes): string {
    Chars(SextetsOf(b)) + Padding(|b|)
  }

  /** The characters left once the final `=` or `==` is taken off. */
  function StripPadding(s: string): string {
    if |s| >= 2 && s[|s| - 2..] == "==" then s[..|s| - 2]
    else if |s| >= 1 && s[|s| - 1] == '=' then s[..|s| - 1]
    else s
  }

  /**
   * `toByteArray`: fails unless the length is a multiple of four, and every
   * character other than one or two final `=` is in the alphabet.
   */
  function Decode(s: string): (r: Option<Bytes>)
  {
    if |s| % 4 != 0 then None
    else
      var body := StripPadding(s);
      var vs :- ValuesOf(body);
      if |vs| % 4 == 1 then None else Some(BytesOf(vs))
  }

  lemma {:induction false} ValuesOfLength(s: string)
    requires ValuesOf(s).Some?
    ensures |ValuesOf(s).value| == |s|
  {
    if s != [] {
      ValuesOfLength(s[1..]);
    }
  }

  lemma DecodeParts(body: string, pad: string, vs: seq<Sextet>)
    requires pad == "" || pad == "=" || pad == "=="
    requires '=' !in body && (|body| + |pad|) % 4 == 0
    requires ValuesOf(body) == Some(vs) && |vs| % 4 != 1
    ensures Decode(body + pad) == Some(BytesOf(vs))
  {
    StripPaddingOf(body, pad);
  }

  /** Taking the padding off a padded body gives the body back. */
  lemma StripPaddingOf(body: string, pad: string)
    requires pad == "" || pad == "=" || pad == "=="
    requires '=' !in body
    ensures StripPadding(body + pad) == body
  {
    var s := body + pad;
    if |body| >= 1 {
      assert body[|body| - 1] in body;
    }
    if pad == "==" {
      assert s[|s| - 2..] == "==" && s[..|s| - 2] == body;
    } else if pad == "=" {
      assert s[|s| - 1] == '=' && s[..|s| - 1] == body;
      if |s| >= 2 {
        assert s[|s| - 2] == body[|body| - 1];
      }
    } else {
      assert s == body;
      if |s| >= 2 {
        assert s[|s| - 1] in body;
      }
    }
  }

  /** Decoding inverts encoding: `toByteArray(fromByteArray(b))` is `b`. */
  lemma DecodeEncode(b: Bytes)
    ensures Decode(Encode(b)) == Some(b)
  {
    var vs := SextetsOf(b);
    CharsAvoid(vs, '=');
    ValuesOfChars(vs);
    DecodeParts(Chars(vs), Padding(|b|), vs);
    BytesOfSextetsOf(b);
  }

  /** Every character of an encoding is an alphabet character or the pad `=`. */
  lemma EncodeAlphabet(b: Bytes)
    ensures forall c :: c in Encode(b) ==> ValueOf(c).Some? || c == '='
  {
    var vs := SextetsOf(b);
    forall c | c in Chars(vs)
      ensures ValueOf(c).Some?
    {
      CharIsInAlphabet(vs, c);
    }
  }

  lemma {:induction false} CharIsInAlphabet(vs: seq<Sextet>, c: char)
    requires c in Chars(vs)
    ensures ValueOf(c).Some?
  {
    if c == CharOf(vs[0]) {
      ValueOfCharOf(vs[0]);
    } else {
      CharIsInAlphabet(vs[1..], c);
    }
  }

  /** Standard base64 output never contains the characters that the URL-safe variant and the ydke URI use as substitutes or separators. */
  lemma EncodeAvoids(b: Bytes, c: char)
    requires c in "~_-!"
    ensures c !in Encode(b)
  {
    EncodeAlphabet(b);
  }

  lemma {:induction false} CharsAppend(a: seq<Sextet>, b: seq<Sextet>)
    ensures Chars(a + b) == Chars(a) + Chars(b)
  {
    if a != [] {
      assert (a + b)[0] == a[0] && (a + b)[1..] == a[1..] + b;
      CharsAppend(a[1..], b);
    } else {
      assert a + b == b;
    }
  }

  lemma {:induction false} SextetsOfGroups(a: Bytes, b: Bytes)
    requires |a| % 3 == 0
    ensures SextetsOf(a + b) == SextetsOf(a) + SextetsOf(b)
  {
    if a == [] {
      assert a + b == b;
    } else {
      var ab := a + b;
      assert ab[0] == a[0] && ab[1] == a[1] && ab[2] == a[2] && ab[3..] == a[3..] + b;
      SextetsOfCons(ab);
      SextetsOfCons(a);
      SextetsOfGroups(a[3..], b);
      ConsAssoc(Group(a[0], a[1], a[2]), SextetsOf(a[3..]), SextetsOf(b));
    }
  }

  lemma ConsAssoc(g: seq<Sextet>, x: seq<Sextet>, y: seq<Sextet>)
    ensures g + (x + y) == (g + x) + y
  {
  }

  /** Encoding works group by group: bytes split after a multiple of three encode to the two encodings, one after the other. */
  lemma EncodeGroups(a: Bytes, b: Bytes)
    requires |a| % 3 == 0
    ensures Encode(a + b) == Encode(a) + Encode(b)
  {
    SextetsOfGroups(a, b);
    CharsAppend(SextetsOf(a), SextetsOf(b));
    assert |a + b| % 3 == |b| % 3;
    assert Padding(|a + b|) == Padding(|b|) && Padding(|a|) == "";
  }

  /** Every started group of three bytes takes four characters, padding included. */
  lemma EncodeLength(b: Bytes)
    ensures |Encode(b)| == 4 * ((|b| + 2) / 3)
  {
    var n := |b|;
    assert n == 3 * (n / 3) + n % 3;
    if n % 3 == 0 {
      assert (n + 2) / 3 == n / 3;
    } else {
      assert (n + 2) / 3 == n / 3 + 1;
    }
  }

  /** Each full group of four 6-bit values gives three bytes, a final group of two or three gives one or two. */
  lemma {:induction false} BytesOfLength(vs: seq<Sextet>)
    requires |vs| % 4 != 1
    ensures |BytesOf(vs)| == 3 * (|vs| / 4) + (if |vs| % 4 == 0 then 0 else |vs| % 4 - 1)
  {
    if |vs| >= 4 {
      BytesOfLength(vs[4..]);
    }
  }

  /** What decodes has a length that is a multiple of four, and gives at most three bytes per four characters. */
  lemma DecodeLength(s: string)
    ensures Decode(s).Some? ==> |s| % 4 == 0 && |Decode(s).value| <= 3 * (|s| / 4)
  {
    if Decode(s).Some? {
      var body := StripPadding(s);
      var vs := ValuesOf(body).value;
      ValuesOfLength(body);
      BytesOfLength(vs);
      assert |body| <= |s|;
    }
  }
}
