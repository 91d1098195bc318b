/**
 * `encodeBase64String` / `decode64String`: base64, optionally with the three
 * characters that are not safe in a URL query parameter value substituted
 * (`=` by `~`, `+` by `_`, `/` by `-`) after encoding and restored before decoding.
 */
module UrlSafeBase64 {
  import opened Wrappers
  import opened Bytes
  import opened JsStrings
  import Base64

  /**
   * Three global one-character `replace` calls, in order. When no replacement
   * is a character a later call replaces, together they map each character at once.
   */
  function Substitute(s: string, a: char, a': char, b: char, b': char, c: char, c': char): (r: string)
    requires a' != b && a' != c && b' != c
    ensures |r| == |s|
    ensures forall i :: 0 <= i < |s| ==>
      r[i] == if s[i] == a then a' else if s[i] == b then b' else if s[i] == c then c' else s[i]
  {
    ReplaceAll(ReplaceAll(ReplaceAll(s, a, a'), b, b'), c, c')
  }

  /** The encoder's replacements: `=` by `~`, `+` by `_`, `/` by `-`; none of the three is left. */
  function ToUrlSafe(s: string): (r: string)
    ensures |r| == |s|
    ensures '=' !in r && '+' !in r && '/' !in r
  {
    Substitute(s, '=', '~', '+', '_', '/', '-')
  }

  /** The decoder's replacements: `~` by `=`, `_` by `+`, `-` by `/`; none of the three is left. */
  function FromUrlSafe(s: string): (r: string)
    ensures |r| == |s|
    ensures '~' !in r && '_' !in r && '-' !in r
  {
    Substitute(s, '~', '=', '_', '+', '-', '/')
  }

  /** `encodeBase64String`: base64, with the URL-safe replacements when asked for; four characters per started group of three bytes. */
  function EncodeBase64String(arr: Bytes, useUriParamSafeAlphabet: bool): (r: string)
    ensures |r| == 4 * ((|arr| + 2) / 3)
  {
    var encoded := Base64.Encode(arr);
    Base64.EncodeLength(arr);
    if useUriParamSafeAlphabet then ToUrlSafe(encoded) else encoded
  }

  /** `decode64String`: `None` where the base64 decoder throws; only text of a length divisible by four decodes, to at most three bytes per four characters. */
  function Decode64String(str: string, useUriParamSafeAlphabet: bool): (r: Option<Bytes>)
    ensures r.Some? ==> |str| % 4 == 0 && |r.value| <= 3 * (|str| / 4)
  {
    var encoded := if useUriParamSafeAlphabet then FromUrlSafe(str) else str;
    Base64.DecodeLength(encoded);
    Base64.Decode(encoded)
  }

  /** Restoring undoes substituting on any text that had none of the substitutes to begin with. */
  lemma UrlSafeRoundTrip(s: string)
    requires '~' !in s && '_' !in s && '-' !in s
    ensures FromUrlSafe(ToUrlSafe(s)) == s
  {
    var r := FromUrlSafe(ToUrlSafe(s));
    forall i | 0 <= i < |s|
      ensures r[i] == s[i]
    {
      assert s[i] in s;
    }
  }

  /** `decode64String(encodeBase64String(arr, safe), safe)` is `arr`, for both alphabets. */
  lemma DecodeEncodeString(arr: Bytes, useUriParamSafeAlphabet: bool)
    ensures Decode64String(EncodeBase64String(arr, useUriParamSafeAlphabet), useUriParamSafeAlphabet) == Some(arr)
  {
    if useUriParamSafeAlphabet {
      var e := Base64.Encode(arr);
      Base64.EncodeAvoids(arr, '~');
      Base64.EncodeAvoids(arr, '_');
      Base64.EncodeAvoids(arr, '-');
      UrlSafeRoundTrip(e);
    }
    Base64.DecodeEncode(arr);
  }

  /** The URL-safe output holds none of `=`, `+`, `/`; neither output holds the ydke separator `!`. */
  lemma EncodedAlphabet(arr: Bytes)
    ensures forall c :: c in EncodeBase64String(arr, true) ==> c != '=' && c != '+' && c != '/'
    ensures '!' !in EncodeBase64String(arr, true) && '!' !in EncodeBase64String(arr, false)
  {
    Base64.EncodeAvoids(arr, '!');
    var e := Base64.Encode(arr);
    var r := ToUrlSafe(e);
    forall c | c in r
      ensures c != '=' && c != '+' && c != '/' && c != '!'
    {
      var i :| 0 <= i < |r| && r[i] == c;
      assert e[i] in e;
    }
  }
}
