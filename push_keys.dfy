/** The key helpers of `NotificationManager`: the application server's public key comes
    in the URL-safe, unpadded form of section 5 of RFC 4648 and is turned into the bytes
    `pushManager.subscribe` wants; subscription keys go back as base64 through the same
    `arrayBufferToBase64` as `lib/encryption.ts`, whose model is `Encryption`. */
module PushKeys {
  import opened Wrappers
  import opened Base64
  import Text

  /** `s.replace(/a/g, b)`. */
  function ReplaceAll(s: string, a: char, b: char): (r: string)
    ensures |r| == |s|
    ensures forall i :: 0 <= i < |s| ==> r[i] == if s[i] == a then b else s[i]
  {
    seq(|s|, i requires 0 <= i < |s| => if s[i] == a then b else s[i])
  }

  /** The padding and the two replacements: the result's length is a multiple of four and
      it has no '-' and no '_' left. */
  function Standard(s: string): (r: string)
    ensures |r| % 4 == 0 && |s| <= |r| < |s| + 4
    ensures '-' !in r && '_' !in r
  {
    var padded := s + Text.Repeat('=', Padding(|s|));
    var r := ReplaceAll(ReplaceAll(padded, '-', '+'), '_', '/');
    assert forall i :: 0 <= i < |r| ==> r[i] != '-' && r[i] != '_';
    r
  }

  /** The character of the URL-safe alphabet for a 6-bit value: '-' and '_' for the last
      two. */
  function UrlSextetChar(v: int): (c: char)
    requires 0 <= v < 64
  {
    if v == 62 then '-' else if v == 63 then '_' else SextetChar(v)
  }

  /** The URL-safe unpadded encoding a key is published in. */
  function UrlEncode(b: seq<Byte>): (s: string)
    ensures |s| == |EncodeUnpadded(b)|
    ensures forall i :: 0 <= i < |s| ==> s[i] == UrlSextetChar(Sextets(b)[i])
  {
    var v := Sextets(b);
    seq(|v|, i requires 0 <= i < |v| => UrlSextetChar(v[i]))
  }

  /** The bytes `urlBase64ToUint8Array` decodes, none when `atob` throws. */
  function UrlDecode(s: string): Option<seq<Byte>> {
    Decode(Standard(s))
  }

  /** The standard form of the URL-safe encoding is the ordinary padded encoding. */
  lemma StandardOfUrlEncode(b: seq<Byte>)
    ensures Standard(UrlEncode(b)) == Encode(b)
  {
    var u := UrlEncode(b);
    var e := EncodeUnpadded(b);
    var v := Sextets(b);
    var pad := Text.Repeat('=', Padding(|u|));
    var r := Standard(u);
    assert |r| == |Encode(b)|;
    forall i | 0 <= i < |r| ensures r[i] == Encode(b)[i] {
      if i < |u| {
        assert (u + pad)[i] == u[i];
        assert e[i] == SextetChar(v[i]);
      } else {
        assert (u + pad)[i] == '=';
        assert Encode(b)[i] == '=';
      }
    }
  }

  /** A key published in the URL-safe form decodes to its bytes. */
  lemma UrlRoundTrip(b: seq<Byte>)
    ensures UrlDecode(UrlEncode(b)) == Some(b)
  {
    StandardOfUrlEncode(b);
    DecodeEncode(b);
  }

  /** `urlBase64ToUint8Array`: `atob` of the standard form, then the character codes into
      a new array; it throws exactly when `atob` does. */
  method UrlBase64ToUint8Array(base64String: string) returns (r: Result<array<Byte>>)
    ensures r.Ok? <==> UrlDecode(base64String).Some?
    ensures r.Ok? ==> fresh(r.value) && r.value[..] == UrlDecode(base64String).value
    ensures r.Err? ==> r.error == InvalidCharacter
  {
    var base64 := Standard(base64String);
    var rawData := Atob(base64);
    if rawData.Err? {
      return Err(rawData.error);
    }
    var outputArray := CharCodes(rawData.value);
    r := Ok(outputArray);
  }
}
