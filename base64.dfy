/** The base64 encoding of section 4 of RFC 4648 as the browser's `btoa` and `atob` apply
    it, and the "binary strings" the two helpers pass them: one character per byte, with
    the byte's value as its code. `atob` follows the forgiving-base64 decoding of the
    WHATWG Infra standard (padding optional, leftover bits dropped). */
module Base64 {
  import opened Wrappers
  import Text

  type Byte = x: int | 0 <= x < 256

  /** The error `atob` and `btoa` throw. */
  const InvalidCharacter := "InvalidCharacterError"

  /** The character of the base64 alphabet for a 6-bit value. */
  function SextetChar(v: int): (c: char)
    requires 0 <= v < 64
    ensures c != '='
  {
    if v < 26 then ('A' as int + v) as char
    else if v < 52 then ('a' as int + v - 26) as char
    else if v < 62 then ('0' as int + v - 52) as char
    else if v == 62 then '+'
    else '/'
  }

  /** The 6-bit value of a character of the alphabet; none for any other character. */
  function SextetValue(c: char): (v: Option<int>)
    ensures v.Some? ==> 0 <= v.value < 64 && SextetChar(v.value) == c
  {
    if 'A' <= c <= 'Z' then Some(c as int - 'A' as int)
    else if 'a' <= c <= 'z' then Some(c as int - 'a' as int + 26)
    else if '0' <= c <= '9' then Some(c as int - '0' as int + 52)
    else if c == '+' then Some(62)
    else if c == '/' then Some(63)
    else None
  }

  lemma SextetCharValue(v: int)
    requires 0 <= v < 64
    ensures SextetValue(SextetChar(v)) == Some(v)
  {
  }

  /** The 6-bit groups of `b`, three bytes to four groups; a last group of one or two bytes
      gives two or three groups, filled up with zero bits. */
  function Sextets(b: seq<Byte>): (v: seq<int>)
    ensures forall i :: 0 <= i < |v| ==> 0 <= v[i] < 64
    ensures |v| == (4 * |b| + 2) / 3
    decreases |b|
  {
    if |b| == 0 then []
    else if |b| == 1 then [b[0] / 4, (b[0] % 4) * 16]
    else if |b| == 2 then [b[0] / 4, (b[0] % 4) * 16 + b[1] / 16, (b[1] % 16) * 4]
    else [b[0] / 4, (b[0] % 4) * 16 + b[1] / 16, (b[1] % 16) * 4 + b[2] / 64, b[2] % 64] + Sextets(b[3..])
  }

  /** The bytes 6-bit groups stand for, four groups to three bytes; a last run of two or
      three groups gives one or two bytes and its leftover bits are dropped. */
  function DecodeSextets(v: seq<int>): (b: seq<Byte>)
    requires |v| % 4 != 1 && forall i :: 0 <= i < |v| ==> 0 <= v[i] < 64
    decreases |v|
  {
    if |v| == 0 then []
    else if |v| == 2 then [v[0] * 4 + v[1] / 16]
    else if |v| == 3 then [v[0] * 4 + v[1] / 16, (v[1] % 16) * 16 + v[2] / 4]
    else [v[0] * 4 + v[1] / 16, (v[1] % 16) * 16 + v[2] / 4, (v[2] % 4) * 64 + v[3]] + DecodeSextets(v[4..])
  }

  /** An encoding never has a length of the form 4k+1. */
  lemma SextetsLength(b: seq<Byte>)
    ensures |Sextets(b)| % 4 != 1
    ensures |b| % 3 == 0 ==> |Sextets(b)| % 4 == 0
    ensures |b| % 3 == 1 ==> |Sextets(b)| % 4 == 2
    ensures |b| % 3 == 2 ==> |Sextets(b)| % 4 == 3
  {
    var k, r := |b| / 3, |b| % 3;
    var c := if r == 0 then 0 else if r == 1 then 2 else 3;
    assert |b| == 3 * k + r;
    QuotientByThree(4 * |b| + 2, 4 * k + c);
    RemainderByFour(|Sextets(b)|, k, c);
  }

  lemma RemainderByFour(n: int, k: int, c: int)
    requires n == 4 * k + c && 0 <= c < 4
    ensures n % 4 == c
  {
  }

  lemma QuotientByThree(x: int, q: int)
    requires 3 * q <= x < 3 * q + 3
    ensures x / 3 == q
  {
  }

  /** One group of three bytes survives the trip through four 6-bit groups. */
  lemma GroupRoundTrip(b0: Byte, b1: Byte, b2: Byte)
    ensures var v0, v1, v2, v3 := b0 / 4, (b0 % 4) * 16 + b1 / 16, (b1 % 16) * 4 + b2 / 64, b2 % 64;
      && v0 * 4 + v1 / 16 == b0 && (v1 % 16) * 16 + v2 / 4 == b1 && (v2 % 4) * 64 + v3 == b2
  {
  }

  /** Decoding the groups of `b` gives back `b`. */
  lemma {:induction false} DecodeSextetsOfSextets(b: seq<Byte>)
    ensures |Sextets(b)| % 4 != 1
    ensures DecodeSextets(Sextets(b)) == b
    decreases |b|
  {
    SextetsLength(b);
    if |b| >= 3 {
      DecodeSextetsOfSextets(b[3..]);
      DecodeGroupStep(b);
    } else if |b| == 2 {
      GroupRoundTrip(b[0], b[1], 0);
    } else if |b| == 1 {
      GroupRoundTrip(b[0], 0, 0);
    }
  }

  /** A first group of three bytes decodes back, in front of the rest. */
  lemma DecodeGroupStep(b: seq<Byte>)
    requires |b| >= 3 && |Sextets(b[3..])| % 4 != 1 && DecodeSextets(Sextets(b[3..])) == b[3..]
    ensures |Sextets(b)| % 4 != 1 && DecodeSextets(Sextets(b)) == b
  {
    SextetsCons(b);
    GroupDecode(b[0], b[1], b[2], Sextets(b[3..]));
    assert b == [b[0], b[1], b[2]] + b[3..];
  }

  /** The first three bytes give the first four groups. */
  lemma SextetsCons(b: seq<Byte>)
    requires |b| >= 3
    ensures Sextets(b) == Group(b[0], b[1], b[2]) + Sextets(b[3..])
  {
  }

  /** The four 6-bit groups of three bytes. */
  function Group(b0: Byte, b1: Byte, b2: Byte): (v: seq<int>)
    ensures |v| == 4 && forall i :: 0 <= i < 4 ==> 0 <= v[i] < 64
  {
    [b0 / 4, (b0 % 4) * 16 + b1 / 16, (b1 % 16) * 4 + b2 / 64, b2 % 64]
  }

  /** Four groups made of three bytes decode to those bytes, in front of the rest. */
  lemma GroupDecode(b0: Byte, b1: Byte, b2: Byte, rest: seq<int>)
    requires |rest| % 4 != 1 && forall i :: 0 <= i < |rest| ==> 0 <= rest[i] < 64
    ensures |Group(b0, b1, b2) + rest| % 4 != 1
    ensures DecodeSextets(Group(b0, b1, b2) + rest) == [b0, b1, b2] + DecodeSextets(rest)
  {
    var v := Group(b0, b1, b2) + rest;
    assert v[4..] == rest;
    GroupRoundTrip(b0, b1, b2);
  }

  function Chars(v: seq<int>): (s: string)
    requires forall i :: 0 <= i < |v| ==> 0 <= v[i] < 64
    ensures |s| == |v| && forall i :: 0 <= i < |v| ==> s[i] == SextetChar(v[i])
  {
    seq(|v|, i requires 0 <= i < |v| => SextetChar(v[i]))
  }

  /** `(4 - n % 4) % 4`: how many '=' make a length a multiple of four. */
  function Padding(n: nat): (p: nat)
    ensures p < 4 && (n + p) % 4 == 0
    ensures n % 4 == 0 ==> p == 0
  {
    (4 - n % 4) % 4
  }

  /** The encoding without its padding. */
  function EncodeUnpadded(b: seq<Byte>): (s: string)
    ensures |s| == (4 * |b| + 2) / 3
  {
    Chars(Sextets(b))
  }

  /** Base64 of `b` with '=' padding. */
  function Encode(b: seq<Byte>): (s: string)
    ensures |s| % 4 == 0
  {
    var u := EncodeUnpadded(b);
    u + Text.Repeat('=', Padding(|u|))
  }

  /** The encoding of `n` bytes has `4·⌈n/3⌉` characters. */
  lemma EncodeLength(b: seq<Byte>)
    ensures |Encode(b)| == 4 * ((|b| + 2) / 3)
  {
    var n, k, r := |b|, |b| / 3, |b| % 3;
    assert n == 3 * k + r;
    var c := if r == 0 then 0 else if r == 1 then 2 else 3;
    var u := |EncodeUnpadded(b)|;
    QuotientByThree(4 * n + 2, 4 * k + c);
    RemainderByFour(u, k, c);
    QuotientByThree(n + 2, k + (if r == 0 then 0 else 1));
  }

  /** The padding `atob` drops: one or two trailing '=' of a string whose length is a
      multiple of four. */
  function StripPadding(s: string): (t: string)
    ensures t <= s && |s| - 2 <= |t|
  {
    if |s| % 4 == 0 && |s| >= 2 && s[|s| - 2] == '=' && s[|s| - 1] == '=' then s[..|s| - 2]
    else if |s| % 4 == 0 && |s| >= 1 && s[|s| - 1] == '=' then s[..|s| - 1]
    else s
  }

  predicate InAlphabet(s: string) {
    forall i :: 0 <= i < |s| ==> SextetValue(s[i]).Some?
  }

  function Values(s: string): (v: seq<int>)
    requires InAlphabet(s)
    ensures |v| == |s| && forall i :: 0 <= i < |v| ==> 0 <= v[i] < 64
  {
    seq(|s|, i requires 0 <= i < |s| => SextetValue(s[i]).value)
  }

  /** The bytes `atob` decodes, or none when it throws: after the padding is dropped, a
      length of the form 4k+1 or a character outside the alphabet is an error. */
  function Decode(s: string): (r: Option<seq<Byte>>)
    ensures r.Some? <==> |StripPadding(s)| % 4 != 1 && InAlphabet(StripPadding(s))
  {
    var data := StripPadding(s);
    if |data| % 4 == 1 || !InAlphabet(data) then None
    else Some(DecodeSextets(Values(data)))
  }

  /** Padding a string that does not end in '=' and then dropping the padding restores
      it. */
  lemma StripPadded(u: string)
    requires |u| % 4 != 1 && (|u| > 0 ==> u[|u| - 1] != '=')
    ensures StripPadding(u + Text.Repeat('=', Padding(|u|))) == u
  {
    var n := Padding(|u|);
    var pad := Text.Repeat('=', n);
    var s := u + pad;
    assert |s| == |u| + n && |s| % 4 == 0;
    if |u| % 4 == 2 {
      StripTwo(u, pad);
    } else if |u| % 4 == 3 {
      RemainderByFour(|u| + 1, |u| / 4 + 1, 0);
      StripOne(u, pad);
    } else {
      assert n == 0 && pad == [] && s == u;
    }
  }

  /** Two '=' after a text are dropped. */
  lemma StripTwo(u: string, pad: string)
    requires |u| % 4 == 2 && |pad| == 2 && pad[0] == '=' && pad[1] == '='
    ensures StripPadding(u + pad) == u
  {
    var s := u + pad;
    RemainderByFour(|s|, |u| / 4 + 1, 0);
    assert s[|s| - 2] == '=' && s[|s| - 1] == '=';
    assert s[..|s| - 2] == u;
  }

  /** One '=' after a text not ending in '=' is dropped. */
  lemma StripOne(u: string, pad: string)
    requires |u| > 0 && (|u| + 1) % 4 == 0 && u[|u| - 1] != '=' && |pad| == 1 && pad[0] == '='
    ensures StripPadding(u + pad) == u
  {
    var s := u + pad;
    assert s[|s| - 2] == u[|u| - 1] && s[|s| - 1] == '=';
    assert s[..|s| - 1] == u;
  }

  /** `atob` drops exactly the padding `btoa` added. */
  lemma StripEncode(b: seq<Byte>)
    ensures StripPadding(Encode(b)) == EncodeUnpadded(b)
  {
    var u := EncodeUnpadded(b);
    SextetsLength(b);
    if |u| > 0 {
      assert u[|u| - 1] == SextetChar(Sextets(b)[|u| - 1]);
    }
    StripPadded(u);
  }

  /** The characters of an encoding stand for its groups. */
  lemma ValuesOfEncoding(b: seq<Byte>)
    ensures InAlphabet(EncodeUnpadded(b)) && Values(EncodeUnpadded(b)) == Sextets(b)
  {
    var u := EncodeUnpadded(b);
    var v := Sextets(b);
    forall i | 0 <= i < |u| ensures SextetValue(u[i]) == Some(v[i]) {
      SextetCharValue(v[i]);
    }
  }

  /** Decoding an encoding gives back the bytes. */
  lemma DecodeEncode(b: seq<Byte>)
    ensures Decode(Encode(b)) == Some(b)
  {
    DecodeSextetsOfSextets(b);
    StripEncode(b);
    ValuesOfEncoding(b);
  }

  /** `String.fromCharCode` of each byte. */
  function Binary(b: seq<Byte>): (s: string)
    ensures |s| == |b| && forall i :: 0 <= i < |b| ==> s[i] as int == b[i]
  {
    seq(|b|, i requires 0 <= i < |b| => b[i] as char)
  }

  predicate IsBinary(s: string) {
    forall i :: 0 <= i < |s| ==> s[i] as int < 256
  }

  /** `charCodeAt` of each character of a binary string. */
  function Codes(s: string): (b: seq<Byte>)
    requires IsBinary(s)
    ensures |b| == |s| && forall i :: 0 <= i < |s| ==> b[i] == s[i] as int
  {
    seq(|s|, i requires 0 <= i < |s| => s[i] as int)
  }

  /** Byte values and binary strings are one-to-one. */
  lemma CodesBinary(b: seq<Byte>)
    ensures IsBinary(Binary(b)) && Codes(Binary(b)) == b
  {
  }

  lemma BinaryCodes(s: string)
    requires IsBinary(s)
    ensures Binary(Codes(s)) == s
  {
    assert forall i :: 0 <= i < |s| ==> Binary(Codes(s))[i] as int == s[i] as int;
  }

  /** `btoa`: the encoding of a binary string; it throws on a character above 255. */
  function Btoa(s: string): (r: Result<string>)
    ensures r.Ok? <==> IsBinary(s)
    ensures r.Ok? ==> r.value == Encode(Codes(s))
  {
    if IsBinary(s) then Ok(Encode(Codes(s))) else Err(InvalidCharacter)
  }

  /** `atob`: the decoded bytes as a binary string. */
  function Atob(s: string): (r: Result<string>)
    ensures r.Ok? <==> Decode(s).Some?
    ensures r.Ok? ==> IsBinary(r.value) && Codes(r.value) == Decode(s).value
  {
    var d := Decode(s);
    if d.Some? then Ok(Binary(d.value)) else Err(InvalidCharacter)
  }

  /** The loop of `arrayBufferToBase64` before `btoa`: one character per byte. */
  method BinaryString(bytes: array<Byte>) returns (binary: string)
    ensures binary == Binary(bytes[..])
  {
    binary := "";
    var i := 0;
    while i < bytes.Length
      invariant 0 <= i <= bytes.Length
      invariant binary == Binary(bytes[..i])
    {
      binary := binary + [bytes[i] as char];
      i := i + 1;
    }
    assert bytes[..i] == bytes[..];
  }

  /** The loop of the decoders after `atob`: a new array with the code of each character. */
  method CharCodes(binary: string) returns (bytes: array<Byte>)
    requires IsBinary(binary)
    ensures fresh(bytes) && bytes[..] == Codes(binary)
  {
    bytes := new Byte[|binary|];
    for i := 0 to |binary|
      invariant forall j :: 0 <= j < i ==> bytes[j] == binary[j] as int
    {
      bytes[i] := binary[i] as int;
    }
  }
}
