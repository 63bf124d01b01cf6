/** The two byte helpers of `lib/encryption.ts` that turn the wrapped keys and the
    ciphertexts into text and back. The Web Crypto calls around them are not part of
    this model. */
module Encryption {
  import opened Wrappers
  import opened Base64

  /** `arrayBufferToBase64`: the bytes as a binary string, then `btoa`, which cannot throw
      on it; the result is the base64 of the bytes. */
  method ArrayBufferToBase64(buffer: array<Byte>) returns (s: string)
    ensures s == Encode(buffer[..])
  {
    var binary := BinaryString(buffer);
    CodesBinary(buffer[..]);
    var r := Btoa(binary);
    s := r.value;
  }

  /** `base64ToArrayBuffer`: `atob`, then a new array of the character codes. It throws
      exactly when `atob` does. */
  method Base64ToArrayBuffer(base64: string) returns (r: Result<array<Byte>>)
    ensures r.Ok? <==> Decode(base64).Some?
    ensures r.Ok? ==> fresh(r.value) && r.value[..] == Decode(base64).value
    ensures r.Err? ==> r.error == InvalidCharacter
  {
    var binary := Atob(base64);
    if binary.Err? {
      return Err(binary.error);
    }
    var bytes := CharCodes(binary.value);
    r := Ok(bytes);
  }

  /** What one helper writes the other reads back unchanged. */
  method RoundTrip(buffer: array<Byte>) returns (copy: array<Byte>)
    ensures copy[..] == buffer[..]
  {
    var text := ArrayBufferToBase64(buffer);
    DecodeEncode(buffer[..]);
    var r := Base64ToArrayBuffer(text);
    copy := r.value;
  }
}
