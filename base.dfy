/** Go-level facts the whole model shares: bytes, the errors the program can
    observe, and the UTF-8 encoding that `[]byte(s)` and `len(s)` see. */
module Base {

  newtype byte = x: int | 0 <= x < 256
  type Bytes = seq<byte>

  /** Every error value an operation of the core can return. The file-system
      errors carry the path they concern, as Go's *PathError does. */
  datatype Error =
    | NotExist(path: string)          // os.ErrNotExist: no file at the path
    | IsDirectory(path: string)       // read or write of a directory path
    | NotDirectory(path: string)      // a directory wanted where a file stands
    | IoFault(path: string, code: nat) // any other refusal (permission, disk full, ...)
    | NoConfigDir                     // os.UserConfigDir found no configuration root
    | JsonSyntax(offset: nat)         // json.Unmarshal rejected its input
    | KdfFailure                      // scrypt.Key rejected its parameters
    | RandFailure                     // crypto/rand could not supply the bytes
    | Base64Corrupt(offset: nat)      // base64 decoding rejected its input
    | KeySize(length: nat)            // aes.NewCipher: key is not 16, 24 or 32 bytes
    | CiphertextTooShort              // "ciphertext too short"
    | AuthenticationFailed            // gcm.Open: message authentication failed

  /** The UTF-8 encoding of one Unicode scalar value. */
  function Utf8Char(c: char): (r: Bytes)
    ensures 1 <= |r| <= 4
    ensures |r| == 1 <==> (c as int) < 0x80
    ensures |r| == 1 ==> r[0] as int == c as int
  {
    var v := c as int;
    if v < 0x80 then [v as byte]
    else if v < 0x800 then [(0xC0 + v / 64) as byte, (0x80 + v % 64) as byte]
    else if v < 0x1_0000 then
      [(0xE0 + v / 4096) as byte, (0x80 + (v / 64) % 64) as byte, (0x80 + v % 64) as byte]
    else
      [(0xF0 + v / 262144) as byte, (0x80 + (v / 4096) % 64) as byte,
       (0x80 + (v / 64) % 64) as byte, (0x80 + v % 64) as byte]
  }

  /** `[]byte(s)`: the UTF-8 bytes of a string; `len(s)` in Go is their number. */
  function Utf8Encode(s: string): (r: Bytes)
    ensures |s| <= |r| <= 4 * |s|
  {
    if s == [] then [] else Utf8Char(s[0]) + Utf8Encode(s[1..])
  }

  /** Go's `len(s)`: the byte length of the string's UTF-8 form. */
  function ByteLength(s: string): nat {
    |Utf8Encode(s)|
  }

  predicate IsAscii(s: string) {
    forall i :: 0 <= i < |s| ==> (s[i] as int) < 0x80
  }

  /** Encoding distributes over concatenation, so byte length is additive. */
  lemma {:induction false} Utf8EncodeConcat(a: string, b: string)
    ensures Utf8Encode(a + b) == Utf8Encode(a) + Utf8Encode(b)
  {
    if a == [] {
      assert a + b == b;
    } else {
      var ab := a + b;
      assert ab[0] == a[0] && ab[1..] == a[1..] + b;
      Utf8EncodeConcat(a[1..], b);
      assert Utf8Encode(ab) == Utf8Char(a[0]) + Utf8Encode(a[1..] + b);
    }
  }

  /** For ASCII text, byte length and character count agree, and the bytes are
      the character codes themselves. */
  lemma {:induction false} AsciiEncoding(s: string)
    requires IsAscii(s)
    ensures |Utf8Encode(s)| == |s|
    ensures forall i :: 0 <= i < |s| ==> Utf8Encode(s)[i] as int == s[i] as int
  {
    if s != [] {
      assert IsAscii(s[1..]) by {
        forall i | 0 <= i < |s[1..]| ensures (s[1..][i] as int) < 0x80 {
          assert s[1..][i] == s[i + 1];
        }
      }
      AsciiEncoding(s[1..]);
    }
  }
}
