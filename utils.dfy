/** The random password generator. The random bytes come from an
    `Entropy` stream (the package-level reader of math/rand), so the
    generated password is a function of the stream's next bytes. */
module Utils {
  import opened Base
  import Crypto

  /** The 94 printable ASCII characters other than the space that a
      generated password is drawn from, in the source's order: lower-case
      letters, upper-case letters, digits, then 32 punctuation marks. The
      constant is spelled in pieces of at most 13 characters so that the
      verifier can look at each character. */
  const Charset: string := Lower1 + Lower2 + Upper1 + Upper2 + Digits + Marks1 + Marks2 + Marks3
  const Lower1: string := "abcdefghijklm"
  const Lower2: string := "nopqrstuvwxyz"
  const Upper1: string := "ABCDEFGHIJKLM"
  const Upper2: string := "NOPQRSTUVWXYZ"
  const Digits: string := "0123456789"
  const Marks1: string := "!@#$%^&*()_+"
  const Marks2: string := "=-`~[]\\{}|;'"
  const Marks3: string := ":\",./<>?"

  lemma CharsetFacts()
    ensures |Charset| == 94
    ensures IsAscii(Charset)
  {
    assert IsAscii(Lower1) && IsAscii(Lower2);
    AsciiConcat(Lower1, Lower2);
    assert IsAscii(Upper1);
    AsciiConcat(Lower1 + Lower2, Upper1);
    assert IsAscii(Upper2);
    AsciiConcat(Lower1 + Lower2 + Upper1, Upper2);
    assert IsAscii(Digits);
    AsciiConcat(Lower1 + Lower2 + Upper1 + Upper2, Digits);
    assert IsAscii(Marks1);
    AsciiConcat(Lower1 + Lower2 + Upper1 + Upper2 + Digits, Marks1);
    assert IsAscii(Marks2);
    AsciiConcat(Lower1 + Lower2 + Upper1 + Upper2 + Digits + Marks1, Marks2);
    assert IsAscii(Marks3);
    AsciiConcat(Lower1 + Lower2 + Upper1 + Upper2 + Digits + Marks1 + Marks2, Marks3);
  }

  lemma AsciiConcat(a: string, b: string)
    requires IsAscii(a) && IsAscii(b)
    ensures IsAscii(a + b)
  {
    forall i | 0 <= i < |a + b| ensures ((a + b)[i] as int) < 0x80 {
      if i >= |a| {
        assert (a + b)[i] == b[i - |a|];
      }
    }
  }

  /** The character a random byte selects: index `b mod len(charset)`. */
  function Pick(b: byte): (c: char)
    ensures |Charset| == 94 && c == Charset[(b as int) % 94]
    ensures c in Charset
    ensures (c as int) < 128
  {
    CharsetFacts();
    Charset[(b as int) % |Charset|]
  }

  /** The same character, as the byte the Go code stores back into `b`. */
  function PickByte(b: byte): (r: byte)
    ensures r as int as char == Pick(b)
  {
    Pick(b) as int as byte
  }

  /** The password a sequence of random bytes gives: one character per
      byte, each depending on its own byte only. */
  function PasswordFrom(bytes: Bytes): (pw: string)
    ensures |pw| == |bytes|
    ensures forall i :: 0 <= i < |pw| ==> pw[i] in Charset
  {
    seq(|bytes|, i requires 0 <= i < |bytes| => Pick(bytes[i]))
  }

  /** What GenerateRandomPassword returns and what is left of the stream:
      the empty string, with nothing consumed, when the read fails. */
  function Generated(tape: Bytes, length: nat): (pw: string)
    ensures |tape| < length ==> pw == ""
    ensures length <= |tape| ==> |pw| == length && pw == PasswordFrom(tape[..length])
  {
    if |tape| < length then "" else PasswordFrom(tape[..length])
  }

  /** The stream after GenerateRandomPassword: a successful generation
      consumes exactly `length` bytes, a failed one none. */
  function GeneratedRest(tape: Bytes, length: nat): (rest: Bytes)
    ensures |tape| < length ==> rest == tape
    ensures length <= |tape| ==> tape == tape[..length] + rest
  {
    if |tape| < length then tape else tape[length..]
  }

  /** A successful generation has exactly the requested length, in
      characters and in bytes (Go's `len`), and uses only the charset. */
  lemma GeneratedShape(tape: Bytes, length: nat)
    requires length <= |tape|
    ensures |Generated(tape, length)| == length
    ensures ByteLength(Generated(tape, length)) == length
    ensures forall i :: 0 <= i < length ==> Generated(tape, length)[i] in Charset
  {
    var pw := Generated(tape, length);
    assert IsAscii(pw) by {
      forall i | 0 <= i < |pw|
        ensures (pw[i] as int) < 128
      {
        assert pw[i] == Pick(tape[i]);
      }
    }
    AsciiEncoding(pw);
  }

  /** Bytes 94 apart select the same character: the selection is biased
      towards the first 68 entries, which three byte values reach, where
      the others have two. */
  lemma PickRepeatsEvery94(x: byte, y: byte)
    requires y as int == x as int + 94
    ensures Pick(x) == Pick(y)
  {
    ModuloShift(x as int);
  }

  lemma ModuloShift(x: nat)
    ensures (x + 94) % 94 == x % 94
  {
    var q, r := x / 94, x % 94;
    assert x == 94 * q + r;
    assert x + 94 == 94 * (q + 1) + r;
  }

  /** Closed form of a successful generation: character i is the charset
      entry at random byte i modulo 94. */
  lemma GeneratedPicksByIndex(tape: Bytes, length: nat)
    requires length <= |tape|
    ensures |Charset| == 94
    ensures forall i :: 0 <= i < length ==> Generated(tape, length)[i] == Charset[(tape[i] as int) % 94]
  {
    CharsetFacts();
    var pw := Generated(tape, length);
    forall i | 0 <= i < length
      ensures pw[i] == Charset[(tape[i] as int) % 94]
    {
      assert pw[i] == Pick(tape[i]);
    }
  }

  /** Position i of the password is determined by random byte i alone:
      changing any other byte leaves it as it is. */
  lemma PositionDependsOnItsByte(t1: Bytes, t2: Bytes, length: nat, i: nat)
    requires length <= |t1| && length <= |t2| && i < length
    requires t1[i] == t2[i]
    ensures Generated(t1, length)[i] == Generated(t2, length)[i]
  {
  }

  /** A failed read gives the empty password and consumes nothing. */
  lemma ShortStreamGivesEmpty(tape: Bytes, length: nat)
    requires |tape| < length
    ensures Generated(tape, length) == "" && GeneratedRest(tape, length) == tape
  {
  }

  /** Every character of the charset can occur: byte k selects Charset[k]. */
  lemma EveryCharsetCharReachable(k: nat)
    requires k < |Charset|
    ensures PasswordFrom([k as byte]) == [Charset[k]]
  {
    CharsetFacts();
    var b := k as byte;
    assert (b as int) % |Charset| == k;
    assert PasswordFrom([b])[0] == Pick(b) == Charset[k];
  }

  /** GenerateRandomPassword(length): read `length` random bytes into a
      fresh buffer, then overwrite each byte in place by the charset
      character it selects. */
  method GenerateRandomPassword(rng: Crypto.Entropy, length: nat) returns (pw: string)
    modifies rng
    ensures pw == Generated(old(rng.tape), length)
    ensures rng.tape == GeneratedRest(old(rng.tape), length)
  {
    var b := new byte[length];
    var err := rng.Read(b);
    if err.Some? {
      return "";
    }
    ghost var drawn := b[..];
    for i := 0 to length
      modifies b
      invariant b[i..] == drawn[i..]
      invariant forall k :: 0 <= k < i ==> b[k] == PickByte(drawn[k])
    {
      b[i] := PickByte(b[i]);
    }
    pw := seq(length, k requires 0 <= k < length reads b => b[k] as int as char);
    assert |drawn| == length;
    forall k | 0 <= k < length ensures pw[k] == Pick(drawn[k]) {
      assert pw[k] == PickByte(drawn[k]) as int as char;
    }
    assert pw == PasswordFrom(drawn);
  }
}
