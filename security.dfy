/**
 * The self-contained parts of the security manager: session-id shape,
 * session-id generation (the random draws are an arbitrary choice), the XOR
 * cipher over raw buffers, and password verification over an abstract hash.
 */
module Security {
  /** A `char` of a raw buffer. */
  type byte = bv8

  /** The sixteen characters `generate_session_id` draws from. */
  const HexChars: string := "0123456789abcdef"

  /** The character test of `is_valid_session_id`: a digit or a lower-case letter up to 'f'. */
  predicate IsHexDigit(c: char)
  {
    ('0' <= c <= '9') || ('a' <= c <= 'f')
  }

  /** A well-formed session id: 64 lower-case hexadecimal digits. */
  predicate ValidSessionId(s: string)
  {
    |s| == 64 && forall i :: 0 <= i < |s| ==> IsHexDigit(s[i])
  }

  /** `is_valid_session_id`: the length check, then a scan that stops at the first bad character. */
  method IsValidSessionId(sessionId: string) returns (valid: bool)
    ensures valid <==> ValidSessionId(sessionId)
  {
    if |sessionId| != 64 {
      return false;
    }
    var i := 0;
    while i < |sessionId|
      invariant 0 <= i <= |sessionId|
      invariant forall j :: 0 <= j < i ==> IsHexDigit(sessionId[j])
    {
      var c := sessionId[i];
      if !(('0' <= c <= '9') || ('a' <= c <= 'f')) {
        return false;
      }
      i := i + 1;
    }
    return true;
  }

  /** Every character of the draw table is a hexadecimal digit. */
  lemma HexCharsAreDigits(k: nat)
    requires k < 16
    ensures IsHexDigit(HexChars[k])
  {
    var digits, letters := "0123456789", "abcdef";
    assert HexChars == digits + letters;
    if k < 10 {
      assert HexChars[k] == digits[k];
    } else {
      assert HexChars[k] == letters[k - 10];
    }
  }

  /**
   * `generate_session_id`: 64 draws from a uniform distribution over 0..15,
   * each indexing the hex table. The generator is not modelled; each draw is an
   * arbitrary value in range.
   */
  method GenerateSessionId() returns (sessionId: string)
    ensures ValidSessionId(sessionId)
  {
    sessionId := "";
    for i := 0 to 64
      invariant |sessionId| == i
      invariant forall j :: 0 <= j < i ==> IsHexDigit(sessionId[j])
    {
      var d :| 0 <= d < 16;
      HexCharsAreDigits(d);
      sessionId := sessionId + [HexChars[d]];
    }
  }

  /** The XOR of each input byte with the key repeated cyclically. */
  function Cipher(input: seq<byte>, key: seq<byte>): (r: seq<byte>)
    requires |key| > 0
    ensures |r| == |input|
  {
    seq(|input|, i requires 0 <= i < |input| => input[i] ^ key[i % |key|])
  }

  /** Applying the cipher twice with the same key restores the input, which is why decryption is encryption. */
  lemma CipherInvolution(input: seq<byte>, key: seq<byte>)
    requires |key| > 0
    ensures Cipher(Cipher(input, key), key) == input
  {
    var once := Cipher(input, key);
    forall i | 0 <= i < |input|
      ensures Cipher(once, key)[i] == input[i]
    {
      var k := key[i % |key|];
      assert once[i] == input[i] ^ k;
      assert (input[i] ^ k) ^ k == input[i];
    }
  }

  /**
   * `encrypt_data(input, output, size, key, key_len)`. `input` may be the same
   * buffer as `output` (each byte is read before it is written); `key` must not
   * be, and `key_len` must be non-zero, since `i % 0` is undefined in C.
   */
  method EncryptData(input: array<byte>, output: array<byte>, size: nat, key: array<byte>, keyLen: nat)
    requires size <= input.Length && size <= output.Length
    requires 0 < keyLen <= key.Length && key != output
    modifies output
    ensures output[..size] == Cipher(old(input[..size]), key[..keyLen])
    ensures output[size..] == old(output[size..])
  {
    ghost var plain := input[..size];
    ghost var k := key[..keyLen];
    for i := 0 to size
      invariant key[..keyLen] == k
      invariant forall j :: 0 <= j < i ==> output[j] == plain[j] ^ k[j % keyLen]
      invariant forall j :: i <= j < size ==> input[j] == plain[j]
      invariant output[size..] == old(output[size..])
    {
      output[i] := input[i] ^ key[i % keyLen];
    }
  }

  /** `decrypt_data`: the same operation as `encrypt_data`. */
  method DecryptData(input: array<byte>, output: array<byte>, size: nat, key: array<byte>, keyLen: nat)
    requires size <= input.Length && size <= output.Length
    requires 0 < keyLen <= key.Length && key != output
    modifies output
    ensures output[..size] == Cipher(old(input[..size]), key[..keyLen])
    ensures output[size..] == old(output[size..])
  {
    EncryptData(input, output, size, key, keyLen);
  }

  /** Decrypting a buffer produced by `encrypt_data` with the same key gives back the plaintext. */
  lemma DecryptRestores(plain: seq<byte>, cipher: seq<byte>, key: seq<byte>)
    requires |key| > 0 && cipher == Cipher(plain, key)
    ensures Cipher(cipher, key) == plain
  {
    CipherInvolution(plain, key);
  }

  /** `verify_password`: the password's hash (an external function here) compared to the stored hash. */
  function VerifyPassword(hashPassword: string -> string, password: string, hash: string): (ok: bool)
  {
    hashPassword(password) == hash
  }

  /** A password verifies against the stored hash of itself, and only a password with that hash does. */
  lemma VerifyPasswordExact(hashPassword: string -> string, password: string, hash: string)
    ensures VerifyPassword(hashPassword, password, hashPassword(password))
    ensures VerifyPassword(hashPassword, password, hash) ==> hash == hashPassword(password)
  {
  }
}
