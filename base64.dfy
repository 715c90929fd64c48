/**
 * The Base64 encoder of the WebSocket bridge (RFC 4648 section 4 alphabet,
 * '=' padding). `Encode` is the group-by-group definition; the method
 * `Base64Encode` is the byte-at-a-time loop of the source, proved equal to it.
 */
module Base64 {
  /** An `unsigned char`. */
  newtype byte = x: int | 0 <= x < 256

  /** A 6-bit index into the alphabet. */
  type sextet = x: int | 0 <= x < 64

  /** `base64_chars`: the RFC 4648 section 4 alphabet, built from the same three literals as the source. */
  const Base64Chars: string := "ABCDEFGHIJKLMNOPQRSTUVWXYZ" + "abcdefghijklmnopqrstuvwxyz" + "0123456789+/"

  /*
   * The four 6-bit indices of a 3-byte group. The source computes them with
   * masks and shifts on `unsigned char`: `(b0 & 0xfc) >> 2` is `b0 / 4`,
   * `(b0 & 0x03) << 4` is `(b0 % 4) * 16`, `(b1 & 0xf0) >> 4` is `b1 / 16`,
   * `(b1 & 0x0f) << 2` is `(b1 % 16) * 4`, `(b2 & 0xc0) >> 6` is `b2 / 64`
   * and `b2 & 0x3f` is `b2 % 64`.
   */
  function C0(b0: byte): sextet { b0 as int / 4 }
  function C1(b0: byte, b1: byte): sextet { (b0 as int % 4) * 16 + b1 as int / 16 }
  function C2(b1: byte, b2: byte): sextet { (b1 as int % 16) * 4 + b2 as int / 64 }
  function C3(b2: byte): sextet { b2 as int % 64 }

  /** The character at position `k` of `base64_chars`, computed from the three runs it is made of. */
  function Sextet(k: sextet): char
  {
    if k < 26 then ('A' as int + k) as char
    else if k < 52 then ('a' as int + k - 26) as char
    else if k < 62 then ('0' as int + k - 52) as char
    else if k == 62 then '+' else '/'
  }

  /** The four characters a 3-byte group encodes to. */
  function Quad(b0: byte, b1: byte, b2: byte): string
  {
    [Sextet(C0(b0)), Sextet(C1(b0, b1)), Sextet(C2(b1, b2)), Sextet(C3(b2))]
  }

  /**
   * Base64 of `bytes`: full groups in order; a trailing single byte gives two
   * characters and "==", a trailing pair three characters and "=", with the
   * missing bytes taken as zero.
   */
  function Encode(bytes: seq<byte>): string
  {
    if |bytes| == 0 then ""
    else if |bytes| == 1 then Quad(bytes[0], 0, 0)[..2] + "=="
    else if |bytes| == 2 then Quad(bytes[0], bytes[1], 0)[..3] + "="
    else Quad(bytes[0], bytes[1], bytes[2]) + Encode(bytes[3..])
  }

  /** The body shared by the full-group and final-group steps of
      `base64_encode`: split the three bytes of `charArray3` into four
      sextets in `charArray4` and emit the first `n` of their characters. */
  method EmitSextets(b0: byte, b1: byte, b2: byte, charArray4: array<byte>, n: nat) returns (out: string)
    requires charArray4.Length == 4
    requires n <= 4
    modifies charArray4
    ensures |out| == n && forall m :: 0 <= m < n ==> out[m] == Quad(b0, b1, b2)[m]
  {
    charArray4[0] := b0 / 4;
    charArray4[1] := (b0 % 4) * 16 + b1 / 16;
    charArray4[2] := (b1 % 16) * 4 + b2 / 64;
    charArray4[3] := b2 % 64;
    ghost var sextets := [C0(b0), C1(b0, b1), C2(b1, b2), C3(b2)];
    assert forall m :: 0 <= m < 4 ==> charArray4[m] as int == sextets[m];
    out := "";
    for k := 0 to n
      invariant |out| == k
      invariant forall m :: 0 <= m < k ==> out[m] == Sextet(sextets[m])
      modifies {}
    {
      TableIsAlphabet(charArray4[k] as int);
      out := out + [Base64Chars[charArray4[k]]];
    }
  }

  /** `base64_encode(bytes_to_encode, in_len)`. */
  method Base64Encode(bytes: seq<byte>) returns (ret: string)
    ensures ret == Encode(bytes)
  {
    ret := "";
    var i := 0;
    var charArray3 := new byte[3];
    var charArray4 := new byte[4];
    var pos := 0;
    ghost var groups := 0;
    while pos < |bytes|
      invariant 0 <= i < 3 && i <= pos <= |bytes|
      invariant pos - i == 3 * groups
      invariant forall k :: 0 <= k < i ==> charArray3[k] == bytes[3 * groups + k]
      invariant ret == Encode(bytes[..3 * groups])
    {
      charArray3[i] := bytes[pos];
      i, pos := i + 1, pos + 1;
      if i == 3 {
        EncodePrefixGroup(bytes, pos, groups);
        assert charArray3[0] == bytes[pos - 3] && charArray3[1] == bytes[pos - 2] && charArray3[2] == bytes[pos - 1];
        var group := EmitSextets(charArray3[0], charArray3[1], charArray3[2], charArray4, 4);
        assert group == Quad(bytes[pos - 3], bytes[pos - 2], bytes[pos - 1]);
        ret := ret + group;
        i := 0;
        groups := groups + 1;
      }
    }
    if i != 0 {
      assert charArray3[..i] == bytes[3 * groups..];
      var rest := EncodeRemainder(charArray3, charArray4, i);
      EncodeSuffix(bytes, 3 * groups, groups);
      ret := ret + rest;
    } else {
      assert bytes[..pos] == bytes;
    }
  }

  /** One more full group extends the encoding of a prefix by its quad. */
  lemma EncodePrefixGroup(bytes: seq<byte>, p: nat, groups: nat)
    requires 3 <= p <= |bytes| && p - 3 == 3 * groups
    ensures Encode(bytes[..p]) == Encode(bytes[..p - 3]) + Quad(bytes[p - 3], bytes[p - 2], bytes[p - 1])
  {
    ThreeTimesMod(groups);
    var g := bytes[p - 3..p];
    EncodeGroupAppend(bytes[..p - 3], g);
    assert bytes[..p - 3] + g == bytes[..p];
  }

  /** The encoding of all bytes is that of the whole groups followed by that of the rest. */
  lemma EncodeSuffix(bytes: seq<byte>, p: nat, groups: nat)
    requires p <= |bytes| && p == 3 * groups
    ensures Encode(bytes) == Encode(bytes[..p]) + Encode(bytes[p..])
  {
    var a, b := bytes[..p], bytes[p..];
    assert |a| % 3 == 0 by { ThreeTimesMod(groups); }
    assert a + b == bytes;
    EncodeConcat(a, b);
  }

  /** The end of `base64_encode`: zero-fill the partial group of `i` bytes,
      emit `i + 1` characters and pad with '=' to four. */
  method EncodeRemainder(charArray3: array<byte>, charArray4: array<byte>, i: nat) returns (out: string)
    requires charArray3.Length == 3 && charArray4.Length == 4 && charArray3 != charArray4
    requires 1 <= i <= 2
    modifies charArray3, charArray4
    ensures out == Encode(old(charArray3[..i]))
  {
    ghost var tail := charArray3[..i];
    for j := i to 3
      invariant charArray3[..i] == tail
      invariant forall k :: i <= k < j ==> charArray3[k] == 0
      modifies charArray3
    {
      charArray3[j] := 0;
    }
    var b0, b1, b2 := charArray3[0], charArray3[1], charArray3[2];
    assert b0 == tail[0] && (i == 2 ==> b1 == tail[1]) && (i == 1 ==> b1 == 0) && b2 == 0;
    out := EmitSextets(b0, b1, b2, charArray4, i + 1);
    ghost var q := Quad(b0, b1, b2);
    assert out == q[..i + 1];
    ghost var emitted := out;
    var n := i;
    while n < 3
      invariant i <= n <= 3
      invariant out == emitted + (if n == i then "" else if n == i + 1 then "=" else "==")
      modifies {}
    {
      out := out + "=";
      n := n + 1;
    }
    EncodeTail(tail, q);
  }

  /** The encoding of a final partial group, given the quad its zero-filled group encodes to. */
  lemma EncodeTail(tail: seq<byte>, q: string)
    requires 1 <= |tail| <= 2
    requires q == Quad(tail[0], if |tail| == 2 then tail[1] else 0, 0)
    ensures Encode(tail) == q[..|tail| + 1] + (if |tail| == 1 then "==" else "=")
  {
  }

  /** Appending one full group appends its four characters. */
  lemma ThreeTimesMod(k: int)
    ensures (3 * k) % 3 == 0
  {
  }

  lemma EncodeGroupAppend(a: seq<byte>, g: seq<byte>)
    requires |a| % 3 == 0 && |g| == 3
    ensures Encode(a + g) == Encode(a) + Quad(g[0], g[1], g[2])
  {
    EncodeConcat(a, g);
    assert g[3..] == [];
  }

  /** Encoding distributes over concatenation when the first part is a whole number of groups. */
  lemma {:induction false} EncodeConcat(a: seq<byte>, b: seq<byte>)
    requires |a| % 3 == 0
    ensures Encode(a + b) == Encode(a) + Encode(b)
    decreases |a|
  {
    if a == [] {
      assert a + b == b;
    } else {
      assert (a + b)[3..] == a[3..] + b;
      assert (a + b)[..3] == a[..3];
      EncodeConcat(a[3..], b);
    }
  }

  /** The output is four characters per started group of three bytes; empty input gives empty output. */
  lemma {:induction false} EncodeLength(bytes: seq<byte>)
    ensures |Encode(bytes)| == 4 * ((|bytes| + 2) / 3)
    decreases |bytes|
  {
    var n := |bytes|;
    if n >= 3 {
      EncodeLength(bytes[3..]);
      var q := Quad(bytes[0], bytes[1], bytes[2]);
      assert Encode(bytes) == q + Encode(bytes[3..]);
      assert (n - 3 + 2) / 3 + 1 == (n + 2) / 3;
    } else if n == 1 {
      assert |Quad(bytes[0], 0, 0)[..2]| == 2;
    } else if n == 2 {
      assert |Quad(bytes[0], bytes[1], 0)[..3]| == 3;
    }
  }

  /** A character of the RFC 4648 section 4 alphabet. */
  predicate InAlphabet(c: char)
  {
    'A' <= c <= 'Z' || 'a' <= c <= 'z' || '0' <= c <= '9' || c == '+' || c == '/'
  }

  /** Every output character is from the alphabet, except '=' which may appear only in the last two positions. */
  lemma {:induction false} EncodeAlphabet(bytes: seq<byte>)
    ensures forall k :: 0 <= k < |Encode(bytes)| ==>
      InAlphabet(Encode(bytes)[k]) || (Encode(bytes)[k] == '=' && k >= |Encode(bytes)| - 2)
    decreases |bytes|
  {
    SextetsInAlphabet();
    if |bytes| >= 3 {
      EncodeAlphabet(bytes[3..]);
      var q := Quad(bytes[0], bytes[1], bytes[2]);
      var e := Encode(bytes);
      assert e == q + Encode(bytes[3..]);
      forall k | 0 <= k < |e|
        ensures InAlphabet(e[k]) || (e[k] == '=' && k >= |e| - 2)
      {
        if k >= 4 { assert e[k] == Encode(bytes[3..])[k - 4]; }
      }
    }
  }

  /** A run of consecutive character codes starting at `c0`. */
  predicate Run(s: string, c0: int)
  {
    forall k :: 0 <= k < |s| ==> s[k] as int == c0 + k
  }

  /** The position of an alphabet character in `base64_chars` (the inverse lookup a decoder uses). */
  function Index(c: char): int
  {
    if 'A' <= c <= 'Z' then c as int - 'A' as int
    else if 'a' <= c <= 'z' then c as int - 'a' as int + 26
    else if '0' <= c <= '9' then c as int - '0' as int + 52
    else if c == '+' then 62
    else if c == '/' then 63
    else -1
  }

  /** The table lookup of the source agrees with `Sextet`. */
  lemma TableIsAlphabet(k: sextet)
    ensures Base64Chars[k] == Sextet(k)
  {
    var u, l, d := "ABCDEFGHIJKLMNOPQRSTUVWXYZ", "abcdefghijklmnopqrstuvwxyz", "0123456789";
    assert Run(u, 'A' as int);
    assert Run(l, 'a' as int);
    assert Run(d, '0' as int);
    assert Base64Chars == u + l + d + "+/";
    if k < 26 {
      assert Base64Chars[k] == u[k];
    } else if k < 52 {
      assert Base64Chars[k] == l[k - 26];
    } else if k < 62 {
      assert Base64Chars[k] == d[k - 52];
    }
  }

  /** Every index names an alphabet character, and looking it up again gives the index back. */
  lemma SextetsInAlphabet()
    ensures forall k: sextet :: InAlphabet(Sextet(k)) && Index(Sextet(k)) == k
  {
  }

  /** The 6-bit value of an output character. */
  function Value(c: char): sextet
  {
    var i := Index(c);
    if 0 <= i < 64 then i else 0
  }

  /** The bytes of one group from its four 6-bit values, `pad` of them being '=' padding. */
  function Bytes(v0: sextet, v1: sextet, v2: sextet, v3: sextet, pad: nat): seq<byte>
  {
    var b0 := (v0 * 4 + v1 / 16) as byte;
    var b1 := ((v1 % 16) * 16 + v2 / 4) as byte;
    var b2 := ((v2 % 4) * 64 + v3) as byte;
    if pad >= 2 then [b0] else if pad == 1 then [b0, b1] else [b0, b1, b2]
  }

  /** RFC 4648 decoding of one four-character group, honouring '=' padding. */
  function DecodeQuad(q: string): seq<byte>
    requires |q| == 4
  {
    Bytes(Value(q[0]), Value(q[1]), Value(q[2]), Value(q[3]), if q[2] == '=' then 2 else if q[3] == '=' then 1 else 0)
  }

  /** RFC 4648 decoding, four characters at a time. */
  function Decode(s: string): seq<byte>
  {
    if |s| < 4 then [] else DecodeQuad(s[..4]) + Decode(s[4..])
  }

  /** Splitting a group into indices loses no bits. */
  lemma QuadBits(b0: byte, b1: byte, b2: byte)
    ensures Bytes(C0(b0), C1(b0, b1), C2(b1, b2), C3(b2), 0) == [b0, b1, b2]
  {
    var x0, x1, x2 := b0 as int, b1 as int, b2 as int;
    var v0, v1, v2, v3 := C0(b0), C1(b0, b1), C2(b1, b2), C3(b2);
    assert v1 / 16 == x0 % 4 && v1 % 16 == x1 / 16;
    assert v2 / 4 == x1 % 16 && v2 % 4 == x2 / 64;
    assert v0 * 4 + x0 % 4 == x0;
    assert (x1 / 16) * 16 + x1 % 16 == x1;
    assert (x2 / 64) * 64 + v3 == x2;
  }

  lemma QuadValues(b0: byte, b1: byte, b2: byte)
    ensures Value(Quad(b0, b1, b2)[0]) == C0(b0) && Value(Quad(b0, b1, b2)[1]) == C1(b0, b1)
    ensures Value(Quad(b0, b1, b2)[2]) == C2(b1, b2) && Value(Quad(b0, b1, b2)[3]) == C3(b2)
    ensures Quad(b0, b1, b2)[2] != '=' && Quad(b0, b1, b2)[3] != '='
  {
    SextetsInAlphabet();
  }

  lemma DecodeFullQuad(b0: byte, b1: byte, b2: byte)
    ensures DecodeQuad(Quad(b0, b1, b2)) == [b0, b1, b2]
  {
    QuadValues(b0, b1, b2);
    QuadBits(b0, b1, b2);
  }

  lemma DecodeOneByte(b0: byte)
    ensures DecodeQuad(Quad(b0, 0, 0)[..2] + "==") == [b0]
  {
    var q := Quad(b0, 0, 0);
    QuadValues(b0, 0, 0);
    QuadBits(b0, 0, 0);
    var p := q[..2] + "==";
    assert p[0] == q[0] && p[1] == q[1] && p[2] == '=';
  }

  lemma DecodeTwoBytes(b0: byte, b1: byte)
    ensures DecodeQuad(Quad(b0, b1, 0)[..3] + "=") == [b0, b1]
  {
    var q := Quad(b0, b1, 0);
    QuadValues(b0, b1, 0);
    QuadBits(b0, b1, 0);
    var p := q[..3] + "=";
    assert p[0] == q[0] && p[1] == q[1] && p[2] == q[2] && p[3] == '=';
  }

  /** Decoding the output gives back the input, so the encoding loses nothing. */
  lemma {:induction false} DecodeEncode(bytes: seq<byte>)
    ensures Decode(Encode(bytes)) == bytes
    decreases |bytes|
  {
    if |bytes| == 1 {
      var p := Quad(bytes[0], 0, 0)[..2] + "==";
      assert Encode(bytes) == p;
      assert Decode(p) == DecodeQuad(p[..4]) + Decode(p[4..]);
      assert p[..4] == p && p[4..] == [];
      DecodeOneByte(bytes[0]);
    } else if |bytes| == 2 {
      var p := Quad(bytes[0], bytes[1], 0)[..3] + "=";
      assert Encode(bytes) == p;
      assert Decode(p) == DecodeQuad(p[..4]) + Decode(p[4..]);
      assert p[..4] == p && p[4..] == [];
      DecodeTwoBytes(bytes[0], bytes[1]);
    } else if |bytes| >= 3 {
      var q := Quad(bytes[0], bytes[1], bytes[2]);
      var rest := Encode(bytes[3..]);
      var e := q + rest;
      assert Encode(bytes) == e;
      assert e[..4] == q && e[4..] == rest;
      assert Decode(e) == DecodeQuad(q) + Decode(rest);
      DecodeFullQuad(bytes[0], bytes[1], bytes[2]);
      DecodeEncode(bytes[3..]);
      assert bytes == bytes[..3] + bytes[3..];
    }
  }
}
