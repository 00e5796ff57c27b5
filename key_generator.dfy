/**
 * The signing-secret generator: 32 random bytes rendered in the standard
 * Base64 alphabet with padding (section 4 of RFC 4648).  The random bytes
 * are an input of the model.
 */
module KeyGenerator {
  import opened Wrappers

  type byte = x: int | 0 <= x < 256
  type sextet = x: int | 0 <= x < 64

  /** Number of random bytes drawn per secret (256 bits). */
  const SecretBytes := 32

  /** The random bytes the generator fills in one call. */
  type Entropy = s: seq<byte> | |s| == SecretBytes witness seq(SecretBytes, _ => 0)

  predicate IsBase64Char(c: char) {
    ('A' <= c <= 'Z') || ('a' <= c <= 'z') || ('0' <= c <= '9') || c == '+' || c == '/'
  }

  /** Character of the Base64 alphabet (section 4 of RFC 4648, table 1) for the value `v`. */
  function Base64Char(v: sextet): (c: char)
    ensures IsBase64Char(c)
  {
    if v < 26 then ('A' as int + v) as char
    else if v < 52 then ('a' as int + (v - 26)) as char
    else if v < 62 then ('0' as int + (v - 52)) as char
    else if v == 62 then '+'
    else '/'
  }

  /** Value of a character of the Base64 alphabet. */
  function Base64Value(c: char): (v: sextet)
    requires IsBase64Char(c)
    ensures Base64Char(v) == c
  {
    if 'A' <= c <= 'Z' then c as int - 'A' as int
    else if 'a' <= c <= 'z' then c as int - 'a' as int + 26
    else if '0' <= c <= '9' then c as int - '0' as int + 52
    else if c == '+' then 62
    else 63
  }

  lemma CharValueRoundTrip(v: sextet)
    ensures Base64Value(Base64Char(v)) == v
  {
  }

  /**
   * The 6-bit groups of a byte string: each three bytes give four groups,
   * a final two bytes three groups and a final byte two groups, the missing
   * low bits being zero.
   */
  function Sextets(b: seq<byte>): (v: seq<sextet>)
    ensures |v| == (|b| * 4 + 2) / 3
    decreases |b|
  {
    if |b| == 0 then []
    else if |b| == 1 then [b[0] / 4, (b[0] % 4) * 16]
    else if |b| == 2 then [b[0] / 4, (b[0] % 4) * 16 + b[1] / 16, (b[1] % 16) * 4]
    else [b[0] / 4, (b[0] % 4) * 16 + b[1] / 16, (b[1] % 16) * 4 + b[2] / 64, b[2] % 64] + Sextets(b[3..])
  }

  /** Reassembles bytes from 6-bit groups; one lone trailing group is malformed. */
  function Bytes(v: seq<sextet>): Option<seq<byte>>
    decreases |v|
  {
    if |v| <= 1 then (if |v| == 0 then Some([]) else None)
    else
      var v0, v1: int := v[0], v[1];
      var b0 := v0 * 4 + v1 / 16;
      if |v| == 2 then Some([b0])
      else
        var v2: int := v[2];
        var b1 := (v1 % 16) * 16 + v2 / 4;
        if |v| == 3 then Some([b0, b1])
        else
          var v3: int := v[3];
          match Bytes(v[4..])
          case None => None
          case Some(rest) => Some([b0, b1, (v2 % 4) * 64 + v3] + rest)
  }

  function Chars(v: seq<sextet>): (s: string)
    ensures |s| == |v| && forall i :: 0 <= i < |v| ==> s[i] == Base64Char(v[i])
  {
    seq(|v|, i requires 0 <= i < |v| => Base64Char(v[i]))
  }

  /** The values of a text of alphabet characters, or None if another character occurs. */
  function Values(s: string): Option<seq<sextet>> {
    if forall i :: 0 <= i < |s| ==> IsBase64Char(s[i])
    then Some(seq(|s|, i requires 0 <= i < |s| => Base64Value(s[i])))
    else None
  }

  /** The pad characters that complete the last group of four. */
  function Padding(byteCount: nat): string {
    if byteCount % 3 == 1 then "==" else if byteCount % 3 == 2 then "=" else ""
  }

  /** `Convert.ToBase64String`: standard alphabet, padded to a multiple of four. */
  function Encode(b: seq<byte>): string {
    Chars(Sextets(b)) + Padding(|b|)
  }

  /** Removes at most two trailing pad characters. */
  function StripPadding(s: string): string {
    if |s| >= 2 && s[|s| - 2] == '=' && s[|s| - 1] == '=' then s[..|s| - 2]
    else if |s| >= 1 && s[|s| - 1] == '=' then s[..|s| - 1]
    else s
  }

  /** Standard Base64 decoding of a padded text. */
  function Decode(s: string): Option<seq<byte>> {
    if |s| % 4 != 0 then None
    else
      match Values(StripPadding(s))
      case None => None
      case Some(v) => Bytes(v)
  }

  /** Splitting a byte into its high and low parts and joining them back. */
  lemma Recombine(b: byte, hi: int, lo: int, n: int)
    requires n == 4 || n == 16 || n == 64
    requires hi == b / n && lo == b % n
    ensures hi * n + lo == b
  {
  }

  lemma SplitMiddle(lo: int, hi: int, m: int)
    requires m == 4 || m == 16
    requires 0 <= lo && 0 <= hi < m
    ensures (lo * m + hi) / m == lo && (lo * m + hi) % m == hi
  {
  }

  /** The 6-bit groups of a byte string reassemble to it. */
  lemma {:induction false} BytesSextets(b: seq<byte>)
    ensures Bytes(Sextets(b)) == Some(b)
    decreases |b|
  {
    if |b| == 0 {
    } else if |b| == 1 {
      SplitMiddle(b[0] % 4, 0, 16);
      Recombine(b[0], b[0] / 4, b[0] % 4, 4);
      assert [b[0]] == b;
    } else if |b| == 2 {
      SplitMiddle(b[0] % 4, b[1] / 16, 16);
      SplitMiddle(b[1] % 16, 0, 4);
      Recombine(b[0], b[0] / 4, b[0] % 4, 4);
      Recombine(b[1], b[1] / 16, b[1] % 16, 16);
      assert [b[0], b[1]] == b;
    } else {
      var v := Sextets(b);
      var rest := Sextets(b[3..]);
      SplitMiddle(b[0] % 4, b[1] / 16, 16);
      SplitMiddle(b[1] % 16, b[2] / 64, 4);
      Recombine(b[0], b[0] / 4, b[0] % 4, 4);
      Recombine(b[1], b[1] / 16, b[1] % 16, 16);
      Recombine(b[2], b[2] / 64, b[2] % 64, 64);
      assert v[4..] == rest;
      BytesSextets(b[3..]);
      assert [b[0], b[1], b[2]] + b[3..] == b;
    }
  }

  lemma ValuesChars(v: seq<sextet>)
    ensures Values(Chars(v)) == Some(v)
  {
    var s := Chars(v);
    assert forall i :: 0 <= i < |s| ==> IsBase64Char(s[i]);
    var w := seq(|s|, i requires 0 <= i < |s| => Base64Value(s[i]));
    forall i | 0 <= i < |v| ensures w[i] == v[i] {
      CharValueRoundTrip(v[i]);
    }
    assert w == v;
  }

  /** The encoded text's length is the next multiple of four. */
  lemma EncodeLength(b: seq<byte>)
    ensures |Encode(b)| == (|b| + 2) / 3 * 4
    ensures |Encode(b)| % 4 == 0
  {
    var q, r := |b| / 3, |b| % 3;
    assert |b| == 3 * q + r;
    assert (|b| * 4 + 2) / 3 == 4 * q + (4 * r + 2) / 3;
    assert (|b| + 2) / 3 == q + (r + 2) / 3;
  }

  /** Stripping the padding of an encoding leaves the alphabet characters. */
  lemma StripEncode(b: seq<byte>)
    ensures StripPadding(Encode(b)) == Chars(Sextets(b))
  {
    var v := Sextets(b);
    var c := Chars(v);
    var s := Encode(b);
    if |b| % 3 == 0 {
      assert s == c;
      if |c| > 0 {
        assert s[|s| - 1] == Base64Char(v[|v| - 1]);
      }
    } else if |b| % 3 == 1 {
      assert s == c + "==";
      assert s[..|s| - 2] == c;
    } else {
      assert s == c + "=";
      assert |c| > 0;
      assert s[|s| - 2] == Base64Char(v[|v| - 1]);
      assert s[..|s| - 1] == c;
    }
  }

  /** Decoding inverts encoding for every byte string. */
  lemma DecodeEncode(b: seq<byte>)
    ensures Decode(Encode(b)) == Some(b)
  {
    var s := Encode(b);
    EncodeLength(b);
    StripEncode(b);
    ValuesChars(Sextets(b));
    BytesSextets(b);
    assert Values(StripPadding(s)) == Some(Sextets(b));
  }

  /** `GenerateStrongSecret`: the Base64 text of the 32 drawn bytes. */
  function GenerateStrongSecret(key: Entropy): (secret: string)
    ensures |secret| == 44
    ensures secret[43] == '=' && forall i :: 0 <= i < 43 ==> IsBase64Char(secret[i])
    ensures Decode(secret) == Some(key)
  {
    DecodeEncode(key);
    Encode(key)
  }

  /** `GetSecret`: a fresh secret per call, nothing kept between calls. */
  function GetSecret(key: Entropy): (secret: string)
    ensures |secret| == 44 && Decode(secret) == Some(key)
  {
    GenerateStrongSecret(key)
  }

  /** Different random draws give different secrets. */
  lemma SecretsDistinct(k1: Entropy, k2: Entropy)
    requires k1 != k2
    ensures GetSecret(k1) != GetSecret(k2)
  {
  }
}
