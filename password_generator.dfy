/**
 * Password generation (src/core/password-generator.ts). The random source is an
 * input: `bytes` are the bytes randomBytes(length) would have produced. SHA-256
 * is an oracle whose results are 64 lower-case hexadecimal characters.
 */
module PasswordGenerator {
  import opened Bytes

  const ALPHANUMERIC: string := "abcdefghijklmnopqrstuvwxyzABCDEFGHIJKLMNOPQRSTUVWXYZ0123456789"
  const ALPHA: string := "abcdefghijklmnopqrstuvwxyzABCDEFGHIJKLMNOPQRSTUVWXYZ"
  const NUMERIC: string := "0123456789"
  const SPECIAL: string := "abcdefghijklmnopqrstuvwxyzABCDEFGHIJKLMNOPQRSTUVWXYZ0123456789!@#$%^&*()-_=+[]{}|;:,.<>?"
  const HEX: string := "0123456789abcdef"

  /** The CHARSETS table, keyed by name. */
  const CHARSETS: map<string, string> :=
    map["alphanumeric" := ALPHANUMERIC, "alpha" := ALPHA, "numeric" := NUMERIC,
        "special" := SPECIAL, "hex" := HEX]

  /** The table's keys in declaration order, as Object.keys lists them. */
  const CHARSET_NAMES: seq<string> := ["alphanumeric", "alpha", "numeric", "special", "hex"]

  predicate IsLowerHex(c: char) { '0' <= c <= '9' || 'a' <= c <= 'f' }

  /** A SHA-256 digest printed as hex. */
  type Digest = s: string | |s| == 64 && forall i :: 0 <= i < |s| ==> IsLowerHex(s[i])
    witness seq(64, _ => '0')

  /** `CHARSETS[charset] || CHARSETS.alphanumeric`: a known name selects its alphabet, anything else falls back. */
  function Alphabet(charset: string): (chars: string)
    ensures |chars| > 0
    ensures charset in CHARSETS ==> chars == CHARSETS[charset]
    ensures charset !in CHARSETS ==> chars == ALPHANUMERIC
  {
    if charset in CHARSETS then CHARSETS[charset] else ALPHANUMERIC
  }

  /**
   * generatePassword: character i is the alphabet entry at bytes[i] modulo the
   * alphabet's size, so the result is exactly `length` characters of that alphabet.
   */
  method GeneratePassword(length: nat, charset: string, bytes: seq<byte>) returns (password: string)
    requires |bytes| == length
    ensures |password| == length
    ensures forall i :: 0 <= i < length ==>
      password[i] == Alphabet(charset)[bytes[i] % |Alphabet(charset)|]
    ensures forall i :: 0 <= i < length ==> password[i] in Alphabet(charset)
  {
    var chars := Alphabet(charset);
    var result: seq<char> := [];
    for i := 0 to length
      invariant |result| == i
      invariant forall k :: 0 <= k < i ==> result[k] == chars[bytes[k] % |chars|]
    {
      result := result + [chars[bytes[i] % |chars|]];
    }
    password := result;
  }

  /**
   * hashPassword: the digest of the password under the given SHA-256 oracle,
   * always 64 lower-case hexadecimal characters.
   */
  function HashPassword(sha256: string -> Digest, password: string): (h: Digest)
    ensures |h| == 64 && forall i :: 0 <= i < |h| ==> IsLowerHex(h[i])
  {
    sha256(password)
  }

  /** A password of any length other than 64 never equals its own digest. */
  lemma HashDiffersFromPassword(sha256: string -> Digest, password: string)
    requires |password| != 64
    ensures HashPassword(sha256, password) != password
  {
  }

  /** getAvailableCharsets: the five names, each once. */
  function AvailableCharsets(): (names: seq<string>)
    ensures forall n :: n in names <==> n in CHARSETS
    ensures |names| == |CHARSETS| == 5
    ensures forall i, j :: 0 <= i < j < |names| ==> names[i] != names[j]
  {
    assert CHARSETS.Keys == {"alphanumeric", "alpha", "numeric", "special", "hex"};
    CHARSET_NAMES
  }
}
