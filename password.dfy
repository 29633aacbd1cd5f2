/** Password and token encryption (common/password.go). bcrypt itself is
    not modelled: a digest is the registry's prefix, a 22-character salt
    and a stand-in for the hash, and the salt comes from the caller, since
    it is the random part. */
module Password {
  import opened Wrappers
  import opened Errors

  /** bcrypt cost 2a/10, the prefix of every encrypted password and token. */
  const ENCRYPTED_TOKEN_PREFIX := "$2a$10$"
  const SALT_LENGTH := 22

  type Salt = s: string | |s| == SALT_LENGTH witness "0000000000000000000000"

  /** A byte of the random token. */
  type Byte = b: int | 0 <= b < 256

  /** LooksEncrypted: the string starts with the bcrypt prefix. */
  predicate LooksEncrypted(s: string) {
    |s| >= |ENCRYPTED_TOKEN_PREFIX| && s[..|ENCRYPTED_TOKEN_PREFIX|] == ENCRYPTED_TOKEN_PREFIX
  }

  /** The outcome of EncryptPassword: a digest and a possibly nil error. */
  datatype Encrypted = Encrypted(digest: string, err: Option<Error>)

  /** EncryptPassword. A missing salt stands for bcrypt failing to generate
      one; the password then comes back as "" with the error. */
  function EncryptPassword(password: string, salt: Option<Salt>): (r: Encrypted)
    ensures r.err.Some? <==> salt.None?
    ensures r.err.Some? ==> r.digest == ""
    ensures r.err.None? ==> LooksEncrypted(r.digest)
  {
    match salt
    case None => Encrypted("", Some(Message("crypto/bcrypt: unable to generate salt")))
    case Some(s) => Encrypted(ENCRYPTED_TOKEN_PREFIX + s + password, None)
  }

  /** ComparePasswords: the hashed value parses as prefix and salt, and
      hashing the plain text with that salt gives it back. */
  predicate ComparePasswords(hashed: string, plaintext: string) {
    && |hashed| >= |ENCRYPTED_TOKEN_PREFIX| + SALT_LENGTH
    && var salt: Salt := hashed[|ENCRYPTED_TOKEN_PREFIX|..|ENCRYPTED_TOKEN_PREFIX| + SALT_LENGTH];
       EncryptPassword(plaintext, Some(salt)).digest == hashed
  }

  /** A password compares equal to its own encryption. */
  lemma CompareEncrypted(password: string, salt: Salt)
    ensures ComparePasswords(EncryptPassword(password, Some(salt)).digest, password)
  {
    var h := EncryptPassword(password, Some(salt)).digest;
    assert h[|ENCRYPTED_TOKEN_PREFIX|..|ENCRYPTED_TOKEN_PREFIX| + SALT_LENGTH] == salt;
  }

  /** A lower-case hex digit. */
  predicate IsHexDigit(c: char) {
    '0' <= c <= '9' || 'a' <= c <= 'f'
  }

  /** Lower-case hex digit of a value below 16. */
  function HexDigit(n: int): (c: char)
    requires 0 <= n < 16
    ensures IsHexDigit(c) && HexValue(c) == n
  {
    if n < 10 then ('0' as int + n) as char else ('a' as int + n - 10) as char
  }

  /** Value of a lower-case hex digit. */
  function HexValue(c: char): (n: int)
    requires IsHexDigit(c)
    ensures 0 <= n < 16
  {
    if '0' <= c <= '9' then c as int - '0' as int else c as int - 'a' as int + 10
  }

  /** fmt.Sprintf("%x", b): two lower-case digits per byte, high nibble first. */
  function HexFormat(b: seq<Byte>): (s: string)
    ensures |s| == 2 * |b|
    ensures forall i :: 0 <= i < |s| ==> IsHexDigit(s[i])
  {
    if b == [] then "" else [HexDigit(b[0] / 16), HexDigit(b[0] % 16)] + HexFormat(b[1..])
  }

  /** The bytes a lower-case hex string spells. */
  function HexParse(s: string): seq<Byte>
    requires |s| % 2 == 0
    requires forall i :: 0 <= i < |s| ==> IsHexDigit(s[i])
  {
    if s == [] then [] else [HexValue(s[0]) * 16 + HexValue(s[1])] + HexParse(s[2..])
  }

  /** RandomToken formats 16 random bytes; the bytes are the caller's. */
  function RandomToken(b: seq<Byte>): (token: string)
    requires |b| == 16
    ensures |token| == 32
    ensures forall i :: 0 <= i < |token| ==> IsHexDigit(token[i])
  {
    HexFormat(b)
  }

  /** The hex text spells back exactly the bytes it was made from. */
  lemma {:induction false} HexRoundTrip(b: seq<Byte>)
    ensures HexParse(HexFormat(b)) == b
  {
    if b != [] {
      var rest := HexFormat(b[1..]);
      var hi, lo := HexDigit(b[0] / 16), HexDigit(b[0] % 16);
      var s := [hi, lo] + rest;
      assert HexFormat(b) == s;
      assert s[0] == hi && s[1] == lo && s[2..] == rest;
      assert HexParse(s) == [HexValue(hi) * 16 + HexValue(lo)] + HexParse(rest);
      HexRoundTrip(b[1..]);
    }
  }

  /** Distinct random bytes give distinct tokens. */
  lemma RandomTokenInjective(b1: seq<Byte>, b2: seq<Byte>)
    requires |b1| == 16 && |b2| == 16
    requires RandomToken(b1) == RandomToken(b2)
    ensures b1 == b2
  {
    HexRoundTrip(b1);
    HexRoundTrip(b2);
  }
}
