/** Password hashes, taken as symbols: two hashes are equal exactly when their
    version, password bytes and salt bytes are. */
module Hashing {
  import opened JsStrings
  import opened Options
  import opened Utf8
  import Base64

  datatype Hash = V1Hash(password: Bytes, salt: Bytes) | V2Hash(password: Bytes, salt: Bytes)

  /** Both hash functions throw on an empty password, and on a salt that is empty or not base64. */
  predicate Hashable(password: JsString, salt: JsString) {
    password != [] && salt != [] && Base64.Decode(salt).Some?
  }

  /** `hashPasswordWithSalt` */
  function HashPassword(password: JsString, salt: JsString): Hash
    requires Hashable(password, salt)
  {
    V1Hash(Encode(password), Base64.Decode(salt).value)
  }

  /** `hashHighEntropyPasswordWithSalt` */
  function HashHighEntropy(password: JsString, salt: JsString): Hash
    requires Hashable(password, salt)
  {
    V2Hash(Encode(password), Base64.Decode(salt).value)
  }

  /** `verifyPasswordAgainstHashes(password, salt, [hash])` */
  predicate Verifies(password: JsString, salt: JsString, hash: Hash)
    requires Hashable(password, salt)
  {
    hash == HashPassword(password, salt) || hash == HashHighEntropy(password, salt)
  }

  /** Random bytes as the sources print them: a nonempty ASCII text that is its own base64 decoding. */
  lemma RandomText(bytes: Bytes)
    requires bytes != []
    ensures var t := Base64.Encode(bytes);
            t != [] && WellFormed(t) && !StartsWithBom(t) && Base64.Decode(t) == Some(bytes)
  {
    Base64.EncodeAlphabet(bytes);
    AsciiWellFormed(Base64.Encode(bytes));
    Base64.DecodeEncode(bytes);
  }
}
