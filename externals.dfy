/**
 * The cryptography provider (AES, SHA3, PBKDF2 behind lib/Crypto.js) and the
 * JSON codec, taken as given functions. Only what the project's tests assert of
 * them is assumed, as the `Sound` predicates, by the lemmas that need it.
 */
module Externals {
  import opened Wrappers

  /** A JSON object whose properties are strings. */
  type Fields = map<string, string>

  datatype Crypto = Crypto(
    encrypt: (string, string) -> string,     // encrypt(key, data)
    decrypt: (string, string) -> string,     // decrypt(key, data) whenever it returns; a throwing decrypt is not modelled
    hash: string -> string,                  // SHA3, 256 bits, hex
    deriveKey: (string, string) -> string)   // PBKDF2(password, seed), 512 bits, hex
  {
    /** Round trip and output lengths, as asserted by the crypto tests. */
    ghost predicate Sound() {
      && (forall k, d :: decrypt(k, encrypt(k, d)) == d)
      && (forall s :: |hash(s)| == 64)
      && (forall p, s :: |deriveKey(p, s)| == 128)
    }
  }

  datatype Json = Json(
    stringify: Fields -> string,
    parse: string -> Option<Fields>)         // None: JSON.parse throws
  {
    /** Parsing what was stringified gives the object back. */
    ghost predicate Sound() {
      forall f :: parse(stringify(f)) == Some(f)
    }
  }

  /** JavaScript truthiness of an optional string property. */
  predicate Truthy(f: Fields, name: string) {
    name in f && f[name] != ""
  }
}
