/** The `Secret` identity: a seed and the public id derived from it. */
module Secrets {
  import opened Externals

  const SharedPrefix := "shared$"

  datatype Secret = Secret(key: string, shared: string)

  /** What callers pass where the source accepts "a Secret or a String". */
  datatype SecretArg = Seed(seed: string) | Given(secret: Secret)

  /** `if (typeof secret === 'string') secret = new Secret(secret)`. */
  function Resolve(c: Crypto, arg: SecretArg): Secret {
    match arg
    case Seed(k) => NewSecret(c, k)
    case Given(s) => s
  }

  /** `new Secret(key)`: keeps the key and names the collection after its hash. */
  function NewSecret(c: Crypto, key: string): (s: Secret)
    ensures s.key == key
    ensures |s.shared| == |SharedPrefix| + |c.hash(key)|
    ensures s.shared[..|SharedPrefix|] == SharedPrefix
    ensures s.shared[|SharedPrefix|..] == c.hash(key)
  {
    Secret(key, SharedPrefix + c.hash(key))
  }

  /** With the default 256-bit hash the public id is 71 characters long. */
  lemma SharedLength(c: Crypto, key: string)
    requires c.Sound()
    ensures |NewSecret(c, key).shared| == 71
  {
  }

  /** Two seeds share a public id exactly when their hashes agree. */
  lemma SharedMatchesHash(c: Crypto, k1: string, k2: string)
    ensures NewSecret(c, k1).shared == NewSecret(c, k2).shared <==> c.hash(k1) == c.hash(k2)
  {
    var s1, s2 := NewSecret(c, k1), NewSecret(c, k2);
    if s1.shared == s2.shared {
      assert c.hash(k1) == s1.shared[|SharedPrefix|..] == s2.shared[|SharedPrefix|..] == c.hash(k2);
    }
  }

  /** The public id is never empty, so the registries always treat it as truthy. */
  lemma SharedNonEmpty(c: Crypto, key: string)
    ensures NewSecret(c, key).shared != ""
  {
  }
}
