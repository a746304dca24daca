/** The text form in which a derived transport key is stored. */
module TransportKeys {
  import opened Wrappers
  import opened Sequences
  import opened Utf8
  import opened Numbers
  import opened Nonces

  type Key = seq<byte>

  const STORED_KEY_PREFIX := "key-v1-"

  /** `key_from_stored_transport_key`: the 32 bytes spelled after the prefix. */
  function KeyOfStored(secret: string): Option<Key> {
    match StripPrefix(secret, STORED_KEY_PREFIX)
    case None => None
    case Some(digits) => if |digits| != 64 then None else DecodePairs(digits)
  }

  function StoredForm(key: Key): string {
    STORED_KEY_PREFIX + Hex(key)
  }

  lemma StoredKeyReadsBack(key: Key)
    requires |key| == 32
    ensures KeyOfStored(StoredForm(key)) == Some(key)
  {
    DecodePairsOfHex(key);
    assert StoredForm(key)[7..] == Hex(key);
  }

  /** Exactly which stored texts spell a key: the prefix and 64 characters, each pair spelling its byte. */
  lemma KeyOfStoredIff(secret: string, key: Key)
    ensures KeyOfStored(secret) == Some(key) <==>
      && |secret| == 71 && |key| == 32 && secret[..7] == "key-v1-"
      && forall k: nat :: k < 32 ==> SpellsByte(secret[7..], k, key[k])
  {
    if StripPrefix(secret, STORED_KEY_PREFIX).Some? && |secret| == 71 {
      DecodesPairsIff(secret[7..], key);
    }
  }

  lemma StoredFormInjective(a: Key, b: Key)
    requires StoredForm(a) == StoredForm(b)
    ensures a == b
  {
    assert StoredForm(a)[7..] == Hex(a) && StoredForm(b)[7..] == Hex(b);
    HexInjective(a, b);
  }
}
