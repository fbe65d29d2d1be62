/** The commitment of one round: the computer picks a secret number and a
    fresh key, shows MAC(key, decimal numeral of the secret) before the player
    answers, and reveals the key and the secret afterwards so that the player
    can recompute the MAC. The MAC (HMAC-SHA256 in the program) is a parameter
    `mac`; nothing is assumed about it except where a lemma says so. */
module Commitment {
  import opened Decimal

  /** The key is the hex text of 32 random bytes; the digest is hex text. */
  type Key = string
  type Digest = string
  type Mac = (Key, string) -> Digest

  /** A round after its commitment has been shown. */
  datatype Round = Round(key: Key, secret: nat, commitment: Digest)

  /** What is disclosed at the end of a round. */
  datatype Reveal = Reveal(secret: nat, key: Key)

  /** The check a player performs on a revealed pair. */
  predicate Verifies(mac: Mac, key: Key, secret: nat, commitment: Digest) {
    mac(key, DecimalString(secret)) == commitment
  }

  /** Starting a round with a given key and secret: the round remembers both,
      and its commitment is one that the pair verifies against. */
  function Begin(mac: Mac, key: Key, secret: nat): (r: Round)
    ensures r.key == key && r.secret == secret
    ensures Verifies(mac, key, secret, r.commitment)
  {
    Round(key, secret, mac(key, DecimalString(secret)))
  }

  /** The pair a round discloses. */
  function RevealOf(r: Round): (v: Reveal)
    ensures v.secret == r.secret && v.key == r.key
  {
    Reveal(r.secret, r.key)
  }

  /** An idealised MAC: different messages give different digests, under
      the same key or under two different keys. */
  ghost predicate CollisionFree(mac: Mac) {
    forall k1, m1, k2, m2 :: mac(k1, m1) == mac(k2, m2) ==> m1 == m2
  }

  /** What a round discloses reproduces the commitment it showed. */
  lemma RevealVerifies(mac: Mac, key: Key, secret: nat)
    ensures var r := Begin(mac, key, secret);
            Verifies(mac, RevealOf(r).key, RevealOf(r).secret, r.commitment)
  {
  }

  /** Binding: with a collision-free MAC, the computer cannot open a
      commitment to a secret other than the one it committed to, whatever
      key it discloses (the key is disclosed only after the player has
      answered, so the computer chooses it too). */
  lemma Binding(mac: Mac, key: Key, secret: nat, otherKey: Key, other: nat)
    requires CollisionFree(mac)
    requires Verifies(mac, otherKey, other, Begin(mac, key, secret).commitment)
    ensures other == secret
  {
    DecimalStringInjective(other, secret);
  }
}
