/** Wallets and key families (pkg/orchestrator/types.go, keyKindFor in verifier.go). */
module Types {
  datatype Option<+T> = None | Some(value: T)

  /** What a Consul-backed question returns: yes, no, or a read error. */
  datatype Answer = Yes | No | Failed

  /** The signing key family named in messages; `Other` stands for any unknown name. */
  datatype KeyType = Ed25519 | Secp256k1 | Other(name: string)

  /** The keyinfo namespace. */
  datatype KeyKind = Eddsa | Ecdsa

  type PubKey = seq<bv8>

  /** A key in a successful result; a result with an empty key counts as a failure. */
  type ResultKey = k: PubKey | k != [] witness [0]

  datatype WalletKey = WalletKey(committee: seq<string>, threshold: int, version: int)

  datatype Wallet = Wallet(id: string, keys: map<KeyKind, WalletKey>)

  function KeyKindFor(kt: KeyType): Option<KeyKind> {
    match kt
    case Ed25519 => Some(Eddsa)
    case Secp256k1 => Some(Ecdsa)
    case Other(_) => None
  }

  /** The EdDSA entry is authoritative; without members it gives way to the ECDSA entry. */
  function OldCommittee(w: Wallet): seq<string> {
    if Eddsa in w.keys && w.keys[Eddsa].committee != [] then w.keys[Eddsa].committee
    else if Ecdsa in w.keys then w.keys[Ecdsa].committee
    else []
  }

  lemma OldCommitteeCases(w: Wallet)
    ensures Eddsa in w.keys && w.keys[Eddsa].committee != [] ==> OldCommittee(w) == w.keys[Eddsa].committee
    ensures (Eddsa in w.keys ==> w.keys[Eddsa].committee == []) && Ecdsa in w.keys ==> OldCommittee(w) == w.keys[Ecdsa].committee
    ensures OldCommittee(w) == [] <==> forall kind :: kind in w.keys ==> w.keys[kind].committee == []
  {
    forall kind | kind in w.keys && OldCommittee(w) == [] ensures w.keys[kind].committee == [] {
      match kind
      case Eddsa =>
      case Ecdsa =>
    }
    assert Eddsa in w.keys || Eddsa !in w.keys;
    assert Ecdsa in w.keys || Ecdsa !in w.keys;
  }
}
