/** The text form of a digest. */
module Digests {

  /** The exact lowercase SHA-256 form. */
  predicate ValidDigest(digest: string)
  {
    && |digest| == 71 && "sha256:" <= digest
    && forall i | 7 <= i < 71 :: '0' <= digest[i] <= '9' || 'a' <= digest[i] <= 'f'
  }
}
