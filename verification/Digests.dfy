/** SHA-256 digests as the ledger writes them: 64 hexadecimal characters. */
module Digests {

  const ZERO_HASH: string := "0000000000000000000000000000000000000000000000000000000000000000"

  ghost predicate Width64(sha: string -> string) {
    forall x :: |sha(x)| == 64
  }
}
