/** Operations, modes and contexts of the ciphers (muggle/c/crypt/crypt_utils.h). */
module CryptBase {
  const DECRYPT: int := 0
  const ENCRYPT: int := 1

  const ECB: int := 0
  const CBC: int := 1
  const CFB: int := 2
  const OFB: int := 3
  const CTR: int := 4

  const OK: int := 0
  const INVALID_PARAM: int := 6

  // A context of a cipher whose key material is of type K.
  datatype Context<K> = Context(op: int, mode: int, key: K)

  predicate ValidOp(op: int) { op == ENCRYPT || op == DECRYPT }

  predicate ValidMode(mode: int) { ECB <= mode <= CTR }
}
