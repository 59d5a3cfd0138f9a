/** Values shared by client and server. */
module Messages {
  import opened SeqOps

  newtype Byte = x: int | 0 <= x < 256
  type Bytes = seq<Byte>

  datatype Option<+T> = None | Some(value: T)

  /** A decrypted message; `key_len` of the header is the length of `key`. */
  datatype Message = Message(hdr: SeqOp, key: Bytes, value: Bytes)

  /** What a function of the key-value store reports: the value read, or success without a
      value, or failure (a missing key, a negative return code). */
  datatype Outcome = Ok(value: Bytes) | Failed

  const IV_LEN: nat := 12
  const MAC_LEN: nat := 16
  const HEADER_LEN: nat := 16
  const MIN_MSG_LEN: nat := IV_LEN + HEADER_LEN + MAC_LEN
}
