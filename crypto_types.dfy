/**
 * Fixed-width integer types and the sizing constants that the link-layer
 * crypto header takes from the rest of the stack.
 */
module CryptoTypes {

  /** u_int8_t: one byte of key material, a key length. */
  newtype u8 = x: int | 0 <= x < 0x100

  /** u_int16_t: key-cache indices. */
  newtype u16 = x: int | 0 <= x < 0x1_0000

  /** u_int64_t: receive and transmit sequence counters. */
  newtype u64 = x: int | 0 <= x < 0x1_0000_0000_0000_0000

  /** IEEE80211_KEYBUF_SIZE: room for the largest bulk cipher key (defined outside the crypto header). */
  const KeyBufSize: nat := 16

  /** IEEE80211_MICBUF_SIZE: room for the transmit and receive MIC keys, 8 bytes each. */
  const MicBufSize: nat := 16

  /** Length of each of the two MIC sub-keys, as the offsets of wk_txmic and wk_rxmic imply. */
  const MicKeyLen: nat := 8

  /** IEEE80211_TID_SIZE: one receive counter per traffic identifier. */
  const TidSize: nat := 17

  /** IEEE80211_WEP_NKID: number of shared (default) key slots, one per 2-bit Key ID. */
  const WepNkid: nat := 4
}
