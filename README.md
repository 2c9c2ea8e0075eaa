# Link-layer crypto key state and MIC dispatch

A Dafny model of the key-management shell of an 802.11 stack's crypto layer,
`umac/include/ieee80211_crypto.h`. It covers four things:

- the key slot (`struct ieee80211_key`) and its 8-bit flag mask;
- the cipher capability table (`struct ieee80211_cipher`);
- the MIC dispatch guards `ieee80211_crypto_demic` and `ieee80211_crypto_enmic`;
- the key reset transition `ieee80211_crypto_resetkey` and the key-slot selector `IEEE80211_CRYPTO_KEY`.

Files:

- `crypto_types.dfy` (module `CryptoTypes`): the fixed-width integer types `u8`, `u16` and `u64`. It also holds the sizing constants the header takes from elsewhere in the stack: `IEEE80211_KEYBUF_SIZE` = 16, `IEEE80211_MICBUF_SIZE` = 16, `IEEE80211_TID_SIZE` = 17 and `IEEE80211_WEP_NKID` = 4. The headers that define them are not part of this model.
- `key_flags.dfy` (module `KeyFlags`): the eight flag constants and `IEEE80211_KEY_COMMON`. A mask is also read as the set of flags it holds (`Decode`), with the inverse packing (`Encode`). `Combine` is the OR of a list of flags, which is how `IEEE80211_KEY_COMMON` is written.
- `crypto.dfy` (module `Crypto`): the cipher record and the none cipher; `KeyState`, the value of a key apart from its cipher binding; and the class `Key`. `Key` has the struct's fields (key bytes and counters are arrays). Its methods `Demic` and `Enmic` update the key in place and return the frame, and are proved against the pure functions `DemicResult` and `EnmicResult`. Its method `ResetKey` is proved against the pure function `Reset`. The rest of the module covers the flag tests, the key-buffer layout and `IEEE80211_CRYPTO_KEY`.

A cipher's own operations are foreign code. In the `Cipher` record they are arbitrary total functions, so the MIC properties hold for any cipher. The reset properties hold for any none-cipher attach that, as lines 31-33 describe, only returns the private state to hang off the key and writes nothing through the key pointer it receives. The MIC operations return a status, the frame and the key contents they leave behind, so the ciphers may change both frame and key. These operations receive a `KeyState` rather than the key object, because a datatype cannot take itself as a function argument. An interface (`struct ieee80211vap`) is seen as an identity and its shared key table, and a peer (`struct ieee80211_node`) as its per-station key table. Both tables (`iv_nw_keys`, `nips_swkey`) are declared outside this header. The model takes each to have `IEEE80211_WEP_NKID` entries.

The none cipher's table lives in its own module, which is not part of this model. The values chosen here are name `"NONE"`, identifier 6, zero header, trailer and MIC length, an attach that gives no private state, and MIC operations that return 1 and change nothing. The header only shows that this table exists (line 140). No property proved here depends on any of these values except the zero MIC length. In particular, the reset lemmas speak of whatever the none cipher's attach returns, not of a specific value.

## Model

| member | source | states |
|---|---|---|
| `KeyFlags.Combine` | umac/include/ieee80211_crypto.h:80-87 | the bitwise OR of a list of flag constants, ending in `0` for the empty list; `IEEE80211_KEY_COMMON` (the constant `KeyFlags.KeyCommon`) is written this way, see `KeyFlags.KeyCommonFlags` |
| `KeyFlags.Mask` | umac/include/ieee80211_crypto.h:50-57 | each flag constant is a single nonzero bit |
| `KeyFlags.MasksDisjoint` | umac/include/ieee80211_crypto.h:50-57 | distinct flags have disjoint bits, so flags are independent |
| `KeyFlags.Decode` | umac/include/ieee80211_crypto.h:49-57 | a flag is in the decoded set iff its bit is set in `wk_flags` |
| `KeyFlags.DecodeEncode` | umac/include/ieee80211_crypto.h:49-57 | packing any set of flags into the byte and reading it back gives the same set |
| `KeyFlags.EncodeDecode` | umac/include/ieee80211_crypto.h:49-57 | every byte value is the packing of the flags it holds (all eight bits are assigned) |
| `KeyFlags.CombineIsEncode` | umac/include/ieee80211_crypto.h:80-87 | the OR of a `0`-terminated list of flag constants is the packing of the set of listed flags, whatever the order or repetitions |
| `KeyFlags.CombineFlags` | umac/include/ieee80211_crypto.h:80-87 | the flags set by an OR-list are exactly the flags listed |
| `KeyFlags.KeyCommonFlags` | umac/include/ieee80211_crypto.h:80-87 | `IEEE80211_KEY_COMMON` is `0xCF` and holds XMIT, RECV, GROUP, MFP, PERSISTENT and PERSTA, but not SWCRYPT or SWMIC |
| `Crypto.IsKeyPersistent` | umac/include/ieee80211_crypto.h:89-90 | `IEEE80211_IS_KEY_PERSISTENT`: the flag byte ANDed with `0x40` equals `0x40` |
| `Crypto.IsKeyPerstaSw` | umac/include/ieee80211_crypto.h:92-94 | `IEEE80211_IS_KEY_PERSTA_SW`: the flag byte ANDed with `0x80` is nonzero and the key index is below `IEEE80211_WEP_NKID` |
| `Crypto.IsKeyPersistentIff` | umac/include/ieee80211_crypto.h:89-90 | `IEEE80211_IS_KEY_PERSISTENT` holds iff the PERSISTENT flag is set, and does not depend on any other bit |
| `Crypto.IsKeyPerstaSwIff` | umac/include/ieee80211_crypto.h:92-94 | `IEEE80211_IS_KEY_PERSTA_SW` holds iff PERSTA is set and the key index is below `IEEE80211_WEP_NKID` |
| `Crypto.TxMic` | umac/include/ieee80211_crypto.h:61-62 | the transmit-MIC key is the 8 bytes at offset `KEYBUF_SIZE` of `wk_key` |
| `Crypto.RxMic` | umac/include/ieee80211_crypto.h:61-63 | the receive-MIC key is the 8 bytes at offset `KEYBUF_SIZE + 8` of `wk_key` |
| `Crypto.KeyBufLayout` | umac/include/ieee80211_crypto.h:61-63 | the bulk-key, tx-MIC and rx-MIC regions, in that order, tile the whole `KEYBUF_SIZE + MICBUF_SIZE` buffer with no gap and no overlap |
| `Crypto.Reset` | umac/include/ieee80211_crypto.h:177-185 | the key contents after `ieee80211_crypto_resetkey(vap, k, ix)`: the private state becomes what the none cipher's attach (the constant `Crypto.CipherNone`, line 140) returns for `vap` and the key, the index becomes `ix`, validity false, flags `XMIT or RECV` |
| `Crypto.ResetKeyEffect` | umac/include/ieee80211_crypto.h:177-185 | after a reset the key has index `ix`, is not valid, has flags `XMIT or RECV` = `0x03`, holds what the none cipher's `ic_attach` returned for `vap` and the old key, and is neither persistent nor a per-station default-slot key |
| `Crypto.ResetKeyFrame` | umac/include/ieee80211_crypto.h:171-185 | a reset leaves unchanged the key length, the key bytes, every receive, suspect, global and transmit counter and the clear-key index |
| `Crypto.ResetKeyIdempotent` | umac/include/ieee80211_crypto.h:177-185 | resetting an already reset key with the same index changes nothing except the private state, which becomes what the none cipher's attach returns for the reset key |
| `Crypto.Key.ResetKey` | umac/include/ieee80211_crypto.h:177-185 | the key is bound to the none cipher, its buffers stay in place, and its new state is `Reset` of its old state (the none cipher's attach sees `vap` and the old state) |
| `Crypto.Key.constructor` | umac/include/ieee80211_crypto.h:46-77 | fresh zero-filled key storage with buffers of the declared sizes, reset for interface `vap` to index `ix` |
| `Crypto.Key.Demic` | umac/include/ieee80211_crypto.h:149-158 | in place: the returned status and frame and the key's new contents are `DemicResult` of the bound cipher and the key's old contents; the cipher binding and the buffers stay |
| `Crypto.Key.Enmic` | umac/include/ieee80211_crypto.h:160-169 | in place: the returned status and frame and the key's new contents are `EnmicResult` of the bound cipher and the key's old contents; the cipher binding and the buffers stay |
| `Crypto.DemicResult` | umac/include/ieee80211_crypto.h:152-158 | `ieee80211_crypto_demic` on the key's cipher and contents: the cipher's `ic_demic` outcome if its `ic_miclen` is positive, otherwise status 1 with frame and key as given |
| `Crypto.EnmicResult` | umac/include/ieee80211_crypto.h:163-169 | `ieee80211_crypto_enmic` on the key's cipher and contents: the cipher's `ic_enmic` outcome if its `ic_miclen` is positive, otherwise status 1 with frame and key as given |
| `Crypto.DemicGuard` | umac/include/ieee80211_crypto.h:152-158 | when the cipher's `ic_miclen` is 0, demic returns exactly 1 and leaves the frame and the key unchanged; otherwise its status, frame and key are exactly what the cipher's `ic_demic` gives |
| `Crypto.EnmicGuard` | umac/include/ieee80211_crypto.h:163-169 | when the cipher's `ic_miclen` is 0, enmic returns exactly 1 and leaves the frame and the key unchanged; otherwise its status, frame and key are exactly what the cipher's `ic_enmic` gives |
| `Crypto.MicOpsUnusedWithoutMic` | umac/include/ieee80211_crypto.h:152-169 | when `ic_miclen` is 0 the outcomes do not depend on the cipher's `ic_enmic` and `ic_demic`, which are therefore never used |
| `Crypto.NoneCipherMicNotApplicable` | umac/include/ieee80211_crypto.h:140-169 | a key bound to the none cipher, as every reset key is, gets "not applicable" (1) from both demic and enmic, with frame and key unchanged |
| `Crypto.KeySlot` | umac/include/ieee80211_crypto.h:220-225 | the slot `_id >> 6` taken from any 8-bit Key ID octet is the octet divided by 64, and below `IEEE80211_WEP_NKID` (0..3) |
| `Crypto.KeySlotOfOctet` | umac/include/ieee80211_crypto.h:220-225 | the slot is the 2-bit Key ID of an IEEE 802.11 Key ID octet, whatever the ExtIV and reserved bits hold |
| `Crypto.CryptoKey` | umac/include/ieee80211_crypto.h:218-226 | `IEEE80211_CRYPTO_KEY` as intended: entry `_id >> 6` of `_vap`'s `iv_nw_keys` under IBSS private security without IBSS WPA2, else of `_ni`'s `nips_swkey` |
| `Crypto.CryptoKeyAsWritten` | umac/include/ieee80211_crypto.h:218-226 | `IEEE80211_CRYPTO_KEY` as written: the same selection, but the interface table is read from the `vap` in scope and the `_vap` argument is unused |
| `Crypto.MaskedSlotAsWritten` | umac/include/ieee80211_crypto.h:220-225 | the index the macro's unparenthesised `_id >> 6` gives for an argument `x & m`: `x & (m >> 6)` |
| `Crypto.CryptoKeyByKeyId` | umac/include/ieee80211_crypto.h:218-226 | `IEEE80211_CRYPTO_KEY`, as intended, picks the entry numbered by the octet's Key ID from the table the build options choose; it agrees with the macro as written when `_vap` is the interface in scope |
| `Crypto.CryptoKeyReadsScopeVap` | umac/include/ieee80211_crypto.h:222 | as written, the macro reads the `vap` in scope: when that interface's table and `_vap`'s differ at the slot, the result differs from the intended one |
| `Crypto.MaskedSlotMisparsed` | umac/include/ieee80211_crypto.h:220-225 | as written, an `_id` argument `0xC0 & 0xC0` expands to index 0, while its Key ID is 3 |

## Findings

| source | as written | input that shows it | evidently intended | confidence | as-written member | corrected member |
|---|---|---|---|---|---|---|
| umac/include/ieee80211_crypto.h:222 | `vap->iv_nw_keys[_id >> 6]`: the `_vap` parameter is never used, and the table comes from whatever `vap` is in scope at the expansion | an expansion whose `_vap` argument is not the `vap` variable in scope, under `ATH_SUPPORT_IBSS_PRIVATE_SECURITY` without `ATH_SUPPORT_IBSS_WPA2` | `_vap->iv_nw_keys[...]` | low: call sites are not part of this model, and every one may name its interface `vap`; not executed | `Crypto.CryptoKeyReadsScopeVap` | `Crypto.CryptoKey` |
| umac/include/ieee80211_crypto.h:220-225 | `[_id >> 6]` without parentheses around `_id` | argument `x & 0xc0` with `x == 0xC0` expands to `x & (0xc0 >> 6)`, selecting slot 0 | `[(_id) >> 6]`, selecting slot 3 | low: call sites are not part of this model and may all pass a plain octet; not executed | `Crypto.MaskedSlotMisparsed` | `Crypto.KeySlot` |

## Left out

- Key lifecycle functions `newkey`, `setkey`, `delkey`, `freekey`, `delglobalkeys`, `attach`/`detach`, `vattach`/`vdetach`, the cipher registry (`register`/`unregister`/`available`) and `encap`/`decap`. The header only declares them, and their bodies are not part of this model.
- Cipher algorithm modules (none, WEP, TKIP, CCMP, SMS4 registration) are foreign code. The operations `ic_detach`, `ic_setkey`, `ic_encap` and `ic_decap` are not modelled, because nothing in the header calls them.
- Notification sinks `ieee80211_notify_replay_failure` and `ieee80211_notify_michael_failure` are left out. They only emit events.
- The `ATH_WOW` IV-length query `ieee80211_find_iv_lengths` has no body in the header.
- The WAPI-only fields `wk_recviv` and `wk_txiv` are left out (conditionally compiled).
- Replay-window comparison is not modelled. The counters are declared, but nothing in the header compares or advances them. Locking and concurrent counter updates are left out too.
- `wbuf_t` is modelled as a byte sequence, passed to the cipher and returned from it. The `vap` argument of demic and enmic is dropped, because their bodies do not read it; resetkey keeps it and hands it to the none cipher's attach. The `ieee80211_rx_status` argument of demic, which line 157 passes to the cipher's `ic_demic`, is dropped: in the model the outcome of a cipher's demic cannot depend on the receive status. The guard properties do not need it.
- `Crypto.ResetKeyFrame`, `Crypto.Key.ResetKey`: the none cipher's attach receives the key pointer (line 181) and its body is not part of this model (line 140). The model takes it to write nothing through that pointer and to have only its return value stored in `wk_private`, as the comment at lines 31-33 describes. A none cipher that wrote into the key during attach would break the unchanged key bytes, counters, key length and clear-key index these members promise.
- `Crypto.Key.Demic`, `Crypto.Key.Enmic`: the cipher's MIC operations may change the key's contents and the frame, but not the sizes of the key's buffers (the arrays are fixed in the struct) and not the key's cipher binding. A cipher that rebinds `wk_cipher` from inside its MIC operation is not modelled.
- `wk_valid` is a C `int` set to `FALSE`; the model keeps it as a boolean. `wk_private` is an opaque pointer; the model has `NoPrivate` or a numeric handle.
- `Crypto.Key.constructor`: C has no constructor. The model's constructor stands for zero-filled key storage followed by a reset, so that a key is never bound to a null cipher. The model has no null cipher pointer.
- The warning at line 92 (use `IEEE80211_IS_KEY_PERSTA_SW` only after `_newkey()`) is not a precondition in the model, because `newkey` is not modelled.
