/**
 * Key state, the cipher capability table, the MIC dispatch guards, the key
 * reset transition and the key-slot selector of the link-layer crypto shell.
 */
module Crypto {
  import opened CryptoTypes
  import opened KeyFlags

  /** A frame buffer (wbuf_t), seen only as its bytes. */
  type Frame = seq<u8>

  /** The cipher-private state a cipher hangs off a key (wk_private). */
  datatype Private = NoPrivate | Private(handle: nat)

  /**
   * Everything a key holds except its cipher binding: the value handed to the
   * cipher's operations. wk_valid is kept as a boolean.
   */
  datatype KeyState = KeyState(
    keylen: u8,
    flags: bv8,
    valid: bool,
    keyix: u16,
    key: seq<u8>,
    keyrsc: seq<u64>,
    keyrscSuspect: seq<u64>,
    keyglobal: u64,
    keytsc: u64,
    priv: Private,
    clearkeyix: u16)

  /** The buffers have the sizes struct ieee80211_key declares. */
  predicate Sized(s: KeyState)
  {
    |s.key| == KeyBufSize + MicBufSize && |s.keyrsc| == TidSize && |s.keyrscSuspect| == TidSize
  }

  /** The contents of zero-filled key storage. */
  function ZeroState(): (s: KeyState)
    ensures Sized(s)
  {
    KeyState(0, 0, false, 0, seq(KeyBufSize + MicBufSize, _ => 0), seq(TidSize, _ => 0),
             seq(TidSize, _ => 0), 0, 0, NoPrivate, 0)
  }

  /** A key state whose buffers can be written back into a key slot: a cipher cannot resize them. */
  type SizedKeyState = s: KeyState | Sized(s) witness ZeroState()

  /**
   * A virtual interface (struct ieee80211vap), seen as an identity and its
   * shared key table iv_nw_keys.
   */
  datatype Vap = Vap(id: nat, nwKeys: seq<Key>)

  /** A peer (struct ieee80211_node), seen as its per-station key table ni_persta.nips_swkey. */
  datatype Node = Node(swKeys: seq<Key>)

  /** What a cipher's MIC operation leaves behind: its status, the frame and the key. */
  datatype MicResult = MicResult(status: int, frame: Frame, key: SizedKeyState)

  /**
   * A cipher capability table (struct ieee80211_cipher). The cipher's own
   * operations are foreign code and appear as arbitrary total functions; only
   * the three the crypto shell calls are kept. The MIC operations may change
   * the frame and the key, so they return both.
   */
  datatype Cipher = Cipher(
    name: string,
    id: nat,
    header: nat,
    trailer: nat,
    miclen: nat,
    attach: (Vap, KeyState) -> Private,
    enmic: (SizedKeyState, Frame, int) -> MicResult,
    demic: (SizedKeyState, Frame, int, int) -> MicResult)

  /** An identifier for the none cipher; the stack defines the real IEEE80211_CIPHER_NONE outside this header. */
  const CipherIdNone: nat := 6

  /**
   * The always-present null cipher: no header, trailer or MIC, no private
   * state; its MIC operations leave frame and key alone and report "not applicable".
   */
  const CipherNone: Cipher := Cipher(
    "NONE", CipherIdNone, 0, 0, 0,
    (v: Vap, k: KeyState) => NoPrivate,
    (k: SizedKeyState, f: Frame, force: int) => MicResult(1, f, k),
    (k: SizedKeyState, f: Frame, hdrlen: int, force: int) => MicResult(1, f, k))

  /** Offsets of the MIC sub-keys inside wk_key (the wk_txmic and wk_rxmic macros). */
  const TxMicOffset: nat := KeyBufSize + 0
  const RxMicOffset: nat := KeyBufSize + 8

  /** IEEE80211_IS_KEY_PERSISTENT: the persistent bit of the flag byte is set. */
  predicate IsKeyPersistent(k: KeyState)
  {
    k.flags & KeyPersistent == KeyPersistent
  }

  /** IEEE80211_IS_KEY_PERSTA_SW: a per-station key stored in one of the shared default-key slots. */
  predicate IsKeyPerstaSw(k: KeyState)
  {
    k.flags & KeyPersta != 0 && (k.keyix as int) < WepNkid
  }

  /** The persistent test reads bit 0x40 and nothing else of the key. */
  lemma IsKeyPersistentIff(k: KeyState, other: KeyState)
    ensures IsKeyPersistent(k) <==> Persistent in Decode(k.flags)
    ensures other.flags & KeyPersistent == k.flags & KeyPersistent ==>
              IsKeyPersistent(other) == IsKeyPersistent(k)
  {
  }

  /** The per-station test holds exactly for a PERSTA key whose index names a default-key slot. */
  lemma IsKeyPerstaSwIff(k: KeyState)
    ensures IsKeyPerstaSw(k) <==> Persta in Decode(k.flags) && (k.keyix as int) < WepNkid
  {
  }

  /** The transmit-MIC key (wk_txmic). */
  function TxMic(s: SizedKeyState): (m: seq<u8>)
    ensures |m| == MicKeyLen && forall i :: 0 <= i < MicKeyLen ==> m[i] == s.key[TxMicOffset + i]
  {
    s.key[TxMicOffset..TxMicOffset + MicKeyLen]
  }

  /** The receive-MIC key (wk_rxmic). */
  function RxMic(s: SizedKeyState): (m: seq<u8>)
    ensures |m| == MicKeyLen && forall i :: 0 <= i < MicKeyLen ==> m[i] == s.key[RxMicOffset + i]
  {
    s.key[RxMicOffset..RxMicOffset + MicKeyLen]
  }

  /**
   * The key buffer wk_key is the bulk key region [0, KeyBufSize) followed by
   * the transmit-MIC and receive-MIC regions, with no gap and no overlap.
   */
  lemma KeyBufLayout(s: SizedKeyState)
    ensures s.key == s.key[..KeyBufSize] + TxMic(s) + RxMic(s)
  {
  }

  /** The key state after ieee80211_crypto_resetkey(vap, k, ix), the none cipher's attach having seen `vap` and `s`. */
  function Reset(vap: Vap, s: KeyState, ix: u16): KeyState
  {
    s.(priv := CipherNone.attach(vap, s), keyix := ix, valid := false, flags := KeyXmit | KeyRecv)
  }

  /**
   * A reset key is invalid, carries the requested index, is usable for transmit
   * and receive only, and holds what the none cipher's attach returned.
   */
  lemma ResetKeyEffect(vap: Vap, s: KeyState, ix: u16)
    ensures Reset(vap, s, ix).keyix == ix && !Reset(vap, s, ix).valid
    ensures Reset(vap, s, ix).flags == 0x03 && Decode(Reset(vap, s, ix).flags) == {Xmit, Recv}
    ensures Reset(vap, s, ix).priv == CipherNone.attach(vap, s)
    ensures !IsKeyPersistent(Reset(vap, s, ix)) && !IsKeyPerstaSw(Reset(vap, s, ix))
  {
  }

  /** Reset leaves the key material, every counter and the clear-key index as they were. */
  lemma ResetKeyFrame(vap: Vap, s: KeyState, ix: u16)
    ensures Reset(vap, s, ix).keylen == s.keylen && Reset(vap, s, ix).key == s.key
    ensures Reset(vap, s, ix).keyrsc == s.keyrsc && Reset(vap, s, ix).keyrscSuspect == s.keyrscSuspect
    ensures Reset(vap, s, ix).keyglobal == s.keyglobal && Reset(vap, s, ix).keytsc == s.keytsc
    ensures Reset(vap, s, ix).clearkeyix == s.clearkeyix
  {
  }

  /**
   * Resetting a reset key with the same index changes nothing but the private
   * state, which is whatever the none cipher's attach returns the second time.
   */
  lemma ResetKeyIdempotent(vap: Vap, s: KeyState, ix: u16)
    ensures Reset(vap, Reset(vap, s, ix), ix) ==
            Reset(vap, s, ix).(priv := CipherNone.attach(vap, Reset(vap, s, ix)))
  {
  }

  /**
   * ieee80211_crypto_demic, as a function of the key's cipher and contents:
   * the cipher checks and strips the MIC only if it has one.
   */
  function DemicResult(cip: Cipher, k: SizedKeyState, wbuf: Frame, hdrlen: int, force: int): MicResult
  {
    if cip.miclen > 0 then cip.demic(k, wbuf, hdrlen, force) else MicResult(1, wbuf, k)
  }

  /** ieee80211_crypto_enmic, as a function of the key's cipher and contents. */
  function EnmicResult(cip: Cipher, k: SizedKeyState, wbuf: Frame, force: int): MicResult
  {
    if cip.miclen > 0 then cip.enmic(k, wbuf, force) else MicResult(1, wbuf, k)
  }

  /**
   * demic returns 1 ("not applicable") and leaves frame and key untouched when
   * the cipher has no MIC, and is exactly the cipher's demic otherwise.
   */
  lemma DemicGuard(cip: Cipher, k: SizedKeyState, wbuf: Frame, hdrlen: int, force: int)
    ensures cip.miclen == 0 ==> DemicResult(cip, k, wbuf, hdrlen, force) == MicResult(1, wbuf, k)
    ensures cip.miclen > 0 ==> DemicResult(cip, k, wbuf, hdrlen, force) == cip.demic(k, wbuf, hdrlen, force)
  {
  }

  /**
   * enmic returns 1 ("not applicable") and leaves frame and key untouched when
   * the cipher has no MIC, and is exactly the cipher's enmic otherwise.
   */
  lemma EnmicGuard(cip: Cipher, k: SizedKeyState, wbuf: Frame, force: int)
    ensures cip.miclen == 0 ==> EnmicResult(cip, k, wbuf, force) == MicResult(1, wbuf, k)
    ensures cip.miclen > 0 ==> EnmicResult(cip, k, wbuf, force) == cip.enmic(k, wbuf, force)
  {
  }

  /**
   * Without a MIC the cipher's MIC operations are never consulted: two ciphers
   * that differ only in those operations give the same outcomes.
   */
  lemma MicOpsUnusedWithoutMic(cip: Cipher, other: Cipher, k: SizedKeyState, wbuf: Frame, hdrlen: int, force: int)
    requires cip.miclen == 0
    requires other == cip.(enmic := other.enmic, demic := other.demic)
    ensures DemicResult(other, k, wbuf, hdrlen, force) == DemicResult(cip, k, wbuf, hdrlen, force)
    ensures EnmicResult(other, k, wbuf, force) == EnmicResult(cip, k, wbuf, force)
  {
  }

  /** A key bound to the none cipher (as every reset key is) gets "not applicable" and no change from both MIC operations. */
  lemma NoneCipherMicNotApplicable(k: SizedKeyState, wbuf: Frame, hdrlen: int, force: int)
    ensures DemicResult(CipherNone, k, wbuf, hdrlen, force) == MicResult(1, wbuf, k)
    ensures EnmicResult(CipherNone, k, wbuf, force) == MicResult(1, wbuf, k)
  {
  }

  /** A key slot: struct ieee80211_key, updated in place. */
  class Key {
    var keylen: u8
    var flags: bv8
    var valid: bool
    var keyix: u16
    var key: array<u8>
    var keyrsc: array<u64>
    var keyrscSuspect: array<u64>
    var keyglobal: u64
    var keytsc: u64
    var cipher: Cipher
    var priv: Private
    var clearkeyix: u16

    /** The buffers have the sizes the struct declares and the two counter arrays are distinct. */
    ghost predicate Valid()
      reads this
    {
      key.Length == KeyBufSize + MicBufSize &&
      keyrsc.Length == TidSize && keyrscSuspect.Length == TidSize &&
      keyrsc != keyrscSuspect
    }

    /** The key's contents apart from its cipher binding. */
    function State(): (s: KeyState)
      reads this, key, keyrsc, keyrscSuspect
      ensures Valid() ==> Sized(s)
    {
      KeyState(keylen, flags, valid, keyix, key[..], keyrsc[..], keyrscSuspect[..],
               keyglobal, keytsc, priv, clearkeyix)
    }

    /** Zero-filled storage for a key slot of interface `vap`, then reset with index `ix`. */
    constructor (vap: Vap, ix: u16)
      ensures Valid() && fresh(key) && fresh(keyrsc) && fresh(keyrscSuspect)
      ensures cipher == CipherNone
      ensures State() == Reset(vap, ZeroState(), ix)
    {
      keylen, flags, valid, keyix := 0, 0, false, 0;
      key := new u8[KeyBufSize + MicBufSize](_ => 0);
      keyrsc := new u64[TidSize](_ => 0);
      keyrscSuspect := new u64[TidSize](_ => 0);
      keyglobal, keytsc := 0, 0;
      cipher, priv, clearkeyix := CipherNone, NoPrivate, 0;
      new;
      assert State() == ZeroState();
      ResetKey(vap, ix);
    }

    /** Writes what a cipher left of the key back into this slot, buffers in place. */
    method Store(s: SizedKeyState)
      requires Valid()
      modifies this, key, keyrsc, keyrscSuspect
      ensures Valid() && State() == s && cipher == old(cipher)
      ensures key == old(key) && keyrsc == old(keyrsc) && keyrscSuspect == old(keyrscSuspect)
    {
      keylen, flags, valid, keyix := s.keylen, s.flags, s.valid, s.keyix;
      keyglobal, keytsc, priv, clearkeyix := s.keyglobal, s.keytsc, s.priv, s.clearkeyix;
      forall i | 0 <= i < key.Length {
        key[i] := s.key[i];
      }
      forall i | 0 <= i < keyrsc.Length {
        keyrsc[i] := s.keyrsc[i];
      }
      forall i | 0 <= i < keyrscSuspect.Length {
        keyrscSuspect[i] := s.keyrscSuspect[i];
      }
      assert key[..] == s.key;
      assert keyrsc[..] == s.keyrsc;
      assert keyrscSuspect[..] == s.keyrscSuspect;
    }

    /**
     * ieee80211_crypto_demic: check and remove any MIC, through the bound
     * cipher only if it has one; the cipher may change the frame and the key.
     */
    method Demic(wbuf: Frame, hdrlen: int, force: int) returns (r: int, frame: Frame)
      requires Valid()
      modifies this, key, keyrsc, keyrscSuspect
      ensures Valid() && cipher == old(cipher)
      ensures key == old(key) && keyrsc == old(keyrsc) && keyrscSuspect == old(keyrscSuspect)
      ensures MicResult(r, frame, State()) == DemicResult(cipher, old(State()), wbuf, hdrlen, force)
    {
      var cip := cipher;
      if cip.miclen > 0 {
        var res := cip.demic(State(), wbuf, hdrlen, force);
        Store(res.key);
        r, frame := res.status, res.frame;
      } else {
        r, frame := 1, wbuf;
      }
    }

    /**
     * ieee80211_crypto_enmic: add any MIC, through the bound cipher only if it
     * has one; the cipher may change the frame and the key.
     */
    method Enmic(wbuf: Frame, force: int) returns (r: int, frame: Frame)
      requires Valid()
      modifies this, key, keyrsc, keyrscSuspect
      ensures Valid() && cipher == old(cipher)
      ensures key == old(key) && keyrsc == old(keyrsc) && keyrscSuspect == old(keyrscSuspect)
      ensures MicResult(r, frame, State()) == EnmicResult(cipher, old(State()), wbuf, force)
    {
      var cip := cipher;
      if cip.miclen > 0 {
        var res := cip.enmic(State(), wbuf, force);
        Store(res.key);
        r, frame := res.status, res.frame;
      } else {
        r, frame := 1, wbuf;
      }
    }

    /**
     * ieee80211_crypto_resetkey: bind the none cipher, let it attach, then set
     * the index, clear validity and make the key transmit/receive.
     */
    method ResetKey(vap: Vap, ix: u16)
      modifies this
      ensures cipher == CipherNone
      ensures State() == Reset(vap, old(State()), ix)
      ensures key == old(key) && keyrsc == old(keyrsc) && keyrscSuspect == old(keyrscSuspect)
      ensures Valid() == old(Valid())
    {
      cipher := CipherNone;
      priv := cipher.attach(vap, State());
      keyix := ix;
      valid := false;
      flags := KeyXmit | KeyRecv;
    }
  }

  /** Extracting the 2-bit Key ID from the Key ID octet: the slot index `_id >> 6`. */
  function KeySlot(id: bv8): (slot: nat)
    ensures slot < WepNkid
    ensures slot == id as nat / 64
  {
    (id >> 6) as nat
  }

  /**
   * The Key ID octet of an IEEE 802.11 privacy header (IEEE 802.11-2016,
   * sections 12.3.2.2 and 12.5.3.2): Key ID in bits 6-7, ExtIV in bit 5,
   * reserved bits 0-4 zero.
   */
  function KeyIdOctet(keyid: nat, extIv: bool): bv8
    requires keyid < WepNkid
  {
    ((keyid as bv8) << 6) | (if extIv then 0x20 else 0)
  }

  /** The slot index recovers the Key ID whatever the ExtIV and reserved bits hold. */
  lemma KeySlotOfOctet(keyid: nat, low: bv8)
    requires keyid < WepNkid && low < 0x40
    ensures KeySlot(((keyid as bv8) << 6) | low) == keyid
    ensures KeySlot(KeyIdOctet(keyid, low & 0x20 != 0)) == keyid
  {
  }

  /**
   * Build-time choice of key table made by IEEE80211_CRYPTO_KEY
   * (ATH_SUPPORT_IBSS_PRIVATE_SECURITY, ATH_SUPPORT_IBSS_WPA2).
   */
  datatype KeyTableConfig = KeyTableConfig(ibssPrivateSecurity: bool, ibssWpa2: bool)

  /** Whether the interface-wide table (iv_nw_keys) is used instead of the per-station one (nips_swkey). */
  predicate UsesVapKeys(cfg: KeyTableConfig)
  {
    cfg.ibssPrivateSecurity && !cfg.ibssWpa2
  }

  /**
   * IEEE80211_CRYPTO_KEY(_vap, _ni, _id) as written: the interface table is
   * read from `vap`, whatever interface is in scope where the macro is
   * expanded, and the `_vap` argument is never used.
   */
  function CryptoKeyAsWritten(cfg: KeyTableConfig, argVap: Vap, scopeVap: Vap, ni: Node, id: bv8): Key
    requires |scopeVap.nwKeys| == WepNkid && |ni.swKeys| == WepNkid
  {
    if cfg.ibssPrivateSecurity then
      if cfg.ibssWpa2 then ni.swKeys[KeySlot(id)] else scopeVap.nwKeys[KeySlot(id)]
    else
      ni.swKeys[KeySlot(id)]
  }

  /**
   * When the argument and the interface in scope differ at the selected slot,
   * the macro as written returns the scope's key, not the argument's.
   */
  lemma CryptoKeyReadsScopeVap(cfg: KeyTableConfig, argVap: Vap, scopeVap: Vap, ni: Node, id: bv8)
    requires |argVap.nwKeys| == WepNkid && |scopeVap.nwKeys| == WepNkid && |ni.swKeys| == WepNkid
    requires UsesVapKeys(cfg) && argVap.nwKeys[KeySlot(id)] != scopeVap.nwKeys[KeySlot(id)]
    ensures CryptoKeyAsWritten(cfg, argVap, scopeVap, ni, id) != CryptoKey(cfg, argVap, ni, id)
  {
  }

  /** IEEE80211_CRYPTO_KEY as intended: the entry of the configured table of `vap` or `ni` named by the Key ID octet `id`. */
  function CryptoKey(cfg: KeyTableConfig, vap: Vap, ni: Node, id: bv8): Key
    requires |vap.nwKeys| == WepNkid && |ni.swKeys| == WepNkid
  {
    if UsesVapKeys(cfg) then vap.nwKeys[KeySlot(id)] else ni.swKeys[KeySlot(id)]
  }

  /**
   * The selected key is the one the octet's Key ID numbers, in the table the
   * configuration picks; when `vap` is the interface in scope, this is what the
   * macro as written selects too.
   */
  lemma CryptoKeyByKeyId(cfg: KeyTableConfig, vap: Vap, ni: Node, keyid: nat, low: bv8)
    requires |vap.nwKeys| == WepNkid && |ni.swKeys| == WepNkid
    requires keyid < WepNkid && low < 0x40
    ensures CryptoKey(cfg, vap, ni, ((keyid as bv8) << 6) | low) ==
            (if UsesVapKeys(cfg) then vap.nwKeys else ni.swKeys)[keyid]
    ensures CryptoKeyAsWritten(cfg, vap, vap, ni, ((keyid as bv8) << 6) | low) ==
            CryptoKey(cfg, vap, ni, ((keyid as bv8) << 6) | low)
  {
  }

  /**
   * The index IEEE80211_CRYPTO_KEY computes, as written, when its `_id`
   * argument is a masking expression `x & m`: `_id >> 6` is not
   * parenthesised, so it expands to `x & m >> 6`, that is `x & (m >> 6)`.
   */
  function MaskedSlotAsWritten(x: bv8, m: bv8): nat
  {
    (x & (m >> 6)) as nat
  }

  /** The octet 0xC0 masked with 0xC0 carries Key ID 3, but the expansion as written selects slot 0. */
  lemma MaskedSlotMisparsed()
    ensures MaskedSlotAsWritten(0xC0, 0xC0) == 0
    ensures KeySlot(0xC0 & 0xC0) == 3
  {
  }
}
