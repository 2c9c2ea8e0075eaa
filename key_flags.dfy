/**
 * The 8-bit key flag mask (wk_flags) and the bit tests made on it.
 *
 * Every flag is one bit of a byte. Besides the raw constants, the module
 * gives an independent view of a mask as the SET of flags it holds
 * (Decode) and the inverse packing (Encode), and proves the two agree.
 */
module KeyFlags {

  const KeyXmit: bv8 := 0x01        // key used for transmit
  const KeyRecv: bv8 := 0x02        // key used for receive
  const KeyGroup: bv8 := 0x04       // key used for WPA group operation
  const KeyMfp: bv8 := 0x08         // key also used for management frames
  const KeySwCrypt: bv8 := 0x10     // host-based encrypt/decrypt
  const KeySwMic: bv8 := 0x20       // host-based enmic/demic
  const KeyPersistent: bv8 := 0x40  // removed only on explicit system command
  const KeyPersta: bv8 := 0x80      // per-station default key

  /** IEEE80211_KEY_COMMON: the flags applications pass when installing a key. */
  const KeyCommon: bv8 := KeyXmit | KeyRecv | KeyGroup | KeyPersistent | KeyPersta | KeyMfp | 0

  /** The eight flags, by name. */
  datatype Flag = Xmit | Recv | Group | Mfp | SwCrypt | SwMic | Persistent | Persta

  const AllFlags: set<Flag> := {Xmit, Recv, Group, Mfp, SwCrypt, SwMic, Persistent, Persta}

  /** The constant that stands for each flag; every one is a single bit. */
  function Mask(f: Flag): (m: bv8)
    ensures m != 0 && m & (m - 1) == 0
  {
    match f
    case Xmit => KeyXmit
    case Recv => KeyRecv
    case Group => KeyGroup
    case Mfp => KeyMfp
    case SwCrypt => KeySwCrypt
    case SwMic => KeySwMic
    case Persistent => KeyPersistent
    case Persta => KeyPersta
  }

  /** The flags whose bit is set in a mask. */
  function Decode(b: bv8): (s: set<Flag>)
    ensures forall f :: f in s <==> b & Mask(f) != 0
  {
    set f | f in AllFlags && b & Mask(f) != 0
  }

  /** The mask that holds exactly the given flags. */
  function Encode(s: set<Flag>): bv8
  {
    (if Xmit in s then KeyXmit else 0) |
    (if Recv in s then KeyRecv else 0) |
    (if Group in s then KeyGroup else 0) |
    (if Mfp in s then KeyMfp else 0) |
    (if SwCrypt in s then KeySwCrypt else 0) |
    (if SwMic in s then KeySwMic else 0) |
    (if Persistent in s then KeyPersistent else 0) |
    (if Persta in s then KeyPersta else 0)
  }

  /** Distinct flags occupy distinct bits, so a mask can hold any combination of them. */
  lemma MasksDisjoint(f: Flag, g: Flag)
    requires f != g
    ensures Mask(f) & Mask(g) == 0
  {
  }

  /** Packing a set of flags and reading it back loses nothing. */
  lemma DecodeEncode(s: set<Flag>)
    ensures Decode(Encode(s)) == s
  {
  }

  /** Every byte is the packing of the flags it holds: no bit of wk_flags is unassigned. */
  lemma EncodeDecode(b: bv8)
    ensures Encode(Decode(b)) == b
  {
  }

  /**
   * The bitwise OR of a list of flag constants, as IEEE80211_KEY_COMMON spells
   * out its members one per line and closes the list with `| 0`.
   */
  function Combine(fs: seq<Flag>): bv8
  {
    if fs == [] then 0 else Mask(fs[0]) | Combine(fs[1..])
  }

  /** Adding one flag to a set sets that flag's bit and no other. */
  lemma EncodeInsert(f: Flag, s: set<Flag>)
    ensures Encode({f} + s) == Mask(f) | Encode(s)
  {
  }

  /** OR-ing a list of flags packs exactly the flags listed, whatever their order or repetitions. */
  lemma {:induction false} CombineIsEncode(fs: seq<Flag>)
    ensures Combine(fs) == Encode(set f | f in fs)
  {
    if fs != [] {
      var rest := set f | f in fs[1..];
      CombineIsEncode(fs[1..]);
      assert (set f | f in fs) == {fs[0]} + rest;
      EncodeInsert(fs[0], rest);
    }
  }

  /** The flags whose bits an OR-list sets are exactly the flags it lists. */
  lemma CombineFlags(fs: seq<Flag>)
    ensures forall f :: f in Decode(Combine(fs)) <==> f in fs
  {
    CombineIsEncode(fs);
    DecodeEncode(set f | f in fs);
  }

  /** IEEE80211_KEY_COMMON is 0xCF: every flag except the two software-crypto ones. */
  lemma KeyCommonFlags()
    ensures KeyCommon == Combine([Xmit, Recv, Group, Persistent, Persta, Mfp]) == 0xCF
    ensures Decode(KeyCommon) == {Xmit, Recv, Group, Mfp, Persistent, Persta}
    ensures SwCrypt !in Decode(KeyCommon) && SwMic !in Decode(KeyCommon)
  {
  }
}
