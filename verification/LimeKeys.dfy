/**
 * The message key of one device pair and its ratchet: `lime_deriveKey`, `lime_encryptMessage` and
 * `lime_decryptMessage` of coreapi/lime.c.
 */
module LimeKeys {
  import opened Bytes

  /**
   * The foreign primitives, kept abstract: HMAC-SHA-256, and AES-GCM as one authenticated encryption.
   * `seal` and `open` take the 24-octet key, the 8-octet initialisation vector, the associated data and
   * the text; a sealed text is the 16-octet tag followed by the cipher text.
   */
  datatype Suite = Suite(
    hmac: (Blob, Blob) -> Blob,
    seal: (Blob, Blob, Blob, Blob) -> Blob,
    open: (Blob, Blob, Blob, Blob) -> Option<Blob>)
  {
    /** The only laws used: digests are 32 octets, and opening inverts sealing under the same parameters. */
    ghost predicate Lawful() {
      && (forall k, m :: |hmac(k, m)| == 32)
      && (forall k, iv, aad, text ::
            |seal(k, iv, aad, text)| == |text| + 16 && open(k, iv, aad, seal(k, iv, aad, text)) == Some(text))
    }
  }

  /** The laws are satisfiable, so nothing below holds only for want of a suite. */
  lemma LawfulSuiteExists() returns (c: Suite)
    ensures c.Lawful()
  {
    var zeros: Blob := seq(16, _ => 0);
    c := Suite(
      (k, m) => seq(32, _ => 0),
      (k, iv, aad, text) => zeros + text,
      (k, iv, aad, s) => if |s| < 16 then None else Some(s[16..]));
    forall k, iv, aad, text
      ensures |c.seal(k, iv, aad, text)| == |text| + 16
      ensures c.open(k, iv, aad, c.seal(k, iv, aad, text)) == Some(text)
    {
      assert (zeros + text)[16..] == text;
    }
  }

  /** The fields of `limeKey_t`. */
  datatype KeyMaterial = KeyMaterial(zuid: int, key: Blob, sessionId: Blob, sessionIndex: uint32, peerZid: Blob)

  const LABEL: Blob := [0x4D, 0x65, 0x73, 0x73, 0x61, 0x67, 0x65, 0x4B, 0x65, 0x79]  // "MessageKey"

  /** Counter, label, separator, context and length: the derivation input of section 4.5.1 of RFC 6189. */
  function DerivationInput(sessionId: Blob, index: uint32): Blob {
    [0, 0, 0, 1] + LABEL + [0] + sessionId + Be32(index) + [0, 0, 1, 0]
  }

  function Derived(c: Suite, k: KeyMaterial): KeyMaterial {
    k.(key := c.hmac(k.key, DerivationInput(k.sessionId, k.sessionIndex)),
       sessionIndex := (k.sessionIndex + 1) % TWO_32)
  }

  /** `k` derived `n` times. */
  function DerivedN(c: Suite, k: KeyMaterial, n: nat): KeyMaterial {
    if n == 0 then k else Derived(c, DerivedN(c, k, n - 1))
  }

  /** The key reached from `initial` after exactly `n` derivations, the i-th one under index i. */
  ghost function ChainKey(c: Suite, initial: Blob, sessionId: Blob, n: uint32): Blob {
    if n == 0 then initial
    else c.hmac(ChainKey(c, initial, sessionId, n - 1), DerivationInput(sessionId, n - 1))
  }

  /** `k` holds the initial key derived exactly `sessionIndex` times. */
  ghost predicate OnChain(c: Suite, initial: Blob, k: KeyMaterial) {
    k.key == ChainKey(c, initial, k.sessionId, k.sessionIndex)
  }

  lemma DerivedStaysOnChain(c: Suite, initial: Blob, k: KeyMaterial)
    requires OnChain(c, initial, k)
    requires k.sessionIndex < TWO_32 - 1
    ensures OnChain(c, initial, Derived(c, k))
    ensures Derived(c, k) == k.(key := Derived(c, k).key, sessionIndex := k.sessionIndex + 1)
  {
    hide DerivationInput;
  }

  /** Catching up by `n` steps lands on the chain at index plus `n`, provided the index does not wrap. */
  lemma {:induction false} DerivedNStaysOnChain(c: Suite, initial: Blob, k: KeyMaterial, n: nat)
    requires OnChain(c, initial, k)
    requires k.sessionIndex + n < TWO_32
    ensures OnChain(c, initial, DerivedN(c, k, n))
    ensures DerivedN(c, k, n) == k.(key := DerivedN(c, k, n).key, sessionIndex := k.sessionIndex + n)
  {
    hide Derived, OnChain;
    if n > 0 {
      DerivedNStaysOnChain(c, initial, k, n - 1);
      DerivedStaysOnChain(c, initial, DerivedN(c, k, n - 1));
    }
  }

  /** Without any chain: `n` derivations move the index by `n` and keep everything but the key. */
  lemma {:induction false} DerivedNIndex(c: Suite, k: KeyMaterial, n: nat)
    requires k.sessionIndex + n < TWO_32
    ensures DerivedN(c, k, n) == k.(key := DerivedN(c, k, n).key, sessionIndex := k.sessionIndex + n)
  {
    hide DerivationInput;
    if n > 0 {
      DerivedNIndex(c, k, n - 1);
    }
  }

  /** The associated data both ends must build: sender ZID, receiver ZID, session index. */
  function AssociatedData(senderZid: Blob, receiverZid: Blob, index: uint32): Blob {
    senderZid + receiverZid + Be32(index)
  }

  function Encrypted(c: Suite, k: KeyMaterial, text: Blob, selfZid: Blob): Blob
    requires |k.key| == 32
  {
    c.seal(k.key[..24], k.key[24..], AssociatedData(selfZid, k.peerZid, k.sessionIndex), text)
  }

  function Decrypted(c: Suite, k: KeyMaterial, sealed: Blob, selfZid: Blob): Option<Blob>
    requires |k.key| == 32
  {
    if |sealed| < 16 then None
    else c.open(k.key[..24], k.key[24..], AssociatedData(k.peerZid, selfZid, k.sessionIndex), sealed)
  }

  /** What one end seals the other opens: both key structures name the other end, and the data agree. */
  lemma EncryptedOpens(c: Suite, snd: KeyMaterial, rcv: KeyMaterial, text: Blob, sndZid: Blob, rcvZid: Blob)
    requires c.Lawful()
    requires |snd.key| == 32 && snd.key == rcv.key && snd.sessionIndex == rcv.sessionIndex
    requires snd.peerZid == rcvZid && rcv.peerZid == sndZid
    ensures Decrypted(c, rcv, Encrypted(c, snd, text, sndZid), rcvZid) == Some(text)
  {
  }

  /** `memcpy` into a buffer. */
  method CopyInto(a: array<byte>, at: nat, b: Blob)
    requires at + |b| <= a.Length
    modifies a
    ensures a[at..at + |b|] == b
    ensures a[..at] == old(a[..at]) && a[at + |b|..] == old(a[at + |b|..])
  {
    for i := 0 to |b|
      invariant a[at..at + i] == b[..i]
      invariant a[..at] == old(a[..at]) && a[at + i..] == old(a[at + i..])
    {
      a[at + i] := b[i];
    }
  }

  /** Lays the 55 octets out field by field, each at its own offset. */
  method FillDerivationInput(inputData: array<byte>, sessionId: Blob, sessionIndex: uint32)
    requires inputData.Length == 55 && |sessionId| == 32
    modifies inputData
    ensures inputData[..] == DerivationInput(sessionId, sessionIndex)
  {
    CopyInto(inputData, 0, [0, 0, 0, 1]);
    CopyInto(inputData, 4, LABEL);
    assert inputData[..14] == inputData[..4] + inputData[4..14];
    CopyInto(inputData, 14, [0]);
    assert inputData[..15] == inputData[..14] + inputData[14..15];
    CopyInto(inputData, 15, sessionId);
    assert inputData[..47] == inputData[..15] + inputData[15..47];
    CopyInto(inputData, 47, [sessionIndex / 0x100_0000 % 256, sessionIndex / 0x1_0000 % 256,
                             sessionIndex / 0x100 % 256, sessionIndex % 256]);
    assert inputData[..51] == inputData[..47] + inputData[47..51];
    CopyInto(inputData, 51, [0, 0, 1, 0]);
    assert inputData[..] == inputData[..51] + inputData[51..55];
  }

  /** `limeKey_t` as the source handles it: a structure derived in place. */
  class LimeKey {
    var zuid: int
    var key: Blob
    var sessionId: Blob
    var sessionIndex: uint32
    var peerZid: Blob

    ghost predicate Valid() reads this { |key| == 32 && |sessionId| == 32 && |peerZid| == 12 }

    function Value(): KeyMaterial reads this { KeyMaterial(zuid, key, sessionId, sessionIndex, peerZid) }

    constructor (v: KeyMaterial)
      ensures Value() == v
    {
      zuid, key, sessionId, sessionIndex, peerZid := v.zuid, v.key, v.sessionId, v.sessionIndex, v.peerZid;
    }

    /** Fills the 55-octet buffer field by field and overwrites the key; the index wraps like a uint32. */
    method Derive(c: Suite)
      requires c.Lawful() && Valid()
      modifies this`key, this`sessionIndex
      ensures Valid() && Value() == Derived(c, old(Value()))
    {
      var inputData := new byte[55];
      FillDerivationInput(inputData, sessionId, sessionIndex);
      key := c.hmac(key, inputData[..]);
      sessionIndex := (sessionIndex + 1) % TWO_32;
    }

    method Encrypt(c: Suite, text: Blob, selfZid: Blob) returns (sealed: Blob)
      requires Valid()
      ensures sealed == Encrypted(c, Value(), text, selfZid)
    {
      var aad := selfZid + peerZid + [sessionIndex / 0x100_0000 % 256, sessionIndex / 0x1_0000 % 256,
                                      sessionIndex / 0x100 % 256, sessionIndex % 256];
      sealed := c.seal(key[..24], key[24..], aad, text);
    }

    method Decrypt(c: Suite, sealed: Blob, selfZid: Blob) returns (text: Option<Blob>)
      requires Valid()
      ensures text == Decrypted(c, Value(), sealed, selfZid)
    {
      if |sealed| < 16 { return None; }
      var aad := peerZid + selfZid + [sessionIndex / 0x100_0000 % 256, sessionIndex / 0x1_0000 % 256,
                                      sessionIndex / 0x100 % 256, sessionIndex % 256];
      text := c.open(key[..24], key[24..], aad, sealed);
    }
  }
}
