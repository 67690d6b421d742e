/**
 * Multipart messages: `lime_createMultipartMessage` and `lime_decryptMultipartMessage` of coreapi/lime.c.
 * XML, hexadecimal and base64 are foreign; a document is its tree, and an element that is absent is None.
 */
module LimeMessage {
  import opened Bytes
  import opened LimeKeys
  import opened LimeCache

  const MAX_DERIVATION_NUMBER := 100

  /** A `msg` element. */
  datatype Part = Part(pzid: Option<Blob>, index: Option<uint32>, text: Option<Blob>, contentType: Option<Blob>)

  datatype Doc = Doc(zid: Option<Blob>, parts: seq<Part>)

  // ---- Creating -----------------------------------------------------------------------------------

  function PartFor(c: Suite, k: KeyMaterial, selfZid: Blob, message: Blob, contentType: Blob): Part
    requires |k.key| == 32
  {
    Part(Some(k.peerZid), Some(k.sessionIndex),
         Some(Encrypted(c, k, message, selfZid)), Some(Encrypted(c, k, contentType, selfZid)))
  }

  /** One part per key, in order. */
  function Parts(c: Suite, keys: seq<KeyMaterial>, selfZid: Blob, message: Blob, contentType: Blob): (ps: seq<Part>)
    requires forall k <- keys :: |k.key| == 32
    ensures |ps| == |keys|
  {
    seq(|keys|, i requires 0 <= i < |keys| => PartFor(c, keys[i], selfZid, message, contentType))
  }

  /** The rows after each key in turn has been derived and stored. */
  function Advanced(c: Suite, rows: seq<Row>, keys: seq<KeyMaterial>): (w: seq<Row>)
    ensures |w| == |rows|
  {
    if keys == [] then rows
    else
      var n := |keys| - 1;
      Written(Advanced(c, rows, keys[..n]), Derived(c, keys[n]), Sender, None)
  }

  datatype Creation = Created(doc: Doc) | NotCreated(status: Status)

  function CreationResult(c: Suite, st: CacheState, contentType: Option<Blob>, message: Option<Blob>,
                          selfUri: string, peerUri: string, now: int64): (CacheState, Creation)
  {
    if selfUri !in st.selfZids || message.None? || contentType.None? then (st, NotCreated(UnableToEncrypt))
    else
      var keys := UsableKeys(st.rows, Some(selfUri), peerUri, now);
      if keys == [] then (st, NotCreated(SndStatus(st.rows, Some(selfUri), peerUri, now)))
      else
        var zid := st.selfZids[selfUri];
        (st.(rows := Advanced(c, st.rows, keys)),
         Created(Doc(Some(zid), Parts(c, keys, zid, message.value, contentType.value))))
  }

  /** A null handle has no self ZID. */
  method CreateMultipartMessage(c: Suite, db: Cache?, contentType: Option<Blob>, message: Option<Blob>,
                                selfUri: string, peerUri: string, now: int64) returns (r: Creation)
    requires c.Lawful()
    modifies db
    ensures db == null ==> r == NotCreated(UnableToEncrypt)
    ensures db != null ==>
              (db.State(), r) == CreationResult(c, old(db.State()), contentType, message, selfUri, peerUri, now)
  {
    hide FromBe32, FromBe64, UsableKeys, SomeKeyFound, Encrypted, Derived, Written;
    if db == null || selfUri !in db.selfZids { return NotCreated(UnableToEncrypt); }
    var selfZid := db.selfZids[selfUri];
    if message.None? || contentType.None? { return NotCreated(UnableToEncrypt); }
    ghost var vals := UsableKeys(db.rows, Some(selfUri), peerUri, now);
    var status, keys := db.GetCachedSndKeysByUri(Some(selfUri), peerUri, now);
    if status != Success { return NotCreated(status); }
    var parts: seq<Part> := [];
    for i := 0 to |keys|
      invariant forall j | i <= j < |keys| :: keys[j].Valid() && keys[j].Value() == vals[j]
      invariant parts == Parts(c, vals[..i], selfZid, message.value, contentType.value)
      invariant db.rows == Advanced(c, old(db.rows), vals[..i]) && db.selfZids == old(db.selfZids)
    {
      var key := keys[i];
      assert vals[..i + 1][..i] == vals[..i];
      var text := key.Encrypt(c, message.value, selfZid);
      var ctype := key.Encrypt(c, contentType.value, selfZid);
      parts := parts + [Part(Some(key.peerZid), Some(key.sessionIndex), Some(text), Some(ctype))];
      key.Derive(c);
      db.SetCachedKey(key, Sender, None);
    }
    assert vals[..|keys|] == vals;
    r := Created(Doc(Some(selfZid), parts));
  }

  /** A row after one message was sent through it. */
  function AdvancedRow(c: Suite, r: Row): Row
    requires WellFormedSnd(r)
  {
    Stored(r, Derived(c, SndKeyOf(r)), Sender, None)
  }

  lemma {:induction false} AdvancedSameDevices(c: Suite, rows: seq<Row>, keys: seq<KeyMaterial>)
    ensures SameDevices(rows, Advanced(c, rows, keys))
  {
    if keys != [] {
      var n := |keys| - 1;
      AdvancedSameDevices(c, rows, keys[..n]);
      var before := Advanced(c, rows, keys[..n]);
      var after := Written(before, Derived(c, keys[n]), Sender, None);
      forall i | 0 <= i < |rows| ensures SameDevice(rows[i], after[i]) {
        assert SameDevice(rows[i], before[i]);
      }
    }
  }

  /** Storing keys of other rows leaves row `i` alone. */
  lemma {:induction false} AdvancedOther(c: Suite, rows: seq<Row>, keys: seq<KeyMaterial>, i: nat)
    requires i < |rows| && forall p | 0 <= p < |keys| :: keys[p].zuid != rows[i].zuid
    ensures Advanced(c, rows, keys)[i] == rows[i]
  {
    if keys != [] {
      AdvancedOther(c, rows, keys[..|keys| - 1], i);
    }
  }

  /** Storing its own key once updates it once, whatever the order. */
  lemma {:induction false} AdvancedOwn(c: Suite, rows: seq<Row>, keys: seq<KeyMaterial>, i: nat, p: nat)
    requires i < |rows| && p < |keys| && keys[p].zuid == rows[i].zuid
    requires forall q | 0 <= q < |keys| && q != p :: keys[q].zuid != rows[i].zuid
    ensures Advanced(c, rows, keys)[i] == Stored(rows[i], Derived(c, keys[p]), Sender, None)
  {
    var n := |keys| - 1;
    var before := Advanced(c, rows, keys[..n]);
    if p == n {
      AdvancedOther(c, rows, keys[..n], i);
    } else {
      AdvancedOwn(c, rows, keys[..n], i, p);
      assert before[i].zuid != keys[n].zuid;
    }
  }

  /**
   * A send advances every usable row exactly once and leaves every other row, and every receiving
   * column, as it was.
   */
  lemma SendAdvancesEachKeyOnce(c: Suite, rows: seq<Row>, selfUri: string, peerUri: string, now: int64, i: nat)
    requires DistinctZuids(rows) && i < |rows|
    ensures var keys := UsableKeys(rows, Some(selfUri), peerUri, now);
            var rows' := Advanced(c, rows, keys);
            && SameDevices(rows, rows')
            && rows'[i] == if Usable(rows[i], Some(selfUri), peerUri, now) then AdvancedRow(c, rows[i]) else rows[i]
  {
    hide FromBe32, FromBe64, UsableKeys, Advanced, Derived, Be32, Unexpired;
    var keys := UsableKeys(rows, Some(selfUri), peerUri, now);
    AdvancedSameDevices(c, rows, keys);
    if Usable(rows[i], Some(selfUri), peerUri, now) {
      UsableKeyAt(rows, Some(selfUri), peerUri, now, i);
      var own := KeyPosition(rows, Some(selfUri), peerUri, now, i);
      forall q | 0 <= q < |keys| && q != own ensures keys[q].zuid != rows[i].zuid {
        var iq := UsableKeyOrigin(rows, Some(selfUri), peerUri, now, q);
      }
      AdvancedOwn(c, rows, keys, i, own);
    } else {
      forall p | 0 <= p < |keys| ensures keys[p].zuid != rows[i].zuid {
        var ip := UsableKeyOrigin(rows, Some(selfUri), peerUri, now, p);
      }
      AdvancedOther(c, rows, keys, i);
    }
  }

  // ---- Decrypting ---------------------------------------------------------------------------------

  /** The first part addressed to `zid`, from part `start` on. */
  function PartFrom(parts: seq<Part>, start: nat, zid: Blob): (r: Option<nat>)
    requires start <= |parts|
    ensures r.Some? ==> start <= r.value < |parts| && parts[r.value].pzid == Some(zid)
    ensures forall j | start <= j < (if r.Some? then r.value else |parts|) :: parts[j].pzid != Some(zid)
    decreases |parts| - start
  {
    if start == |parts| then None
    else if parts[start].pzid == Some(zid) then Some(start)
    else PartFrom(parts, start + 1, zid)
  }

  function FindPart(parts: seq<Part>, zid: Blob): Option<Part> {
    var p := PartFrom(parts, 0, zid);
    if p.Some? then Some(parts[p.value]) else None
  }

  datatype Reception = Accepted(index: uint32, text: Blob, contentType: Option<Blob>) | Rejected(status: Status)

  /** Opening one part with the receiving key `k`: the key to store and what was read. */
  function Opened(c: Suite, k: KeyMaterial, part: Part, selfZid: Blob): (KeyMaterial, Reception)
    requires c.Lawful() && |k.key| == 32
  {
    var used := part.index.GetOr(0);
    if part.text.None? || used < k.sessionIndex || used - k.sessionIndex > MAX_DERIVATION_NUMBER
    then (k, Rejected(UnableToDecrypt))
    else
      DerivedNLength(c, k, used - k.sessionIndex);
      var k' := DerivedN(c, k, used - k.sessionIndex);
      var text := Decrypted(c, k', part.text.value, selfZid);
      if text.None? then (k, Rejected(UnableToDecrypt))
      else if part.contentType.None? then (Derived(c, k'), Accepted(used, text.value, None))
      else
        var ctype := Decrypted(c, k', part.contentType.value, selfZid);
        if ctype.None? then (k, Rejected(UnableToDecrypt))
        else (Derived(c, k'), Accepted(used, text.value, ctype))
  }

  lemma {:induction false} DerivedNLength(c: Suite, k: KeyMaterial, n: nat)
    requires c.Lawful() && |k.key| == 32
    ensures |DerivedN(c, k, n).key| == 32
    ensures DerivedN(c, k, n).zuid == k.zuid && DerivedN(c, k, n).sessionId == k.sessionId
    ensures DerivedN(c, k, n).peerZid == k.peerZid
  {
    if n > 0 {
      DerivedNLength(c, k, n - 1);
    }
  }

  /** A document is None when the text is not readable XML. */
  function ReceptionResult(c: Suite, st: CacheState, doc: Option<Doc>, selfUri: string, peerUri: string,
                           validity: Option<int64>): (CacheState, Reception)
    requires c.Lawful()
  {
    if selfUri !in st.selfZids then (st, Rejected(UnableToDecrypt))
    else if doc.None? then (st, Rejected(InvalidEncryptedMessage))
    else if doc.value.zid.None? then (st, Rejected(UnableToDecrypt))
    else
      var row := Lookup(st.rows, selfUri, peerUri, doc.value.zid.value);
      if row.None? then (st, Rejected(NoValidKeyForPeer))
      else if !WellFormedRcv(st.rows[row.value]) then (st, Rejected(InvalidCache))
      else
        var part := FindPart(doc.value.parts, st.selfZids[selfUri]);
        if part.None? then (st, Rejected(UnableToDecrypt))
        else
          var (k, r) := Opened(c, RcvKeyOf(st.rows[row.value]), part.value, st.selfZids[selfUri]);
          if r.Rejected? then (st, r)
          else (st.(rows := Written(st.rows, k, Receiver, validity)), r)
  }

  /** Derives up to the index used; the count of derivations is bounded whatever the message says. */
  method CatchUp(c: Suite, key: LimeKey, used: uint32) returns (derivations: nat)
    requires c.Lawful() && key.Valid() && key.sessionIndex <= used <= key.sessionIndex + MAX_DERIVATION_NUMBER
    modifies key
    ensures key.Valid() && key.Value() == DerivedN(c, old(key.Value()), used - old(key.sessionIndex))
    ensures key.sessionIndex == used && derivations == used - old(key.sessionIndex) <= MAX_DERIVATION_NUMBER
  {
    hide DerivationInput;
    derivations := 0;
    while used > key.sessionIndex
      invariant key.Valid() && key.sessionIndex <= used
      invariant key.sessionIndex == old(key.sessionIndex) + derivations
      invariant key.Value() == DerivedN(c, old(key.Value()), derivations)
    {
      key.Derive(c);
      derivations := derivations + 1;
    }
  }

  /** The loop over `msg` elements: stops at the first one addressed to this device. */
  method SeekPart(parts: seq<Part>, selfZid: Blob) returns (r: Option<Part>)
    ensures r == FindPart(parts, selfZid)
  {
    var i := 0;
    while i < |parts|
      invariant i <= |parts|
      invariant PartFrom(parts, 0, selfZid) == PartFrom(parts, i, selfZid)
    {
      if parts[i].pzid == Some(selfZid) { return Some(parts[i]); }
      i := i + 1;
    }
    return None;
  }

  method DecryptMultipartMessage(c: Suite, db: Cache?, doc: Option<Doc>, selfUri: string, peerUri: string,
                                 validity: Option<int64>) returns (r: Reception)
    requires c.Lawful()
    requires doc.Some? && doc.value.zid.Some? ==> |doc.value.zid.value| == 12
    modifies db
    ensures db == null ==> r == Rejected(InvalidCache)
    ensures db != null ==> (db.State(), r) == ReceptionResult(c, old(db.State()), doc, selfUri, peerUri, validity)
  {
    hide FromBe32, LookupFrom, FindPart, Decrypted, Written, DerivedN, DerivationInput;
    if db == null { return Rejected(InvalidCache); }
    if selfUri !in db.selfZids { return Rejected(UnableToDecrypt); }
    var selfZid := db.selfZids[selfUri];
    if doc.None? { return Rejected(InvalidEncryptedMessage); }
    if doc.value.zid.None? { return Rejected(UnableToDecrypt); }
    var status, key := db.GetCachedRcvKeyByZid(doc.value.zid.value, selfUri, peerUri);
    if status != Success { return Rejected(status); }
    var part := SeekPart(doc.value.parts, selfZid);
    if part.None? || part.value.text.None? { return Rejected(UnableToDecrypt); }
    var used := part.value.index.GetOr(0);
    if used < key.sessionIndex { return Rejected(UnableToDecrypt); }
    if used - key.sessionIndex > MAX_DERIVATION_NUMBER { return Rejected(UnableToDecrypt); }
    var _ := CatchUp(c, key, used);
    var text := key.Decrypt(c, part.value.text.value, selfZid);
    if text.None? { return Rejected(UnableToDecrypt); }
    var ctype := None;
    if part.value.contentType.Some? {
      ctype := key.Decrypt(c, part.value.contentType.value, selfZid);
      if ctype.None? { return Rejected(UnableToDecrypt); }
    }
    key.Derive(c);
    db.SetCachedKey(key, Receiver, validity);
    r := Accepted(used, text.value, ctype);
  }
}
