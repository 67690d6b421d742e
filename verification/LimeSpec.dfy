/**
 * What a send and a reception answer, read off the cached rows, the documents and the clock alone: the columns by
 * name, the dates as numbers, the octets laid out. Nothing here is stated through the selection, derivation or
 * sealing functions of the model; the lemmas say that these give the same answers.
 */
module LimeSpec {
  import opened Bytes
  import opened LimeKeys
  import opened LimeCache
  import opened LimeMessage

  // ---- Octets ---------------------------------------------------------------------------------------

  /** The index blob, octet by octet: place values 2^24, 2^16, 2^8 and 1. */
  lemma Be32IsBigEndian(n: uint32)
    ensures Be32(n) == BigEndian(n, 4)
    ensures var b0: int, b1: int, b2: int, b3: int := Be32(n)[0], Be32(n)[1], Be32(n)[2], Be32(n)[3];
            n == b0 * 0x100_0000 + b1 * 0x1_0000 + b2 * 0x100 + b3
  {
    var a, b, c := n / 256, n / 256 / 256, n / 256 / 256 / 256;
    assert BigEndian(c, 1) == BigEndian(c / 256, 0) + [c % 256] == [c % 256];
    assert BigEndian(b, 2) == BigEndian(c, 1) + [b % 256] == [c % 256, b % 256];
    assert BigEndian(a, 3) == BigEndian(b, 2) + [a % 256] == [c % 256, b % 256, a % 256];
    assert BigEndian(n, 4) == BigEndian(a, 3) + [n % 256] == [c % 256, b % 256, a % 256, n % 256];
    assert b == n / 0x1_0000 && c == n / 0x100_0000;
    assert c < 256;
  }

  const MESSAGE_KEY: Blob := [0x4D, 0x65, 0x73, 0x73, 0x61, 0x67, 0x65, 0x4B, 0x65, 0x79]

  /** What is hashed: the counter 1, "MessageKey", a zero, the session id, the index, and the length of 256 bits. */
  function HashInput(sessionId: Blob, index: uint32): Blob {
    BigEndian(1, 4) + MESSAGE_KEY + [0] + sessionId + BigEndian(index, 4) + BigEndian(256, 4)
  }

  lemma DerivationHashes(sessionId: Blob, index: uint32)
    ensures DerivationInput(sessionId, index) == HashInput(sessionId, index)
  {
    hide BigEndian;
    Be32IsBigEndian(index);
    Be32IsBigEndian(1);
    Be32IsBigEndian(256);
  }

  /** The fields by offset, so distinct indices or sessions never hash the same input. */
  lemma HashInputFields(sessionId: Blob, index: uint32)
    requires |sessionId| == 32
    ensures var b := HashInput(sessionId, index);
            && |b| == 55 && b[0..4] == BigEndian(1, 4) && b[4..14] == MESSAGE_KEY && b[14] == 0
            && b[15..47] == sessionId && FromBigEndian(b[47..51]) == index && b[51..55] == BigEndian(256, 4)
  {
    hide BigEndian, FromBigEndian;
    Pow256Values();
    BigEndianRoundTrip(index, 4);
    SixFields(BigEndian(1, 4), MESSAGE_KEY, [0], sessionId, BigEndian(index, 4), BigEndian(256, 4));
  }

  lemma SixFields(a: Blob, b: Blob, c: Blob, d: Blob, e: Blob, f: Blob)
    requires |a| == 4 && |b| == 10 && |c| == 1 && |d| == 32 && |e| == 4 && |f| == 4
    ensures var s := a + b + c + d + e + f;
            && |s| == 55 && s[0..4] == a && s[4..14] == b && s[14] == c[0]
            && s[15..47] == d && s[47..51] == e && s[51..55] == f
  {
  }

  /** The key of the session `n` steps after one at `index`. */
  ghost function RatchetKey(c: Suite, key: Blob, sessionId: Blob, index: uint32, n: nat): Blob
    requires index + n < TWO_32
  {
    if n == 0 then key
    else c.hmac(RatchetKey(c, key, sessionId, index, n - 1), HashInput(sessionId, index + n - 1))
  }

  lemma {:induction false} DerivedIsRatchet(c: Suite, k: KeyMaterial, n: nat)
    requires k.sessionIndex + n < TWO_32
    ensures DerivedN(c, k, n)
            == k.(key := RatchetKey(c, k.key, k.sessionId, k.sessionIndex, n), sessionIndex := k.sessionIndex + n)
  {
    hide DerivationInput, HashInput;
    if n > 0 {
      DerivedIsRatchet(c, k, n - 1);
      DerivationHashes(k.sessionId, k.sessionIndex + n - 1);
    }
  }

  // ---- Sending --------------------------------------------------------------------------------------

  /** A row that holds a key for the peer, whatever its date: URIs, verified flag and column lengths. */
  predicate HasKey(r: Row, selfUri: string, peerUri: string) {
    && r.selfUri == selfUri && r.peerUri == peerUri && r.pvs == [1]
    && |r.peerZid| == 12 && |r.sndKey| == 32 && |r.sndSId| == 32 && |r.sndIndex| == 4 && |r.valid| == 8
  }

  lemma UsableIff(r: Row, selfUri: string, peerUri: string, now: int64)
    ensures Usable(r, Some(selfUri), peerUri, now)
            <==> HasKey(r, selfUri, peerUri) && (FromBe64(r.valid) == 0 || now < FromBe64(r.valid))
  {
    hide FromBe64;
  }

  /** Without a self URI the rows of any one are taken. */
  lemma UsableWithoutSelf(r: Row, peerUri: string, now: int64)
    ensures Usable(r, None, peerUri, now)
            <==> HasKey(r, r.selfUri, peerUri) && (FromBe64(r.valid) == 0 || now < FromBe64(r.valid))
  {
    hide FromBe64;
  }

  lemma SomeKeyIff(rows: seq<Row>, selfUri: string, peerUri: string)
    ensures SomeKeyFound(rows, Some(selfUri), peerUri) <==> exists r <- rows :: HasKey(r, selfUri, peerUri)
  {
    if r :| r in rows && MatchesPeer(r, Some(selfUri), peerUri) && WellFormedSnd(r) {
      assert HasKey(r, selfUri, peerUri);
    }
    if r :| r in rows && HasKey(r, selfUri, peerUri) {
      assert MatchesPeer(r, Some(selfUri), peerUri) && WellFormedSnd(r);
    }
  }

  lemma UsableKeysIff(rows: seq<Row>, selfUri: string, peerUri: string, now: int64)
    ensures UsableKeys(rows, Some(selfUri), peerUri, now) != [] <==>
            exists r <- rows :: HasKey(r, selfUri, peerUri) && (FromBe64(r.valid) == 0 || now < FromBe64(r.valid))
  {
    hide FromBe64, FromBe32, UsableKeys, Usable;
    if UsableKeys(rows, Some(selfUri), peerUri, now) != [] {
      var i := UsableKeyOrigin(rows, Some(selfUri), peerUri, now, 0);
      UsableIff(rows[i], selfUri, peerUri, now);
    }
    if r :| r in rows && HasKey(r, selfUri, peerUri) && (FromBe64(r.valid) == 0 || now < FromBe64(r.valid)) {
      var i :| 0 <= i < |rows| && rows[i] == r;
      UsableIff(r, selfUri, peerUri, now);
      UsableKeyAt(rows, Some(selfUri), peerUri, now, i);
    }
  }

  /**
   * A send succeeds exactly when some row of the peer has a date of zero or in the future, fails for expiry exactly
   * when there are rows and all their dates are past, and for want of a key exactly when there is no row; a failure
   * leaves the cache alone.
   */
  lemma SendAnswer(c: Suite, st: CacheState, contentType: Blob, text: Blob, selfUri: string, peerUri: string,
                   now: int64)
    requires selfUri in st.selfZids
    ensures var (st', r) := CreationResult(c, st, Some(contentType), Some(text), selfUri, peerUri, now);
            && (r.Created? <==>
                  exists row <- st.rows ::
                    HasKey(row, selfUri, peerUri) && (FromBe64(row.valid) == 0 || now < FromBe64(row.valid)))
            && (r == NotCreated(PeerKeyHasExpired) <==>
                  && (exists row <- st.rows :: HasKey(row, selfUri, peerUri))
                  && (forall row <- st.rows | HasKey(row, selfUri, peerUri) :: 0 != FromBe64(row.valid) <= now))
            && (r == NotCreated(NoValidKeyForPeer) <==> forall row <- st.rows :: !HasKey(row, selfUri, peerUri))
            && (r.NotCreated? ==> st' == st)
  {
    hide FromBe64, UsableKeys, SomeKeyFound, HasKey, Advanced;
    UsableKeysIff(st.rows, selfUri, peerUri, now);
    SomeKeyIff(st.rows, selfUri, peerUri);
  }

  /** Without a self ZID, a text or a content type nothing is sent. */
  lemma SendRefused(c: Suite, st: CacheState, contentType: Option<Blob>, text: Option<Blob>, selfUri: string,
                    peerUri: string, now: int64)
    requires selfUri !in st.selfZids || text.None? || contentType.None?
    ensures CreationResult(c, st, contentType, text, selfUri, peerUri, now) == (st, NotCreated(UnableToEncrypt))
  {
  }

  ghost predicate CarriesPartFor(r: Creation, zid: Blob) {
    r.Created? && exists p <- r.doc.parts :: p.pzid == Some(zid)
  }

  /** A message carries a part for a device exactly when the device's row holds a key and is not expired. */
  lemma PartIff(c: Suite, st: CacheState, i: nat, contentType: Blob, text: Blob, selfUri: string, peerUri: string,
                now: int64)
    requires selfUri in st.selfZids && KeyedRows(st.rows) && i < |st.rows|
    requires st.rows[i].selfUri == selfUri && st.rows[i].peerUri == peerUri
    ensures var r := CreationResult(c, st, Some(contentType), Some(text), selfUri, peerUri, now).1;
            var row := st.rows[i];
            CarriesPartFor(r, row.peerZid)
            <==> HasKey(row, selfUri, peerUri) && (FromBe64(row.valid) == 0 || now < FromBe64(row.valid))
  {
    hide FromBe64, FromBe32, UsableKeys, SomeKeyFound, HasKey, Advanced, Encrypted, Usable;
    var row := st.rows[i];
    var keys := UsableKeys(st.rows, Some(selfUri), peerUri, now);
    var r := CreationResult(c, st, Some(contentType), Some(text), selfUri, peerUri, now).1;
    UsableIff(row, selfUri, peerUri, now);
    if Usable(row, Some(selfUri), peerUri, now) {
      UsableKeyAt(st.rows, Some(selfUri), peerUri, now, i);
      var p := KeyPosition(st.rows, Some(selfUri), peerUri, now, i);
      assert r.doc.parts[p].pzid == Some(row.peerZid) && r.doc.parts[p] in r.doc.parts;
    }
    if CarriesPartFor(r, row.peerZid) {
      var p :| 0 <= p < |r.doc.parts| && r.doc.parts[p].pzid == Some(row.peerZid);
      var j := UsableKeyOrigin(st.rows, Some(selfUri), peerUri, now, p);
      UsableNames(st.rows[j], selfUri, peerUri, now);
      assert j == i;
    }
  }

  lemma UsableNames(r: Row, selfUri: string, peerUri: string, now: int64)
    requires Usable(r, Some(selfUri), peerUri, now)
    ensures r.selfUri == selfUri && r.peerUri == peerUri
  {
  }

  /**
   * A validity date once stored decides: after a reception wrote the date `d` to a device's row, a send at `now`
   * carries a part for that device if and only if d is zero or now is before d.
   */
  lemma StoredDateDecides(c: Suite, st: CacheState, k: KeyMaterial, d: int64, i: nat, contentType: Blob, text: Blob,
                          selfUri: string, peerUri: string, now: int64)
    requires selfUri in st.selfZids && KeyedRows(st.rows) && i < |st.rows| && st.rows[i].zuid == k.zuid
    requires HasKey(st.rows[i].(valid := Be64(0)), selfUri, peerUri)
    ensures var st1 := st.(rows := Written(st.rows, k, Receiver, Some(d)));
            var r := CreationResult(c, st1, Some(contentType), Some(text), selfUri, peerUri, now).1;
            CarriesPartFor(r, st.rows[i].peerZid) <==> d == 0 || now < d
  {
    hide FromBe64, Be64, FromBe32, Be32, CreationResult, CarriesPartFor;
    var rows' := Written(st.rows, k, Receiver, Some(d));
    assert SameDevices(st.rows, rows');
    KeyedRowsStable(st.rows, rows');
    Be64RoundTrip(d);
    PartIff(c, st.(rows := rows'), i, contentType, text, selfUri, peerUri, now);
  }

  /** The part itself: its index, and text and type sealed under the row's key with both ZIDs and the index. */
  lemma PartContents(c: Suite, r: Row, selfZid: Blob, text: Blob, contentType: Blob)
    requires WellFormedSnd(r)
    ensures var n := FromBe32(r.sndIndex);
            var aad := selfZid + r.peerZid + BigEndian(n, 4);
            PartFor(c, SndKeyOf(r), selfZid, text, contentType)
            == Part(Some(r.peerZid), Some(n),
                    Some(c.seal(r.sndKey[0..24], r.sndKey[24..32], aad, text)),
                    Some(c.seal(r.sndKey[0..24], r.sndKey[24..32], aad, contentType)))
  {
    hide FromBe32, Be32;
    Be32IsBigEndian(FromBe32(r.sndIndex));
    assert r.sndKey[0..24] == r.sndKey[..24] && r.sndKey[24..32] == r.sndKey[24..];
  }

  /** The row afterwards: the next key of the ratchet and the next index, nothing else. */
  lemma RowAfterSend(c: Suite, r: Row)
    requires WellFormedSnd(r) && FromBe32(r.sndIndex) < TWO_32 - 1
    ensures var n := FromBe32(r.sndIndex);
            AdvancedRow(c, r)
            == r.(sndKey := RatchetKey(c, r.sndKey, r.sndSId, n, 1), sndIndex := BigEndian(n + 1, 4))
  {
    hide FromBe32, Be32, Derived;
    var k := SndKeyOf(r);
    Be32IsBigEndian(FromBe32(r.sndIndex) + 1);
    DerivedIsRatchet(c, k, 1);
    assert DerivedN(c, k, 1) == Derived(c, DerivedN(c, k, 0)) == Derived(c, k);
  }

  // ---- Receiving ------------------------------------------------------------------------------------

  /** A verified row of the peer's device. */
  predicate RowOf(r: Row, selfUri: string, peerUri: string, zid: Blob) {
    r.selfUri == selfUri && r.peerUri == peerUri && r.peerZid == zid && r.pvs == [1]
  }

  /** Which rejections come before any part is looked at, and when. */
  lemma ReceptionRefused(c: Suite, st: CacheState, doc: Option<Doc>, selfUri: string, peerUri: string,
                         validity: Option<int64>)
    requires c.Lawful()
    ensures var (st', r) := ReceptionResult(c, st, doc, selfUri, peerUri, validity);
            && (selfUri !in st.selfZids ==> r == Rejected(UnableToDecrypt))
            && (selfUri in st.selfZids && doc.None? ==> r == Rejected(InvalidEncryptedMessage))
            && (selfUri in st.selfZids && doc.Some? && doc.value.zid.None? ==> r == Rejected(UnableToDecrypt))
            && (selfUri in st.selfZids && doc.Some? && doc.value.zid.Some?
                && (forall row <- st.rows :: !RowOf(row, selfUri, peerUri, doc.value.zid.value)) ==>
                  r == Rejected(NoValidKeyForPeer))
            && (r.Rejected? ==> st' == st)
  {
    hide FromBe32, FindPart, Opened, Written, LookupFrom;
    if selfUri in st.selfZids && doc.Some? && doc.value.zid.Some? {
      var l := Lookup(st.rows, selfUri, peerUri, doc.value.zid.value);
      if l.Some? {
        assert st.rows[l.value] in st.rows && RowOf(st.rows[l.value], selfUri, peerUri, doc.value.zid.value);
      }
    }
  }

  lemma LookupIs(rows: seq<Row>, i: nat, selfUri: string, peerUri: string, zid: Blob)
    requires KeyedRows(rows) && i < |rows| && RowOf(rows[i], selfUri, peerUri, zid)
    ensures Lookup(rows, selfUri, peerUri, zid) == Some(i)
  {
    var l := Lookup(rows, selfUri, peerUri, zid);
    assert l.Some? && MatchesDevice(rows[l.value], selfUri, peerUri, zid);
  }

  /** A row of the device with a column of the wrong length is an invalid cache. */
  lemma MalformedRow(c: Suite, st: CacheState, doc: Doc, i: nat, selfUri: string, peerUri: string,
                     validity: Option<int64>)
    requires c.Lawful() && KeyedRows(st.rows) && selfUri in st.selfZids && doc.zid.Some?
    requires i < |st.rows| && RowOf(st.rows[i], selfUri, peerUri, doc.zid.value)
    requires !(|st.rows[i].rcvKey| == 32 && |st.rows[i].rcvSId| == 32 && |st.rows[i].rcvIndex| == 4)
    ensures ReceptionResult(c, st, Some(doc), selfUri, peerUri, validity) == (st, Rejected(InvalidCache))
  {
    hide FromBe32, FindPart, Opened, Written, KeyedRows, LookupFrom;
    LookupIs(st.rows, i, selfUri, peerUri, doc.zid.value);
  }

  lemma FindPartIs(parts: seq<Part>, j: nat, zid: Blob)
    requires j < |parts| && parts[j].pzid == Some(zid) && forall i | 0 <= i < j :: parts[i].pzid != Some(zid)
    ensures FindPart(parts, zid) == Some(parts[j])
  {
  }

  /** A document without a part for this device. */
  lemma NoPart(c: Suite, st: CacheState, doc: Doc, i: nat, selfUri: string, peerUri: string, validity: Option<int64>)
    requires c.Lawful() && KeyedRows(st.rows) && selfUri in st.selfZids && doc.zid.Some?
    requires i < |st.rows| && RowOf(st.rows[i], selfUri, peerUri, doc.zid.value) && WellFormedRcv(st.rows[i])
    requires forall p <- doc.parts :: p.pzid != Some(st.selfZids[selfUri])
    ensures ReceptionResult(c, st, Some(doc), selfUri, peerUri, validity) == (st, Rejected(UnableToDecrypt))
  {
    hide FromBe32, Opened, Written, KeyedRows, LookupFrom, PartFrom;
    LookupIs(st.rows, i, selfUri, peerUri, doc.zid.value);
  }

  /** What opens a sealed text: the key of the ratchet at the index, both ZIDs and the index. */
  ghost function Unsealed(c: Suite, row: Row, used: uint32, selfZid: Blob, sealed: Blob): Option<Blob>
    requires WellFormedRcv(row) && FromBe32(row.rcvIndex) <= used && c.Lawful()
  {
    var n := FromBe32(row.rcvIndex);
    var key := RatchetKey(c, row.rcvKey, row.rcvSId, n, used - n);
    RatchetLength(c, row.rcvKey, row.rcvSId, n, used - n);
    if |sealed| < 16 then None
    else c.open(key[0..24], key[24..32], row.peerZid + selfZid + BigEndian(used, 4), sealed)
  }

  lemma RatchetLength(c: Suite, key: Blob, sessionId: Blob, index: uint32, n: nat)
    requires |key| == 32 && index + n < TWO_32 && c.Lawful()
    ensures |RatchetKey(c, key, sessionId, index, n)| == 32
  {
    hide HashInput;
  }

  lemma DecryptedIsUnsealed(c: Suite, row: Row, used: uint32, selfZid: Blob, sealed: Blob)
    requires WellFormedRcv(row) && FromBe32(row.rcvIndex) <= used && c.Lawful()
    ensures var k := DerivedN(c, RcvKeyOf(row), used - FromBe32(row.rcvIndex));
            |k.key| == 32 && Decrypted(c, k, sealed, selfZid) == Unsealed(c, row, used, selfZid, sealed)
  {
    hide FromBe32, Be32, RatchetKey, DerivedN;
    var k0, n := RcvKeyOf(row), FromBe32(row.rcvIndex);
    DerivedIsRatchet(c, k0, used - n);
    RatchetLength(c, row.rcvKey, row.rcvSId, n, used - n);
    Be32IsBigEndian(used);
    var key := RatchetKey(c, row.rcvKey, row.rcvSId, n, used - n);
    assert key[0..24] == key[..24] && key[24..32] == key[24..];
  }

  /**
   * Any document with a part for this device, genuine or not: it is accepted if and only if it has a text, its index
   * is at most 100 ahead of the row's and not behind it, the text opens, and the content type, if there is one,
   * opens too. Then text and type are what they open to, and the row of the sender, alone, moves to the next key and
   * index of the ratchet, with the new date if one is given.
   */
  lemma AcceptedIff(c: Suite, st: CacheState, doc: Doc, i: nat, j: nat, selfUri: string, peerUri: string,
                    validity: Option<int64>)
    requires c.Lawful() && KeyedRows(st.rows) && selfUri in st.selfZids && doc.zid.Some?
    requires i < |st.rows| && RowOf(st.rows[i], selfUri, peerUri, doc.zid.value) && WellFormedRcv(st.rows[i])
    requires j < |doc.parts| && doc.parts[j].pzid == Some(st.selfZids[selfUri])
    requires forall k | 0 <= k < j :: doc.parts[k].pzid != Some(st.selfZids[selfUri])
    ensures var (st', r) := ReceptionResult(c, st, Some(doc), selfUri, peerUri, validity);
            var row, part, zid := st.rows[i], doc.parts[j], st.selfZids[selfUri];
            var n, used := FromBe32(row.rcvIndex), part.index.GetOr(0);
            && (r.Accepted? <==>
                  && part.text.Some? && n <= used && used - n <= 100
                  && Unsealed(c, row, used, zid, part.text.value).Some?
                  && (part.contentType.Some? ==> Unsealed(c, row, used, zid, part.contentType.value).Some?))
            && (r.Rejected? ==> r == Rejected(UnableToDecrypt) && st' == st)
            && (r.Accepted? ==>
                  && r.index == used && Some(r.text) == Unsealed(c, row, used, zid, part.text.value)
                  && r.contentType == (if part.contentType.Some?
                                       then Unsealed(c, row, used, zid, part.contentType.value) else None))
  {
    hide FromBe32, Be32, FindPart, Written, KeyedRows, LookupFrom, DerivedN, Decrypted, Unsealed;
    var row, part, zid := st.rows[i], doc.parts[j], st.selfZids[selfUri];
    var n, used := FromBe32(row.rcvIndex), part.index.GetOr(0);
    LookupIs(st.rows, i, selfUri, peerUri, doc.zid.value);
    FindPartIs(doc.parts, j, zid);
    if part.text.Some? && n <= used && used - n <= 100 {
      DecryptedIsUnsealed(c, row, used, zid, part.text.value);
      if part.contentType.Some? { DecryptedIsUnsealed(c, row, used, zid, part.contentType.value); }
    }
  }

  /** The rows after an acceptance below the wrap-around. */
  lemma RowsAfterAcceptance(c: Suite, st: CacheState, doc: Doc, i: nat, j: nat, selfUri: string, peerUri: string,
                            validity: Option<int64>)
    requires c.Lawful() && KeyedRows(st.rows) && selfUri in st.selfZids && doc.zid.Some?
    requires i < |st.rows| && RowOf(st.rows[i], selfUri, peerUri, doc.zid.value) && WellFormedRcv(st.rows[i])
    requires j < |doc.parts| && doc.parts[j].pzid == Some(st.selfZids[selfUri])
    requires forall k | 0 <= k < j :: doc.parts[k].pzid != Some(st.selfZids[selfUri])
    requires ReceptionResult(c, st, Some(doc), selfUri, peerUri, validity).1.Accepted?
    requires doc.parts[j].index.GetOr(0) < TWO_32 - 1
    ensures var (st', r) := ReceptionResult(c, st, Some(doc), selfUri, peerUri, validity);
            var row, used := st.rows[i], doc.parts[j].index.GetOr(0);
            var n := FromBe32(row.rcvIndex);
            && n <= used
            && st' == st.(rows := st.rows[i :=
                 row.(rcvKey := RatchetKey(c, row.rcvKey, row.rcvSId, n, used - n + 1),
                      rcvIndex := BigEndian(used + 1, 4),
                      valid := if validity.Some? then Be64(validity.value) else row.valid)])
  {
    hide FromBe32, Be32, Be64, FindPart, LookupFrom, Decrypted, RatchetKey, Derived, KeyedRows;
    var row, zid := st.rows[i], st.selfZids[selfUri];
    LookupIs(st.rows, i, selfUri, peerUri, doc.zid.value);
    FindPartIs(doc.parts, j, zid);
    var k0, used := RcvKeyOf(row), doc.parts[j].index.GetOr(0);
    var n := k0.sessionIndex;
    DerivedIsRatchet(c, k0, used - n + 1);
    Be32IsBigEndian(used + 1);
    var k := DerivedN(c, k0, used - n + 1);
    assert k == Derived(c, DerivedN(c, k0, used - n));
    WrittenAt(st.rows, k, validity, i);
  }

  lemma WrittenAt(rows: seq<Row>, k: KeyMaterial, validity: Option<int64>, i: nat)
    requires KeyedRows(rows) && i < |rows| && rows[i].zuid == k.zuid
    ensures Written(rows, k, Receiver, validity) == rows[i := Stored(rows[i], k, Receiver, validity)]
  {
    hide Stored;
  }
}
