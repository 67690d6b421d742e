/**
 * The key rows of the ZRTP cache: `lime_getCachedSndKeysByURI`, `lime_getCachedRcvKeyByZid` and
 * `lime_setCachedKey` of coreapi/lime.c. The cache is untyped, so every column is a blob that may have
 * the wrong length; the SQL engine itself is foreign and never fails here.
 */
module LimeCache {
  import opened Bytes
  import opened LimeKeys

  datatype Status = Success | InvalidCache | UnableToEncrypt | UnableToDecrypt | NoValidKeyForPeer
                  | InvalidEncryptedMessage | PeerKeyHasExpired

  /** One row of the join of the tables ziduri, zrtp and lime. */
  datatype Row = Row(
    zuid: int, selfUri: string, peerUri: string, peerZid: Blob, pvs: Blob,
    sndKey: Blob, sndSId: Blob, sndIndex: Blob,
    rcvKey: Blob, rcvSId: Blob, rcvIndex: Blob,
    valid: Blob)

  datatype CacheState = CacheState(rows: seq<Row>, selfZids: map<string, Blob>)

  // ---- Sending side -------------------------------------------------------------------------------

  /** The WHERE clause of the sending query; no self URI means any. */
  predicate MatchesPeer(r: Row, selfUri: Option<string>, peerUri: string) {
    (selfUri.None? || r.selfUri == selfUri.value) && r.peerUri == peerUri && r.pvs == [1]
  }

  /** All five columns have their expected length. */
  predicate WellFormedSnd(r: Row) {
    |r.peerZid| == 12 && |r.sndKey| == 32 && |r.sndSId| == 32 && |r.sndIndex| == 4 && |r.valid| == 8
  }

  function SndKeyOf(r: Row): KeyMaterial
    requires WellFormedSnd(r)
  {
    KeyMaterial(r.zuid, r.sndKey, r.sndSId, FromBe32(r.sndIndex), r.peerZid)
  }

  /** A zero date never expires. */
  predicate Unexpired(r: Row, now: int64)
    requires |r.valid| == 8
  {
    FromBe64(r.valid) == 0 || now < FromBe64(r.valid)
  }

  predicate Usable(r: Row, selfUri: Option<string>, peerUri: string, now: int64) {
    MatchesPeer(r, selfUri, peerUri) && WellFormedSnd(r) && Unexpired(r, now)
  }

  /** The keys of the usable rows, in row order. */
  function UsableKeys(rows: seq<Row>, selfUri: Option<string>, peerUri: string, now: int64): (ks: seq<KeyMaterial>)
    ensures |ks| <= |rows|
    ensures forall k <- ks :: |k.key| == 32 && |k.sessionId| == 32 && |k.peerZid| == 12
  {
    if rows == [] then []
    else
      var n := |rows| - 1;
      UsableKeys(rows[..n], selfUri, peerUri, now)
      + if Usable(rows[n], selfUri, peerUri, now) then [SndKeyOf(rows[n])] else []
  }

  predicate SomeKeyFound(rows: seq<Row>, selfUri: Option<string>, peerUri: string) {
    exists r <- rows :: MatchesPeer(r, selfUri, peerUri) && WellFormedSnd(r)
  }

  /** "No key" and "only expired keys" are told apart. */
  function SndStatus(rows: seq<Row>, selfUri: Option<string>, peerUri: string, now: int64): Status {
    if UsableKeys(rows, selfUri, peerUri, now) != [] then Success
    else if SomeKeyFound(rows, selfUri, peerUri) then PeerKeyHasExpired
    else NoValidKeyForPeer
  }

  /** Where the key of row `i` comes among the usable keys. */
  function KeyPosition(rows: seq<Row>, selfUri: Option<string>, peerUri: string, now: int64, i: nat): nat
    requires i < |rows|
  {
    |UsableKeys(rows[..i], selfUri, peerUri, now)|
  }

  /** Every usable row contributes its key at its position. */
  lemma {:induction false} UsableKeyAt(rows: seq<Row>, selfUri: Option<string>, peerUri: string, now: int64, i: nat)
    requires i < |rows| && Usable(rows[i], selfUri, peerUri, now)
    ensures var p := KeyPosition(rows, selfUri, peerUri, now, i);
            var ks := UsableKeys(rows, selfUri, peerUri, now);
            p < |ks| && ks[p] == SndKeyOf(rows[i])
  {
    var n := |rows| - 1;
    if i < n {
      UsableKeyAt(rows[..n], selfUri, peerUri, now, i);
      assert rows[..n][..i] == rows[..i];
    }
  }

  /** And nothing else does: each key is that of a usable row. */
  lemma {:induction false} UsableKeyOrigin(rows: seq<Row>, selfUri: Option<string>, peerUri: string, now: int64, p: nat)
    returns (i: nat)
    requires p < |UsableKeys(rows, selfUri, peerUri, now)|
    ensures i < |rows| && Usable(rows[i], selfUri, peerUri, now)
    ensures KeyPosition(rows, selfUri, peerUri, now, i) == p
    ensures UsableKeys(rows, selfUri, peerUri, now)[p] == SndKeyOf(rows[i])
  {
    var n := |rows| - 1;
    if p < |UsableKeys(rows[..n], selfUri, peerUri, now)| {
      i := UsableKeyOrigin(rows[..n], selfUri, peerUri, now, p);
      assert rows[..n][..i] == rows[..i];
    } else {
      i := n;
    }
  }

  // ---- Receiving side -----------------------------------------------------------------------------

  /** The WHERE clause of the receiving query. */
  predicate MatchesDevice(r: Row, selfUri: string, peerUri: string, zid: Blob) {
    r.selfUri == selfUri && r.peerUri == peerUri && r.peerZid == zid && r.pvs == [1]
  }

  /** The first matching row, from row `start` on. */
  function LookupFrom(rows: seq<Row>, start: nat, selfUri: string, peerUri: string, zid: Blob): (r: Option<nat>)
    requires start <= |rows|
    ensures r.Some? ==> start <= r.value < |rows| && MatchesDevice(rows[r.value], selfUri, peerUri, zid)
    ensures forall j :: start <= j < (if r.Some? then r.value else |rows|)
                        ==> !MatchesDevice(rows[j], selfUri, peerUri, zid)
    decreases |rows| - start
  {
    if start == |rows| then None
    else if MatchesDevice(rows[start], selfUri, peerUri, zid) then Some(start)
    else LookupFrom(rows, start + 1, selfUri, peerUri, zid)
  }

  function Lookup(rows: seq<Row>, selfUri: string, peerUri: string, zid: Blob): Option<nat> {
    LookupFrom(rows, 0, selfUri, peerUri, zid)
  }

  predicate WellFormedRcv(r: Row) {
    |r.rcvKey| == 32 && |r.rcvSId| == 32 && |r.rcvIndex| == 4
  }

  function RcvKeyOf(r: Row): KeyMaterial
    requires WellFormedRcv(r)
  {
    KeyMaterial(r.zuid, r.rcvKey, r.rcvSId, FromBe32(r.rcvIndex), r.peerZid)
  }

  // ---- Writing ------------------------------------------------------------------------------------

  datatype Role = Sender | Receiver

  /** The columns written; only a receiver with a validity date touches the date. */
  function Stored(r: Row, k: KeyMaterial, role: Role, validity: Option<int64>): Row {
    match role
    case Sender => r.(sndKey := k.key, sndSId := k.sessionId, sndIndex := Be32(k.sessionIndex))
    case Receiver =>
      var w := r.(rcvKey := k.key, rcvSId := k.sessionId, rcvIndex := Be32(k.sessionIndex));
      if validity.Some? then w.(valid := Be64(validity.value)) else w
  }

  /** `bzrtp_cache_write`: the rows with this zuid are updated. */
  function Written(rows: seq<Row>, k: KeyMaterial, role: Role, validity: Option<int64>): (w: seq<Row>)
    ensures |w| == |rows|
  {
    seq(|rows|, i requires 0 <= i < |rows| =>
      if rows[i].zuid == k.zuid then Stored(rows[i], k, role, validity) else rows[i])
  }

  /** What identifies a row; no write changes it. */
  predicate SameDevice(r: Row, s: Row) {
    r.zuid == s.zuid && r.selfUri == s.selfUri && r.peerUri == s.peerUri && r.peerZid == s.peerZid && r.pvs == s.pvs
  }

  predicate SameDevices(rows: seq<Row>, rows': seq<Row>) {
    |rows| == |rows'| && forall i | 0 <= i < |rows| :: SameDevice(rows[i], rows'[i])
  }

  /** Writes move no row, so a lookup finds the same one before and after. */
  lemma LookupStable(rows: seq<Row>, rows': seq<Row>, selfUri: string, peerUri: string, zid: Blob)
    requires SameDevices(rows, rows')
    ensures Lookup(rows', selfUri, peerUri, zid) == Lookup(rows, selfUri, peerUri, zid)
  {
    var r, r' := Lookup(rows, selfUri, peerUri, zid), Lookup(rows', selfUri, peerUri, zid);
    if r.Some? { assert SameDevice(rows[r.value], rows'[r.value]); }
    if r'.Some? { assert SameDevice(rows[r'.value], rows'[r'.value]); }
  }

  /** The key read back after a write is the key written, through the big-endian index. */
  lemma WriteThenRead(rows: seq<Row>, k: KeyMaterial, role: Role, validity: Option<int64>, i: nat)
    requires i < |rows| && rows[i].zuid == k.zuid && rows[i].peerZid == k.peerZid
    requires |k.key| == 32 && |k.sessionId| == 32
    ensures var w := Written(rows, k, role, validity)[i];
            match role
            case Sender =>
              && (WellFormedSnd(rows[i]) ==> WellFormedSnd(w) && SndKeyOf(w) == k)
              && w.(sndKey := rows[i].sndKey, sndSId := rows[i].sndSId, sndIndex := rows[i].sndIndex) == rows[i]
            case Receiver =>
              && WellFormedRcv(w) && RcvKeyOf(w) == k
              && (validity.Some? ==> |w.valid| == 8 && FromBe64(w.valid) == validity.value)
              && (validity.None? ==> w.valid == rows[i].valid)
              && w.(rcvKey := rows[i].rcvKey, rcvSId := rows[i].rcvSId, rcvIndex := rows[i].rcvIndex,
                    valid := rows[i].valid) == rows[i]
  {
    Be32RoundTrip(k.sessionIndex);
    if validity.Some? { Be64RoundTrip(validity.value); }
  }

  ghost predicate DistinctZuids(rows: seq<Row>) {
    forall i, j | 0 <= i < j < |rows| :: rows[i].zuid != rows[j].zuid
  }

  /** Zuids are a primary key, and (self URI, peer URI, peer ZID) identifies a row. */
  ghost predicate KeyedRows(rows: seq<Row>) {
    && DistinctZuids(rows)
    && (forall i, j | 0 <= i < j < |rows| ::
          !(rows[i].selfUri == rows[j].selfUri && rows[i].peerUri == rows[j].peerUri
            && rows[i].peerZid == rows[j].peerZid))
  }

  lemma KeyedRowsStable(rows: seq<Row>, rows': seq<Row>)
    requires KeyedRows(rows) && SameDevices(rows, rows')
    ensures KeyedRows(rows')
  {
    forall i, j | 0 <= i < j < |rows'|
      ensures rows'[i].zuid != rows'[j].zuid
      ensures !(rows'[i].selfUri == rows'[j].selfUri && rows'[i].peerUri == rows'[j].peerUri
                && rows'[i].peerZid == rows'[j].peerZid)
    {
      assert SameDevice(rows[i], rows'[i]) && SameDevice(rows[j], rows'[j]);
    }
  }

  /** Distinct structures holding the given key material. */
  ghost predicate HoldKeys(keys: seq<LimeKey>, vals: seq<KeyMaterial>)
    reads keys
  {
    && |keys| == |vals|
    && (forall i | 0 <= i < |keys| :: keys[i].Valid() && keys[i].Value() == vals[i])
    && (forall i, j | 0 <= i < j < |keys| :: keys[i] != keys[j])
  }

  lemma ScanBase(selfUri: Option<string>, peerUri: string, now: int64)
    ensures !SomeKeyFound([], selfUri, peerUri) && UsableKeys([], selfUri, peerUri, now) == []
  {
  }

  lemma ScanStep(rows: seq<Row>, i: nat, selfUri: Option<string>, peerUri: string, now: int64)
    requires i < |rows|
    ensures SomeKeyFound(rows[..i + 1], selfUri, peerUri)
            <==> SomeKeyFound(rows[..i], selfUri, peerUri)
                 || (MatchesPeer(rows[i], selfUri, peerUri) && WellFormedSnd(rows[i]))
    ensures UsableKeys(rows[..i + 1], selfUri, peerUri, now)
            == UsableKeys(rows[..i], selfUri, peerUri, now)
               + if Usable(rows[i], selfUri, peerUri, now) then [SndKeyOf(rows[i])] else []
  {
    assert rows[..i + 1][..i] == rows[..i] && rows[..i + 1] == rows[..i] + [rows[i]];
  }

  /** The database handle. */
  class Cache {
    var rows: seq<Row>
    var selfZids: map<string, Blob>

    ghost function State(): CacheState reads this { CacheState(rows, selfZids) }

    constructor (rows: seq<Row>, selfZids: map<string, Blob>)
      ensures this.rows == rows && this.selfZids == selfZids
    {
      this.rows, this.selfZids := rows, selfZids;
    }

    /** Collects a fresh key structure for each usable row. */
    method GetCachedSndKeysByUri(selfUri: Option<string>, peerUri: string, now: int64)
      returns (status: Status, keys: seq<LimeKey>)
      ensures status == SndStatus(rows, selfUri, peerUri, now)
      ensures fresh(keys) && HoldKeys(keys, UsableKeys(rows, selfUri, peerUri, now))
    {
      hide FromBe32, FromBe64, UsableKeys, SomeKeyFound;
      ScanBase(selfUri, peerUri, now);
      keys := [];
      var keysFound := 0;
      for i := 0 to |rows|
        invariant keysFound > 0 <==> SomeKeyFound(rows[..i], selfUri, peerUri)
        invariant fresh(keys) && HoldKeys(keys, UsableKeys(rows[..i], selfUri, peerUri, now))
      {
        ScanStep(rows, i, selfUri, peerUri, now);
        var r := rows[i];
        if MatchesPeer(r, selfUri, peerUri) && WellFormedSnd(r) {
          keysFound := keysFound + 1;
          if FromBe64(r.valid) == 0 || now < FromBe64(r.valid) {
            var key := new LimeKey(SndKeyOf(r));
            keys := keys + [key];
          }
        }
      }
      assert rows[..|rows|] == rows;
      status := if |keys| != 0 then Success else if keysFound == 0 then NoValidKeyForPeer else PeerKeyHasExpired;
    }

    method GetCachedRcvKeyByZid(zid: Blob, selfUri: string, peerUri: string) returns (status: Status, key: LimeKey?)
      requires |zid| == 12
      ensures match Lookup(rows, selfUri, peerUri, zid)
              case None => status == NoValidKeyForPeer && key == null
              case Some(i) =>
                if WellFormedRcv(rows[i]) then
                  status == Success && key != null && fresh(key) && key.Valid() && key.Value() == RcvKeyOf(rows[i])
                else status == InvalidCache && key == null
    {
      key := null;
      match Lookup(rows, selfUri, peerUri, zid)
      case None => status := NoValidKeyForPeer;
      case Some(i) =>
        if !WellFormedRcv(rows[i]) {
          status := InvalidCache;
        } else {
          key := new LimeKey(RcvKeyOf(rows[i]));
          status := Success;
        }
    }

    /** `validity` is the date to store, present when the configured time span is not zero. */
    method SetCachedKey(key: LimeKey, role: Role, validity: Option<int64>)
      modifies this`rows
      ensures rows == Written(old(rows), key.Value(), role, validity)
    {
      var w := [];
      for i := 0 to |rows|
        invariant w == Written(rows, key.Value(), role, validity)[..i]
      {
        w := w + [if rows[i].zuid == key.zuid then Stored(rows[i], key.Value(), role, validity) else rows[i]];
      }
      rows := w;
    }
  }
}
