/**
 * Any number of devices exchanging multipart messages over a network that may lose, duplicate, delay and
 * reorder them: every run of sends (coreapi/lime.c:429-544) and deliveries (coreapi/lime.c:546-719).
 */
module LimeProtocol {
  import opened Bytes
  import opened LimeKeys
  import opened LimeCache
  import opened LimeMessage

  datatype Endpoint = Endpoint(uri: string, zid: Blob)

  /** What a ZRTP exchange left for one direction: the initial key and the session id. */
  datatype Session = Session(initial: Blob, sessionId: Blob)

  /** Sender and receiver of each direction that was set up; the other rows of a cache are arbitrary. */
  type Sessions = map<(Endpoint, Endpoint), Session>

  datatype Packet = Packet(from: Endpoint, toUri: string, contentType: Blob, text: Blob, doc: Doc)

  datatype Acceptance = Acceptance(packet: nat, to: Endpoint, index: uint32, text: Blob, contentType: Option<Blob>)

  /** `sent` only grows: a packet in it may be delivered never, once or often, to any device of its URI. */
  datatype World = World(caches: map<Endpoint, CacheState>, sent: seq<Packet>, accepted: seq<Acceptance>)

  datatype Step =
    | Send(from: Endpoint, toUri: string, contentType: Blob, text: Blob, now: int64)
    | Deliver(packet: nat, to: Endpoint, validity: Option<int64>)

  /** A step of an existing device; no sending index may be about to wrap around. */
  ghost predicate Enabled(w: World, s: Step) {
    match s
    case Send(a, toUri, _, _, now) =>
      a in w.caches
      && forall r <- w.caches[a].rows | Usable(r, Some(a.uri), toUri, now) :: FromBe32(r.sndIndex) < TWO_32 - 1
    case Deliver(p, b, _) => p < |w.sent| && b in w.caches && b.uri == w.sent[p].toUri
  }

  ghost function Apply(c: Suite, w: World, s: Step): World
    requires c.Lawful() && Enabled(w, s)
  {
    match s
    case Send(a, toUri, contentType, text, now) =>
      var (st, r) := CreationResult(c, w.caches[a], Some(contentType), Some(text), a.uri, toUri, now);
      if r.NotCreated? then w
      else w.(caches := w.caches[a := st], sent := w.sent + [Packet(a, toUri, contentType, text, r.doc)])
    case Deliver(p, b, validity) =>
      var (st, r) := Delivery(c, w, p, b, validity);
      if r.Rejected? then w.(caches := w.caches[b := st])
      else w.(caches := w.caches[b := st], accepted := w.accepted + [Acceptance(p, b, r.index, r.text, r.contentType)])
  }

  /** The receiving device reads its URIs off the To and From headers of the packet. */
  ghost function Delivery(c: Suite, w: World, p: nat, b: Endpoint, validity: Option<int64>): (CacheState, Reception)
    requires c.Lawful() && p < |w.sent| && b in w.caches
  {
    ReceptionResult(c, w.caches[b], Some(w.sent[p].doc), b.uri, w.sent[p].from.uri, validity)
  }

  // ---- The invariant ------------------------------------------------------------------------------

  ghost predicate CacheOk(e: Endpoint, st: CacheState) {
    KeyedRows(st.rows) && e.uri in st.selfZids && st.selfZids[e.uri] == e.zid
  }

  function SndIndex(st: CacheState, self: Endpoint, peer: Endpoint): uint32 {
    var i := Lookup(st.rows, self.uri, peer.uri, peer.zid);
    if i.Some? && |st.rows[i.value].sndIndex| == 4 then FromBe32(st.rows[i.value].sndIndex) else 0
  }

  function RcvIndex(st: CacheState, self: Endpoint, peer: Endpoint): uint32 {
    var i := Lookup(st.rows, self.uri, peer.uri, peer.zid);
    if i.Some? && |st.rows[i.value].rcvIndex| == 4 then FromBe32(st.rows[i.value].rcvIndex) else 0
  }

  ghost predicate SndOnChain(c: Suite, s: Session, r: Row) {
    && |r.sndIndex| == 4 && r.sndSId == s.sessionId
    && r.sndKey == ChainKey(c, s.initial, s.sessionId, FromBe32(r.sndIndex))
  }

  ghost predicate RcvOnChain(c: Suite, s: Session, r: Row) {
    && |r.rcvIndex| == 4 && r.rcvSId == s.sessionId
    && r.rcvKey == ChainKey(c, s.initial, s.sessionId, FromBe32(r.rcvIndex))
  }

  ghost predicate SenderOk(c: Suite, s: Session, st: CacheState, self: Endpoint, peer: Endpoint) {
    var i := Lookup(st.rows, self.uri, peer.uri, peer.zid);
    i.Some? && SndOnChain(c, s, st.rows[i.value])
  }

  ghost predicate ReceiverOk(c: Suite, s: Session, st: CacheState, self: Endpoint, peer: Endpoint) {
    var i := Lookup(st.rows, self.uri, peer.uri, peer.zid);
    i.Some? && RcvOnChain(c, s, st.rows[i.value])
  }

  /** Both caches hold the shared initial key derived exactly index times, the receiver never ahead. */
  ghost predicate PairOk(c: Suite, s: Session, w: World, a: Endpoint, b: Endpoint) {
    && a in w.caches && b in w.caches
    && |s.initial| == 32 && |s.sessionId| == 32
    && SenderOk(c, s, w.caches[a], a, b)
    && ReceiverOk(c, s, w.caches[b], b, a)
    && RcvIndex(w.caches[b], b, a) <= SndIndex(w.caches[a], a, b)
  }

  /** The sender's key structure at index `n`. */
  ghost function ChainMaterial(c: Suite, s: Session, n: uint32, peerZid: Blob): KeyMaterial {
    KeyMaterial(0, ChainKey(c, s.initial, s.sessionId, n), s.sessionId, n, peerZid)
  }

  lemma ChainKeyLength(c: Suite, s: Session, n: uint32)
    requires c.Lawful() && |s.initial| == 32
    ensures |ChainKey(c, s.initial, s.sessionId, n)| == 32
  {
  }

  /** A part sealed under the chain key of its own index, an index already spent by the sender. */
  ghost predicate PartOk(c: Suite, s: Session, p: Packet, b: Endpoint, part: Part, sndIndex: uint32) {
    && part.index.Some? && part.index.value < sndIndex
    && |ChainKey(c, s.initial, s.sessionId, part.index.value)| == 32
    && var k := ChainMaterial(c, s, part.index.value, b.zid);
       part.text == Some(Encrypted(c, k, p.text, p.from.zid))
       && part.contentType == Some(Encrypted(c, k, p.contentType, p.from.zid))
  }

  ghost predicate PacketOk(c: Suite, s: Session, w: World, p: Packet, b: Endpoint)
    requires p.from in w.caches
  {
    && p.doc.zid == Some(p.from.zid)
    && match FindPart(p.doc.parts, b.zid)
       case None => true
       case Some(part) => PartOk(c, s, p, b, part, SndIndex(w.caches[p.from], p.from, b))
  }

  /** An acceptance between `a` and `b` reports what was sent, below the receiver's present index. */
  ghost predicate AcceptanceOk(w: World, x: Acceptance, a: Endpoint, b: Endpoint)
    requires b in w.caches
  {
    x.packet < |w.sent| && x.to == b && w.sent[x.packet].from == a && b.uri == w.sent[x.packet].toUri ==>
      var p := w.sent[x.packet];
      var part := FindPart(p.doc.parts, b.zid);
      && part.Some? && part.value.index == Some(x.index)
      && x.text == p.text && x.contentType == Some(p.contentType)
      && x.index < RcvIndex(w.caches[b], b, a)
  }

  ghost predicate SamePair(w: World, x: Acceptance, y: Acceptance) {
    && x.packet < |w.sent| && y.packet < |w.sent|
    && x.to == y.to && w.sent[x.packet].from == w.sent[y.packet].from
  }

  ghost predicate Inv(c: Suite, ss: Sessions, w: World) {
    && (forall e <- w.caches :: CacheOk(e, w.caches[e]))
    && (forall ab <- ss :: PairOk(c, ss[ab], w, ab.0, ab.1))
    && (forall i | 0 <= i < |w.sent| :: w.sent[i].from in w.caches)
    && (forall i, ab <- ss | 0 <= i < |w.sent| && w.sent[i].from == ab.0 && w.sent[i].toUri == ab.1.uri ::
          PacketOk(c, ss[ab], w, w.sent[i], ab.1))
    && (forall i | 0 <= i < |w.accepted| ::
          var x := w.accepted[i]; x.packet < |w.sent| && x.to.uri == w.sent[x.packet].toUri)
    && (forall i, ab <- ss | 0 <= i < |w.accepted| :: AcceptanceOk(w, w.accepted[i], ab.0, ab.1))
    && Increasing(ss, w)
  }

  /** Between two devices of a session, later acceptances have larger indices. */
  ghost predicate Increasing(ss: Sessions, w: World) {
    forall i, j | 0 <= i < j < |w.accepted| && SamePair(w, w.accepted[i], w.accepted[j])
                  && (w.sent[w.accepted[i].packet].from, w.accepted[i].to) in ss ::
      w.accepted[i].index < w.accepted[j].index
  }

  /** Nothing sent yet, and both ends of each session hold its initial key at index zero. */
  ghost predicate Initial(ss: Sessions, w: World) {
    && w.sent == [] && w.accepted == []
    && (forall e <- w.caches :: CacheOk(e, w.caches[e]))
    && (forall ab <- ss :: ab.0 in w.caches && ab.1 in w.caches && Established(ss[ab], w, ab.0, ab.1))
  }

  ghost predicate Established(s: Session, w: World, a: Endpoint, b: Endpoint)
    requires a in w.caches && b in w.caches
  {
    var i := Lookup(w.caches[a].rows, a.uri, b.uri, b.zid);
    var j := Lookup(w.caches[b].rows, b.uri, a.uri, a.zid);
    && |s.initial| == 32 && |s.sessionId| == 32 && i.Some? && j.Some?
    && var snd := w.caches[a].rows[i.value]; var rcv := w.caches[b].rows[j.value];
    && snd.sndKey == s.initial && snd.sndSId == s.sessionId && snd.sndIndex == Be32(0)
    && rcv.rcvKey == s.initial && rcv.rcvSId == s.sessionId && rcv.rcvIndex == Be32(0)
  }

  lemma InitialInv(c: Suite, ss: Sessions, w: World)
    requires Initial(ss, w)
    ensures Inv(c, ss, w)
  {
    Be32RoundTrip(0);
  }

  // ---- Sending keeps the invariant ----------------------------------------------------------------

  /** The sender's own row moves one step down its chain, or not at all. */
  lemma SendKeepsSender(c: Suite, s: Session, st: CacheState, a: Endpoint, b: Endpoint, toUri: string, now: int64)
    requires c.Lawful() && KeyedRows(st.rows) && SenderOk(c, s, st, a, b)
    requires forall r <- st.rows | Usable(r, Some(a.uri), toUri, now) :: FromBe32(r.sndIndex) < TWO_32 - 1
    ensures var st' := st.(rows := Advanced(c, st.rows, UsableKeys(st.rows, Some(a.uri), toUri, now)));
            var i := Lookup(st.rows, a.uri, b.uri, b.zid);
            && SenderOk(c, s, st', a, b)
            && SndIndex(st', a, b)
               == SndIndex(st, a, b) + (if Usable(st.rows[i.value], Some(a.uri), toUri, now) then 1 else 0)
  {
    hide FromBe32, Be32, LookupFrom, UsableKeys, Advanced, Unexpired;
    var keys := UsableKeys(st.rows, Some(a.uri), toUri, now);
    var rows' := Advanced(c, st.rows, keys);
    var i := Lookup(st.rows, a.uri, b.uri, b.zid).value;
    SendAdvancesEachKeyOnce(c, st.rows, a.uri, toUri, now, i);
    LookupStable(st.rows, rows', a.uri, b.uri, b.zid);
    if Usable(st.rows[i], Some(a.uri), toUri, now) {
      var k := SndKeyOf(st.rows[i]);
      DerivedStaysOnChain(c, s.initial, k);
      Be32RoundTrip(k.sessionIndex + 1);
    }
  }

  /** Receiving columns are not touched by a send. */
  lemma SendKeepsReceiver(c: Suite, s: Session, st: CacheState, a: Endpoint, b: Endpoint, toUri: string, now: int64)
    requires KeyedRows(st.rows) && ReceiverOk(c, s, st, a, b)
    ensures var st' := st.(rows := Advanced(c, st.rows, UsableKeys(st.rows, Some(a.uri), toUri, now)));
            ReceiverOk(c, s, st', a, b) && RcvIndex(st', a, b) == RcvIndex(st, a, b)
  {
    hide FromBe32, Be32, LookupFrom, UsableKeys, Advanced, Unexpired;
    var rows' := Advanced(c, st.rows, UsableKeys(st.rows, Some(a.uri), toUri, now));
    var i := Lookup(st.rows, a.uri, b.uri, b.zid).value;
    SendAdvancesEachKeyOnce(c, st.rows, a.uri, toUri, now, i);
    LookupStable(st.rows, rows', a.uri, b.uri, b.zid);
  }

  /** The part of `b` in a new packet, if any, is sealed with the key of `b`'s own row. */
  lemma NewPartIsOwn(c: Suite, st: CacheState, a: Endpoint, b: Endpoint, text: Blob, contentType: Blob, now: int64)
    requires KeyedRows(st.rows) && Lookup(st.rows, a.uri, b.uri, b.zid).Some?
    ensures var keys := UsableKeys(st.rows, Some(a.uri), b.uri, now);
            var r := st.rows[Lookup(st.rows, a.uri, b.uri, b.zid).value];
            FindPart(Parts(c, keys, a.zid, text, contentType), b.zid)
            == if Usable(r, Some(a.uri), b.uri, now)
               then Some(PartFor(c, SndKeyOf(r), a.zid, text, contentType)) else None
  {
    var keys := UsableKeys(st.rows, Some(a.uri), b.uri, now);
    var parts := Parts(c, keys, a.zid, text, contentType);
    var i := Lookup(st.rows, a.uri, b.uri, b.zid).value;
    forall p | 0 <= p < |keys| && keys[p].peerZid == b.zid
      ensures Usable(st.rows[i], Some(a.uri), b.uri, now) && keys[p] == SndKeyOf(st.rows[i])
    {
      var ip := UsableKeyOrigin(st.rows, Some(a.uri), b.uri, now, p);
      assert ip == i;
    }
    var f := PartFrom(parts, 0, b.zid);
    if Usable(st.rows[i], Some(a.uri), b.uri, now) {
      UsableKeyAt(st.rows, Some(a.uri), b.uri, now, i);
      var p := KeyPosition(st.rows, Some(a.uri), b.uri, now, i);
      assert parts[p].pzid == Some(b.zid);
    }
  }

  /** So a new packet carries, for each device of a session, a part under the index just spent, or none. */
  lemma NewPacketOk(c: Suite, s: Session, w: World, send: Step, b: Endpoint)
    requires c.Lawful() && send.Send? && Enabled(w, send) && b.uri == send.toUri
    requires CacheOk(send.from, w.caches[send.from]) && PairOk(c, s, w, send.from, b)
    requires Apply(c, w, send) != w
    ensures var w' := Apply(c, w, send);
            |w'.sent| == |w.sent| + 1 && w'.sent[|w.sent|].from == send.from && send.from in w'.caches
            && PacketOk(c, s, w', w'.sent[|w.sent|], b)
  {
    hide FromBe32, Be32, LookupFrom, UsableKeys, Advanced, Unexpired, FindPart, ChainKey;
    var st := w.caches[send.from];
    NewPartIsOwn(c, st, send.from, b, send.text, send.contentType, send.now);
    SendKeepsSender(c, s, st, send.from, b, send.toUri, send.now);
    ChainKeyLength(c, s, SndIndex(st, send.from, b));
  }

  lemma PacketOkMonotone(c: Suite, s: Session, w: World, w': World, p: Packet, b: Endpoint)
    requires p.from in w.caches && p.from in w'.caches && PacketOk(c, s, w, p, b)
    requires SndIndex(w.caches[p.from], p.from, b) <= SndIndex(w'.caches[p.from], p.from, b)
    ensures PacketOk(c, s, w', p, b)
  {
    hide SndIndex, FindPart, Encrypted, ChainKey;
  }

  lemma SendKeepsPair(c: Suite, s: Session, w: World, step: Step, a: Endpoint, b: Endpoint)
    requires c.Lawful() && step.Send? && Enabled(w, step) && CacheOk(step.from, w.caches[step.from])
    requires PairOk(c, s, w, a, b)
    ensures var w' := Apply(c, w, step);
            && PairOk(c, s, w', a, b)
            && SndIndex(w.caches[a], a, b) <= SndIndex(w'.caches[a], a, b)
            && RcvIndex(w'.caches[b], b, a) == RcvIndex(w.caches[b], b, a)
  {
    hide SndIndex, RcvIndex, UsableKeys, Advanced, SenderOk, ReceiverOk, KeyedRows;
    var st := w.caches[step.from];
    if a == step.from { SendKeepsSender(c, s, st, a, b, step.toUri, step.now); }
    if b == step.from { SendKeepsReceiver(c, s, st, b, a, step.toUri, step.now); }
  }

  lemma SendKeepsCaches(c: Suite, w: World, step: Step)
    requires c.Lawful() && step.Send? && Enabled(w, step)
    requires forall e <- w.caches :: CacheOk(e, w.caches[e])
    ensures var w' := Apply(c, w, step);
            && (forall e <- w'.caches :: CacheOk(e, w'.caches[e]))
            && w'.caches.Keys == w.caches.Keys && w'.accepted == w.accepted
            && w.sent <= w'.sent && |w'.sent| <= |w.sent| + 1
            && (|w'.sent| > |w.sent| ==> w'.sent[|w.sent|].from == step.from && w'.sent[|w.sent|].toUri == step.toUri)
            && (|w'.sent| == |w.sent| ==> w' == w)
  {
    hide UsableKeys, Advanced, KeyedRows;
    var st := w.caches[step.from];
    assert CacheOk(step.from, st);
    var keys := UsableKeys(st.rows, Some(step.from.uri), step.toUri, step.now);
    AdvancedSameDevices(c, st.rows, keys);
    KeyedRowsStable(st.rows, Advanced(c, st.rows, keys));
  }

  lemma SendKeepsInv(c: Suite, ss: Sessions, w: World, step: Step)
    requires c.Lawful() && Inv(c, ss, w) && step.Send? && Enabled(w, step)
    ensures Inv(c, ss, Apply(c, w, step))
  {
    hide Apply, SndIndex, RcvIndex, FindPart, SenderOk, ReceiverOk, CacheOk, PacketOk;
    var w' := Apply(c, w, step);
    SendKeepsCaches(c, w, step);
    assert CacheOk(step.from, w.caches[step.from]);
    forall ab <- ss
      ensures PairOk(c, ss[ab], w', ab.0, ab.1) && PairOk(c, ss[ab], w, ab.0, ab.1)
      ensures SndIndex(w.caches[ab.0], ab.0, ab.1) <= SndIndex(w'.caches[ab.0], ab.0, ab.1)
      ensures RcvIndex(w'.caches[ab.1], ab.1, ab.0) == RcvIndex(w.caches[ab.1], ab.1, ab.0)
    {
      SendKeepsPair(c, ss[ab], w, step, ab.0, ab.1);
    }
    forall i, ab <- ss | 0 <= i < |w'.sent| && w'.sent[i].from == ab.0 && w'.sent[i].toUri == ab.1.uri
      ensures PacketOk(c, ss[ab], w', w'.sent[i], ab.1)
    {
      if i < |w.sent| {
        assert w'.sent[i] == w.sent[i] && PacketOk(c, ss[ab], w, w.sent[i], ab.1);
        PacketOkMonotone(c, ss[ab], w, w', w.sent[i], ab.1);
      } else {
        NewPacketOk(c, ss[ab], w, step, ab.1);
      }
    }
    forall i, ab <- ss | 0 <= i < |w'.accepted| ensures AcceptanceOk(w', w'.accepted[i], ab.0, ab.1) {
      assert AcceptanceOk(w, w.accepted[i], ab.0, ab.1);
    }
    assert Increasing(ss, w');
  }

  // ---- Delivering ---------------------------------------------------------------------------------

  /** The receiver's key reaches the sender's at any index ahead of it, and opens what was sealed there. */
  lemma WindowOpens(c: Suite, s: Session, p: Packet, b: Endpoint, part: Part, k: KeyMaterial, sndIndex: uint32)
    requires c.Lawful() && PartOk(c, s, p, b, part, sndIndex)
    requires |k.key| == 32 && k.sessionId == s.sessionId && k.peerZid == p.from.zid && OnChain(c, s.initial, k)
    ensures var i := part.index.value;
            var (k', r) := Opened(c, k, part, b.zid);
            if k.sessionIndex <= i <= k.sessionIndex + MAX_DERIVATION_NUMBER
            then r == Accepted(i, p.text, Some(p.contentType))
                 && k'.key == ChainKey(c, s.initial, s.sessionId, i + 1) && k'.sessionIndex == i + 1
                 && k'.zuid == k.zuid && k'.sessionId == s.sessionId
            else r == Rejected(UnableToDecrypt)
  {
    hide Encrypted, Decrypted, Derived, DerivedN, ChainKey;
    var i := part.index.value;
    if k.sessionIndex <= i <= k.sessionIndex + MAX_DERIVATION_NUMBER {
      DerivedNStaysOnChain(c, s.initial, k, i - k.sessionIndex);
      DerivedNLength(c, k, i - k.sessionIndex);
      var k' := DerivedN(c, k, i - k.sessionIndex);
      var snd := ChainMaterial(c, s, i, b.zid);
      EncryptedOpens(c, snd, k', p.text, p.from.zid, b.zid);
      EncryptedOpens(c, snd, k', p.contentType, p.from.zid, b.zid);
      DerivedStaysOnChain(c, s.initial, k');
    }
  }

  /** Inside the window of the receiver: not older than its index, and at most 100 ahead. */
  predicate InWindow(received: uint32, index: uint32) {
    received <= index <= received + MAX_DERIVATION_NUMBER
  }

  /** With a well-formed row for the sender, a delivery is the opening of the device's own part. */
  lemma DeliveryOpens(c: Suite, w: World, p: nat, b: Endpoint, validity: Option<int64>)
    requires c.Lawful() && p < |w.sent| && b in w.caches && CacheOk(b, w.caches[b])
    requires w.sent[p].doc.zid == Some(w.sent[p].from.zid)
    requires var i := Lookup(w.caches[b].rows, b.uri, w.sent[p].from.uri, w.sent[p].from.zid);
             i.Some? && WellFormedRcv(w.caches[b].rows[i.value])
    ensures var st := w.caches[b];
            var a := w.sent[p].from;
            var i := Lookup(st.rows, b.uri, a.uri, a.zid).value;
            var part := FindPart(w.sent[p].doc.parts, b.zid);
            && (part.None? ==> Delivery(c, w, p, b, validity) == (st, Rejected(UnableToDecrypt)))
            && (part.Some? ==>
                  var (k, r) := Opened(c, RcvKeyOf(st.rows[i]), part.value, b.zid);
                  Delivery(c, w, p, b, validity)
                  == if r.Rejected? then (st, r) else (st.(rows := Written(st.rows, k, Receiver, validity)), r))
  {
    hide FromBe32, Be32, LookupFrom, PartFrom, Opened, Written, KeyedRows;
  }

  /** The receiver's row, as key material. */
  lemma ReceiverRow(c: Suite, s: Session, st: CacheState, b: Endpoint, a: Endpoint)
    requires c.Lawful() && |s.initial| == 32 && |s.sessionId| == 32 && ReceiverOk(c, s, st, b, a)
    ensures var i := Lookup(st.rows, b.uri, a.uri, a.zid);
            && i.Some? && i.value < |st.rows| && WellFormedRcv(st.rows[i.value])
            && var k := RcvKeyOf(st.rows[i.value]);
            && k.sessionIndex == RcvIndex(st, b, a) && k.sessionId == s.sessionId && k.peerZid == a.zid
            && k.zuid == st.rows[i.value].zuid && OnChain(c, s.initial, k)
  {
    hide FromBe32, ChainKey;
    ChainKeyLength(c, s, RcvIndex(st, b, a));
  }

  lemma PartIndex(c: Suite, s: Session, p: Packet, b: Endpoint, part: Part, sndIndex: uint32)
    requires PartOk(c, s, p, b, part, sndIndex)
    ensures part.index.Some? && part.index.value < sndIndex
  {
  }

  /** Storing a key of the receiver's row is read back there. */
  lemma StoredIsFound(c: Suite, s: Session, st: CacheState, b: Endpoint, a: Endpoint, k: KeyMaterial,
                      validity: Option<int64>)
    requires var i := Lookup(st.rows, b.uri, a.uri, a.zid); i.Some? && st.rows[i.value].zuid == k.zuid
    requires k.sessionId == s.sessionId && OnChain(c, s.initial, k)
    ensures var st' := st.(rows := Written(st.rows, k, Receiver, validity));
            ReceiverOk(c, s, st', b, a) && RcvIndex(st', b, a) == k.sessionIndex
  {
    hide FromBe32, Be32, LookupFrom, ChainKey;
    var rows' := Written(st.rows, k, Receiver, validity);
    assert SameDevices(st.rows, rows');
    LookupStable(st.rows, rows', b.uri, a.uri, a.zid);
    Be32RoundTrip(k.sessionIndex);
  }

  /**
   * In every state of every run, a packet carrying a part for `b` is accepted exactly when the part's
   * index lies in b's window, and then gives back the text and content type that were sent; otherwise
   * b's cache is unchanged.
   */
  lemma DeliveryOutcome(c: Suite, ss: Sessions, w: World, p: nat, b: Endpoint, validity: Option<int64>)
    requires c.Lawful() && Inv(c, ss, w)
    requires p < |w.sent| && b.uri == w.sent[p].toUri && (w.sent[p].from, b) in ss
    requires b in w.caches
    ensures var pk := w.sent[p];
            var part := FindPart(pk.doc.parts, b.zid);
            var (st, r) := Delivery(c, w, p, b, validity);
            if part.Some? && part.value.index.Some?
               && InWindow(RcvIndex(w.caches[b], b, pk.from), part.value.index.value)
            then r == Accepted(part.value.index.value, pk.text, Some(pk.contentType))
                 && ReceiverOk(c, ss[(pk.from, b)], st, b, pk.from)
                 && RcvIndex(st, b, pk.from) == part.value.index.value + 1 <= SndIndex(w.caches[pk.from], pk.from, b)
            else r == Rejected(UnableToDecrypt) && st == w.caches[b]
  {
    hide FromBe32, Be32, Lookup, FindPart, ChainKey, Opened, PartOk, CacheOk, Delivery, Written;
    var pk := w.sent[p];
    var a := pk.from;
    var s := ss[(a, b)];
    var st := w.caches[b];
    assert PairOk(c, s, w, (a, b).0, (a, b).1);
    assert PacketOk(c, s, w, pk, (a, b).1);
    assert CacheOk(b, st);
    ChainKeyLength(c, s, RcvIndex(st, b, a));
    ReceiverRow(c, s, st, b, a);
    DeliveryOpens(c, w, p, b, validity);
    var k := RcvKeyOf(st.rows[Lookup(st.rows, b.uri, a.uri, a.zid).value]);
    var part := FindPart(pk.doc.parts, b.zid);
    if part.Some? {
      WindowOpens(c, s, pk, b, part.value, k, SndIndex(w.caches[a], a, b));
      PartIndex(c, s, pk, b, part.value, SndIndex(w.caches[a], a, b));
      var (k', r) := Opened(c, k, part.value, b.zid);
      if r.Accepted? {
        StoredIsFound(c, s, st, b, a, k', validity);
      }
    }
  }

  /** A delivery writes at most one row's receiving columns; the rows of other peers keep theirs. */
  lemma DeliveryFrame(c: Suite, w: World, p: nat, b: Endpoint, validity: Option<int64>, peer: Endpoint)
    requires c.Lawful() && p < |w.sent| && b in w.caches && CacheOk(b, w.caches[b])
    requires w.sent[p].doc.zid == Some(w.sent[p].from.zid)
    ensures var st := w.caches[b];
            var st' := Delivery(c, w, p, b, validity).0;
            var i := Lookup(st.rows, b.uri, peer.uri, peer.zid);
            && CacheOk(b, st') && Lookup(st'.rows, b.uri, peer.uri, peer.zid) == i
            && (i.Some? ==>
                  && st'.rows[i.value].sndKey == st.rows[i.value].sndKey
                  && st'.rows[i.value].sndSId == st.rows[i.value].sndSId
                  && st'.rows[i.value].sndIndex == st.rows[i.value].sndIndex
                  && (peer != w.sent[p].from ==> st'.rows[i.value] == st.rows[i.value]))
  {
    hide FromBe32, Be32, LookupFrom, PartFrom, Decrypted, DerivedN, DerivationInput, Be64;
    var st := w.caches[b];
    var a := w.sent[p].from;
    var (st', r) := Delivery(c, w, p, b, validity);
    if r.Accepted? {
      var row := Lookup(st.rows, b.uri, a.uri, a.zid).value;
      var part := FindPart(w.sent[p].doc.parts, b.zid).value;
      var k0 := RcvKeyOf(st.rows[row]);
      DerivedNLength(c, k0, part.index.GetOr(0) - k0.sessionIndex);
      assert SameDevices(st.rows, st'.rows);
      KeyedRowsStable(st.rows, st'.rows);
    }
    LookupStable(st.rows, st'.rows, b.uri, peer.uri, peer.zid);
  }

  lemma DeliverKeepsSender(c: Suite, s: Session, w: World, p: nat, b: Endpoint, validity: Option<int64>, peer: Endpoint)
    requires c.Lawful() && p < |w.sent| && b in w.caches && CacheOk(b, w.caches[b])
    requires w.sent[p].doc.zid == Some(w.sent[p].from.zid) && SenderOk(c, s, w.caches[b], b, peer)
    ensures var st' := Delivery(c, w, p, b, validity).0;
            SenderOk(c, s, st', b, peer) && SndIndex(st', b, peer) == SndIndex(w.caches[b], b, peer)
  {
    hide FromBe32, LookupFrom, Delivery, KeyedRows, ChainKey;
    DeliveryFrame(c, w, p, b, validity, peer);
  }

  lemma DeliverKeepsOtherReceiver(c: Suite, s: Session, w: World, p: nat, b: Endpoint, validity: Option<int64>,
                                  peer: Endpoint)
    requires c.Lawful() && p < |w.sent| && b in w.caches && CacheOk(b, w.caches[b]) && peer != w.sent[p].from
    requires w.sent[p].doc.zid == Some(w.sent[p].from.zid) && ReceiverOk(c, s, w.caches[b], b, peer)
    ensures var st' := Delivery(c, w, p, b, validity).0;
            ReceiverOk(c, s, st', b, peer) && RcvIndex(st', b, peer) == RcvIndex(w.caches[b], b, peer)
  {
    hide FromBe32, LookupFrom, Delivery, KeyedRows, ChainKey;
    DeliveryFrame(c, w, p, b, validity, peer);
  }

  lemma DeliverKeepsPair(c: Suite, ss: Sessions, w: World, p: nat, b: Endpoint, validity: Option<int64>,
                         ab: (Endpoint, Endpoint))
    requires c.Lawful() && Inv(c, ss, w) && Enabled(w, Deliver(p, b, validity)) && ab in ss
    requires w.sent[p].doc.zid == Some(w.sent[p].from.zid)
    ensures var w' := Apply(c, w, Deliver(p, b, validity));
            && PairOk(c, ss[ab], w', ab.0, ab.1)
            && ab.0 in w.caches && ab.1 in w.caches
            && SndIndex(w'.caches[ab.0], ab.0, ab.1) == SndIndex(w.caches[ab.0], ab.0, ab.1)
            && RcvIndex(w.caches[ab.1], ab.1, ab.0) <= RcvIndex(w'.caches[ab.1], ab.1, ab.0)
  {
    hide SndIndex, RcvIndex, SenderOk, ReceiverOk, FindPart, PacketOk, AcceptanceOk, Increasing, Delivery;
    var w' := Apply(c, w, Deliver(p, b, validity));
    var (a', b') := ab;
    assert PairOk(c, ss[ab], w, ab.0, ab.1);
    assert CacheOk(b, w.caches[b]);
    if a' == b { DeliverKeepsSender(c, ss[ab], w, p, b, validity, b'); }
    if b' == b && a' != w.sent[p].from { DeliverKeepsOtherReceiver(c, ss[ab], w, p, b, validity, a'); }
    if b' == b && a' == w.sent[p].from { DeliveryOutcome(c, ss, w, p, b, validity); }
  }

  /** Every packet names its sender. */
  ghost predicate PacketsSigned(w: World) {
    forall i | 0 <= i < |w.sent| :: w.sent[i].doc.zid == Some(w.sent[i].from.zid)
  }

  /** The log after a delivery still reports what was sent, below the receivers' indices. */
  lemma DeliverKeepsAcceptance(c: Suite, ss: Sessions, w: World, step: Step, i: nat, ab: (Endpoint, Endpoint))
    requires c.Lawful() && Inv(c, ss, w) && PacketsSigned(w) && step.Deliver? && Enabled(w, step) && ab in ss
    requires i < |Apply(c, w, step).accepted|
    ensures var w' := Apply(c, w, step); ab.1 in w'.caches && AcceptanceOk(w', w'.accepted[i], ab.0, ab.1)
  {
    hide FromBe32, Be32, Lookup, FindPart, ReceptionResult, SenderOk, ReceiverOk, CacheOk, PartOk;
    assert PairOk(c, ss[ab], w, ab.0, ab.1);
    DeliverKeepsPair(c, ss, w, step.packet, step.to, step.validity, ab);
    if i < |w.accepted| {
      assert AcceptanceOk(w, w.accepted[i], ab.0, ab.1);
    } else if ab == (w.sent[step.packet].from, step.to) {
      DeliveryOutcome(c, ss, w, step.packet, step.to, step.validity);
    }
  }

  /** A newly accepted index is above all the earlier ones of its pair. */
  lemma DeliverKeepsIncreasing(c: Suite, ss: Sessions, w: World, step: Step)
    requires c.Lawful() && Inv(c, ss, w) && PacketsSigned(w) && step.Deliver? && Enabled(w, step)
    ensures Increasing(ss, Apply(c, w, step))
  {
    hide FromBe32, Be32, Lookup, FindPart, ReceptionResult, SenderOk, ReceiverOk, CacheOk, PartOk;
    var Deliver(p, b, validity) := step;
    var w' := Apply(c, w, step);
    var n := |w.accepted|;
    forall i, j | 0 <= i < j < |w'.accepted| && SamePair(w', w'.accepted[i], w'.accepted[j])
                  && (w'.sent[w'.accepted[i].packet].from, w'.accepted[i].to) in ss
      ensures w'.accepted[i].index < w'.accepted[j].index
    {
      if j < n {
        assert SamePair(w, w.accepted[i], w.accepted[j]);
      } else {
        var x := w.accepted[i];
        var ab := (w.sent[x.packet].from, x.to);
        assert PairOk(c, ss[ab], w, ab.0, ab.1);
        assert AcceptanceOk(w, w.accepted[i], ab.0, ab.1);
        DeliveryOutcome(c, ss, w, p, b, validity);
      }
    }
  }

  lemma DeliverKeepsInv(c: Suite, ss: Sessions, w: World, step: Step)
    requires c.Lawful() && Inv(c, ss, w) && PacketsSigned(w) && step.Deliver? && Enabled(w, step)
    ensures Inv(c, ss, Apply(c, w, step))
  {
    hide FromBe32, Be32, Lookup, FindPart, ReceptionResult, SenderOk, ReceiverOk, KeyedRows, PartOk, AcceptanceOk,
         SamePair;
    var Deliver(p, b, validity) := step;
    var w' := Apply(c, w, step);
    assert CacheOk(b, w.caches[b]);
    DeliveryFrame(c, w, p, b, validity, b);
    forall ab <- ss
      ensures PairOk(c, ss[ab], w', ab.0, ab.1) && ab.0 in w.caches
      ensures SndIndex(w'.caches[ab.0], ab.0, ab.1) == SndIndex(w.caches[ab.0], ab.0, ab.1)
    {
      DeliverKeepsPair(c, ss, w, p, b, validity, ab);
    }
    forall i, ab <- ss | 0 <= i < |w'.sent| && w'.sent[i].from == ab.0 && w'.sent[i].toUri == ab.1.uri
      ensures PacketOk(c, ss[ab], w', w'.sent[i], ab.1)
    {
      assert PacketOk(c, ss[ab], w, w.sent[i], ab.1);
    }
    forall i, ab <- ss | 0 <= i < |w'.accepted| ensures AcceptanceOk(w', w'.accepted[i], ab.0, ab.1) {
      DeliverKeepsAcceptance(c, ss, w, step, i, ab);
    }
    DeliverKeepsIncreasing(c, ss, w, step);
  }

  // ---- Runs ---------------------------------------------------------------------------------------

  ghost predicate Feasible(c: Suite, w: World, steps: seq<Step>)
    requires c.Lawful()
    decreases |steps|
  {
    steps == [] || (Enabled(w, steps[0]) && Feasible(c, Apply(c, w, steps[0]), steps[1..]))
  }

  ghost function Run(c: Suite, w: World, steps: seq<Step>): World
    requires c.Lawful() && Feasible(c, w, steps)
    decreases |steps|
  {
    if steps == [] then w else Run(c, Apply(c, w, steps[0]), steps[1..])
  }

  lemma StepKeepsSigned(c: Suite, w: World, step: Step)
    requires c.Lawful() && PacketsSigned(w) && Enabled(w, step)
    requires step.Send? ==> CacheOk(step.from, w.caches[step.from])
    ensures PacketsSigned(Apply(c, w, step))
  {
    hide UsableKeys, ReceptionResult, Advanced, KeyedRows;
  }

  lemma {:induction false} RunKeepsInv(c: Suite, ss: Sessions, w: World, steps: seq<Step>)
    requires c.Lawful() && Inv(c, ss, w) && PacketsSigned(w) && Feasible(c, w, steps)
    ensures Inv(c, ss, Run(c, w, steps)) && PacketsSigned(Run(c, w, steps))
    decreases |steps|
  {
    hide Apply, PairOk, PacketOk, AcceptanceOk, Increasing;
    if steps != [] {
      var w' := Apply(c, w, steps[0]);
      assert steps[0].Send? ==> CacheOk(steps[0].from, w.caches[steps[0].from]);
      StepKeepsSigned(c, w, steps[0]);
      if steps[0].Send? { SendKeepsInv(c, ss, w, steps[0]); } else { DeliverKeepsInv(c, ss, w, steps[0]); }
      RunKeepsInv(c, ss, w', steps[1..]);
    }
  }

  /**
   * In every run, whatever the network loses, repeats or reorders, both caches of each session hold the
   * shared initial key derived exactly as often as their index says, and no receiver is ahead of its sender.
   */
  lemma RatchetStaysInStep(c: Suite, ss: Sessions, w: World, steps: seq<Step>, ab: (Endpoint, Endpoint))
    requires c.Lawful() && Initial(ss, w) && Feasible(c, w, steps) && ab in ss
    ensures PairOk(c, ss[ab], Run(c, w, steps), ab.0, ab.1)
  {
    InitialInv(c, ss, w);
    RunKeepsInv(c, ss, w, steps);
  }

  /** In every run, whatever a device accepts over a session is what was sent, in a part of that packet for it. */
  lemma AcceptedIsGenuine(c: Suite, ss: Sessions, w: World, steps: seq<Step>, i: nat)
    requires c.Lawful() && Initial(ss, w) && Feasible(c, w, steps)
    requires i < |Run(c, w, steps).accepted|
    ensures var w' := Run(c, w, steps); var x := w'.accepted[i];
            && x.packet < |w'.sent|
            && ((w'.sent[x.packet].from, x.to) in ss ==>
                  && x.text == w'.sent[x.packet].text && x.contentType == Some(w'.sent[x.packet].contentType)
                  && var part := FindPart(w'.sent[x.packet].doc.parts, x.to.zid);
                     part.Some? && part.value.index == Some(x.index))
  {
    hide FromBe32, Be32, Lookup, FindPart, SenderOk, ReceiverOk, PacketOk, CacheOk, Run, Feasible, Increasing;
    InitialInv(c, ss, w);
    RunKeepsInv(c, ss, w, steps);
    var w' := Run(c, w, steps);
    var x := w'.accepted[i];
    var ab := (w'.sent[x.packet].from, x.to);
    if ab in ss {
      assert PairOk(c, ss[ab], w', ab.0, ab.1);
      assert AcceptanceOk(w', w'.accepted[i], ab.0, ab.1);
    }
  }

  /**
   * In every run, what a device accepts from another over a session comes at strictly increasing indices; so no
   * packet is accepted twice.
   */
  lemma AcceptedOnce(c: Suite, ss: Sessions, w: World, steps: seq<Step>, i: nat, j: nat)
    requires c.Lawful() && Initial(ss, w) && Feasible(c, w, steps)
    requires var w' := Run(c, w, steps); i < j < |w'.accepted|
    ensures var w' := Run(c, w, steps); var x, y := w'.accepted[i], w'.accepted[j];
            && x.packet < |w'.sent| && y.packet < |w'.sent|
            && ((w'.sent[x.packet].from, x.to) in ss && SamePair(w', x, y) ==>
                  x.index < y.index && x.packet != y.packet)
  {
    hide FromBe32, Be32, Lookup, FindPart, SenderOk, ReceiverOk, PacketOk, CacheOk, Run, Feasible;
    InitialInv(c, ss, w);
    RunKeepsInv(c, ss, w, steps);
    AcceptedIsGenuine(c, ss, w, steps, i);
    AcceptedIsGenuine(c, ss, w, steps, j);
  }

  /** A send through a usable row emits a packet with that device's part and spends its index. */
  lemma SendEmits(c: Suite, s: Session, w: World, send: Step, b: Endpoint)
    requires c.Lawful() && send.Send? && Enabled(w, send) && b.uri == send.toUri
    requires CacheOk(send.from, w.caches[send.from]) && PairOk(c, s, w, send.from, b)
    requires var st := w.caches[send.from];
             Usable(st.rows[Lookup(st.rows, send.from.uri, b.uri, b.zid).value], Some(send.from.uri), b.uri, send.now)
    ensures var w' := Apply(c, w, send);
            var n := SndIndex(w.caches[send.from], send.from, b);
            && |w'.sent| == |w.sent| + 1 && w'.caches.Keys == w.caches.Keys
            && var pk := w'.sent[|w.sent|];
            && pk.from == send.from && pk.toUri == send.toUri
            && pk.text == send.text && pk.contentType == send.contentType
            && FindPart(pk.doc.parts, b.zid).Some? && FindPart(pk.doc.parts, b.zid).value.index == Some(n)
            && SndIndex(w'.caches[send.from], send.from, b) == n + 1
            && RcvIndex(w'.caches[b], b, send.from) == RcvIndex(w.caches[b], b, send.from)
  {
    hide FromBe32, Be32, LookupFrom, FindPart, ChainKey, Unexpired, Advanced, UsableKeys, Encrypted;
    var a := send.from;
    var st := w.caches[a];
    UsableKeyAt(st.rows, Some(a.uri), b.uri, send.now, Lookup(st.rows, a.uri, b.uri, b.zid).value);
    NewPartIsOwn(c, st, a, b, send.text, send.contentType, send.now);
    SendKeepsSender(c, s, st, a, b, b.uri, send.now);
    if a == b {
      SendKeepsReceiver(c, s, st, a, b, b.uri, send.now);
    }
  }

  /**
   * A message sent in any reachable state reaches each device of the session whose row was usable: its
   * part is there, delivering it succeeds exactly when the receiver is at most 100 behind, and the text and
   * content type come back.
   */
  lemma SendThenDeliver(c: Suite, ss: Sessions, w: World, send: Step, b: Endpoint, validity: Option<int64>)
    requires c.Lawful() && Inv(c, ss, w) && send.Send? && Enabled(w, send)
    requires b.uri == send.toUri && (send.from, b) in ss && b in w.caches
    requires var st := w.caches[send.from];
             var i := Lookup(st.rows, send.from.uri, b.uri, b.zid);
             i.Some? && Usable(st.rows[i.value], Some(send.from.uri), b.uri, send.now)
    ensures var w' := Apply(c, w, send);
            var n := SndIndex(w.caches[send.from], send.from, b);
            && |w'.sent| == |w.sent| + 1 && b in w'.caches && send.from in w'.caches
            && SndIndex(w'.caches[send.from], send.from, b) == n + 1
            && (n <= RcvIndex(w.caches[b], b, send.from) + MAX_DERIVATION_NUMBER
                <==> Delivery(c, w', |w.sent|, b, validity).1 == Accepted(n, send.text, Some(send.contentType)))
  {
    hide Apply, SndIndex, RcvIndex, FindPart, Delivery, SenderOk, ReceiverOk, KeyedRows, PacketOk, AcceptanceOk,
         Increasing;
    var a := send.from;
    var s := ss[(a, b)];
    assert CacheOk(a, w.caches[a]) && PairOk(c, s, w, (a, b).0, (a, b).1);
    SendEmits(c, s, w, send, b);
    SendKeepsInv(c, ss, w, send);
    DeliveryOutcome(c, ss, Apply(c, w, send), |w.sent|, b, validity);
  }

  /**
   * After any run, delivering any packet of a session to any device of its URI, however late or often: it is
   * accepted exactly when it carries a part for the device whose index lies in the device's window, and then
   * the text and content type are those sent; otherwise the cache is left as it was.
   */
  lemma DeliveryInEveryRun(c: Suite, ss: Sessions, w: World, steps: seq<Step>, p: nat, b: Endpoint,
                           validity: Option<int64>)
    requires c.Lawful() && Initial(ss, w) && Feasible(c, w, steps)
    requires var v := Run(c, w, steps);
             p < |v.sent| && b in v.caches && b.uri == v.sent[p].toUri && (v.sent[p].from, b) in ss
    ensures var v := Run(c, w, steps);
            var pk := v.sent[p];
            var part := FindPart(pk.doc.parts, b.zid);
            var (st, r) := Delivery(c, v, p, b, validity);
            if part.Some? && part.value.index.Some?
               && InWindow(RcvIndex(v.caches[b], b, pk.from), part.value.index.value)
            then r == Accepted(part.value.index.value, pk.text, Some(pk.contentType))
                 && RcvIndex(st, b, pk.from) == part.value.index.value + 1
            else r == Rejected(UnableToDecrypt) && st == v.caches[b]
  {
    hide FindPart, Delivery, RcvIndex, Inv, Run, Feasible, CacheOk, Established;
    InitialInv(c, ss, w);
    RunKeepsInv(c, ss, w, steps);
    DeliveryOutcome(c, ss, Run(c, w, steps), p, b, validity);
  }

  /** After any run, a message sent and then delivered comes back whole at each device at most 100 behind. */
  lemma SendInEveryRun(c: Suite, ss: Sessions, w: World, steps: seq<Step>, send: Step, b: Endpoint,
                       validity: Option<int64>)
    requires c.Lawful() && Initial(ss, w) && Feasible(c, w, steps)
    requires var v := Run(c, w, steps);
             && send.Send? && Enabled(v, send) && b in v.caches && b.uri == send.toUri && (send.from, b) in ss
             && var st := v.caches[send.from];
                var i := Lookup(st.rows, send.from.uri, b.uri, b.zid);
                i.Some? && Usable(st.rows[i.value], Some(send.from.uri), b.uri, send.now)
    ensures var v := Run(c, w, steps);
            var v' := Apply(c, v, send);
            var n := SndIndex(v.caches[send.from], send.from, b);
            && |v'.sent| == |v.sent| + 1 && b in v'.caches
            && (n <= RcvIndex(v.caches[b], b, send.from) + MAX_DERIVATION_NUMBER
                <==> Delivery(c, v', |v.sent|, b, validity).1 == Accepted(n, send.text, Some(send.contentType)))
  {
    hide FindPart, Delivery, RcvIndex, SndIndex, Inv, Run, Feasible, CacheOk, Established, Apply, Usable, LookupFrom;
    InitialInv(c, ss, w);
    RunKeepsInv(c, ss, w, steps);
    SendThenDeliver(c, ss, Run(c, w, steps), send, b, validity);
  }

  /** Two devices after their ZRTP exchange: the runs above do start somewhere. */
  lemma SessionExists() returns (ss: Sessions, w: World, a: Endpoint, b: Endpoint)
    ensures Initial(ss, w) && (a, b) in ss && (b, a) in ss && a != b
    ensures Usable(w.caches[a].rows[0], Some(a.uri), b.uri, 0)
  {
    hide FromBe32, Be32;
    var key: Blob := seq(32, _ => 7);
    a, b := Endpoint("a", seq(12, _ => 1)), Endpoint("b", seq(12, _ => 2));
    var date := Be64(0);
    Be64RoundTrip(0);
    var ra := Row(0, "a", "b", b.zid, [1], key, key, Be32(0), key, key, Be32(0), date);
    var rb := Row(0, "b", "a", a.zid, [1], key, key, Be32(0), key, key, Be32(0), date);
    var s := Session(key, key);
    ss := map[(a, b) := s, (b, a) := s];
    w := World(map[a := CacheState([ra], map["a" := a.zid]), b := CacheState([rb], map["b" := b.zid])], [], []);
    assert Lookup([ra], "a", "b", b.zid) == Some(0) && Lookup([rb], "b", "a", a.zid) == Some(0);
    assert Established(s, w, a, b) && Established(s, w, b, a);
  }

  // ---- One receiver against arbitrary documents ------------------------------------------------------

  /** Any document at all, forged or genuine, as it reaches one device. */
  datatype Arrival = Arrival(doc: Option<Doc>, peerUri: string, validity: Option<int64>)

  /** The arrival was accepted as one of the peer's. */
  predicate Counts(x: Arrival, r: Reception, peer: Endpoint) {
    r.Accepted? && x.peerUri == peer.uri && x.doc.Some? && x.doc.value.zid == Some(peer.zid)
  }

  /** The indices accepted from the device `zid` of `peerUri` while the arrivals are processed. */
  ghost function AcceptedIndices(c: Suite, st: CacheState, self: Endpoint, peer: Endpoint, xs: seq<Arrival>)
    : seq<uint32>
    requires c.Lawful()
    decreases |xs|
  {
    if xs == [] then []
    else
      var x := xs[0];
      var (st', r) := ReceptionResult(c, st, x.doc, self.uri, x.peerUri, x.validity);
      (if Counts(x, r, peer) then [r.index] else [])
      + AcceptedIndices(c, st', self, peer, xs[1..])
  }

  /** One arrival: a rejection changes nothing; an acceptance moves past the index it used. */
  lemma ArrivalEffect(c: Suite, st: CacheState, self: Endpoint, x: Arrival, peer: Endpoint)
    requires c.Lawful() && KeyedRows(st.rows)
    ensures var (st', r) := ReceptionResult(c, st, x.doc, self.uri, x.peerUri, x.validity);
            && KeyedRows(st'.rows)
            && (r.Rejected? ==> st' == st)
            && (Counts(x, r, peer) ==>
                  RcvIndex(st, self, peer) <= r.index
                  && RcvIndex(st', self, peer) == (r.index + 1) % TWO_32)
            && (!Counts(x, r, peer) ==>
                  RcvIndex(st', self, peer) == RcvIndex(st, self, peer))
  {
    hide FromBe32, Be32, LookupFrom, PartFrom, Decrypted, DerivedN;
    var (st', r) := ReceptionResult(c, st, x.doc, self.uri, x.peerUri, x.validity);
    if r.Accepted? {
      var zid := st.selfZids[self.uri];
      var row := Lookup(st.rows, self.uri, x.peerUri, x.doc.value.zid.value).value;
      var part := FindPart(x.doc.value.parts, zid).value;
      var k0 := RcvKeyOf(st.rows[row]);
      DerivedNLength(c, k0, r.index - k0.sessionIndex);
      DerivedNIndex(c, k0, r.index - k0.sessionIndex);
      var k := Opened(c, k0, part, zid).0;
      assert k.zuid == k0.zuid && k.sessionIndex == (r.index + 1) % TWO_32;
      assert SameDevices(st.rows, st'.rows);
      KeyedRowsStable(st.rows, st'.rows);
      LookupStable(st.rows, st'.rows, self.uri, peer.uri, peer.zid);
      Be32RoundTrip(k.sessionIndex);
    }
  }

  predicate StrictlyIncreasing(xs: seq<uint32>) { forall i, j | 0 <= i < j < |xs| :: xs[i] < xs[j] }

  /** The index after which the counter wraps, if accepted at all, is the last one accepted. */
  predicate WrapsLast(xs: seq<uint32>) { forall i | 0 <= i < |xs| - 1 :: xs[i] != TWO_32 - 1 }

  /** The indices accepted strictly increase if and only if the wrap comes last; and then none is below the stored. */
  lemma {:induction false} IncreasingIffWrapsLast(c: Suite, st: CacheState, self: Endpoint, peer: Endpoint,
                                                  xs: seq<Arrival>)
    requires c.Lawful() && KeyedRows(st.rows)
    ensures var taken := AcceptedIndices(c, st, self, peer, xs);
            && (StrictlyIncreasing(taken) <==> WrapsLast(taken))
            && (WrapsLast(taken) ==> forall i | 0 <= i < |taken| :: RcvIndex(st, self, peer) <= taken[i])
    decreases |xs|
  {
    hide ReceptionResult, RcvIndex, KeyedRows, StrictlyIncreasing, WrapsLast;
    if xs == [] {
      NoneIncreasing();
    } else {
      var x := xs[0];
      ArrivalEffect(c, st, self, x, peer);
      var (st', r) := ReceptionResult(c, st, x.doc, self.uri, x.peerUri, x.validity);
      var tail := AcceptedIndices(c, st', self, peer, xs[1..]);
      IncreasingIffWrapsLast(c, st', self, peer, xs[1..]);
      if Counts(x, r, peer) {
        IncreasingCons(r.index, tail, RcvIndex(st', self, peer));
        assert AcceptedIndices(c, st, self, peer, xs) == [r.index] + tail;
      } else {
        assert [] + tail == tail;
        assert AcceptedIndices(c, st, self, peer, xs) == tail;
      }
    }
  }

  lemma NoneIncreasing()
    ensures StrictlyIncreasing([]) && WrapsLast([])
  {
  }

  /** One index in front of others that start at the stored one after it. */
  lemma IncreasingCons(h: uint32, tail: seq<uint32>, next: uint32)
    requires next == (h + 1) % TWO_32
    requires StrictlyIncreasing(tail) <==> WrapsLast(tail)
    requires WrapsLast(tail) ==> forall i | 0 <= i < |tail| :: next <= tail[i]
    ensures StrictlyIncreasing([h] + tail) <==> WrapsLast([h] + tail)
    ensures WrapsLast([h] + tail) ==> forall i | 0 <= i < |[h] + tail| :: h <= ([h] + tail)[i]
  {
    var xs := [h] + tail;
    assert forall i | 1 <= i < |xs| :: xs[i] == tail[i - 1];
    assert xs[0] == h;
    if WrapsLast(xs) && tail != [] {
      assert forall i | 0 <= i < |tail| - 1 :: tail[i] == xs[i + 1];
      assert next == h + 1;
    }
    if StrictlyIncreasing(xs) {
      assert xs[|xs| - 1] < TWO_32;
    }
  }

  /** The index a document carries for this device, read before anything is decrypted. */
  function CarriedIndex(st: CacheState, self: Endpoint, x: Arrival): Option<uint32> {
    if x.doc.None? || self.uri !in st.selfZids then None
    else
      match FindPart(x.doc.value.parts, st.selfZids[self.uri])
      case None => None
      case Some(part) => Some(part.index.GetOr(0))
  }

  /** An acceptance is at the index carried, and no reception changes who this device is. */
  lemma ArrivalCarries(c: Suite, st: CacheState, self: Endpoint, x: Arrival, peer: Endpoint)
    requires c.Lawful()
    ensures var (st', r) := ReceptionResult(c, st, x.doc, self.uri, x.peerUri, x.validity);
            st'.selfZids == st.selfZids && (Counts(x, r, peer) ==> CarriedIndex(st, self, x) == Some(r.index))
  {
    hide FromBe32, Be32, LookupFrom, PartFrom, Decrypted, DerivedN;
  }

  /** Once a document carrying index 2^32 - 1 has been accepted from the peer, no other one is. */
  ghost predicate NothingAfterWrap(c: Suite, st: CacheState, self: Endpoint, peer: Endpoint, xs: seq<Arrival>,
                                   wrapped: bool)
    requires c.Lawful()
    decreases |xs|
  {
    xs == [] ||
    var x := xs[0];
    var (st', r) := ReceptionResult(c, st, x.doc, self.uri, x.peerUri, x.validity);
    var taken := Counts(x, r, peer);
    && !(wrapped && taken)
    && NothingAfterWrap(c, st', self, peer, xs[1..],
                        wrapped || (taken && CarriedIndex(st, self, x) == Some(TWO_32 - 1)))
  }

  lemma {:induction false} WrapsLastIff(c: Suite, st: CacheState, self: Endpoint, peer: Endpoint, xs: seq<Arrival>,
                                        wrapped: bool)
    requires c.Lawful()
    ensures var taken := AcceptedIndices(c, st, self, peer, xs);
            NothingAfterWrap(c, st, self, peer, xs, wrapped) <==> WrapsLast(taken) && (wrapped ==> taken == [])
    decreases |xs|
  {
    hide ReceptionResult, CarriedIndex, WrapsLast;
    if xs == [] {
      NoneIncreasing();
    } else {
      var x := xs[0];
      ArrivalCarries(c, st, self, x, peer);
      var (st', r) := ReceptionResult(c, st, x.doc, self.uri, x.peerUri, x.validity);
      var tail := AcceptedIndices(c, st', self, peer, xs[1..]);
      if Counts(x, r, peer) {
        WrapsLastIff(c, st', self, peer, xs[1..], wrapped || r.index == TWO_32 - 1);
        WrapsLastCons(r.index, tail);
        assert AcceptedIndices(c, st, self, peer, xs) == [r.index] + tail;
      } else {
        WrapsLastIff(c, st', self, peer, xs[1..], wrapped);
        assert [] + tail == tail;
        assert AcceptedIndices(c, st, self, peer, xs) == tail;
      }
    }
  }

  lemma WrapsLastCons(h: uint32, tail: seq<uint32>)
    ensures WrapsLast([h] + tail) <==> WrapsLast(tail) && (h == TWO_32 - 1 ==> tail == [])
  {
    var xs := [h] + tail;
    assert xs[0] == h;
    assert forall i | 0 <= i < |tail| :: xs[i + 1] == tail[i];
  }

  /**
   * Against any sequence of documents, the indices accepted from one peer strictly increase if and only if
   * nothing is accepted once a document carrying index 2^32 - 1 has been; and then none is below the stored one.
   */
  lemma NoReplayIff(c: Suite, st: CacheState, self: Endpoint, peer: Endpoint, xs: seq<Arrival>)
    requires c.Lawful() && KeyedRows(st.rows)
    ensures var taken := AcceptedIndices(c, st, self, peer, xs);
            && (StrictlyIncreasing(taken) <==> NothingAfterWrap(c, st, self, peer, xs, false))
            && (StrictlyIncreasing(taken) ==> forall i | 0 <= i < |taken| :: RcvIndex(st, self, peer) <= taken[i])
  {
    hide AcceptedIndices, RcvIndex, KeyedRows, NothingAfterWrap, StrictlyIncreasing, WrapsLast;
    IncreasingIffWrapsLast(c, st, self, peer, xs);
    WrapsLastIff(c, st, self, peer, xs, false);
  }

  /** In particular when no document carries that index for this device. */
  lemma NoReplay(c: Suite, st: CacheState, self: Endpoint, peer: Endpoint, xs: seq<Arrival>)
    requires c.Lawful() && KeyedRows(st.rows)
    requires forall x <- xs :: CarriedIndex(st, self, x) != Some(TWO_32 - 1)
    ensures var taken := AcceptedIndices(c, st, self, peer, xs);
            StrictlyIncreasing(taken) && forall i | 0 <= i < |taken| :: RcvIndex(st, self, peer) <= taken[i]
  {
    hide AcceptedIndices, RcvIndex, KeyedRows, CarriedIndex;
    UncarriedUntaken(c, st, self, peer, xs);
    IncreasingIffWrapsLast(c, st, self, peer, xs);
  }

  lemma {:induction false} UncarriedUntaken(c: Suite, st: CacheState, self: Endpoint, peer: Endpoint, xs: seq<Arrival>)
    requires c.Lawful() && forall x <- xs :: CarriedIndex(st, self, x) != Some(TWO_32 - 1)
    ensures TWO_32 - 1 !in AcceptedIndices(c, st, self, peer, xs)
    decreases |xs|
  {
    hide ReceptionResult, CarriedIndex;
    if xs != [] {
      var x := xs[0];
      ArrivalCarries(c, st, self, x, peer);
      var (st', r) := ReceptionResult(c, st, x.doc, self.uri, x.peerUri, x.validity);
      forall u <- xs[1..] ensures CarriedIndex(st', self, u) != Some(TWO_32 - 1) { SameCarried(st, st', self, u); }
      UncarriedUntaken(c, st', self, peer, xs[1..]);
    }
  }

  lemma SameCarried(st: CacheState, st': CacheState, self: Endpoint, x: Arrival)
    requires st'.selfZids == st.selfZids
    ensures CarriedIndex(st', self, x) == CarriedIndex(st, self, x)
  {
  }

  /** Each arrival moves the receiving index by at most 101, so the accepted indices stay below a known bound. */
  lemma {:induction false} AcceptedBelow(c: Suite, st: CacheState, self: Endpoint, peer: Endpoint, xs: seq<Arrival>)
    requires c.Lawful() && KeyedRows(st.rows)
    requires RcvIndex(st, self, peer) + |xs| * (MAX_DERIVATION_NUMBER + 1) < TWO_32
    ensures forall i <- AcceptedIndices(c, st, self, peer, xs) ::
              i < RcvIndex(st, self, peer) + |xs| * (MAX_DERIVATION_NUMBER + 1)
    decreases |xs|
  {
    hide ReceptionResult, RcvIndex, KeyedRows;
    if xs != [] {
      var x := xs[0];
      ArrivalEffect(c, st, self, x, peer);
      ArrivalAdvance(c, st, self, x, peer);
      var (st', r) := ReceptionResult(c, st, x.doc, self.uri, x.peerUri, x.validity);
      AcceptedBelow(c, st', self, peer, xs[1..]);
    }
  }

  lemma ArrivalAdvance(c: Suite, st: CacheState, self: Endpoint, x: Arrival, peer: Endpoint)
    requires c.Lawful()
    ensures var (st', r) := ReceptionResult(c, st, x.doc, self.uri, x.peerUri, x.validity);
            Counts(x, r, peer) ==> r.index <= RcvIndex(st, self, peer) + MAX_DERIVATION_NUMBER
  {
    hide FromBe32, Be32, LookupFrom, PartFrom, Decrypted, DerivedN;
  }

  /** The same as a promise on the input: far enough from the wrap-around, no index is ever taken twice. */
  lemma NoReplayBeforeWrap(c: Suite, st: CacheState, self: Endpoint, peer: Endpoint, xs: seq<Arrival>)
    requires c.Lawful() && KeyedRows(st.rows)
    requires RcvIndex(st, self, peer) + |xs| * (MAX_DERIVATION_NUMBER + 1) < TWO_32
    ensures var taken := AcceptedIndices(c, st, self, peer, xs);
            StrictlyIncreasing(taken) && forall i | 0 <= i < |taken| :: RcvIndex(st, self, peer) <= taken[i]
  {
    hide AcceptedIndices, RcvIndex, KeyedRows;
    AcceptedBelow(c, st, self, peer, xs);
    IncreasingIffWrapsLast(c, st, self, peer, xs);
    var taken := AcceptedIndices(c, st, self, peer, xs);
    forall i | 0 <= i < |taken| ensures taken[i] != TWO_32 - 1 { assert taken[i] in taken; }
  }

  // The wrap-around: one row for one peer, and what that peer sends under the key in it.

  function StateWith(k: KeyMaterial, self: Endpoint, peerUri: string): CacheState {
    CacheState([Row(k.zuid, self.uri, peerUri, k.peerZid, [1], k.key, k.sessionId, Be32(k.sessionIndex),
                    k.key, k.sessionId, Be32(k.sessionIndex), Be64(0))],
               map[self.uri := self.zid])
  }

  function SentUnder(c: Suite, k: KeyMaterial, peerUri: string, selfZid: Blob, text: Blob): Arrival
    requires |k.key| == 32
  {
    Arrival(Some(Doc(Some(k.peerZid), [Part(Some(selfZid), Some(k.sessionIndex),
                                            Some(Encrypted(c, k.(peerZid := selfZid), text, k.peerZid)), None)])),
            peerUri, None)
  }

  /** The genuine message under the key held is accepted, and leaves the derived key. */
  lemma SentUnderAccepted(c: Suite, st: CacheState, k: KeyMaterial, self: Endpoint, peerUri: string, text: Blob)
    requires c.Lawful() && |k.key| == 32 && |k.sessionId| == 32
    requires self.uri in st.selfZids && st.selfZids[self.uri] == self.zid
    requires |st.rows| == 1 && MatchesDevice(st.rows[0], self.uri, peerUri, k.peerZid) && WellFormedRcv(st.rows[0])
    requires RcvKeyOf(st.rows[0]) == k
    ensures var x := SentUnder(c, k, peerUri, self.zid, text);
            ReceptionResult(c, st, x.doc, self.uri, peerUri, None)
            == (st.(rows := [Stored(st.rows[0], Derived(c, k), Receiver, None)]), Accepted(k.sessionIndex, text, None))
  {
    hide FromBe32, Be32, Derived, Encrypted, Decrypted;
    var x := SentUnder(c, k, peerUri, self.zid, text);
    var snd := k.(peerZid := self.zid);
    EncryptedOpens(c, snd, k, text, k.peerZid, self.zid);
    assert DerivedN(c, k, 0) == k;
    assert Lookup(st.rows, self.uri, peerUri, k.peerZid) == Some(0);
    assert FindPart(x.doc.value.parts, self.zid) == Some(x.doc.value.parts[0]);
    assert Derived(c, k).zuid == k.zuid by { DerivedZuid(c, k); }
    assert Written(st.rows, Derived(c, k), Receiver, None) == [Stored(st.rows[0], Derived(c, k), Receiver, None)];
  }

  lemma DerivedZuid(c: Suite, k: KeyMaterial)
    requires c.Lawful()
    ensures Derived(c, k) == k.(key := Derived(c, k).key, sessionIndex := (k.sessionIndex + 1) % TWO_32)
    ensures |Derived(c, k).key| == 32
  {
    hide DerivationInput;
  }

  /**
   * The failing run: a peer whose counter stands at 2^32 - 1 sends two messages, both are accepted, and the
   * second carries index 0, which the session has used before.
   */
  lemma WrapReopensIndices(c: Suite, k: KeyMaterial, self: Endpoint, peerUri: string, text: Blob)
    requires c.Lawful() && |k.key| == 32 && |k.sessionId| == 32 && k.sessionIndex == TWO_32 - 1
    ensures var st := StateWith(k, self, peerUri);
            && |Derived(c, k).key| == 32 && KeyedRows(st.rows)
            && var k1 := Derived(c, k);
               var xs := [SentUnder(c, k, peerUri, self.zid, text), SentUnder(c, k1, peerUri, self.zid, text)];
               var taken := AcceptedIndices(c, st, self, Endpoint(peerUri, k.peerZid), xs);
               taken == [TWO_32 - 1, 0] && !StrictlyIncreasing(taken)
  {
    hide FromBe32, Be32, Derived, SentUnder, ReceptionResult;
    DerivedZuid(c, k);
    Be32RoundTrip(k.sessionIndex);
    Be32RoundTrip(0);
    var st, k1, peer := StateWith(k, self, peerUri), Derived(c, k), Endpoint(peerUri, k.peerZid);
    var x0, x1 := SentUnder(c, k, peerUri, self.zid, text), SentUnder(c, k1, peerUri, self.zid, text);
    SentUnderAccepted(c, st, k, self, peerUri, text);
    var st1 := st.(rows := [Stored(st.rows[0], k1, Receiver, None)]);
    SentUnderAccepted(c, st1, k1, self, peerUri, text);
    SentUnderCounts(c, k, peerUri, self.zid, text);
    SentUnderCounts(c, k1, peerUri, self.zid, text);
    assert [x0, x1][1..] == [x1] && [x1][1..] == [];
    assert AcceptedIndices(c, st1, self, peer, [x1]) == [0];
    var taken := AcceptedIndices(c, st, self, peer, [x0, x1]);
    assert taken == [TWO_32 - 1, 0];
    assert taken[0] > taken[1];
  }

  lemma SentUnderCounts(c: Suite, k: KeyMaterial, peerUri: string, selfZid: Blob, text: Blob)
    requires |k.key| == 32
    ensures var x := SentUnder(c, k, peerUri, selfZid, text);
            x.peerUri == peerUri && x.validity == None && x.doc.Some? && x.doc.value.zid == Some(k.peerZid)
  {
  }
}
