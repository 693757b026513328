/**
 The state of the SFU: rooms of peers, and transports, producers and consumers
 kept in maps of their own and listed by key with the peer that owns them.

 An entry's `handle` tells whether a mediasoup object backs it; without one the
 services run in fallback mode.
 */
module SfuStore {
  import opened Common

  datatype Kind = Audio | Video | Screen
  datatype Direction = Send | Recv

  datatype Peer = Peer(socketId: Id, transports: set<Id>, producers: set<Id>, consumers: set<Id>)
  datatype Room = Room(peers: map<Id, Peer>, router: bool)
  datatype Transport = Transport(roomId: Id, userId: Id, direction: Direction, connected: bool, handle: bool)
  datatype Producer = Producer(roomId: Id, userId: Id, transportId: Id, kind: Kind, handle: bool)
  datatype Consumer = Consumer(roomId: Id, userId: Id, transportId: Id, producerId: Id, kind: Kind, handle: bool)

  /** The four maps, and the keys generated so far. */
  datatype Store = Store(
    rooms: map<Id, Room>,
    transports: map<Id, Transport>,
    producers: map<Id, Producer>,
    consumers: map<Id, Consumer>,
    issued: set<Id>)

  const EmptyStore := Store(map[], map[], map[], map[], {})

  predicate HasPeer(s: Store, r: Id, u: Id) {
    r in s.rooms && u in s.rooms[r].peers
  }

  function PeerAt(s: Store, r: Id, u: Id): Peer
    requires HasPeer(s, r, u)
  {
    s.rooms[r].peers[u]
  }

  /** The producer keys (r, u) lists; none for who is not there. */
  function ProducersOf(s: Store, r: Id, u: Id): set<Id> {
    if HasPeer(s, r, u) then PeerAt(s, r, u).producers else {}
  }

  function SetPeer(s: Store, r: Id, u: Id, p: Peer): Store
    requires r in s.rooms
  {
    s.(rooms := s.rooms[r := s.rooms[r].(peers := s.rooms[r].peers[u := p])])
  }

  function SetRouter(s: Store, r: Id, router: bool): Store
    requires r in s.rooms
  {
    s.(rooms := s.rooms[r := s.rooms[r].(router := router)])
  }

  // ------------------------------------------------------------------ invariant

  ghost predicate TransportListed(s: Store, id: Id)
    requires id in s.transports
  {
    var t := s.transports[id];
    HasPeer(s, t.roomId, t.userId) && id in PeerAt(s, t.roomId, t.userId).transports
  }

  ghost predicate ProducerListed(s: Store, id: Id)
    requires id in s.producers
  {
    var p := s.producers[id];
    HasPeer(s, p.roomId, p.userId) && id in PeerAt(s, p.roomId, p.userId).producers
  }

  ghost predicate ConsumerListed(s: Store, id: Id)
    requires id in s.consumers
  {
    var c := s.consumers[id];
    HasPeer(s, c.roomId, c.userId) && id in PeerAt(s, c.roomId, c.userId).consumers
  }

  /** A key the peer lists is either stale or belongs to this peer in this room. */
  ghost predicate ListsOwn(s: Store, r: Id, u: Id)
    requires HasPeer(s, r, u)
  {
    var p := PeerAt(s, r, u);
    && (forall id | id in p.transports && id in s.transports ::
          s.transports[id].roomId == r && s.transports[id].userId == u)
    && (forall id | id in p.producers && id in s.producers ::
          s.producers[id].roomId == r && s.producers[id].userId == u)
    && (forall id | id in p.consumers && id in s.consumers ::
          s.consumers[id].roomId == r && s.consumers[id].userId == u)
    && p.transports + p.producers + p.consumers <= s.issued
    && p.transports !! s.producers.Keys
  }

  /** Every entry belongs to an existing peer of an existing room that lists it. */
  ghost predicate AllListed(s: Store) {
    && (forall id | id in s.transports :: TransportListed(s, id))
    && (forall id | id in s.producers :: ProducerListed(s, id))
    && (forall id | id in s.consumers :: ConsumerListed(s, id))
  }

  /** Every listed key that is live belongs to the peer that lists it. */
  ghost predicate AllOwn(s: Store) {
    forall r: Id, u: Id | HasPeer(s, r, u) :: ListsOwn(s, r, u)
  }

  /**
   The index invariant of the store. Listed keys may be stale: closing a producer
   does not look for its owner.
   */
  ghost predicate Inv(s: Store) {
    && AllListed(s) && AllOwn(s)
    && s.transports.Keys + s.producers.Keys + s.consumers.Keys <= s.issued
  }

  // --------------------------------------------------------------------- steps

  function EnsureRoom(s: Store, r: Id): Store {
    if r in s.rooms then s else s.(rooms := s.rooms[r := Room(map[], false)])
  }

  /** Everything of (r, u) but its transports is dropped; this is what a rejoin does in fallback mode. */
  function Cleaned(s: Store, r: Id, u: Id): Store
    requires HasPeer(s, r, u)
  {
    var p := PeerAt(s, r, u);
    SetPeer(s.(producers := s.producers - p.producers, consumers := s.consumers - p.consumers),
            r, u, p.(producers := {}, consumers := {}))
  }

  /** `joinRoom` in fallback mode. */
  function AfterJoin(s: Store, r: Id, u: Id, socketId: Id): Store {
    var e := EnsureRoom(s, r);
    if !HasPeer(e, r, u) then SetPeer(e, r, u, Peer(socketId, {}, {}, {}))
    else
      var c := Cleaned(e, r, u);
      SetPeer(c, r, u, PeerAt(c, r, u).(socketId := socketId))
  }

  function HandledConsumers(consumers: map<Id, Consumer>, listed: set<Id>): set<Id> {
    set id | id in listed && id in consumers && consumers[id].handle
  }

  function HandledProducers(producers: map<Id, Producer>, listed: set<Id>): set<Id> {
    set id | id in listed && id in producers && producers[id].handle
  }

  /** The live consumers the peer lists that the library backs. */
  function ConsumerHandles(s: Store, r: Id, u: Id): set<Id>
    requires HasPeer(s, r, u)
  {
    HandledConsumers(s.consumers, PeerAt(s, r, u).consumers)
  }

  /** The live producers the peer lists that the library backs. */
  function ProducerHandles(s: Store, r: Id, u: Id): set<Id>
    requires HasPeer(s, r, u)
  {
    HandledProducers(s.producers, PeerAt(s, r, u).producers)
  }

  /** `after` is `before` without some of `removable`. */
  ghost predicate PartlyGone<V>(before: map<Id, V>, after: map<Id, V>, removable: set<Id>) {
    && after.Keys <= before.Keys
    && (forall id | id in after :: after[id] == before[id])
    && before.Keys - after.Keys <= removable
  }

  /**
   What `_cleanupPeerResources` can leave: it returns at the first consumer with
   a handle, having dropped some of those without; else at the first producer with
   a handle, all consumers and some producers gone; else everything is dropped.
   */
  ghost predicate PartlyCleaned(s: Store, c: Store, r: Id, u: Id)
    requires HasPeer(s, r, u)
  {
    var p := PeerAt(s, r, u);
    if ConsumerHandles(s, r, u) != {} then
      && c == s.(consumers := c.consumers)
      && PartlyGone(s.consumers, c.consumers, p.consumers - ConsumerHandles(s, r, u))
    else if ProducerHandles(s, r, u) != {} then
      && c == SetPeer(s.(consumers := s.consumers - p.consumers, producers := c.producers), r, u, p.(consumers := {}))
      && PartlyGone(s.producers, c.producers, p.producers - ProducerHandles(s, r, u))
    else c == Cleaned(s, r, u)
  }

  /** `joinRoom` of a peer that is there already: its entries cleaned up as far as it goes, its socket replaced. */
  ghost predicate Rejoins(s: Store, r: Id, u: Id, socketId: Id, w: Store)
    requires HasPeer(s, r, u)
  {
    exists c: Store ::
      PartlyCleaned(s, c, r, u) && HasPeer(c, r, u) && w == SetPeer(c, r, u, PeerAt(c, r, u).(socketId := socketId))
  }

  /** The rooms without `u` in those of `left`; rooms left empty are gone. */
  function RoomsWithout(rooms: map<Id, Room>, left: set<Id>, u: Id): map<Id, Room> {
    map r | r in rooms && !(r in left && rooms[r].peers.Keys == {u}) ::
      if r in left then rooms[r].(peers := rooms[r].peers - {u}) else rooms[r]
  }

  /** (r, u) for the rooms of `left`: peers gone, their entries gone, rooms left empty gone. */
  function LeftRooms(s: Store, left: set<Id>, u: Id): Store {
    s.(rooms := RoomsWithout(s.rooms, left, u),
       transports := map id | id in s.transports
                       && !(s.transports[id].userId == u && s.transports[id].roomId in left) :: s.transports[id],
       producers := map id | id in s.producers
                      && !(s.producers[id].userId == u && s.producers[id].roomId in left) :: s.producers[id],
       consumers := map id | id in s.consumers
                      && !(s.consumers[id].userId == u && s.consumers[id].roomId in left) :: s.consumers[id])
  }

  /** `leaveRoom`: exactly the entries of (r, u) go, with the peer and an emptied room. */
  function AfterLeave(s: Store, r: Id, u: Id): Store {
    if HasPeer(s, r, u) then LeftRooms(s, {r}, u) else s
  }

  function RoomsOf(s: Store, u: Id): set<Id> {
    set r | r in s.rooms && u in s.rooms[r].peers
  }

  function AfterLeaveAll(s: Store, u: Id): Store {
    LeftRooms(s, RoomsOf(s, u), u)
  }

  /** `createWebRtcTransport`; the room is made even when the peer has not joined. */
  function AfterCreateTransport(s: Store, r: Id, u: Id, direction: Direction, id: Id, available: bool): Store {
    var e := EnsureRoom(s, r);
    if !HasPeer(e, r, u) then e
    else
      var router := e.rooms[r].router || available;
      var w := SetRouter(e, r, router);
      var p := PeerAt(w, r, u);
      SetPeer(w.(transports := w.transports[id := Transport(r, u, direction, false, available && router)],
                 issued := w.issued + {id}),
              r, u, p.(transports := p.transports + {id}))
  }

  function AfterConnect(s: Store, id: Id): Store {
    if id in s.transports then s.(transports := s.transports[id := s.transports[id].(connected := true)]) else s
  }

  predicate MayProduce(s: Store, u: Id, transportId: Id) {
    && transportId in s.transports
    && s.transports[transportId].userId == u && s.transports[transportId].direction == Send
  }

  function AfterProduce(s: Store, r: Id, u: Id, transportId: Id, kind: Kind, id: Id, available: bool): Store {
    if !MayProduce(s, u, transportId) then s
    else
      var e := EnsureRoom(s, r);
      if !HasPeer(e, r, u) then e
      else
        var handle := available && s.transports[transportId].handle;
        var p := PeerAt(e, r, u);
        SetPeer(e.(producers := e.producers[id := Producer(r, u, transportId, kind, handle)],
                   issued := e.issued + {id}),
                r, u, p.(producers := p.producers + {id}))
  }

  predicate MayConsume(s: Store, r: Id, u: Id, transportId: Id, producerId: Id) {
    && transportId in s.transports
    && s.transports[transportId].userId == u && s.transports[transportId].direction == Recv
    && producerId in s.producers && s.producers[producerId].roomId == r
  }

  /** The consumer is made by the library when it is available, the room has a router and the transport a handle. */
  predicate ConsumesByLibrary(s: Store, r: Id, transportId: Id, available: bool) {
    available && r in s.rooms && s.rooms[r].router && transportId in s.transports && s.transports[transportId].handle
  }

  /** What `consume` answers, in the order of its checks. */
  function ConsumeAnswer(s: Store, r: Id, u: Id, transportId: Id, producerId: Id, id: Id,
                         available: bool, canConsume: bool): Result<Id> {
    if !(transportId in s.transports && s.transports[transportId].userId == u
         && s.transports[transportId].direction == Recv)
    then Err(Failed("Invalid recv transport"))
    else if !(producerId in s.producers && s.producers[producerId].roomId == r) then Err(Failed("Producer not found"))
    else if !HasPeer(s, r, u) then Err(Failed("Peer not joined"))
    else if ConsumesByLibrary(s, r, transportId, available) && !canConsume
    then Err(Failed("Router cannot consume this producer"))
    else Ok(id)
  }

  function AfterConsume(s: Store, r: Id, u: Id, transportId: Id, producerId: Id, id: Id,
                        available: bool, canConsume: bool): Store {
    if !MayConsume(s, r, u, transportId, producerId) then s
    else
      var e := EnsureRoom(s, r);
      if !HasPeer(e, r, u) then e
      else
        var handle := ConsumesByLibrary(e, r, transportId, available);
        if handle && !canConsume then e
        else
          var p := PeerAt(e, r, u);
          SetPeer(e.(consumers := e.consumers[id :=
                       Consumer(r, u, transportId, producerId, s.producers[producerId].kind, handle)],
                     issued := e.issued + {id}),
                  r, u, p.(consumers := p.consumers + {id}))
  }

  /** The consumers of the closed producers. */
  function ConsumersOf(s: Store, closed: set<Id>): set<Id> {
    set id | id in s.consumers && s.consumers[id].producerId in closed
  }

  /** The consumer keys that `closeProducer` strikes from the list of user `v` of the named room. */
  function Struck(s: Store, closed: set<Id>, v: Id): set<Id> {
    set id | id in s.consumers && s.consumers[id].producerId in closed && s.consumers[id].userId == v
  }

  /**
   `closeProducer` for each key in `closed`, named by user `u` of room `r`: the
   producers and all their consumers go from the store, whoever owns them; keys
   are struck only from the lists of the named room.
   */
  function Closed(s: Store, r: Id, u: Id, closed: set<Id>): Store
    requires HasPeer(s, r, u)
  {
    s.(producers := s.producers - closed,
       consumers := s.consumers - ConsumersOf(s, closed),
       rooms := s.rooms[r := s.rooms[r].(peers :=
                  map v | v in s.rooms[r].peers ::
                    var p := s.rooms[r].peers[v];
                    Peer(p.socketId, p.transports, if v == u then p.producers - closed else p.producers,
                         p.consumers - Struck(s, closed, v)))])
  }

  function AfterCloseProducer(s: Store, r: Id, u: Id, producerId: Id): Store {
    if HasPeer(s, r, u) then Closed(s, r, u, {producerId}) else s
  }

  function AfterCloseUserProducers(s: Store, r: Id, u: Id): Store {
    if HasPeer(s, r, u) then Closed(s, r, u, PeerAt(s, r, u).producers) else s
  }

  /** The library's `transportclose` event on a producer made for (r, u). */
  function AfterProducerEvent(s: Store, r: Id, u: Id, id: Id): Store {
    var w := s.(producers := s.producers - {id});
    if HasPeer(w, r, u) then
      var p := PeerAt(w, r, u);
      SetPeer(w, r, u, p.(producers := p.producers - {id}))
    else w
  }

  /** The library's `transportclose` or `producerclose` event on a consumer made for (r, u). */
  function AfterConsumerEvent(s: Store, r: Id, u: Id, id: Id): Store {
    var w := s.(consumers := s.consumers - {id});
    if HasPeer(w, r, u) then
      var p := PeerAt(w, r, u);
      SetPeer(w, r, u, p.(consumers := p.consumers - {id}))
    else w
  }

  /** `invalidateAllRouters` after the worker died: no room keeps a router. */
  function AfterWorkerDied(s: Store): Store {
    s.(rooms := map r | r in s.rooms :: s.rooms[r].(router := false))
  }

  // ------------------------------------------------------- steps keep the invariant

  /** A peer of `w` lists nothing that it did not list in `s`. */
  ghost predicate ListsShrink(s: Store, w: Store, r: Id, u: Id)
    requires HasPeer(w, r, u)
  {
    var q := PeerAt(w, r, u);
    if HasPeer(s, r, u) then
      var p := PeerAt(s, r, u);
      q.transports <= p.transports && q.producers <= p.producers && q.consumers <= p.consumers
    else
      q.transports == {} && q.producers == {} && q.consumers == {}
  }

  /** No entry is new and none changes hands. */
  ghost predicate OwnersKept(s: Store, w: Store) {
    && (forall id | id in w.transports :: id in s.transports
          && w.transports[id].roomId == s.transports[id].roomId && w.transports[id].userId == s.transports[id].userId)
    && (forall id | id in w.producers :: id in s.producers && w.producers[id] == s.producers[id])
    && (forall id | id in w.consumers :: id in s.consumers && w.consumers[id] == s.consumers[id])
  }

  /** A step that only removes keeps the invariant if what remains is still listed. */
  lemma ShrinkKeepsInv(s: Store, w: Store)
    requires Inv(s) && w.issued == s.issued && OwnersKept(s, w) && AllListed(w)
    requires forall r: Id, u: Id | HasPeer(w, r, u) :: ListsShrink(s, w, r, u)
    ensures Inv(w)
  {
    forall r: Id, u: Id | HasPeer(w, r, u) ensures ListsOwn(w, r, u) {
      assert ListsShrink(s, w, r, u);
      if HasPeer(s, r, u) { assert ListsOwn(s, r, u); }
    }
  }

  /** `w` has the peers of `s`, each with lists at least as long. */
  ghost predicate PeersKept(s: Store, w: Store) {
    forall r: Id, u: Id | HasPeer(s, r, u) :: HasPeer(w, r, u)
      && PeerAt(s, r, u).transports <= PeerAt(w, r, u).transports
      && PeerAt(s, r, u).producers <= PeerAt(w, r, u).producers
      && PeerAt(s, r, u).consumers <= PeerAt(w, r, u).consumers
  }

  lemma PeersKeptListed(s: Store, w: Store)
    requires AllListed(s) && PeersKept(s, w) && OwnersKept(s, w)
    ensures AllListed(w)
  {
    forall id | id in w.transports ensures TransportListed(w, id) { assert TransportListed(s, id); }
    forall id | id in w.producers ensures ProducerListed(w, id) { assert ProducerListed(s, id); }
    forall id | id in w.consumers ensures ConsumerListed(w, id) { assert ConsumerListed(s, id); }
  }

  lemma EnsureRoomPeers(s: Store, r: Id, q: Id, u: Id)
    ensures HasPeer(EnsureRoom(s, r), q, u) <==> HasPeer(s, q, u)
    ensures HasPeer(s, q, u) ==> PeerAt(EnsureRoom(s, r), q, u) == PeerAt(s, q, u)
  {
  }

  lemma EnsureRoomKeepsInv(s: Store, r: Id)
    requires Inv(s)
    ensures Inv(EnsureRoom(s, r))
  {
    hide ListsOwn, TransportListed, ProducerListed, ConsumerListed;
    var e := EnsureRoom(s, r);
    forall q: Id, u: Id ensures HasPeer(e, q, u) <==> HasPeer(s, q, u)
                        ensures HasPeer(s, q, u) ==> PeerAt(e, q, u) == PeerAt(s, q, u)
    {
      EnsureRoomPeers(s, r, q, u);
    }
    PeersKeptListed(s, e);
    ShrinkKeepsInv(s, e);
  }

  lemma SetPeerPeers(s: Store, r: Id, u: Id, p: Peer, q: Id, v: Id)
    requires r in s.rooms
    ensures HasPeer(SetPeer(s, r, u, p), q, v) <==> HasPeer(s, q, v) || (q == r && v == u)
    ensures HasPeer(SetPeer(s, r, u, p), q, v) ==>
              PeerAt(SetPeer(s, r, u, p), q, v) == if q == r && v == u then p else PeerAt(s, q, v)
  {
  }

  lemma NewPeerKeepsInv(s: Store, r: Id, u: Id, socketId: Id)
    requires Inv(s) && r in s.rooms && !HasPeer(s, r, u)
    ensures Inv(SetPeer(s, r, u, Peer(socketId, {}, {}, {})))
  {
    hide ListsOwn, TransportListed, ProducerListed, ConsumerListed;
    var w := SetPeer(s, r, u, Peer(socketId, {}, {}, {}));
    forall q: Id, v: Id ensures HasPeer(w, q, v) <==> HasPeer(s, q, v) || (q == r && v == u)
                        ensures HasPeer(s, q, v) ==> HasPeer(w, q, v) && PeerAt(w, q, v) == PeerAt(s, q, v)
                        ensures HasPeer(w, q, v) ==> ListsShrink(s, w, q, v)
    {
      SetPeerPeers(s, r, u, Peer(socketId, {}, {}, {}), q, v);
    }
    PeersKeptListed(s, w);
    ShrinkKeepsInv(s, w);
  }

  lemma OnePeerListed(s: Store, w: Store, r: Id, u: Id, p: Peer)
    requires AllListed(s) && OwnersKept(s, w) && HasPeer(s, r, u)
    requires forall q: Id, v: Id | HasPeer(s, q, v) ::
               HasPeer(w, q, v) && PeerAt(w, q, v) == if q == r && v == u then p else PeerAt(s, q, v)
    requires p.transports == PeerAt(s, r, u).transports
    requires PeerAt(s, r, u).producers - p.producers !! w.producers.Keys
    requires PeerAt(s, r, u).consumers - p.consumers !! w.consumers.Keys
    ensures AllListed(w)
  {
    forall id | id in w.transports ensures TransportListed(w, id) { assert TransportListed(s, id); }
    forall id | id in w.producers ensures ProducerListed(w, id) { assert ProducerListed(s, id); }
    forall id | id in w.consumers ensures ConsumerListed(w, id) { assert ConsumerListed(s, id); }
  }

  /** `w` is `s` but for the entry maps and the one peer, who keeps its transports and lists no more than before. */
  lemma OnePeerShrinks(s: Store, w: Store, r: Id, u: Id, p: Peer)
    requires Inv(s) && HasPeer(s, r, u) && w.rooms == SetPeer(s, r, u, p).rooms && w.issued == s.issued
    requires OwnersKept(s, w)
    requires p.transports == PeerAt(s, r, u).transports
    requires p.producers <= PeerAt(s, r, u).producers && p.consumers <= PeerAt(s, r, u).consumers
    requires PeerAt(s, r, u).producers - p.producers !! w.producers.Keys
    requires PeerAt(s, r, u).consumers - p.consumers !! w.consumers.Keys
    ensures Inv(w)
  {
    hide ListsOwn, TransportListed, ProducerListed, ConsumerListed;
    forall q: Id, v: Id
      ensures HasPeer(w, q, v) <==> HasPeer(s, q, v)
      ensures HasPeer(s, q, v) ==> PeerAt(w, q, v) == if q == r && v == u then p else PeerAt(s, q, v)
      ensures HasPeer(w, q, v) ==> ListsShrink(s, w, q, v)
    {
      SetPeerPeers(s, r, u, p, q, v);
    }
    OnePeerListed(s, w, r, u, p);
    ShrinkKeepsInv(s, w);
  }

  /** Of the peer's own entries some are gone, and of what it no longer lists all; nothing else has changed. */
  ghost predicate ShrinksAt(s: Store, c: Store, r: Id, u: Id)
    requires HasPeer(s, r, u)
  {
    var p := PeerAt(s, r, u);
    && HasPeer(c, r, u) && c.rooms == SetPeer(s, r, u, PeerAt(c, r, u)).rooms
    && c.issued == s.issued && c.transports == s.transports && OwnersKept(s, c)
    && PeerAt(c, r, u).socketId == p.socketId && PeerAt(c, r, u).transports == p.transports
    && PeerAt(c, r, u).producers <= p.producers && PeerAt(c, r, u).consumers <= p.consumers
    && p.producers - PeerAt(c, r, u).producers !! c.producers.Keys
    && p.consumers - PeerAt(c, r, u).consumers !! c.consumers.Keys
    && s.producers.Keys - c.producers.Keys <= p.producers && s.consumers.Keys - c.consumers.Keys <= p.consumers
  }

  /** However far the cleanup goes, it takes entries of that peer only. */
  lemma PartlyCleanedShrinks(s: Store, c: Store, r: Id, u: Id)
    requires HasPeer(s, r, u) && PartlyCleaned(s, c, r, u)
    ensures ShrinksAt(s, c, r, u)
  {
    if c.rooms == s.rooms { SetPeerSame(s, r, u); }
  }

  lemma SetPeerSame(s: Store, r: Id, u: Id)
    requires HasPeer(s, r, u)
    ensures SetPeer(s, r, u, PeerAt(s, r, u)) == s
  {
    assert s.rooms[r].peers[u := PeerAt(s, r, u)] == s.rooms[r].peers;
    assert SetPeer(s, r, u, PeerAt(s, r, u)).rooms == s.rooms;
  }

  /** Even when a rejoin stops halfway the invariant survives. */
  lemma PartlyCleanedKeepsInv(s: Store, c: Store, r: Id, u: Id, socketId: Id)
    requires Inv(s) && HasPeer(s, r, u) && ShrinksAt(s, c, r, u)
    ensures Inv(SetPeer(c, r, u, PeerAt(c, r, u).(socketId := socketId)))
  {
    hide ListsOwn, TransportListed, ProducerListed, ConsumerListed;
    var p := PeerAt(c, r, u).(socketId := socketId);
    var w := SetPeer(c, r, u, p);
    SetPeerTwice(s, r, u, PeerAt(c, r, u), p);
    OnePeerShrinks(s, w, r, u, p);
  }

  lemma RejoinKeepsInv(s: Store, r: Id, u: Id, socketId: Id, w: Store)
    requires Inv(s) && HasPeer(s, r, u) && Rejoins(s, r, u, socketId, w)
    ensures Inv(w)
  {
    hide ListsOwn, TransportListed, ProducerListed, ConsumerListed;
    var c: Store :| PartlyCleaned(s, c, r, u) && HasPeer(c, r, u)
                    && w == SetPeer(c, r, u, PeerAt(c, r, u).(socketId := socketId));
    PartlyCleanedShrinks(s, c, r, u);
    PartlyCleanedKeepsInv(s, c, r, u, socketId);
  }

  lemma SetPeerTwice(s: Store, r: Id, u: Id, p: Peer, q: Peer)
    requires r in s.rooms
    ensures SetPeer(SetPeer(s, r, u, p), r, u, q) == SetPeer(s, r, u, q)
  {
    assert s.rooms[r].peers[u := p][u := q] == s.rooms[r].peers[u := q];
    assert SetPeer(SetPeer(s, r, u, p), r, u, q).rooms == SetPeer(s, r, u, q).rooms;
  }

  /** Without handles a rejoin is the fallback join. */
  lemma FallbackRejoin(s: Store, r: Id, u: Id, socketId: Id)
    requires HasPeer(s, r, u) && ConsumerHandles(s, r, u) == {} && ProducerHandles(s, r, u) == {}
    ensures forall w :: Rejoins(s, r, u, socketId, w) <==> w == AfterJoin(s, r, u, socketId)
  {
    var c := Cleaned(s, r, u);
    assert PartlyCleaned(s, c, r, u) && HasPeer(c, r, u);
    assert AfterJoin(s, r, u, socketId) == SetPeer(c, r, u, PeerAt(c, r, u).(socketId := socketId));
  }

  lemma JoinKeepsInv(s: Store, r: Id, u: Id, socketId: Id)
    requires Inv(s)
    ensures Inv(AfterJoin(s, r, u, socketId))
  {
    hide ListsOwn, TransportListed, ProducerListed, ConsumerListed;
    var e := EnsureRoom(s, r);
    EnsureRoomKeepsInv(s, r);
    if HasPeer(e, r, u) {
      CleanedShrinks(e, r, u);
      PartlyCleanedKeepsInv(e, Cleaned(e, r, u), r, u, socketId);
    } else {
      NewPeerKeepsInv(e, r, u, socketId);
    }
  }

  lemma CleanedShrinks(s: Store, r: Id, u: Id)
    requires HasPeer(s, r, u)
    ensures ShrinksAt(s, Cleaned(s, r, u), r, u)
  {
  }

  lemma LeftRoomsPeers(s: Store, left: set<Id>, u: Id, r: Id, v: Id)
    requires left <= RoomsOf(s, u)
    ensures HasPeer(LeftRooms(s, left, u), r, v) <==> HasPeer(s, r, v) && !(r in left && v == u)
    ensures HasPeer(LeftRooms(s, left, u), r, v) ==> PeerAt(LeftRooms(s, left, u), r, v) == PeerAt(s, r, v)
  {
    if HasPeer(s, r, v) && !(r in left && v == u) && r in left { assert v in s.rooms[r].peers.Keys; }
  }

  lemma LeftRoomsKeepsInv(s: Store, left: set<Id>, u: Id)
    requires Inv(s) && left <= RoomsOf(s, u)
    ensures Inv(LeftRooms(s, left, u))
  {
    hide ListsOwn, TransportListed, ProducerListed, ConsumerListed;
    var w := LeftRooms(s, left, u);
    LeftRoomsKeepsListed(s, w, left, u);
    forall r: Id, v: Id | HasPeer(w, r, v) ensures ListsShrink(s, w, r, v) { LeftRoomsPeers(s, left, u, r, v); }
    ShrinkKeepsInv(s, w);
  }

  lemma LeftRoomsKeepsListed(s: Store, w: Store, left: set<Id>, u: Id)
    requires AllListed(s) && left <= RoomsOf(s, u) && w == LeftRooms(s, left, u)
    ensures AllListed(w)
  {
    forall id | id in w.transports ensures TransportListed(w, id) {
      assert TransportListed(s, id);
      LeftRoomsPeers(s, left, u, w.transports[id].roomId, w.transports[id].userId);
    }
    forall id | id in w.producers ensures ProducerListed(w, id) {
      assert ProducerListed(s, id);
      LeftRoomsPeers(s, left, u, w.producers[id].roomId, w.producers[id].userId);
    }
    forall id | id in w.consumers ensures ConsumerListed(w, id) {
      assert ConsumerListed(s, id);
      LeftRoomsPeers(s, left, u, w.consumers[id].roomId, w.consumers[id].userId);
    }
  }

  /** Only the peer (r, u) lists `id`. */
  ghost predicate ListedOnlyBy(s: Store, r: Id, u: Id, id: Id) {
    forall q: Id, v: Id | HasPeer(s, q, v) && !(q == r && v == u) ::
      id !in PeerAt(s, q, v).transports + PeerAt(s, q, v).producers + PeerAt(s, q, v).consumers
  }

  /** `p` with `id` added to one of its lists. */
  ghost predicate Lists(p: Peer, q: Peer, id: Id) {
    || q == p.(transports := p.transports + {id})
    || q == p.(producers := p.producers + {id})
    || q == p.(consumers := p.consumers + {id})
  }

  lemma ListingOwn(s: Store, w: Store, r: Id, u: Id, p: Peer, id: Id, q: Id, v: Id)
    requires HasPeer(s, r, u) && id !in s.issued && Lists(PeerAt(s, r, u), p, id)
    requires s.transports.Keys + s.producers.Keys + s.consumers.Keys <= s.issued
    requires w == SetPeer(s, r, u, p).(issued := s.issued + {id}) && HasPeer(w, q, v)
    requires HasPeer(s, q, v) ==> ListsOwn(s, q, v)
    ensures ListsOwn(w, q, v)
    ensures !(q == r && v == u) ==>
              id !in PeerAt(w, q, v).transports + PeerAt(w, q, v).producers + PeerAt(w, q, v).consumers
  {
    SetPeerPeers(s, r, u, p, q, v);
  }

  lemma ListingListed(s: Store, w: Store, r: Id, u: Id, p: Peer, id: Id)
    requires Inv(s) && HasPeer(s, r, u) && Lists(PeerAt(s, r, u), p, id)
    requires w == SetPeer(s, r, u, p).(issued := s.issued + {id})
    ensures AllListed(w)
  {
    forall q: Id, v: Id
      ensures HasPeer(w, q, v) <==> HasPeer(s, q, v)
      ensures HasPeer(s, q, v) ==> PeerAt(w, q, v) == if q == r && v == u then p else PeerAt(s, q, v)
    {
      SetPeerPeers(s, r, u, p, q, v);
    }
    PeersKeptListed(s, w);
  }

  /** Listing a new key with a peer is harmless while nothing lives under it. */
  lemma ListingKeepsInv(s: Store, r: Id, u: Id, p: Peer, id: Id)
    requires Inv(s) && HasPeer(s, r, u) && id !in s.issued && Lists(PeerAt(s, r, u), p, id)
    ensures var w := SetPeer(s, r, u, p).(issued := s.issued + {id});
            Inv(w) && HasPeer(w, r, u) && PeerAt(w, r, u) == p && ListedOnlyBy(w, r, u, id)
  {
    var w := SetPeer(s, r, u, p).(issued := s.issued + {id});
    ListingListed(s, w, r, u, p, id);
    forall q: Id, v: Id | HasPeer(w, q, v)
      ensures ListsOwn(w, q, v)
      ensures !(q == r && v == u) ==>
                id !in PeerAt(w, q, v).transports + PeerAt(w, q, v).producers + PeerAt(w, q, v).consumers
    {
      ListingOwn(s, w, r, u, p, id, q, v);
    }
  }

  lemma AddTransportListed(s: Store, w: Store, id: Id, t: Transport)
    requires AllListed(s) && w == s.(transports := s.transports[id := t])
    requires HasPeer(s, t.roomId, t.userId) && id in PeerAt(s, t.roomId, t.userId).transports
    ensures AllListed(w)
  {
    forall x | x in w.transports ensures TransportListed(w, x) { assert x != id ==> TransportListed(s, x); }
    forall x | x in w.producers ensures ProducerListed(w, x) { assert ProducerListed(s, x); }
    forall x | x in w.consumers ensures ConsumerListed(w, x) { assert ConsumerListed(s, x); }
  }

  lemma AddTransportKeepsInv(s: Store, id: Id, t: Transport)
    requires Inv(s) && id in s.issued && id !in s.transports
    requires HasPeer(s, t.roomId, t.userId) && id in PeerAt(s, t.roomId, t.userId).transports
    requires ListedOnlyBy(s, t.roomId, t.userId, id)
    ensures Inv(s.(transports := s.transports[id := t]))
  {
    hide TransportListed, ProducerListed, ConsumerListed;
    var w := s.(transports := s.transports[id := t]);
    assert AllListed(w) by { AddTransportListed(s, w, id, t); }
    forall q: Id, x: Id | HasPeer(w, q, x) ensures ListsOwn(w, q, x) { assert ListsOwn(s, q, x); }
  }

  lemma AddProducerListed(s: Store, w: Store, id: Id, p: Producer)
    requires AllListed(s) && w == s.(producers := s.producers[id := p])
    requires HasPeer(s, p.roomId, p.userId) && id in PeerAt(s, p.roomId, p.userId).producers
    ensures AllListed(w)
  {
    forall x | x in w.transports ensures TransportListed(w, x) { assert TransportListed(s, x); }
    forall x | x in w.producers ensures ProducerListed(w, x) { assert x != id ==> ProducerListed(s, x); }
    forall x | x in w.consumers ensures ConsumerListed(w, x) { assert ConsumerListed(s, x); }
  }

  lemma AddProducerKeepsInv(s: Store, id: Id, p: Producer)
    requires Inv(s) && id in s.issued && id !in s.producers
    requires HasPeer(s, p.roomId, p.userId) && id in PeerAt(s, p.roomId, p.userId).producers
    requires id !in PeerAt(s, p.roomId, p.userId).transports
    requires ListedOnlyBy(s, p.roomId, p.userId, id)
    ensures Inv(s.(producers := s.producers[id := p]))
  {
    hide TransportListed, ProducerListed, ConsumerListed;
    var w := s.(producers := s.producers[id := p]);
    assert AllListed(w) by { AddProducerListed(s, w, id, p); }
    forall q: Id, x: Id | HasPeer(w, q, x) ensures ListsOwn(w, q, x) { assert ListsOwn(s, q, x); }
  }

  lemma AddConsumerListed(s: Store, w: Store, id: Id, c: Consumer)
    requires AllListed(s) && w == s.(consumers := s.consumers[id := c])
    requires HasPeer(s, c.roomId, c.userId) && id in PeerAt(s, c.roomId, c.userId).consumers
    ensures AllListed(w)
  {
    forall x | x in w.transports ensures TransportListed(w, x) { assert TransportListed(s, x); }
    forall x | x in w.producers ensures ProducerListed(w, x) { assert ProducerListed(s, x); }
    forall x | x in w.consumers ensures ConsumerListed(w, x) { assert x != id ==> ConsumerListed(s, x); }
  }

  lemma AddConsumerKeepsInv(s: Store, id: Id, c: Consumer)
    requires Inv(s) && id in s.issued && id !in s.consumers
    requires HasPeer(s, c.roomId, c.userId) && id in PeerAt(s, c.roomId, c.userId).consumers
    requires ListedOnlyBy(s, c.roomId, c.userId, id)
    ensures Inv(s.(consumers := s.consumers[id := c]))
  {
    hide TransportListed, ProducerListed, ConsumerListed;
    var w := s.(consumers := s.consumers[id := c]);
    assert AllListed(w) by { AddConsumerListed(s, w, id, c); }
    forall q: Id, x: Id | HasPeer(w, q, x) ensures ListsOwn(w, q, x) { assert ListsOwn(s, q, x); }
  }

  lemma SameRoomsListed(s: Store, w: Store)
    requires AllListed(s) && w.rooms == s.rooms && OwnersKept(s, w)
    ensures AllListed(w)
  {
    forall x | x in w.transports ensures TransportListed(w, x) { assert TransportListed(s, x); }
    forall x | x in w.producers ensures ProducerListed(w, x) { assert ProducerListed(s, x); }
    forall x | x in w.consumers ensures ConsumerListed(w, x) { assert ConsumerListed(s, x); }
  }

  /** Nothing but the fields of existing entries changes. */
  lemma SameRoomsKeepsInv(s: Store, w: Store)
    requires Inv(s) && w.rooms == s.rooms && w.issued == s.issued && OwnersKept(s, w)
    ensures Inv(w)
  {
    hide ListsOwn, TransportListed, ProducerListed, ConsumerListed;
    SameRoomsListed(s, w);
    forall q: Id, v: Id | HasPeer(w, q, v) ensures ListsShrink(s, w, q, v) { }
    ShrinkKeepsInv(s, w);
  }

  lemma SetRouterPeers(s: Store, r: Id, router: bool, q: Id, u: Id)
    requires r in s.rooms
    ensures HasPeer(SetRouter(s, r, router), q, u) <==> HasPeer(s, q, u)
    ensures HasPeer(s, q, u) ==> PeerAt(SetRouter(s, r, router), q, u) == PeerAt(s, q, u)
  {
  }

  /** Making the room's router changes no peer. */
  lemma RouterKeepsInv(s: Store, r: Id, router: bool)
    requires Inv(s) && r in s.rooms
    ensures Inv(SetRouter(s, r, router))
  {
    hide ListsOwn, TransportListed, ProducerListed, ConsumerListed;
    var w := SetRouter(s, r, router);
    forall q: Id, u: Id ensures HasPeer(w, q, u) <==> HasPeer(s, q, u)
                        ensures HasPeer(s, q, u) ==> PeerAt(w, q, u) == PeerAt(s, q, u)
    {
      SetRouterPeers(s, r, router, q, u);
    }
    PeersKeptListed(s, w);
    ShrinkKeepsInv(s, w);
  }

  lemma WorkerDiedPeers(s: Store, q: Id, u: Id)
    ensures HasPeer(AfterWorkerDied(s), q, u) <==> HasPeer(s, q, u)
    ensures HasPeer(s, q, u) ==> PeerAt(AfterWorkerDied(s), q, u) == PeerAt(s, q, u)
  {
  }

  /** Losing every router changes no peer and no entry. */
  lemma WorkerDiedKeepsInv(s: Store)
    requires Inv(s)
    ensures Inv(AfterWorkerDied(s))
  {
    hide ListsOwn, TransportListed, ProducerListed, ConsumerListed;
    var w := AfterWorkerDied(s);
    forall q: Id, u: Id ensures HasPeer(w, q, u) <==> HasPeer(s, q, u)
                        ensures HasPeer(s, q, u) ==> PeerAt(w, q, u) == PeerAt(s, q, u)
    {
      WorkerDiedPeers(s, q, u);
    }
    PeersKeptListed(s, w);
    ShrinkKeepsInv(s, w);
  }

  lemma CreateTransportKeepsInv(s: Store, r: Id, u: Id, direction: Direction, id: Id, available: bool)
    requires Inv(s) && id !in s.issued
    ensures Inv(AfterCreateTransport(s, r, u, direction, id, available))
  {
    hide ListsOwn, TransportListed, ProducerListed, ConsumerListed;
    var e := EnsureRoom(s, r);
    EnsureRoomKeepsInv(s, r);
    if HasPeer(e, r, u) {
      var router := e.rooms[r].router || available;
      var m := SetRouter(e, r, router);
      RouterKeepsInv(e, r, router);
      var p := PeerAt(m, r, u).(transports := PeerAt(m, r, u).transports + {id});
      ListingKeepsInv(m, r, u, p, id);
      AddTransportKeepsInv(SetPeer(m, r, u, p).(issued := m.issued + {id}), id,
                           Transport(r, u, direction, false, available && router));
    }
  }

  lemma ConnectKeepsInv(s: Store, id: Id)
    requires Inv(s)
    ensures Inv(AfterConnect(s, id))
  {
    hide ListsOwn, TransportListed, ProducerListed, ConsumerListed;
    SameRoomsKeepsInv(s, AfterConnect(s, id));
  }

  lemma ProduceKeepsInv(s: Store, r: Id, u: Id, transportId: Id, kind: Kind, id: Id, available: bool)
    requires Inv(s) && id !in s.issued
    ensures Inv(AfterProduce(s, r, u, transportId, kind, id, available))
  {
    var e := EnsureRoom(s, r);
    EnsureRoomKeepsInv(s, r);
    if MayProduce(s, u, transportId) && HasPeer(e, r, u) {
      var p := PeerAt(e, r, u).(producers := PeerAt(e, r, u).producers + {id});
      assert ListsOwn(e, r, u);
      ListingKeepsInv(e, r, u, p, id);
      AddProducerKeepsInv(SetPeer(e, r, u, p).(issued := e.issued + {id}), id,
                          Producer(r, u, transportId, kind, available && s.transports[transportId].handle));
    }
  }

  lemma ConsumeKeepsInv(s: Store, r: Id, u: Id, transportId: Id, producerId: Id, id: Id,
                        available: bool, canConsume: bool)
    requires Inv(s) && id !in s.issued
    ensures Inv(AfterConsume(s, r, u, transportId, producerId, id, available, canConsume))
  {
    hide ListsOwn, TransportListed, ProducerListed, ConsumerListed;
    var e := EnsureRoom(s, r);
    EnsureRoomKeepsInv(s, r);
    if MayConsume(s, r, u, transportId, producerId) && HasPeer(e, r, u) {
      var handle := ConsumesByLibrary(e, r, transportId, available);
      var p := PeerAt(e, r, u).(consumers := PeerAt(e, r, u).consumers + {id});
      ListingKeepsInv(e, r, u, p, id);
      AddConsumerKeepsInv(SetPeer(e, r, u, p).(issued := e.issued + {id}), id,
                          Consumer(r, u, transportId, producerId, s.producers[producerId].kind, handle));
    }
  }

  lemma ClosedPeers(s: Store, r: Id, u: Id, closed: set<Id>, q: Id, v: Id)
    requires HasPeer(s, r, u)
    ensures HasPeer(Closed(s, r, u, closed), q, v) <==> HasPeer(s, q, v)
    ensures HasPeer(s, q, v) ==>
              && PeerAt(Closed(s, r, u, closed), q, v).socketId == PeerAt(s, q, v).socketId
              && PeerAt(Closed(s, r, u, closed), q, v).transports == PeerAt(s, q, v).transports
              && PeerAt(Closed(s, r, u, closed), q, v).producers
                 == (if q == r && v == u then PeerAt(s, q, v).producers - closed else PeerAt(s, q, v).producers)
              && PeerAt(Closed(s, r, u, closed), q, v).consumers
                 == (if q == r then PeerAt(s, q, v).consumers - Struck(s, closed, v) else PeerAt(s, q, v).consumers)
  {
  }

  /** Closing producers keeps the invariant whoever owns them and whatever room is named. */
  lemma ClosedKeepsInv(s: Store, r: Id, u: Id, closed: set<Id>)
    requires Inv(s) && HasPeer(s, r, u)
    ensures Inv(Closed(s, r, u, closed))
  {
    hide ListsOwn, TransportListed, ProducerListed, ConsumerListed;
    var w := Closed(s, r, u, closed);
    forall q: Id, v: Id | HasPeer(w, q, v) ensures ListsShrink(s, w, q, v) { ClosedPeers(s, r, u, closed, q, v); }
    ClosedKeepsListed(s, w, r, u, closed);
    ShrinkKeepsInv(s, w);
  }

  lemma ClosedKeepsListed(s: Store, w: Store, r: Id, u: Id, closed: set<Id>)
    requires AllListed(s) && HasPeer(s, r, u) && w == Closed(s, r, u, closed)
    ensures AllListed(w)
  {
    forall id | id in w.transports ensures TransportListed(w, id) {
      assert TransportListed(s, id);
      ClosedPeers(s, r, u, closed, w.transports[id].roomId, w.transports[id].userId);
    }
    forall id | id in w.producers ensures ProducerListed(w, id) {
      assert ProducerListed(s, id);
      ClosedPeers(s, r, u, closed, w.producers[id].roomId, w.producers[id].userId);
    }
    forall id | id in w.consumers ensures ConsumerListed(w, id) {
      assert ConsumerListed(s, id);
      ClosedPeers(s, r, u, closed, w.consumers[id].roomId, w.consumers[id].userId);
    }
  }

  lemma ProducerEventKeepsInv(s: Store, r: Id, u: Id, id: Id)
    requires Inv(s) && (id in s.producers ==> s.producers[id].roomId == r && s.producers[id].userId == u)
    ensures Inv(AfterProducerEvent(s, r, u, id))
  {
    hide ListsOwn;
    var w := AfterProducerEvent(s, r, u, id);
    if HasPeer(s, r, u) {
      assert OwnersKept(s, w);
      OnePeerShrinks(s, w, r, u, PeerAt(s, r, u).(producers := PeerAt(s, r, u).producers - {id}));
    } else {
      assert id in s.producers ==> ProducerListed(s, id);
      assert w == s;
    }
  }

  lemma ConsumerEventKeepsInv(s: Store, r: Id, u: Id, id: Id)
    requires Inv(s) && (id in s.consumers ==> s.consumers[id].roomId == r && s.consumers[id].userId == u)
    ensures Inv(AfterConsumerEvent(s, r, u, id))
  {
    hide ListsOwn;
    var w := AfterConsumerEvent(s, r, u, id);
    if HasPeer(s, r, u) {
      OnePeerShrinks(s, w, r, u, PeerAt(s, r, u).(consumers := PeerAt(s, r, u).consumers - {id}));
    } else {
      assert id in s.consumers ==> ConsumerListed(s, id);
      assert w == s;
    }
  }

  // ---------------------------------------------------------------------- runs

  datatype Op =
    | Join(r: Id, u: Id, socketId: Id)
    | Leave(r: Id, u: Id)
    | LeaveAll(u: Id)
    | CreateTransport(r: Id, u: Id, direction: Direction, id: Id, available: bool)
    | Connect(id: Id)
    | Produce(r: Id, u: Id, transportId: Id, kind: Kind, id: Id, available: bool)
    | Consume(r: Id, u: Id, transportId: Id, producerId: Id, id: Id, available: bool, canConsume: bool)
    | CloseProducer(r: Id, u: Id, producerId: Id)
    | CloseUserProducers(r: Id, u: Id)
    | ProducerEvent(r: Id, u: Id, id: Id)
    | ConsumerEvent(r: Id, u: Id, id: Id)
    | WorkerDied

  /** The library tells of the producers and consumers it made; their handlers know the room and the user. */
  predicate LibraryProducer(s: Store, r: Id, u: Id, id: Id)
    requires id in s.producers
  {
    s.producers[id].roomId == r && s.producers[id].userId == u && s.producers[id].handle
  }

  predicate LibraryConsumer(s: Store, r: Id, u: Id, id: Id)
    requires id in s.consumers
  {
    s.consumers[id].roomId == r && s.consumers[id].userId == u && s.consumers[id].handle
  }

  /** One step from `s` to `w`; only a rejoin over library handles leaves a choice. */
  ghost predicate Next(s: Store, op: Op, w: Store) {
    match op
    case Join(r, u, socketId) =>
      if HasPeer(s, r, u) then Rejoins(s, r, u, socketId, w) else w == AfterJoin(s, r, u, socketId)
    case Leave(r, u) => w == AfterLeave(s, r, u)
    case LeaveAll(u) => w == AfterLeaveAll(s, u)
    case CreateTransport(r, u, direction, id, available) =>
      id !in s.issued && w == AfterCreateTransport(s, r, u, direction, id, available)
    case Connect(id) => w == AfterConnect(s, id)
    case Produce(r, u, transportId, kind, id, available) =>
      id !in s.issued && w == AfterProduce(s, r, u, transportId, kind, id, available)
    case Consume(r, u, transportId, producerId, id, available, canConsume) =>
      id !in s.issued && w == AfterConsume(s, r, u, transportId, producerId, id, available, canConsume)
    case CloseProducer(r, u, producerId) => w == AfterCloseProducer(s, r, u, producerId)
    case CloseUserProducers(r, u) => w == AfterCloseUserProducers(s, r, u)
    case ProducerEvent(r, u, id) =>
      && (id in s.producers ==> LibraryProducer(s, r, u, id))
      && w == AfterProducerEvent(s, r, u, id)
    case ConsumerEvent(r, u, id) =>
      && (id in s.consumers ==> LibraryConsumer(s, r, u, id))
      && w == AfterConsumerEvent(s, r, u, id)
    case WorkerDied => w == AfterWorkerDied(s)
  }

  lemma NextKeepsInv(s: Store, op: Op, w: Store)
    requires Inv(s) && Next(s, op, w)
    ensures Inv(w)
  {
    hide Inv;
    match op
    case Join(r, u, socketId) =>
      if HasPeer(s, r, u) { RejoinKeepsInv(s, r, u, socketId, w); } else { JoinKeepsInv(s, r, u, socketId); }
    case Leave(r, u) => if HasPeer(s, r, u) { LeftRoomsKeepsInv(s, {r}, u); }
    case LeaveAll(u) => LeftRoomsKeepsInv(s, RoomsOf(s, u), u);
    case CreateTransport(r, u, direction, id, available) => CreateTransportKeepsInv(s, r, u, direction, id, available);
    case Connect(id) => ConnectKeepsInv(s, id);
    case Produce(r, u, transportId, kind, id, available) =>
      ProduceKeepsInv(s, r, u, transportId, kind, id, available);
    case Consume(r, u, transportId, producerId, id, available, canConsume) =>
      ConsumeKeepsInv(s, r, u, transportId, producerId, id, available, canConsume);
    case CloseProducer(r, u, producerId) => if HasPeer(s, r, u) { ClosedKeepsInv(s, r, u, {producerId}); }
    case CloseUserProducers(r, u) =>
      if HasPeer(s, r, u) { ClosedKeepsInv(s, r, u, PeerAt(s, r, u).producers); }
    case ProducerEvent(r, u, id) => ProducerEventKeepsInv(s, r, u, id);
    case ConsumerEvent(r, u, id) => ConsumerEventKeepsInv(s, r, u, id);
    case WorkerDied => WorkerDiedKeepsInv(s);
  }

  ghost predicate Runs(s: Store, ops: seq<Op>, w: Store)
    decreases |ops|
  {
    if ops == [] then w == s
    else exists m: Store :: Next(s, ops[0], m) && Runs(m, ops[1..], w)
  }

  /** Every store that any run reaches from the empty one satisfies the invariant. */
  lemma {:induction false} RunKeepsInv(s: Store, ops: seq<Op>, w: Store)
    requires Inv(s) && Runs(s, ops, w)
    ensures Inv(w)
    decreases |ops|
  {
    hide Inv, Next;
    if ops != [] {
      var m: Store :| Next(s, ops[0], m) && Runs(m, ops[1..], w);
      NextKeepsInv(s, ops[0], m);
      RunKeepsInv(m, ops[1..], w);
    }
  }

  // What a successful call adds; everything there stays.

  ghost predicate Adds(s: Store, w: Store) {
    && PeersKept(s, w) && s.issued <= w.issued
    && (forall r | r in s.rooms && s.rooms[r].router :: r in w.rooms && w.rooms[r].router)
  }

  lemma JoinAdds(s: Store, r: Id, u: Id, socketId: Id, w: Store)
    requires !HasPeer(s, r, u) && w == AfterJoin(s, r, u, socketId)
    ensures Next(s, Join(r, u, socketId), w) && Adds(s, w)
    ensures forall q: Id, v: Id :: HasPeer(w, q, v) <==> HasPeer(s, q, v) || (q == r && v == u)
    ensures PeerAt(w, r, u) == Peer(socketId, {}, {}, {})
    ensures w.issued == s.issued && w.producers == s.producers
    ensures w.transports == s.transports && w.consumers == s.consumers
  {
    var e := EnsureRoom(s, r);
    forall q: Id, v: Id
      ensures HasPeer(w, q, v) <==> HasPeer(s, q, v) || (q == r && v == u)
      ensures HasPeer(s, q, v) ==> PeerAt(w, q, v) == PeerAt(s, q, v)
    {
      EnsureRoomPeers(s, r, q, v);
      SetPeerPeers(e, r, u, Peer(socketId, {}, {}, {}), q, v);
    }
  }

  lemma TransportAdds(s: Store, r: Id, u: Id, direction: Direction, id: Id, available: bool, w: Store)
    requires HasPeer(s, r, u) && id !in s.issued && w == AfterCreateTransport(s, r, u, direction, id, available)
    ensures Next(s, CreateTransport(r, u, direction, id, available), w) && Adds(s, w)
    ensures w.transports == s.transports[id := Transport(r, u, direction, false, available)]
    ensures w.issued == s.issued + {id} && (available ==> w.rooms[r].router)
    ensures w.producers == s.producers && w.consumers == s.consumers
  {
  }

  lemma ProduceAdds(s: Store, r: Id, u: Id, transportId: Id, kind: Kind, id: Id, available: bool, w: Store)
    requires HasPeer(s, r, u) && id !in s.issued && MayProduce(s, u, transportId)
    requires w == AfterProduce(s, r, u, transportId, kind, id, available)
    ensures Next(s, Produce(r, u, transportId, kind, id, available), w) && Adds(s, w)
    ensures w.producers == s.producers[id := Producer(r, u, transportId, kind,
                                                      available && s.transports[transportId].handle)]
    ensures w.issued == s.issued + {id} && id in PeerAt(w, r, u).producers
    ensures w.transports == s.transports && w.consumers == s.consumers
  {
  }

  lemma ConsumeAdds(s: Store, r: Id, u: Id, transportId: Id, producerId: Id, id: Id, available: bool, w: Store)
    requires HasPeer(s, r, u) && id !in s.issued && MayConsume(s, r, u, transportId, producerId)
    requires w == AfterConsume(s, r, u, transportId, producerId, id, available, true)
    ensures Next(s, Consume(r, u, transportId, producerId, id, available, true), w) && Adds(s, w)
    ensures w.consumers == s.consumers[id := Consumer(r, u, transportId, producerId, s.producers[producerId].kind,
                                                      ConsumesByLibrary(s, r, transportId, available))]
    ensures w.issued == s.issued + {id} && id in PeerAt(w, r, u).consumers
    ensures w.transports == s.transports && w.producers == s.producers
  {
  }

  /** A run given store by store. */
  lemma {:induction false} StoresMakeRun(stores: seq<Store>, ops: seq<Op>)
    requires |stores| == |ops| + 1 && forall i | 0 <= i < |ops| :: Next(stores[i], ops[i], stores[i + 1])
    ensures Runs(stores[0], ops, stores[|ops|])
    decreases |ops|
  {
    hide Next;
    if ops != [] { StoresMakeRun(stores[1..], ops[1..]); }
  }

  lemma ReachableStoresAreSound(ops: seq<Op>, w: Store)
    requires Runs(EmptyStore, ops, w)
    ensures Inv(w)
  {
    assert Inv(EmptyStore);
    RunKeepsInv(EmptyStore, ops, w);
  }

  /** A user sends audio made by the library. */
  const LibraryRun := [Join(1, 2, 9), CreateTransport(1, 2, Send, 3, true), Produce(1, 2, 3, Audio, 5, true)]

  lemma LibraryPeer() returns (w: Store)
    ensures Runs(EmptyStore, LibraryRun, w) && HasPeer(w, 1, 2)
    ensures w.producers == map[5 := Producer(1, 2, 3, Audio, true)]
  {
    hide Next, AfterJoin, AfterCreateTransport, AfterProduce;
    var a := AfterJoin(EmptyStore, 1, 2, 9);
    JoinAdds(EmptyStore, 1, 2, 9, a);
    var b := AfterCreateTransport(a, 1, 2, Send, 3, true);
    TransportAdds(a, 1, 2, Send, 3, true, b);
    w := AfterProduce(b, 1, 2, 3, Audio, 5, true);
    ProduceAdds(b, 1, 2, 3, Audio, 5, true, w);
    StoresMakeRun([EmptyStore, a, b, w], LibraryRun);
  }

  /** User 10 is in room 1; in room 2 user 11 sends audio, which user 12 consumes. */
  const TwoRoomsRun := [
    Join(1, 10, 100), Join(2, 11, 101), Join(2, 12, 102),
    CreateTransport(2, 11, Send, 3, false), CreateTransport(2, 12, Recv, 4, false),
    Produce(2, 11, 3, Audio, 5, false), Consume(2, 12, 4, 5, 6, false, true)]

  lemma TwoRooms() returns (w: Store)
    ensures Runs(EmptyStore, TwoRoomsRun, w) && HasPeer(w, 1, 10) && HasPeer(w, 2, 11) && HasPeer(w, 2, 12)
    ensures w.producers == map[5 := Producer(2, 11, 3, Audio, false)]
    ensures w.consumers == map[6 := Consumer(2, 12, 4, 5, Audio, false)]
  {
    hide Next, AfterJoin, AfterCreateTransport, AfterProduce, AfterConsume;
    var a := AfterJoin(EmptyStore, 1, 10, 100);
    JoinAdds(EmptyStore, 1, 10, 100, a);
    var b := AfterJoin(a, 2, 11, 101);
    JoinAdds(a, 2, 11, 101, b);
    var c := AfterJoin(b, 2, 12, 102);
    JoinAdds(b, 2, 12, 102, c);
    var d := AfterCreateTransport(c, 2, 11, Send, 3, false);
    TransportAdds(c, 2, 11, Send, 3, false, d);
    var e := AfterCreateTransport(d, 2, 12, Recv, 4, false);
    TransportAdds(d, 2, 12, Recv, 4, false, e);
    var f := AfterProduce(e, 2, 11, 3, Audio, 5, false);
    ProduceAdds(e, 2, 11, 3, Audio, 5, false, f);
    w := AfterConsume(f, 2, 12, 4, 5, 6, false, true);
    ConsumeAdds(f, 2, 12, 4, 5, 6, false, w);
    StoresMakeRun([EmptyStore, a, b, c, d, e, f, w], TwoRoomsRun);
  }

  // ------------------------------------------------------------- exact teardown

  /** The listed live entries of (r, u) are exactly the entries of (r, u). */
  lemma ListsExactlyOwn(s: Store, r: Id, u: Id)
    requires Inv(s) && HasPeer(s, r, u)
    ensures forall id | id in s.transports ::
              id in PeerAt(s, r, u).transports <==> s.transports[id].roomId == r && s.transports[id].userId == u
    ensures forall id | id in s.producers ::
              id in PeerAt(s, r, u).producers <==> s.producers[id].roomId == r && s.producers[id].userId == u
    ensures forall id | id in s.consumers ::
              id in PeerAt(s, r, u).consumers <==> s.consumers[id].roomId == r && s.consumers[id].userId == u
  {
    assert ListsOwn(s, r, u);
    forall id | id in s.transports && s.transports[id].roomId == r && s.transports[id].userId == u
      ensures id in PeerAt(s, r, u).transports { assert TransportListed(s, id); }
    forall id | id in s.producers && s.producers[id].roomId == r && s.producers[id].userId == u
      ensures id in PeerAt(s, r, u).producers { assert ProducerListed(s, id); }
    forall id | id in s.consumers && s.consumers[id].roomId == r && s.consumers[id].userId == u
      ensures id in PeerAt(s, r, u).consumers { assert ConsumerListed(s, id); }
  }

  /** Deleting what the peer lists is leaving the room: nothing else goes, nothing of it stays. */
  lemma TeardownIsExact(s: Store, r: Id, u: Id)
    requires Inv(s) && HasPeer(s, r, u)
    ensures AfterLeave(s, r, u).transports == s.transports - PeerAt(s, r, u).transports
    ensures AfterLeave(s, r, u).producers == s.producers - PeerAt(s, r, u).producers
    ensures AfterLeave(s, r, u).consumers == s.consumers - PeerAt(s, r, u).consumers
    ensures AfterLeave(s, r, u).issued == s.issued && AfterLeave(s, r, u).rooms == RoomsWithout(s.rooms, {r}, u)
  {
    ListsExactlyOwn(s, r, u);
    LeftEntries(s, r, u);
    SameSubmap(s.transports, PeerAt(s, r, u).transports, LeftRooms(s, {r}, u).transports);
    SameSubmap(s.producers, PeerAt(s, r, u).producers, LeftRooms(s, {r}, u).producers);
    SameSubmap(s.consumers, PeerAt(s, r, u).consumers, LeftRooms(s, {r}, u).consumers);
  }

  lemma SameSubmap<V>(m: map<Id, V>, gone: set<Id>, n: map<Id, V>)
    requires forall id :: id in n <==> id in m && id !in gone
    requires forall id | id in n :: n[id] == m[id]
    ensures n == m - gone
  {
  }

  lemma LeftEntries(s: Store, r: Id, u: Id)
    ensures forall id :: id in LeftRooms(s, {r}, u).transports <==>
              id in s.transports && !(s.transports[id].roomId == r && s.transports[id].userId == u)
    ensures forall id :: id in LeftRooms(s, {r}, u).producers <==>
              id in s.producers && !(s.producers[id].roomId == r && s.producers[id].userId == u)
    ensures forall id :: id in LeftRooms(s, {r}, u).consumers <==>
              id in s.consumers && !(s.consumers[id].roomId == r && s.consumers[id].userId == u)
  {
  }

  /** Leaving more rooms at once is leaving them one by one. */
  lemma LeftRoomsCompose(s: Store, left: set<Id>, r: Id, u: Id)
    requires left <= RoomsOf(s, u) && r in RoomsOf(s, u) && r !in left
    ensures HasPeer(LeftRooms(s, left, u), r, u)
    ensures AfterLeave(LeftRooms(s, left, u), r, u) == LeftRooms(s, left + {r}, u)
  {
    var m := LeftRooms(s, left, u);
    LeftRoomsPeers(s, left, u, r, u);
    var a, b := LeftRooms(m, {r}, u), LeftRooms(s, left + {r}, u);
    LeftRoomsComposeRooms(s, left, r, u);
    assert a.transports == b.transports;
    assert a.producers == b.producers;
    assert a.consumers == b.consumers;
  }

  lemma LeftRoomsComposeRooms(s: Store, left: set<Id>, r: Id, u: Id)
    requires left <= RoomsOf(s, u) && r in RoomsOf(s, u) && r !in left
    ensures LeftRooms(LeftRooms(s, left, u), {r}, u).rooms == LeftRooms(s, left + {r}, u).rooms
  {
    var m := LeftRooms(s, left, u);
    var a, b := LeftRooms(m, {r}, u).rooms, LeftRooms(s, left + {r}, u).rooms;
    assert r in m.rooms && m.rooms[r] == s.rooms[r];
    forall q: Id ensures q in a <==> q in b ensures q in a && q in b ==> a[q] == b[q] {
    }
  }

  /** After leaving all rooms nothing in the store mentions the user as an owner. */
  lemma LeaveAllLeavesNothing(s: Store, u: Id)
    requires Inv(s)
    ensures var w := AfterLeaveAll(s, u);
            && RoomsOf(w, u) == {}
            && (forall id | id in w.transports :: w.transports[id].userId != u)
            && (forall id | id in w.producers :: w.producers[id].userId != u)
            && (forall id | id in w.consumers :: w.consumers[id].userId != u)
            && (forall id | id in s.transports && s.transports[id].userId != u :: id in w.transports)
            && (forall id | id in s.producers && s.producers[id].userId != u :: id in w.producers)
            && (forall id | id in s.consumers && s.consumers[id].userId != u :: id in w.consumers)
  {
    var w := AfterLeaveAll(s, u);
    forall id | id in s.transports ensures s.transports[id].roomId in RoomsOf(s, s.transports[id].userId) {
      assert TransportListed(s, id);
    }
    forall id | id in s.producers ensures s.producers[id].roomId in RoomsOf(s, s.producers[id].userId) {
      assert ProducerListed(s, id);
    }
    forall id | id in s.consumers ensures s.consumers[id].roomId in RoomsOf(s, s.consumers[id].userId) {
      assert ConsumerListed(s, id);
    }
    LeftRoomsKeepsInv(s, RoomsOf(s, u), u);
    assert forall r :: !HasPeer(w, r, u);
  }

  /** Closing producers in two goes is closing them in one. */
  lemma ClosedCompose(s: Store, r: Id, u: Id, closed: set<Id>, id: Id)
    requires HasPeer(s, r, u)
    ensures HasPeer(Closed(s, r, u, closed), r, u)
    ensures Closed(Closed(s, r, u, closed), r, u, {id}) == Closed(s, r, u, closed + {id})
  {
    var m := Closed(s, r, u, closed);
    var a, b := Closed(m, r, u, {id}), Closed(s, r, u, closed + {id});
    assert ConsumersOf(s, closed + {id}) == ConsumersOf(s, closed) + ConsumersOf(m, {id});
    SameTwoGoes(s.producers, closed, {id}, closed + {id});
    SameTwoGoes(s.consumers, ConsumersOf(s, closed), ConsumersOf(m, {id}), ConsumersOf(s, closed + {id}));
    ClosedComposePeers(s, r, u, closed, id);
    assert a.rooms == b.rooms;
  }

  lemma SameTwoGoes<V>(entries: map<Id, V>, first: set<Id>, second: set<Id>, both: set<Id>)
    requires both == first + second
    ensures entries - first - second == entries - both
  {
  }

  lemma ClosedComposePeers(s: Store, r: Id, u: Id, closed: set<Id>, id: Id)
    requires HasPeer(s, r, u)
    ensures var m := Closed(s, r, u, closed);
            && HasPeer(m, r, u)
            && Closed(m, r, u, {id}).rooms[r].peers == Closed(s, r, u, closed + {id}).rooms[r].peers
  {
    var m := Closed(s, r, u, closed);
    var a, b := Closed(m, r, u, {id}).rooms[r].peers, Closed(s, r, u, closed + {id}).rooms[r].peers;
    forall v | v in s.rooms[r].peers ensures a[v] == b[v] {
      assert Struck(s, closed + {id}, v) == Struck(s, closed, v) + Struck(m, {id}, v);
    }
  }

  /** Closing nothing changes nothing. */
  lemma ClosedNothing(s: Store, r: Id, u: Id)
    requires HasPeer(s, r, u)
    ensures Closed(s, r, u, {}) == s
  {
    var w := Closed(s, r, u, {});
    assert ConsumersOf(s, {}) == {};
    forall v | v in s.rooms[r].peers ensures w.rooms[r].peers[v] == s.rooms[r].peers[v] {
      assert Struck(s, {}, v) == {};
    }
    assert w.rooms[r].peers == s.rooms[r].peers;
    assert w.rooms == s.rooms;
  }
}
