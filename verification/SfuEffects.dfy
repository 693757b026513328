/**
 What each SFU step does to every single room, peer and entry, said without the
 functions that compute the next store. The two descriptions agree.
 */
module SfuEffects {
  import opened Common
  import opened SfuStore

  // ------------------------------------------------------------------ vocabulary

  predicate HasRouter(s: Store, r: Id) {
    r in s.rooms && s.rooms[r].router
  }

  predicate OwnsProducer(s: Store, r: Id, u: Id, id: Id) {
    id in s.producers && s.producers[id].roomId == r && s.producers[id].userId == u
  }

  predicate OwnsConsumer(s: Store, r: Id, u: Id, id: Id) {
    id in s.consumers && s.consumers[id].roomId == r && s.consumers[id].userId == u
  }

  ghost predicate SamePeer(s: Store, w: Store, q: Id, v: Id) {
    && (HasPeer(w, q, v) <==> HasPeer(s, q, v))
    && (HasPeer(s, q, v) && HasPeer(w, q, v) ==> PeerAt(w, q, v) == PeerAt(s, q, v))
  }

  /** Every peer is there as before, with the same socket and the same lists. */
  ghost predicate SamePeers(s: Store, w: Store) {
    forall q: Id, v: Id :: SamePeer(s, w, q, v)
  }

  /** (r, u) is a peer with record `p`, and every other peer is as before. */
  ghost predicate OnePeer(s: Store, w: Store, r: Id, u: Id, p: Peer) {
    && HasPeer(w, r, u) && PeerAt(w, r, u) == p
    && forall q: Id, v: Id | !(q == r && v == u) :: SamePeer(s, w, q, v)
  }

  /** There are the rooms of before and `more`, and a router just where one was. */
  ghost predicate RoomsAre(s: Store, w: Store, more: set<Id>) {
    w.rooms.Keys == s.rooms.Keys + more && forall q: Id :: HasRouter(w, q) <==> HasRouter(s, q)
  }

  ghost predicate SameEntries(s: Store, w: Store) {
    w.transports == s.transports && w.producers == s.producers && w.consumers == s.consumers && w.issued == s.issued
  }

  /** No one but `u` is a peer of the room. */
  ghost predicate Alone(s: Store, q: Id, u: Id) {
    HasPeer(s, q, u) && forall v | HasPeer(s, q, v) :: v == u
  }

  function Joined(s: Store, u: Id): set<Id> {
    set r | r in s.rooms && HasPeer(s, r, u)
  }

  /** `n` is `m` without `gone`. */
  ghost predicate Lost<V>(m: map<Id, V>, n: map<Id, V>, gone: Id -> bool) {
    && (forall id :: id in n <==> id in m && !gone(id))
    && (forall id | id in n :: id in m && n[id] == m[id])
  }

  // --------------------------------------------------------------------- effects

  /** A new peer without entries, in a room without a router if the room is new too. */
  ghost predicate DoesJoin(s: Store, r: Id, u: Id, socketId: Id, w: Store) {
    SameEntries(s, w) && RoomsAre(s, w, {r}) && OnePeer(s, w, r, u, Peer(socketId, {}, {}, {}))
  }

  /** Nothing but producers and consumers of (r, u) is gone. */
  ghost predicate TakesOwn(s: Store, r: Id, u: Id, w: Store) {
    && w.transports == s.transports && w.issued == s.issued
    && (forall id | id in w.producers :: id in s.producers && w.producers[id] == s.producers[id])
    && (forall id | id in w.consumers :: id in s.consumers && w.consumers[id] == s.consumers[id])
    && (forall id | id in s.producers && !OwnsProducer(s, r, u, id) :: id in w.producers)
    && (forall id | id in s.consumers && !OwnsConsumer(s, r, u, id) :: id in w.consumers)
  }

  /**
   A peer that joins again has the new socket. Its consumers and then its producers
   go, up to the first that the library backs.
   */
  ghost predicate DoesRejoin(s: Store, r: Id, u: Id, socketId: Id, w: Store)
    requires HasPeer(s, r, u)
  {
    var p := PeerAt(s, r, u);
    && TakesOwn(s, r, u, w) && RoomsAre(s, w, {})
    && if exists id :: OwnsConsumer(s, r, u, id) && s.consumers[id].handle then
         && w.producers == s.producers
         && OnePeer(s, w, r, u, Peer(socketId, p.transports, p.producers, p.consumers))
         && (forall id | OwnsConsumer(s, r, u, id) && s.consumers[id].handle :: id in w.consumers)
       else if exists id :: OwnsProducer(s, r, u, id) && s.producers[id].handle then
         && (forall id :: !OwnsConsumer(w, r, u, id))
         && OnePeer(s, w, r, u, Peer(socketId, p.transports, p.producers, {}))
         && (forall id | OwnsProducer(s, r, u, id) && s.producers[id].handle :: id in w.producers)
       else
         && (forall id :: !OwnsConsumer(w, r, u, id) && !OwnsProducer(w, r, u, id))
         && OnePeer(s, w, r, u, Peer(socketId, p.transports, {}, {}))
  }

  /**
   `u` and the entries of `u` are gone from the rooms of `left`, and so is a room in
   which nobody else is. Rooms that stay keep their routers and their other peers.
   */
  ghost predicate DoesLeave(s: Store, left: set<Id>, u: Id, w: Store) {
    && w.issued == s.issued
    && (forall q: Id :: q in w.rooms <==> q in s.rooms && !(q in left && Alone(s, q, u)))
    && (forall q: Id | q in w.rooms :: HasRouter(w, q) <==> HasRouter(s, q))
    && (forall q: Id, v: Id | !(q in left && v == u) :: SamePeer(s, w, q, v))
    && (forall q: Id | q in left :: !HasPeer(w, q, u))
    && Lost(s.transports, w.transports,
            id => id in s.transports && s.transports[id].userId == u && s.transports[id].roomId in left)
    && Lost(s.producers, w.producers,
            id => id in s.producers && s.producers[id].userId == u && s.producers[id].roomId in left)
    && Lost(s.consumers, w.consumers,
            id => id in s.consumers && s.consumers[id].userId == u && s.consumers[id].roomId in left)
  }

  /** A call for a room the user has not joined makes the room and no more. */
  ghost predicate OnlyMakesRoom(s: Store, r: Id, w: Store) {
    SameEntries(s, w) && RoomsAre(s, w, {r}) && SamePeers(s, w)
  }

  ghost predicate DoesCreateTransport(s: Store, r: Id, u: Id, direction: Direction, id: Id, available: bool, w: Store) {
    if !HasPeer(s, r, u) then OnlyMakesRoom(s, r, w)
    else
      var p := PeerAt(s, r, u);
      && w.rooms.Keys == s.rooms.Keys
      && (forall q: Id :: HasRouter(w, q) <==> HasRouter(s, q) || (q == r && available))
      && OnePeer(s, w, r, u, Peer(p.socketId, p.transports + {id}, p.producers, p.consumers))
      && SameEntries(s.(transports := s.transports[id := Transport(r, u, direction, false, available)],
                        issued := s.issued + {id}), w)
  }

  ghost predicate DoesProduce(s: Store, r: Id, u: Id, transportId: Id, kind: Kind, id: Id, available: bool, w: Store) {
    if !(transportId in s.transports && s.transports[transportId].userId == u
         && s.transports[transportId].direction == Send) then w == s
    else if !HasPeer(s, r, u) then OnlyMakesRoom(s, r, w)
    else
      var p := PeerAt(s, r, u);
      var producer := Producer(r, u, transportId, kind, available && s.transports[transportId].handle);
      && RoomsAre(s, w, {})
      && OnePeer(s, w, r, u, Peer(p.socketId, p.transports, p.producers + {id}, p.consumers))
      && SameEntries(s.(producers := s.producers[id := producer], issued := s.issued + {id}), w)
  }

  ghost predicate DoesConsume(s: Store, r: Id, u: Id, transportId: Id, producerId: Id, id: Id,
                              available: bool, canConsume: bool, w: Store) {
    if !(transportId in s.transports && s.transports[transportId].userId == u
         && s.transports[transportId].direction == Recv
         && producerId in s.producers && s.producers[producerId].roomId == r) then w == s
    else if !HasPeer(s, r, u) then OnlyMakesRoom(s, r, w)
    else
      var handle := available && HasRouter(s, r) && s.transports[transportId].handle;
      if handle && !canConsume then w == s
      else
        var p := PeerAt(s, r, u);
        var consumer := Consumer(r, u, transportId, producerId, s.producers[producerId].kind, handle);
        && RoomsAre(s, w, {})
        && OnePeer(s, w, r, u, Peer(p.socketId, p.transports, p.producers, p.consumers + {id}))
        && SameEntries(s.(consumers := s.consumers[id := consumer], issued := s.issued + {id}), w)
  }

  /**
   The closed producers and whatever consumes them are gone. Only lists of the
   named room change: the user's own loses the closed producers, each peer's the
   consumers it had of them.
   */
  ghost predicate DoesClose(s: Store, r: Id, u: Id, closed: set<Id>, w: Store)
    requires HasPeer(s, r, u)
  {
    && w.transports == s.transports && w.issued == s.issued && RoomsAre(s, w, {})
    && Lost(s.producers, w.producers, id => id in closed)
    && Lost(s.consumers, w.consumers, id => id in s.consumers && s.consumers[id].producerId in closed)
    && (forall q: Id, v: Id | q != r :: SamePeer(s, w, q, v))
    && (forall v: Id :: HasPeer(w, r, v) <==> HasPeer(s, r, v))
    && (forall v: Id | HasPeer(s, r, v) && HasPeer(w, r, v) ::
          var p, q := PeerAt(s, r, v), PeerAt(w, r, v);
          && q.socketId == p.socketId && q.transports == p.transports
          && q.producers == (if v == u then p.producers - closed else p.producers)
          && q.consumers <= p.consumers
          && forall id | id in p.consumers ::
               id !in q.consumers <==>
                 id in s.consumers && s.consumers[id].producerId in closed && s.consumers[id].userId == v)
  }

  /** The producer is gone, and the list it was made for no longer has it. */
  ghost predicate DoesProducerEvent(s: Store, r: Id, u: Id, id: Id, w: Store) {
    && RoomsAre(s, w, {})
    && SameEntries(s.(producers := w.producers), w) && Lost(s.producers, w.producers, x => x == id)
    && if HasPeer(s, r, u) then
         var p := PeerAt(s, r, u);
         OnePeer(s, w, r, u, Peer(p.socketId, p.transports, p.producers - {id}, p.consumers))
       else SamePeers(s, w)
  }

  ghost predicate DoesConsumerEvent(s: Store, r: Id, u: Id, id: Id, w: Store) {
    && RoomsAre(s, w, {})
    && SameEntries(s.(consumers := w.consumers), w) && Lost(s.consumers, w.consumers, x => x == id)
    && if HasPeer(s, r, u) then
         var p := PeerAt(s, r, u);
         OnePeer(s, w, r, u, Peer(p.socketId, p.transports, p.producers, p.consumers - {id}))
       else SamePeers(s, w)
  }

  /** Every router is gone, and nothing else. */
  ghost predicate DoesWorkerDied(s: Store, w: Store) {
    && w.rooms.Keys == s.rooms.Keys && (forall q: Id :: !HasRouter(w, q))
    && SamePeers(s, w) && SameEntries(s, w)
  }

  ghost predicate DoesConnect(s: Store, id: Id, w: Store) {
    if id !in s.transports then w == s
    else
      var t := s.transports[id];
      && w.rooms == s.rooms
      && SameEntries(
           s.(transports := s.transports[id := Transport(t.roomId, t.userId, t.direction, true, t.handle)]), w)
  }

  ghost predicate Does(s: Store, op: Op, w: Store) {
    match op
    case Join(r, u, socketId) =>
      if HasPeer(s, r, u) then DoesRejoin(s, r, u, socketId, w) else DoesJoin(s, r, u, socketId, w)
    case Leave(r, u) => if HasPeer(s, r, u) then DoesLeave(s, {r}, u, w) else w == s
    case LeaveAll(u) => DoesLeave(s, Joined(s, u), u, w)
    case CreateTransport(r, u, direction, id, available) =>
      DoesCreateTransport(s, r, u, direction, id, available, w)
    case Connect(id) => DoesConnect(s, id, w)
    case Produce(r, u, t, kind, id, available) => DoesProduce(s, r, u, t, kind, id, available, w)
    case Consume(r, u, t, producerId, id, available, canConsume) =>
      DoesConsume(s, r, u, t, producerId, id, available, canConsume, w)
    case CloseProducer(r, u, id) => if HasPeer(s, r, u) then DoesClose(s, r, u, {id}, w) else w == s
    case CloseUserProducers(r, u) =>
      if HasPeer(s, r, u) then DoesClose(s, r, u, PeerAt(s, r, u).producers, w) else w == s
    case ProducerEvent(r, u, id) => DoesProducerEvent(s, r, u, id, w)
    case ConsumerEvent(r, u, id) => DoesConsumerEvent(s, r, u, id, w)
    case WorkerDied => DoesWorkerDied(s, w)
  }

  /** A receive transport of the user. */
  predicate HasRecv(s: Store, u: Id, transportId: Id) {
    && transportId in s.transports
    && s.transports[transportId].userId == u && s.transports[transportId].direction == Recv
  }

  predicate IsInRoom(s: Store, r: Id, producerId: Id) {
    producerId in s.producers && s.producers[producerId].roomId == r
  }

  /** When `consume` succeeds, and which of its four errors it throws first. */
  ghost predicate AnswersConsume(s: Store, r: Id, u: Id, transportId: Id, producerId: Id, id: Id,
                                 available: bool, canConsume: bool, answer: Result<Id>) {
    var recv, found, peer := HasRecv(s, u, transportId), IsInRoom(s, r, producerId), HasPeer(s, r, u);
    var refused := recv && available && HasRouter(s, r) && s.transports[transportId].handle && !canConsume;
    && (answer == Err(Failed("Invalid recv transport")) <==> !recv)
    && (answer == Err(Failed("Producer not found")) <==> recv && !found)
    && (answer == Err(Failed("Peer not joined")) <==> recv && found && !peer)
    && (answer == Err(Failed("Router cannot consume this producer")) <==> recv && found && peer && refused)
    && (answer.Ok? <==> recv && found && peer && !refused)
    && (answer.Ok? ==> answer.value == id)
  }

  lemma ConsumeAnswers(s: Store, r: Id, u: Id, transportId: Id, producerId: Id, id: Id,
                       available: bool, canConsume: bool)
    ensures AnswersConsume(s, r, u, transportId, producerId, id, available, canConsume,
                           ConsumeAnswer(s, r, u, transportId, producerId, id, available, canConsume))
  {
  }

  // ------------------------------------------------------- steps have these effects

  /** Every step does just that. */
  lemma NextDoes(s: Store, op: Op, w: Store)
    requires Inv(s) && Next(s, op, w)
    ensures Does(s, op, w)
  {
    hide Inv, DoesJoin, DoesRejoin, DoesLeave, DoesCreateTransport, DoesProduce, DoesConsume, DoesClose;
    hide DoesProducerEvent, DoesConsumerEvent, LeftRooms, Closed, AfterJoin, AfterCreateTransport, AfterProduce;
    hide AfterConsume, AfterProducerEvent, AfterConsumerEvent, Rejoins;
    match op
    case Join(r, u, socketId) =>
      if HasPeer(s, r, u) { RejoinDoes(s, r, u, socketId, w); } else { JoinDoes(s, r, u, socketId); }
    case Leave(r, u) => if HasPeer(s, r, u) { LeftRoomsDo(s, {r}, u); }
    case LeaveAll(u) =>
      LeftRoomsDo(s, RoomsOf(s, u), u);
      assert RoomsOf(s, u) == Joined(s, u);
    case CreateTransport(r, u, direction, id, available) => CreateTransportDoes(s, r, u, direction, id, available);
    case Connect(id) =>
    case Produce(r, u, t, kind, id, available) => ProduceDoes(s, r, u, t, kind, id, available);
    case Consume(r, u, t, p, id, available, can) => ConsumeDoes(s, r, u, t, p, id, available, can);
    case CloseProducer(r, u, id) => if HasPeer(s, r, u) { CloseDoes(s, r, u, {id}); }
    case CloseUserProducers(r, u) => if HasPeer(s, r, u) { CloseDoes(s, r, u, PeerAt(s, r, u).producers); }
    case ProducerEvent(r, u, id) => ProducerEventDoes(s, r, u, id);
    case ConsumerEvent(r, u, id) => ConsumerEventDoes(s, r, u, id);
    case WorkerDied =>
  }

  lemma SetPeerDoes(s: Store, w: Store, r: Id, u: Id, p: Peer)
    requires r in s.rooms && w.rooms == SetPeer(s, r, u, p).rooms
    ensures OnePeer(s, w, r, u, p) && RoomsAre(s, w, {})
  {
    forall q: Id, v: Id | !(q == r && v == u) ensures SamePeer(s, w, q, v) { SetPeerPeers(s, r, u, p, q, v); }
  }

  lemma EnsureRoomDoes(s: Store, r: Id)
    ensures OnlyMakesRoom(s, r, EnsureRoom(s, r))
  {
  }

  lemma JoinDoes(s: Store, r: Id, u: Id, socketId: Id)
    requires !HasPeer(s, r, u)
    ensures DoesJoin(s, r, u, socketId, AfterJoin(s, r, u, socketId))
  {
    EnsureRoomDoes(s, r);
    SetPeerDoes(EnsureRoom(s, r), AfterJoin(s, r, u, socketId), r, u, Peer(socketId, {}, {}, {}));
  }

  lemma CleanedPeer(s: Store, c: Store, r: Id, u: Id)
    requires HasPeer(s, r, u) && PartlyCleaned(s, c, r, u)
    ensures var p := PeerAt(s, r, u);
            HasPeer(c, r, u) && PeerAt(c, r, u)
              == if ConsumerHandles(s, r, u) != {} then p
                 else if ProducerHandles(s, r, u) != {} then p.(consumers := {})
                 else p.(consumers := {}, producers := {})
  {
    var p := PeerAt(s, r, u);
    if ConsumerHandles(s, r, u) == {} && ProducerHandles(s, r, u) != {} {
      SetPeerPeers(s.(consumers := s.consumers - p.consumers, producers := c.producers),
                   r, u, p.(consumers := {}), r, u);
    }
  }

  lemma HandlesAreOwn(s: Store, r: Id, u: Id)
    requires Inv(s) && HasPeer(s, r, u)
    ensures forall id :: id in ConsumerHandles(s, r, u) <==> OwnsConsumer(s, r, u, id) && s.consumers[id].handle
    ensures forall id :: id in ProducerHandles(s, r, u) <==> OwnsProducer(s, r, u, id) && s.producers[id].handle
    ensures ConsumerHandles(s, r, u) != {} <==> exists id :: OwnsConsumer(s, r, u, id) && s.consumers[id].handle
    ensures ProducerHandles(s, r, u) != {} <==> exists id :: OwnsProducer(s, r, u, id) && s.producers[id].handle
  {
    ListsExactlyOwn(s, r, u);
    hide Inv;
    if ConsumerHandles(s, r, u) != {} { var id :| id in ConsumerHandles(s, r, u); assert OwnsConsumer(s, r, u, id); }
    if ProducerHandles(s, r, u) != {} { var id :| id in ProducerHandles(s, r, u); assert OwnsProducer(s, r, u, id); }
  }

  lemma CleanedTakesOwn(s: Store, c: Store, r: Id, u: Id)
    requires Inv(s) && HasPeer(s, r, u) && ShrinksAt(s, c, r, u)
    ensures TakesOwn(s, r, u, c)
  {
    ListsExactlyOwn(s, r, u);
  }

  lemma CleanedConsumers(s: Store, c: Store, r: Id, u: Id)
    requires Inv(s) && HasPeer(s, r, u) && PartlyCleaned(s, c, r, u)
    ensures forall id | OwnsConsumer(s, r, u, id) && s.consumers[id].handle :: id in c.consumers
    ensures ConsumerHandles(s, r, u) != {} ==> c.producers == s.producers
    ensures ConsumerHandles(s, r, u) == {} ==> forall id :: !OwnsConsumer(c, r, u, id)
  {
    HandlesAreOwn(s, r, u);
    ListsExactlyOwn(s, r, u);
    hide Inv;
    if ConsumerHandles(s, r, u) == {} { assert c.consumers == s.consumers - PeerAt(s, r, u).consumers; }
  }

  lemma CleanedProducers(s: Store, c: Store, r: Id, u: Id)
    requires Inv(s) && HasPeer(s, r, u) && PartlyCleaned(s, c, r, u) && ConsumerHandles(s, r, u) == {}
    ensures forall id | OwnsProducer(s, r, u, id) && s.producers[id].handle :: id in c.producers
    ensures ProducerHandles(s, r, u) == {} ==> forall id :: !OwnsProducer(c, r, u, id)
  {
    HandlesAreOwn(s, r, u);
    ListsExactlyOwn(s, r, u);
    hide Inv;
  }

  lemma RejoinedRooms(s: Store, c: Store, r: Id, u: Id, p: Peer, w: Store)
    requires HasPeer(s, r, u) && ShrinksAt(s, c, r, u) && w == SetPeer(c, r, u, p)
    ensures OnePeer(s, w, r, u, p) && RoomsAre(s, w, {})
    ensures w.transports == c.transports && w.producers == c.producers && w.consumers == c.consumers
    ensures w.issued == c.issued
  {
    SetPeerTwice(s, r, u, PeerAt(c, r, u), p);
    SetPeerDoes(s, w, r, u, p);
  }

  lemma RejoinDoes(s: Store, r: Id, u: Id, socketId: Id, w: Store)
    requires Inv(s) && HasPeer(s, r, u) && Rejoins(s, r, u, socketId, w)
    ensures DoesRejoin(s, r, u, socketId, w)
  {
    hide PartlyCleaned, Inv, ShrinksAt, SetPeer, OnePeer, RoomsAre, ConsumerHandles, ProducerHandles;
    var c: Store :| PartlyCleaned(s, c, r, u) && HasPeer(c, r, u)
                    && w == SetPeer(c, r, u, PeerAt(c, r, u).(socketId := socketId));
    PartlyCleanedShrinks(s, c, r, u);
    CleanedTakesOwn(s, c, r, u);
    CleanedPeer(s, c, r, u);
    RejoinedRooms(s, c, r, u, PeerAt(c, r, u).(socketId := socketId), w);
    HandlesAreOwn(s, r, u);
    assert TakesOwn(s, r, u, w);
    CleanedConsumers(s, c, r, u);
    hide TakesOwn;
    if ConsumerHandles(s, r, u) == {} {
      CleanedProducers(s, c, r, u);
      forall id ensures !OwnsConsumer(w, r, u, id) { assert !OwnsConsumer(c, r, u, id); }
      if ProducerHandles(s, r, u) == {} {
        forall id ensures !OwnsProducer(w, r, u, id) { assert !OwnsProducer(c, r, u, id); }
      }
    }
  }

  lemma AloneIsOnlyPeer(s: Store, q: Id, u: Id)
    requires q in s.rooms
    ensures Alone(s, q, u) <==> s.rooms[q].peers.Keys == {u}
  {
    if Alone(s, q, u) {
      forall v ensures v in s.rooms[q].peers.Keys <==> v == u { assert HasPeer(s, q, v) <==> v in s.rooms[q].peers; }
    }
    if s.rooms[q].peers.Keys == {u} {
      assert u in s.rooms[q].peers.Keys;
      forall v | HasPeer(s, q, v) ensures v == u { assert v in s.rooms[q].peers.Keys; }
    }
  }

  lemma LeftRoomsDo(s: Store, left: set<Id>, u: Id)
    requires left <= RoomsOf(s, u)
    ensures DoesLeave(s, left, u, LeftRooms(s, left, u))
  {
    forall q: Id | q in s.rooms ensures Alone(s, q, u) <==> s.rooms[q].peers.Keys == {u} { AloneIsOnlyPeer(s, q, u); }
    forall q: Id, v: Id
      ensures HasPeer(LeftRooms(s, left, u), q, v) <==> HasPeer(s, q, v) && !(q in left && v == u)
      ensures HasPeer(LeftRooms(s, left, u), q, v) ==> PeerAt(LeftRooms(s, left, u), q, v) == PeerAt(s, q, v)
    {
      LeftRoomsPeers(s, left, u, q, v);
    }
  }

  lemma CreateTransportDoes(s: Store, r: Id, u: Id, direction: Direction, id: Id, available: bool)
    ensures DoesCreateTransport(s, r, u, direction, id, available,
                                AfterCreateTransport(s, r, u, direction, id, available))
  {
    EnsureRoomDoes(s, r);
  }

  lemma ProduceDoes(s: Store, r: Id, u: Id, transportId: Id, kind: Kind, id: Id, available: bool)
    ensures DoesProduce(s, r, u, transportId, kind, id, available,
                        AfterProduce(s, r, u, transportId, kind, id, available))
  {
    EnsureRoomDoes(s, r);
    if HasPeer(s, r, u) {
      var p, w := PeerAt(s, r, u), AfterProduce(s, r, u, transportId, kind, id, available);
      if MayProduce(s, u, transportId) { SetPeerDoes(s, w, r, u, p.(producers := p.producers + {id})); }
      hide SetPeer;
    }
  }

  lemma ConsumeDoes(s: Store, r: Id, u: Id, transportId: Id, producerId: Id, id: Id, available: bool, canConsume: bool)
    ensures DoesConsume(s, r, u, transportId, producerId, id, available, canConsume,
                        AfterConsume(s, r, u, transportId, producerId, id, available, canConsume))
  {
    EnsureRoomDoes(s, r);
  }

  lemma CloseDoes(s: Store, r: Id, u: Id, closed: set<Id>)
    requires HasPeer(s, r, u)
    ensures DoesClose(s, r, u, closed, Closed(s, r, u, closed))
  {
    forall q: Id, v: Id ensures HasPeer(Closed(s, r, u, closed), q, v) <==> HasPeer(s, q, v) {
      ClosedPeers(s, r, u, closed, q, v);
    }
  }

  lemma ProducerEventDoes(s: Store, r: Id, u: Id, id: Id)
    ensures DoesProducerEvent(s, r, u, id, AfterProducerEvent(s, r, u, id))
  {
  }

  lemma ConsumerEventDoes(s: Store, r: Id, u: Id, id: Id)
    ensures DoesConsumerEvent(s, r, u, id, AfterConsumerEvent(s, r, u, id))
  {
  }

  // The same, said of each function of SfuStore.

  lemma LeaveEffect(s: Store, r: Id, u: Id)
    requires Inv(s)
    ensures Does(s, Leave(r, u), AfterLeave(s, r, u))
  {
    hide Inv, Does, AfterLeave;
    NextDoes(s, Leave(r, u), AfterLeave(s, r, u));
  }

  lemma LeaveAllEffect(s: Store, u: Id)
    requires Inv(s)
    ensures Does(s, LeaveAll(u), AfterLeaveAll(s, u))
  {
    hide Inv, Does, AfterLeaveAll;
    NextDoes(s, LeaveAll(u), AfterLeaveAll(s, u));
  }

  lemma CreateTransportEffect(s: Store, r: Id, u: Id, direction: Direction, id: Id, available: bool)
    requires Inv(s) && id !in s.issued
    ensures Does(s, CreateTransport(r, u, direction, id, available),
                 AfterCreateTransport(s, r, u, direction, id, available))
  {
    hide Inv, Does, AfterCreateTransport;
    NextDoes(s, CreateTransport(r, u, direction, id, available),
             AfterCreateTransport(s, r, u, direction, id, available));
  }

  lemma ConnectEffect(s: Store, id: Id)
    requires Inv(s)
    ensures Does(s, Connect(id), AfterConnect(s, id))
  {
    hide Inv, Does, AfterConnect;
    NextDoes(s, Connect(id), AfterConnect(s, id));
  }

  lemma ProduceEffect(s: Store, r: Id, u: Id, transportId: Id, kind: Kind, id: Id, available: bool)
    requires Inv(s) && id !in s.issued
    ensures Does(s, Produce(r, u, transportId, kind, id, available),
                 AfterProduce(s, r, u, transportId, kind, id, available))
  {
    hide Inv, Does, AfterProduce;
    NextDoes(s, Produce(r, u, transportId, kind, id, available),
             AfterProduce(s, r, u, transportId, kind, id, available));
  }

  lemma ConsumeEffect(s: Store, r: Id, u: Id, transportId: Id, producerId: Id, id: Id, available: bool,
                    canConsume: bool)
    requires Inv(s) && id !in s.issued
    ensures Does(s, Consume(r, u, transportId, producerId, id, available, canConsume),
                 AfterConsume(s, r, u, transportId, producerId, id, available, canConsume))
  {
    hide Inv, Does, AfterConsume;
    NextDoes(s, Consume(r, u, transportId, producerId, id, available, canConsume),
             AfterConsume(s, r, u, transportId, producerId, id, available, canConsume));
  }

  lemma CloseProducerEffect(s: Store, r: Id, u: Id, id: Id)
    requires Inv(s)
    ensures Does(s, CloseProducer(r, u, id), AfterCloseProducer(s, r, u, id))
  {
    hide Inv, Does, AfterCloseProducer;
    NextDoes(s, CloseProducer(r, u, id), AfterCloseProducer(s, r, u, id));
  }

  lemma CloseUserProducersEffect(s: Store, r: Id, u: Id)
    requires Inv(s)
    ensures Does(s, CloseUserProducers(r, u), AfterCloseUserProducers(s, r, u))
  {
    hide Inv, Does, AfterCloseUserProducers;
    NextDoes(s, CloseUserProducers(r, u), AfterCloseUserProducers(s, r, u));
  }

  lemma ProducerEventEffect(s: Store, r: Id, u: Id, id: Id)
    requires Inv(s) && (id in s.producers ==> LibraryProducer(s, r, u, id))
    ensures Does(s, ProducerEvent(r, u, id), AfterProducerEvent(s, r, u, id))
  {
    hide Inv, Does, AfterProducerEvent;
    NextDoes(s, ProducerEvent(r, u, id), AfterProducerEvent(s, r, u, id));
  }

  lemma ConsumerEventEffect(s: Store, r: Id, u: Id, id: Id)
    requires Inv(s) && (id in s.consumers ==> LibraryConsumer(s, r, u, id))
    ensures Does(s, ConsumerEvent(r, u, id), AfterConsumerEvent(s, r, u, id))
  {
    hide Inv, Does, AfterConsumerEvent;
    NextDoes(s, ConsumerEvent(r, u, id), AfterConsumerEvent(s, r, u, id));
  }

  lemma WorkerDiedEffect(s: Store)
    requires Inv(s)
    ensures Does(s, WorkerDied, AfterWorkerDied(s))
  {
    hide Inv, Does, AfterWorkerDied;
    NextDoes(s, WorkerDied, AfterWorkerDied(s));
  }

  // ------------------------------------------------------------- and no others

  /** Rooms are known by their keys, routers and peers. */
  lemma SameRooms(a: Store, b: Store)
    requires a.rooms.Keys == b.rooms.Keys && SamePeers(a, b)
    requires forall q: Id | q in a.rooms :: HasRouter(a, q) <==> HasRouter(b, q)
    ensures a.rooms == b.rooms
  {
    forall q: Id | q in a.rooms ensures a.rooms[q] == b.rooms[q] {
      forall v: Id
        ensures v in a.rooms[q].peers <==> v in b.rooms[q].peers
        ensures v in a.rooms[q].peers && v in b.rooms[q].peers ==> a.rooms[q].peers[v] == b.rooms[q].peers[v]
      {
        assert SamePeer(a, b, q, v);
      }
      assert a.rooms[q].peers == b.rooms[q].peers;
      assert HasRouter(a, q) <==> HasRouter(b, q);
    }
  }

  /** But for a rejoin, the effect decides the store. */
  lemma EffectDecides(s: Store, op: Op, a: Store, b: Store)
    requires Does(s, op, a) && Does(s, op, b) && (op.Join? ==> !HasPeer(s, op.r, op.u))
    ensures a == b
  {
    hide DoesJoin, DoesRejoin, DoesLeave, DoesCreateTransport, DoesProduce, DoesConsume, DoesClose;
    hide DoesProducerEvent, DoesConsumerEvent, DoesWorkerDied, DoesConnect;
    if op.ProducerEvent? || op.ConsumerEvent? {
      EventDecides(s, op, a, b);
    } else if op.LeaveAll? {
      LeaveDecides(s, Joined(s, op.u), op.u, a, b);
    } else if op.Leave? {
      if HasPeer(s, op.r, op.u) { LeaveDecides(s, {op.r}, op.u, a, b); }
    } else if op.CloseProducer? {
      if HasPeer(s, op.r, op.u) { CloseDecides(s, op.r, op.u, {op.producerId}, a, b); }
    } else if op.CloseUserProducers? {
      if HasPeer(s, op.r, op.u) { CloseDecides(s, op.r, op.u, PeerAt(s, op.r, op.u).producers, a, b); }
    } else {
      AddDecides(s, op, a, b);
    }
  }

  lemma LeaveDecides(s: Store, left: set<Id>, u: Id, a: Store, b: Store)
    requires DoesLeave(s, left, u, a) && DoesLeave(s, left, u, b)
    ensures a == b
  {
    forall q: Id, v: Id ensures SamePeer(a, b, q, v) {
      if !(q in left && v == u) { assert SamePeer(s, a, q, v) && SamePeer(s, b, q, v); }
    }
    assert a.rooms.Keys == b.rooms.Keys;
    SameRooms(a, b);
    assert a.transports == b.transports && a.producers == b.producers && a.consumers == b.consumers;
  }

  lemma CloseDecides(s: Store, r: Id, u: Id, closed: set<Id>, a: Store, b: Store)
    requires HasPeer(s, r, u) && DoesClose(s, r, u, closed, a) && DoesClose(s, r, u, closed, b)
    ensures a == b
  {
    forall q: Id, v: Id ensures SamePeer(a, b, q, v) {
      if q != r {
        assert SamePeer(s, a, q, v) && SamePeer(s, b, q, v);
      } else if HasPeer(s, r, v) {
        assert PeerAt(a, r, v).consumers == PeerAt(b, r, v).consumers;
      }
    }
    SameRooms(a, b);
    assert a.producers == b.producers && a.consumers == b.consumers;
  }

  lemma OnePeerDecides(s: Store, r: Id, u: Id, p: Peer, a: Store, b: Store)
    requires OnePeer(s, a, r, u, p) && OnePeer(s, b, r, u, p)
    ensures SamePeers(a, b)
  {
    forall q: Id, v: Id ensures SamePeer(a, b, q, v) {
      if !(q == r && v == u) { assert SamePeer(s, a, q, v) && SamePeer(s, b, q, v); }
    }
  }

  lemma SamePeersDecide(s: Store, a: Store, b: Store)
    requires SamePeers(s, a) && SamePeers(s, b)
    ensures SamePeers(a, b)
  {
    forall q: Id, v: Id ensures SamePeer(a, b, q, v) { assert SamePeer(s, a, q, v) && SamePeer(s, b, q, v); }
  }

  lemma EventDecides(s: Store, op: Op, a: Store, b: Store)
    requires (op.ProducerEvent? || op.ConsumerEvent?) && Does(s, op, a) && Does(s, op, b)
    ensures a == b
  {
    if HasPeer(s, op.r, op.u) {
      OnePeerDecides(s, op.r, op.u, PeerAt(a, op.r, op.u), a, b);
    } else {
      SamePeersDecide(s, a, b);
    }
    SameRooms(a, b);
    assert a.producers == b.producers && a.consumers == b.consumers;
  }

  lemma AddDecides(s: Store, op: Op, a: Store, b: Store)
    requires op.Join? || op.CreateTransport? || op.Connect? || op.Produce? || op.Consume? || op.WorkerDied?
    requires Does(s, op, a) && Does(s, op, b) && (op.Join? ==> !HasPeer(s, op.r, op.u))
    ensures a == b
  {
    if op.Connect? {
      return;
    } else if op.WorkerDied? {
      SamePeersDecide(s, a, b);
    } else if HasPeer(s, op.r, op.u) || op.Join? {
      OnePeerDecides(s, op.r, op.u, PeerAt(a, op.r, op.u), a, b);
    } else {
      SamePeersDecide(s, a, b);
    }
    SameRooms(a, b);
  }
}
