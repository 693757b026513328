/**
 What live entries of the store say about each other: a producer sits on a send
 transport of its user, a consumer on a receive transport of its user, and it
 shows the kind and the room of the producer it consumes.
 */
module SfuPairing {
  import opened Common
  import opened SfuStore

  /** The transport is gone, or is one of that user and direction. */
  ghost predicate OnTransport(s: Store, transportId: Id, u: Id, direction: Direction) {
    && transportId in s.issued
    && (transportId in s.transports ==>
          s.transports[transportId].userId == u && s.transports[transportId].direction == direction)
  }

  /** The consumed producer is gone, or is in the consumer's room and of its kind. */
  ghost predicate Consumes(s: Store, c: Consumer) {
    && c.producerId in s.issued
    && (c.producerId in s.producers ==>
          s.producers[c.producerId].roomId == c.roomId && s.producers[c.producerId].kind == c.kind)
  }

  ghost predicate Paired(s: Store) {
    && (forall id | id in s.producers :: OnTransport(s, s.producers[id].transportId, s.producers[id].userId, Send))
    && (forall id | id in s.consumers ::
          OnTransport(s, s.consumers[id].transportId, s.consumers[id].userId, Recv) && Consumes(s, s.consumers[id]))
  }

  /** Entries of `w` are those of `s`, but for new keys, which pair up. */
  ghost predicate Extends(s: Store, w: Store) {
    && s.issued <= w.issued
    && (forall id | id in w.transports && id in s.issued ::
          id in s.transports && w.transports[id].userId == s.transports[id].userId
          && w.transports[id].direction == s.transports[id].direction)
    && (forall id | id in w.producers ::
          if id in s.issued then id in s.producers && w.producers[id] == s.producers[id]
          else OnTransport(w, w.producers[id].transportId, w.producers[id].userId, Send))
    && (forall id | id in w.consumers ::
          if id in s.issued then id in s.consumers && w.consumers[id] == s.consumers[id]
          else
            && OnTransport(w, w.consumers[id].transportId, w.consumers[id].userId, Recv)
            && Consumes(w, w.consumers[id]))
  }

  lemma ExtensionKeepsPaired(s: Store, w: Store)
    requires Paired(s) && Extends(s, w)
    ensures Paired(w)
  {
    forall id | id in w.consumers
      ensures OnTransport(w, w.consumers[id].transportId, w.consumers[id].userId, Recv) && Consumes(w, w.consumers[id])
    {
      assert id in s.issued ==> Consumes(s, s.consumers[id]);
    }
  }

  ghost predicate KeysIssued(s: Store) {
    s.transports.Keys + s.producers.Keys + s.consumers.Keys <= s.issued
  }

  /** One entry map grows by one new key, or none does. */
  ghost predicate SameEntries(s: Store, w: Store) {
    s.issued <= w.issued && w.transports == s.transports && w.producers == s.producers && w.consumers == s.consumers
  }

  lemma SameEntriesExtend(s: Store, w: Store)
    requires KeysIssued(s) && SameEntries(s, w)
    ensures Extends(s, w)
  {
  }

  lemma NewProducerExtends(s: Store, w: Store, id: Id, p: Producer)
    requires KeysIssued(s) && id !in s.issued && SameEntries(s, w.(producers := s.producers))
    requires w.producers == s.producers[id := p] && p.transportId in s.transports
    requires s.transports[p.transportId].userId == p.userId && s.transports[p.transportId].direction == Send
    ensures Extends(s, w)
  {
  }

  lemma NewConsumerExtends(s: Store, w: Store, id: Id, c: Consumer)
    requires KeysIssued(s) && id !in s.issued && SameEntries(s, w.(consumers := s.consumers))
    requires w.consumers == s.consumers[id := c] && c.transportId in s.transports && c.producerId in s.producers
    requires s.transports[c.transportId].userId == c.userId && s.transports[c.transportId].direction == Recv
    requires s.producers[c.producerId].roomId == c.roomId && s.producers[c.producerId].kind == c.kind
    ensures Extends(s, w)
  {
  }

  lemma NewTransportExtends(s: Store, w: Store, id: Id)
    requires KeysIssued(s) && id !in s.issued && SameEntries(s, w.(transports := s.transports))
    requires id in w.transports && w.transports == s.transports[id := w.transports[id]]
    ensures Extends(s, w)
  {
  }

  lemma ProduceExtends(s: Store, r: Id, u: Id, transportId: Id, kind: Kind, id: Id, available: bool)
    requires KeysIssued(s) && id !in s.issued
    ensures Extends(s, AfterProduce(s, r, u, transportId, kind, id, available))
  {
    var w := AfterProduce(s, r, u, transportId, kind, id, available);
    if MayProduce(s, u, transportId) && HasPeer(EnsureRoom(s, r), r, u) {
      NewProducerExtends(s, w, id, w.producers[id]);
    } else {
      SameEntriesExtend(s, w);
    }
  }

  lemma ConsumeExtends(s: Store, r: Id, u: Id, transportId: Id, producerId: Id, id: Id,
                       available: bool, canConsume: bool)
    requires KeysIssued(s) && id !in s.issued
    ensures Extends(s, AfterConsume(s, r, u, transportId, producerId, id, available, canConsume))
  {
    var w := AfterConsume(s, r, u, transportId, producerId, id, available, canConsume);
    if id in w.consumers {
      NewConsumerExtends(s, w, id, w.consumers[id]);
    } else {
      SameEntriesExtend(s, w);
    }
  }

  lemma CreateTransportExtends(s: Store, r: Id, u: Id, direction: Direction, id: Id, available: bool)
    requires KeysIssued(s) && id !in s.issued
    ensures Extends(s, AfterCreateTransport(s, r, u, direction, id, available))
  {
    var w := AfterCreateTransport(s, r, u, direction, id, available);
    if HasPeer(EnsureRoom(s, r), r, u) { NewTransportExtends(s, w, id); } else { SameEntriesExtend(s, w); }
  }

  /** No entry is new, changes hands or changes direction. */
  ghost predicate OnlyRemoves(s: Store, w: Store) {
    && OwnersKept(s, w) && w.issued == s.issued
    && forall id | id in w.transports :: w.transports[id].direction == s.transports[id].direction
  }

  /** Removing entries extends. */
  lemma ShrinkExtends(s: Store, w: Store)
    requires KeysIssued(s) && OnlyRemoves(s, w)
    ensures Extends(s, w)
  {
  }

  lemma JoinRemoves(s: Store, r: Id, u: Id, socketId: Id, w: Store)
    requires Next(s, Join(r, u, socketId), w)
    ensures OnlyRemoves(s, w)
  {
    hide PartlyCleaned;
    if HasPeer(s, r, u) {
      var c: Store :| PartlyCleaned(s, c, r, u) && HasPeer(c, r, u)
                      && w == SetPeer(c, r, u, PeerAt(c, r, u).(socketId := socketId));
      PartlyCleanedShrinks(s, c, r, u);
    }
  }

  lemma LeaveRemoves(s: Store, left: set<Id>, u: Id)
    ensures OnlyRemoves(s, LeftRooms(s, left, u))
  {
  }

  lemma CloseRemoves(s: Store, r: Id, u: Id, closed: set<Id>)
    requires HasPeer(s, r, u)
    ensures OnlyRemoves(s, Closed(s, r, u, closed))
  {
  }

  lemma EventRemoves(s: Store, r: Id, u: Id, id: Id)
    ensures OnlyRemoves(s, AfterProducerEvent(s, r, u, id))
    ensures OnlyRemoves(s, AfterConsumerEvent(s, r, u, id))
  {
  }

  lemma ConnectRemoves(s: Store, id: Id)
    ensures OnlyRemoves(s, AfterConnect(s, id))
  {
  }

  lemma NothingRemoves(s: Store)
    ensures OnlyRemoves(s, s)
  {
  }

  /** The calls that make an entry. */
  predicate Makes(op: Op) {
    op.CreateTransport? || op.Produce? || op.Consume?
  }

  lemma NextRemoves(s: Store, op: Op, w: Store)
    requires Next(s, op, w) && !Makes(op)
    ensures OnlyRemoves(s, w)
  {
    NothingRemoves(s);
    match op
    case Join(r, u, socketId) => JoinRemoves(s, r, u, socketId, w);
    case Leave(r, u) => LeaveRemoves(s, {r}, u);
    case LeaveAll(u) => LeaveRemoves(s, RoomsOf(s, u), u);
    case Connect(id) => ConnectRemoves(s, id);
    case CloseProducer(r, u, id) => if HasPeer(s, r, u) { CloseRemoves(s, r, u, {id}); }
    case CloseUserProducers(r, u) => if HasPeer(s, r, u) { CloseRemoves(s, r, u, PeerAt(s, r, u).producers); }
    case ProducerEvent(r, u, id) => EventRemoves(s, r, u, id);
    case ConsumerEvent(r, u, id) => EventRemoves(s, r, u, id);
    case WorkerDied =>
  }

  lemma NextExtends(s: Store, op: Op, w: Store)
    requires KeysIssued(s) && Next(s, op, w)
    ensures Extends(s, w)
  {
    match op
    case CreateTransport(r, u, direction, id, available) => CreateTransportExtends(s, r, u, direction, id, available);
    case Produce(r, u, t, kind, id, available) => ProduceExtends(s, r, u, t, kind, id, available);
    case Consume(r, u, t, p, id, available, can) => ConsumeExtends(s, r, u, t, p, id, available, can);
    case _ =>
      NextRemoves(s, op, w);
      ShrinkExtends(s, w);
  }

  lemma NextKeepsPaired(s: Store, op: Op, w: Store)
    requires Inv(s) && Paired(s) && Next(s, op, w)
    ensures Paired(w)
  {
    NextExtends(s, op, w);
    ExtensionKeepsPaired(s, w);
  }

  /** In every store that a run reaches, live entries fit together. */
  lemma {:induction false} RunKeepsPaired(s: Store, ops: seq<Op>, w: Store)
    requires Inv(s) && Paired(s) && Runs(s, ops, w)
    ensures Paired(w)
    decreases |ops|
  {
    if ops == [] {
    } else {
      var m: Store :| Next(s, ops[0], m) && Runs(m, ops[1..], w);
      NextKeepsInv(s, ops[0], m);
      NextKeepsPaired(s, ops[0], m);
      RunKeepsPaired(m, ops[1..], w);
    }
  }

  lemma ReachableStoresArePaired(ops: seq<Op>, w: Store)
    requires Runs(EmptyStore, ops, w)
    ensures Paired(w)
  {
    assert Inv(EmptyStore) && Paired(EmptyStore);
    RunKeepsPaired(EmptyStore, ops, w);
  }

  // ---------------------------------------------------------------- exact lists

  ghost predicate ListsLive(s: Store, p: Peer) {
    p.transports <= s.transports.Keys && p.producers <= s.producers.Keys && p.consumers <= s.consumers.Keys
  }

  /** No peer lists a key that is gone. */
  ghost predicate ListsExact(s: Store) {
    forall r: Id, u: Id | HasPeer(s, r, u) :: ListsLive(s, PeerAt(s, r, u))
  }

  /** The closed producer is the peer's own or gone, and nobody consumes it in another room. */
  predicate ClosesOwn(s: Store, r: Id, u: Id, id: Id) {
    && (id in s.producers ==> s.producers[id].roomId == r && s.producers[id].userId == u)
    && (forall c | c in s.consumers && s.consumers[c].producerId == id :: s.consumers[c].roomId == r)
  }

  /** A rejoin that stops at a handle has dropped no entry before it. */
  ghost predicate StopsAtOnce(s: Store, r: Id, u: Id, w: Store)
    requires HasPeer(s, r, u)
  {
    && (ConsumerHandles(s, r, u) != {} ==> w.consumers == s.consumers)
    && (ConsumerHandles(s, r, u) == {} && ProducerHandles(s, r, u) != {} ==> w.producers == s.producers)
  }

  /** The two calls that can leave keys listed, and when they do not. */
  ghost predicate LeavesNoKeys(s: Store, op: Op, w: Store) {
    match op
    case CloseProducer(r, u, id) => HasPeer(s, r, u) ==> ClosesOwn(s, r, u, id)
    case Join(r, u, _) => HasPeer(s, r, u) ==> StopsAtOnce(s, r, u, w)
    case _ => true
  }

  /**
   Exact lists stay exact under every call and library event, but for two: a
   close of another's producer or of one consumed elsewhere, and a rejoin that
   drops entries before it meets a handle. These two always leave keys behind.
   */
  lemma StepKeepsListsExactly(s: Store, op: Op, w: Store)
    requires Inv(s) && Paired(s) && ListsExact(s) && Next(s, op, w)
    ensures ListsExact(w) <==> LeavesNoKeys(s, op, w)
  {
    assert op.CloseProducer? ==> w == AfterCloseProducer(s, op.r, op.u, op.producerId);
    hide Inv, Paired, ListsExact, Next;
    match op
    case Join(r, u, socketId) => JoinKeepsLists(s, r, u, socketId, w);
    case Leave(r, u) => LeaveKeepsLists(s, op, w);
    case LeaveAll(u) => LeaveKeepsLists(s, op, w);
    case CloseProducer(r, u, id) => CloseKeepsLists(s, r, u, id);
    case CloseUserProducers(r, u) => CloseAllKeepsLists(s, r, u, w);
    case ProducerEvent(r, u, id) => EventKeepsLists(s, op, w);
    case ConsumerEvent(r, u, id) => EventKeepsLists(s, op, w);
    case _ => AddKeepsLists(s, op, w);
  }

  /** `closeProducer` leaves the lists exact just when what it closes is the peer's own or gone, and consumed here. */
  lemma CloseKeepsLists(s: Store, r: Id, u: Id, id: Id)
    requires Inv(s) && ListsExact(s)
    ensures ListsExact(AfterCloseProducer(s, r, u, id)) <==> (HasPeer(s, r, u) ==> ClosesOwn(s, r, u, id))
  {
    if HasPeer(s, r, u) {
      hide Inv, Closed, ListsExact;
      if ClosesOwn(s, r, u, id) {
        ClosedListsLive(s, r, u, {id});
      } else if id in s.producers && !(s.producers[id].roomId == r && s.producers[id].userId == u) {
        ProducerKeyStays(s, r, u, id);
      } else {
        var c :| c in s.consumers && s.consumers[c].producerId == id && s.consumers[c].roomId != r;
        ConsumerKeyStays(s, r, u, id, c);
      }
    }
  }

  lemma ProducerKeyStays(s: Store, r: Id, u: Id, id: Id)
    requires AllListed(s) && HasPeer(s, r, u) && id in s.producers
    requires !(s.producers[id].roomId == r && s.producers[id].userId == u)
    ensures !ListsExact(Closed(s, r, u, {id}))
  {
    var w, p := Closed(s, r, u, {id}), s.producers[id];
    assert ProducerListed(s, id) && id !in w.producers;
    ClosedPeers(s, r, u, {id}, p.roomId, p.userId);
    assert !ListsLive(w, PeerAt(w, p.roomId, p.userId));
  }

  lemma ConsumerKeyStays(s: Store, r: Id, u: Id, id: Id, c: Id)
    requires AllListed(s) && HasPeer(s, r, u)
    requires c in s.consumers && s.consumers[c].producerId == id && s.consumers[c].roomId != r
    ensures !ListsExact(Closed(s, r, u, {id}))
  {
    var w, x := Closed(s, r, u, {id}), s.consumers[c];
    assert ConsumerListed(s, c) && c !in w.consumers;
    ClosedPeers(s, r, u, {id}, x.roomId, x.userId);
    assert !ListsLive(w, PeerAt(w, x.roomId, x.userId));
  }

  /** Closing only what is the peer's own or gone, and consumed in this room alone, strikes every key. */
  lemma ClosedListsLive(s: Store, r: Id, u: Id, closed: set<Id>)
    requires Inv(s) && ListsExact(s) && HasPeer(s, r, u)
    requires forall id | id in closed :: ClosesOwn(s, r, u, id)
    ensures ListsExact(Closed(s, r, u, closed))
  {
    var w := Closed(s, r, u, closed);
    forall q: Id, v: Id | HasPeer(w, q, v) ensures ListsLive(w, PeerAt(w, q, v)) {
      ClosedPeers(s, r, u, closed, q, v);
      assert ListsLive(s, PeerAt(s, q, v)) && ListsOwn(s, q, v);
      ClosedPeerLists(s, r, u, closed, PeerAt(s, q, v), q, v);
    }
  }

  lemma ClosedPeerLists(s: Store, r: Id, u: Id, closed: set<Id>, p: Peer, q: Id, v: Id)
    requires HasPeer(s, q, v) && p == PeerAt(s, q, v) && ListsOwn(s, q, v) && ListsLive(s, p)
    requires forall id | id in closed :: ClosesOwn(s, r, u, id)
    ensures (if q == r && v == u then p.producers - closed else p.producers) <= s.producers.Keys - closed
    ensures (if q == r then p.consumers - Struck(s, closed, v) else p.consumers)
         <= s.consumers.Keys - ConsumersOf(s, closed)
  {
    forall c | c in p.consumers && c in ConsumersOf(s, closed) ensures q == r && c in Struck(s, closed, v) {
      assert ClosesOwn(s, r, u, s.consumers[c].producerId);
    }
    forall id | id in p.producers && id in closed ensures q == r && v == u {
      assert ClosesOwn(s, r, u, id);
    }
  }

  lemma CloseAllKeepsLists(s: Store, r: Id, u: Id, w: Store)
    requires Inv(s) && Paired(s) && ListsExact(s) && Next(s, Op.CloseUserProducers(r, u), w)
    ensures ListsExact(w)
  {
    if HasPeer(s, r, u) {
      assert ListsOwn(s, r, u) && ListsLive(s, PeerAt(s, r, u));
      forall id | id in PeerAt(s, r, u).producers ensures ClosesOwn(s, r, u, id) {
        forall c | c in s.consumers && s.consumers[c].producerId == id ensures s.consumers[c].roomId == r {
          assert Consumes(s, s.consumers[c]);
        }
      }
      ClosedListsLive(s, r, u, PeerAt(s, r, u).producers);
    }
  }

  lemma JoinKeepsLists(s: Store, r: Id, u: Id, socketId: Id, w: Store)
    requires Inv(s) && ListsExact(s) && Next(s, Join(r, u, socketId), w)
    ensures ListsExact(w) <==> (HasPeer(s, r, u) ==> StopsAtOnce(s, r, u, w))
  {
    if HasPeer(s, r, u) {
      RejoinKeepsLists(s, r, u, socketId, w);
    } else {
      hide AfterJoin;
      JoinAdds(s, r, u, socketId, w);
      forall q: Id, v: Id | HasPeer(w, q, v) ensures ListsLive(w, PeerAt(w, q, v)) {
        NewPeerOnly(s, r, u, socketId, q, v);
      }
    }
  }

  lemma NewPeerOnly(s: Store, r: Id, u: Id, socketId: Id, q: Id, v: Id)
    requires !HasPeer(s, r, u) && HasPeer(AfterJoin(s, r, u, socketId), q, v)
    ensures PeerAt(AfterJoin(s, r, u, socketId), q, v)
         == if HasPeer(s, q, v) then PeerAt(s, q, v) else Peer(socketId, {}, {}, {})
  {
    EnsureRoomPeers(s, r, q, v);
  }

  lemma RejoinKeepsLists(s: Store, r: Id, u: Id, socketId: Id, w: Store)
    requires Inv(s) && ListsExact(s) && HasPeer(s, r, u) && Rejoins(s, r, u, socketId, w)
    ensures ListsExact(w) <==> StopsAtOnce(s, r, u, w)
  {
    hide PartlyCleaned, Inv, StopsAtOnce;
    var c: Store :| PartlyCleaned(s, c, r, u) && HasPeer(c, r, u)
                    && w == SetPeer(c, r, u, PeerAt(c, r, u).(socketId := socketId));
    PartlyCleanedShrinks(s, c, r, u);
    assert ListsLive(s, PeerAt(s, r, u));
    RejoinedPeer(s, c, r, u, w);
    SetPeerTwice(s, r, u, PeerAt(c, r, u), PeerAt(w, r, u));
    OthersKeepLists(s, r, u, PeerAt(w, r, u), w);
  }

  /** What a peer lists alone is gone from no other list. */
  lemma OthersKeepLists(s: Store, r: Id, u: Id, p: Peer, w: Store)
    requires Inv(s) && ListsExact(s) && HasPeer(s, r, u) && w.rooms == SetPeer(s, r, u, p).rooms
    requires w.transports == s.transports
    requires s.producers.Keys - w.producers.Keys <= PeerAt(s, r, u).producers
    requires s.consumers.Keys - w.consumers.Keys <= PeerAt(s, r, u).consumers
    ensures ListsExact(w) <==> ListsLive(w, p)
  {
    SetPeerPeers(s, r, u, p, r, u);
    assert HasPeer(w, r, u) && PeerAt(w, r, u) == p && ListsOwn(s, r, u);
    forall q: Id, v: Id | HasPeer(w, q, v) && !(q == r && v == u) ensures ListsLive(w, PeerAt(w, q, v)) {
      SetPeerPeers(s, r, u, p, q, v);
      assert ListsOwn(s, q, v) && ListsLive(s, PeerAt(s, q, v));
    }
  }

  lemma RejoinedPeer(s: Store, c: Store, r: Id, u: Id, w: Store)
    requires HasPeer(s, r, u) && PartlyCleaned(s, c, r, u) && ListsLive(s, PeerAt(s, r, u))
    requires HasPeer(c, r, u) && HasPeer(w, r, u) && w.transports == s.transports
    requires w.producers == c.producers && w.consumers == c.consumers
    requires PeerAt(w, r, u) == PeerAt(c, r, u).(socketId := PeerAt(w, r, u).socketId)
    ensures ListsLive(w, PeerAt(w, r, u)) <==> StopsAtOnce(s, r, u, w)
  {
    if ConsumerHandles(s, r, u) != {} {
      if PeerAt(s, r, u).consumers <= c.consumers.Keys {
        NothingGone(s.consumers, c.consumers, PeerAt(s, r, u).consumers - ConsumerHandles(s, r, u));
      }
    } else if ProducerHandles(s, r, u) != {} {
      if PeerAt(s, r, u).producers <= c.producers.Keys {
        NothingGone(s.producers, c.producers, PeerAt(s, r, u).producers - ProducerHandles(s, r, u));
      }
    }
  }

  lemma NothingGone<V>(before: map<Id, V>, after: map<Id, V>, removable: set<Id>)
    requires PartlyGone(before, after, removable) && removable <= after.Keys
    ensures after == before
  {
    assert before.Keys - after.Keys == {};
  }

  /** Of what the cleanup looks at first, the library backs all or nothing. */
  predicate Unmixed(s: Store, r: Id, u: Id)
    requires HasPeer(s, r, u)
  {
    var p := PeerAt(s, r, u);
    if ConsumerHandles(s, r, u) != {} then ConsumerHandles(s, r, u) == p.consumers
    else ProducerHandles(s, r, u) != {} ==> ProducerHandles(s, r, u) == p.producers
  }

  /** A rejoin keeps the lists exact, in whatever order it meets the entries, exactly when they are unmixed. */
  lemma RejoinKeepsListsExactly(s: Store, r: Id, u: Id, socketId: Id)
    requires Inv(s) && ListsExact(s) && HasPeer(s, r, u)
    ensures (forall w | Rejoins(s, r, u, socketId, w) :: ListsExact(w)) <==> Unmixed(s, r, u)
  {
    hide Inv, ListsExact;
    if Unmixed(s, r, u) {
      forall w | Rejoins(s, r, u, socketId, w) ensures ListsExact(w) {
        UnmixedStopsAtOnce(s, r, u, socketId, w);
        RejoinKeepsLists(s, r, u, socketId, w);
      }
    } else {
      var w := MixedRejoin(s, r, u, socketId);
      RejoinKeepsLists(s, r, u, socketId, w);
    }
  }

  lemma UnmixedStopsAtOnce(s: Store, r: Id, u: Id, socketId: Id, w: Store)
    requires HasPeer(s, r, u) && Unmixed(s, r, u) && Rejoins(s, r, u, socketId, w)
    ensures StopsAtOnce(s, r, u, w)
  {
    var c: Store :| PartlyCleaned(s, c, r, u) && HasPeer(c, r, u)
                    && w == SetPeer(c, r, u, PeerAt(c, r, u).(socketId := socketId));
    if ConsumerHandles(s, r, u) != {} {
      NothingGone(s.consumers, c.consumers, {});
    } else if ProducerHandles(s, r, u) != {} {
      NothingGone(s.producers, c.producers, {});
    }
  }

  /** The rejoin that meets the handles last. */
  lemma MixedRejoin(s: Store, r: Id, u: Id, socketId: Id) returns (w: Store)
    requires ListsExact(s) && HasPeer(s, r, u) && !Unmixed(s, r, u)
    ensures Rejoins(s, r, u, socketId, w) && !StopsAtOnce(s, r, u, w)
  {
    assert ListsLive(s, PeerAt(s, r, u));
    hide ListsExact;
    if ConsumerHandles(s, r, u) != {} {
      w := MixedConsumers(s, r, u, socketId);
    } else {
      w := MixedProducers(s, r, u, socketId);
    }
  }

  lemma MixedConsumers(s: Store, r: Id, u: Id, socketId: Id) returns (w: Store)
    requires HasPeer(s, r, u) && ListsLive(s, PeerAt(s, r, u))
    requires ConsumerHandles(s, r, u) != {} && ConsumerHandles(s, r, u) != PeerAt(s, r, u).consumers
    ensures Rejoins(s, r, u, socketId, w) && w.consumers != s.consumers
  {
    var p := PeerAt(s, r, u);
    var dropped := p.consumers - ConsumerHandles(s, r, u);
    assert p.consumers == ConsumerHandles(s, r, u) + dropped;
    var id :| id in dropped;
    var c := s.(consumers := s.consumers - dropped);
    assert PartlyCleaned(s, c, r, u) && HasPeer(c, r, u);
    w := SetPeer(c, r, u, PeerAt(c, r, u).(socketId := socketId));
    assert id in s.consumers && id !in w.consumers;
  }

  lemma MixedProducers(s: Store, r: Id, u: Id, socketId: Id) returns (w: Store)
    requires HasPeer(s, r, u) && ListsLive(s, PeerAt(s, r, u)) && ConsumerHandles(s, r, u) == {}
    requires ProducerHandles(s, r, u) != {} && ProducerHandles(s, r, u) != PeerAt(s, r, u).producers
    ensures Rejoins(s, r, u, socketId, w) && w.producers != s.producers
  {
    var p := PeerAt(s, r, u);
    var dropped := p.producers - ProducerHandles(s, r, u);
    assert p.producers == ProducerHandles(s, r, u) + dropped;
    var id :| id in dropped;
    var m := s.(consumers := s.consumers - p.consumers, producers := s.producers - dropped);
    var c := SetPeer(m, r, u, p.(consumers := {}));
    SetPeerPeers(m, r, u, p.(consumers := {}), r, u);
    assert PartlyCleaned(s, c, r, u) by { hide SetPeer; }
    w := SetPeer(c, r, u, PeerAt(c, r, u).(socketId := socketId));
    assert id in s.producers && id !in w.producers;
  }

  lemma LeaveKeepsLists(s: Store, op: Op, w: Store)
    requires Inv(s) && ListsExact(s) && (op.Leave? || op.LeaveAll?) && Next(s, op, w)
    ensures ListsExact(w)
  {
    var left := if op.Leave? then {op.r} else RoomsOf(s, op.u);
    if left <= RoomsOf(s, op.u) {
      assert w == LeftRooms(s, left, op.u);
      forall q: Id, v: Id | HasPeer(w, q, v) ensures ListsLive(w, PeerAt(w, q, v)) {
        LeftRoomsPeers(s, left, op.u, q, v);
        assert ListsLive(s, PeerAt(s, q, v)) && ListsOwn(s, q, v);
      }
    } else {
      assert w == s;
    }
  }

  lemma EventKeepsLists(s: Store, op: Op, w: Store)
    requires Inv(s) && ListsExact(s) && (op.ProducerEvent? || op.ConsumerEvent?) && Next(s, op, w)
    ensures ListsExact(w)
  {
    hide Inv;
    if HasPeer(s, op.r, op.u) {
      var p := PeerAt(s, op.r, op.u);
      assert ListsLive(s, p);
      var q := if op.ProducerEvent? then p.(producers := p.producers - {op.id})
               else p.(consumers := p.consumers - {op.id});
      EventTakesOwn(s, op, w);
      OthersKeepLists(s, op.r, op.u, q, w);
    } else {
      EventTakesOwn(s, op, w);
    }
  }

  lemma EventTakesOwn(s: Store, op: Op, w: Store)
    requires Inv(s) && (op.ProducerEvent? || op.ConsumerEvent?) && Next(s, op, w)
    ensures !HasPeer(s, op.r, op.u) ==> w == s
    ensures HasPeer(s, op.r, op.u) ==>
              && s.producers.Keys - w.producers.Keys <= PeerAt(s, op.r, op.u).producers
              && s.consumers.Keys - w.consumers.Keys <= PeerAt(s, op.r, op.u).consumers
  {
    if op.ProducerEvent? {
      ProducerEventTakesOwn(s, op.r, op.u, op.id);
    } else {
      ConsumerEventTakesOwn(s, op.r, op.u, op.id);
    }
  }

  lemma ProducerEventTakesOwn(s: Store, r: Id, u: Id, id: Id)
    requires AllListed(s) && (id in s.producers ==> LibraryProducer(s, r, u, id))
    ensures var w := AfterProducerEvent(s, r, u, id);
            && w.consumers == s.consumers
            && if HasPeer(s, r, u) then s.producers.Keys - w.producers.Keys <= PeerAt(s, r, u).producers else w == s
  {
    assert id in s.producers ==> ProducerListed(s, id);
  }

  lemma ConsumerEventTakesOwn(s: Store, r: Id, u: Id, id: Id)
    requires AllListed(s) && (id in s.consumers ==> LibraryConsumer(s, r, u, id))
    ensures var w := AfterConsumerEvent(s, r, u, id);
            && w.producers == s.producers
            && if HasPeer(s, r, u) then s.consumers.Keys - w.consumers.Keys <= PeerAt(s, r, u).consumers else w == s
  {
    assert id in s.consumers ==> ConsumerListed(s, id);
  }

  lemma AddKeepsLists(s: Store, op: Op, w: Store)
    requires ListsExact(s) && Next(s, op, w)
    requires op.CreateTransport? || op.Connect? || op.Produce? || op.Consume? || op.WorkerDied?
    ensures ListsExact(w)
  {
    forall q: Id, v: Id | HasPeer(w, q, v) ensures ListsLive(w, PeerAt(w, q, v)) {
      match op {
        case CreateTransport(r, u, direction, id, available) => TransportLists(s, r, u, direction, id, available, q, v);
        case Connect(_) => assert ListsLive(s, PeerAt(s, q, v));
        case Produce(r, u, t, kind, id, available) => ProduceLists(s, r, u, t, kind, id, available, q, v);
        case Consume(r, u, t, p, id, available, can) => ConsumeLists(s, r, u, t, p, id, available, can, q, v);
        case WorkerDied =>
          WorkerDiedPeers(s, q, v);
          assert ListsLive(s, PeerAt(s, q, v));
      }
    }
  }

  lemma TransportLists(s: Store, r: Id, u: Id, direction: Direction, id: Id, available: bool, q: Id, v: Id)
    requires ListsExact(s) && HasPeer(AfterCreateTransport(s, r, u, direction, id, available), q, v)
    ensures var w := AfterCreateTransport(s, r, u, direction, id, available); ListsLive(w, PeerAt(w, q, v))
  {
    EnsureRoomPeers(s, r, q, v);
    assert HasPeer(s, q, v) ==> ListsLive(s, PeerAt(s, q, v));
  }

  lemma ProduceLists(s: Store, r: Id, u: Id, transportId: Id, kind: Kind, id: Id, available: bool, q: Id, v: Id)
    requires ListsExact(s) && HasPeer(AfterProduce(s, r, u, transportId, kind, id, available), q, v)
    ensures var w := AfterProduce(s, r, u, transportId, kind, id, available); ListsLive(w, PeerAt(w, q, v))
  {
    EnsureRoomPeers(s, r, q, v);
    assert HasPeer(s, q, v) ==> ListsLive(s, PeerAt(s, q, v));
  }

  lemma ConsumeLists(s: Store, r: Id, u: Id, transportId: Id, producerId: Id, id: Id, available: bool,
                     canConsume: bool, q: Id, v: Id)
    requires ListsExact(s)
    requires HasPeer(AfterConsume(s, r, u, transportId, producerId, id, available, canConsume), q, v)
    ensures var w := AfterConsume(s, r, u, transportId, producerId, id, available, canConsume);
            ListsLive(w, PeerAt(w, q, v))
  {
    EnsureRoomPeers(s, r, q, v);
    assert HasPeer(s, q, v) ==> ListsLive(s, PeerAt(s, q, v));
  }

  /** The call makes nothing by the library. */
  predicate InFallbackMode(op: Op) {
    (op.Produce? ==> !op.available) && (op.Consume? ==> !op.available)
  }

  ghost predicate NoHandles(s: Store) {
    && (forall id | id in s.producers :: !s.producers[id].handle)
    && (forall id | id in s.consumers :: !s.consumers[id].handle)
  }

  lemma FallbackKeepsNoHandles(s: Store, op: Op, w: Store)
    requires NoHandles(s) && Next(s, op, w) && InFallbackMode(op)
    ensures NoHandles(w)
  {
    if Makes(op) {
      hide SetPeer, EnsureRoom, SetRouter;
      MakesOne(s, op, w);
    } else {
      NextRemoves(s, op, w);
    }
  }

  /** Only the new entry is new, and without the library it has no handle. */
  lemma MakesOne(s: Store, op: Op, w: Store)
    requires Next(s, op, w) && Makes(op) && InFallbackMode(op)
    ensures forall id | id in w.producers && !(id in s.producers && w.producers[id] == s.producers[id]) ::
              !w.producers[id].handle
    ensures forall id | id in w.consumers && !(id in s.consumers && w.consumers[id] == s.consumers[id]) ::
              !w.consumers[id].handle
  {
  }

  /** Without handles a rejoin drops everything it lists. */
  lemma FallbackLeavesNoKeys(s: Store, op: Op, w: Store)
    requires NoHandles(s) && !op.CloseProducer?
    ensures LeavesNoKeys(s, op, w)
  {
  }

  /** The invariants together. */
  ghost predicate Exact(s: Store) {
    Inv(s) && Paired(s) && ListsExact(s)
  }

  lemma StepKeepsExact(s: Store, op: Op, w: Store)
    requires Exact(s) && Next(s, op, w) && LeavesNoKeys(s, op, w)
    ensures Exact(w)
  {
    hide Inv, Paired, ListsExact, Next, LeavesNoKeys;
    NextKeepsInv(s, op, w);
    NextKeepsPaired(s, op, w);
    StepKeepsListsExactly(s, op, w);
  }

  /** Without the library and without `closeProducer` no list ever holds a key that is gone. */
  lemma {:induction false} FallbackRunKeepsLists(s: Store, ops: seq<Op>, w: Store)
    requires Exact(s) && NoHandles(s) && Runs(s, ops, w)
    requires forall i | 0 <= i < |ops| :: InFallbackMode(ops[i]) && !ops[i].CloseProducer?
    ensures Exact(w) && NoHandles(w)
    decreases |ops|
  {
    hide Exact, NoHandles, Next, LeavesNoKeys;
    if ops != [] {
      var m: Store :| Next(s, ops[0], m) && Runs(m, ops[1..], w);
      FallbackKeepsNoHandles(s, ops[0], m);
      FallbackLeavesNoKeys(s, ops[0], m);
      StepKeepsExact(s, ops[0], m);
      FallbackRunKeepsLists(m, ops[1..], w);
    }
  }

  lemma EmptyIsExact()
    ensures Exact(EmptyStore) && NoHandles(EmptyStore)
  {
  }

  lemma TwoRoomsAreExact(w: Store)
    requires Runs(EmptyStore, TwoRoomsRun, w)
    ensures Inv(w) && Paired(w) && ListsExact(w) && NoHandles(w)
  {
    hide Runs, Inv, Paired, ListsExact, NoHandles;
    EmptyIsExact();
    FallbackRunKeepsLists(EmptyStore, TwoRoomsRun, w);
  }

  /** The worker comes up between a user's audio and video. */
  const MixedMediaRun := [
    Join(1, 2, 9), CreateTransport(1, 2, Send, 3, false), Produce(1, 2, 3, Audio, 5, false),
    CreateTransport(1, 2, Send, 13, true), Produce(1, 2, 13, Video, 7, true)]

  lemma MixedMedia() returns (w: Store)
    ensures Runs(EmptyStore, MixedMediaRun, w) && HasPeer(w, 1, 2) && Exact(w)
    ensures w.producers == map[5 := Producer(1, 2, 3, Audio, false), 7 := Producer(1, 2, 13, Video, true)]
    ensures w.consumers == map[]
  {
    hide Next, AfterJoin, AfterCreateTransport, AfterProduce, Exact, NoHandles;
    EmptyIsExact();
    var a := AfterJoin(EmptyStore, 1, 2, 9);
    JoinAdds(EmptyStore, 1, 2, 9, a);
    StepKeepsExact(EmptyStore, Join(1, 2, 9), a);
    var b := AfterCreateTransport(a, 1, 2, Send, 3, false);
    TransportAdds(a, 1, 2, Send, 3, false, b);
    StepKeepsExact(a, CreateTransport(1, 2, Send, 3, false), b);
    var c := AfterProduce(b, 1, 2, 3, Audio, 5, false);
    ProduceAdds(b, 1, 2, 3, Audio, 5, false, c);
    StepKeepsExact(b, Produce(1, 2, 3, Audio, 5, false), c);
    var d := AfterCreateTransport(c, 1, 2, Send, 13, true);
    TransportAdds(c, 1, 2, Send, 13, true, d);
    StepKeepsExact(c, CreateTransport(1, 2, Send, 13, true), d);
    w := AfterProduce(d, 1, 2, 13, Video, 7, true);
    ProduceAdds(d, 1, 2, 13, Video, 7, true, w);
    StepKeepsExact(d, Produce(1, 2, 13, Video, 7, true), w);
    StoresMakeRun([EmptyStore, a, b, c, d, w], MixedMediaRun);
  }

  /** Such a user can rejoin so that a key of a dropped producer stays listed. */
  lemma MixedRejoinLeavesKeys(socketId: Id)
    ensures exists s: Store, w: Store :: Runs(EmptyStore, MixedMediaRun, s) && ListsExact(s)
              && Next(s, Join(1, 2, socketId), w) && !ListsExact(w)
  {
    var s := MixedMedia();
    MixedMediaIsMixed(s);
    hide Inv, Paired, ListsExact, Unmixed;
    RejoinKeepsListsExactly(s, 1, 2, socketId);
    var w :| Rejoins(s, 1, 2, socketId, w) && !ListsExact(w);
    assert Next(s, Join(1, 2, socketId), w);
  }

  lemma MixedMediaIsMixed(s: Store)
    requires Inv(s) && HasPeer(s, 1, 2) && s.consumers == map[]
    requires s.producers == map[5 := Producer(1, 2, 3, Audio, false), 7 := Producer(1, 2, 13, Video, true)]
    ensures !Unmixed(s, 1, 2)
  {
    ListsExactlyOwn(s, 1, 2);
    hide Inv;
    assert ConsumerHandles(s, 1, 2) == {};
    assert 7 in ProducerHandles(s, 1, 2) && 5 !in ProducerHandles(s, 1, 2);
    assert 5 in PeerAt(s, 1, 2).producers;
  }

  /** User 10 of room 1 closes the producer of room 2: both its owner and its consumer keep a key that is gone. */
  lemma ForeignCloseLeavesKeys()
    ensures exists s: Store :: Runs(EmptyStore, TwoRoomsRun, s) && ListsExact(s) && HasPeer(s, 1, 10)
              && KeepKeys(AfterCloseProducer(s, 1, 10, 5), {5}, {6})
  {
    var s := TwoRooms();
    TwoRoomsAreExact(s);
    ClosedPeers(s, 1, 10, {5}, 2, 11);
    ClosedPeers(s, 1, 10, {5}, 2, 12);
    assert ProducerListed(s, 5) && ConsumerListed(s, 6);
    assert KeepKeys(AfterCloseProducer(s, 1, 10, 5), {5}, {6});
  }

  /** Users 11 and 12 of room 2 list these producer and consumer keys, which are gone. */
  ghost predicate KeepKeys(w: Store, producers: set<Id>, consumers: set<Id>) {
    && HasPeer(w, 2, 11) && producers <= PeerAt(w, 2, 11).producers - w.producers.Keys
    && HasPeer(w, 2, 12) && consumers <= PeerAt(w, 2, 12).consumers - w.consumers.Keys
  }

  /** A rejoin of user 11 takes the producer away; closing its key all the same leaves the consumer's listed. */
  lemma CloseOfGoneLeavesKeys()
    ensures exists s: Store, m: Store ::
              && Runs(EmptyStore, TwoRoomsRun, s) && Next(s, Join(2, 11, 103), m)
              && ListsExact(m) && HasPeer(m, 1, 10) && 5 !in m.producers
              && KeepKeys(AfterCloseProducer(m, 1, 10, 5), {}, {6})
  {
    hide Runs, Inv, Paired, ListsExact, NoHandles, LeavesNoKeys, Next, AfterJoin;
    var s := TwoRooms();
    TwoRoomsAreExact(s);
    var m := AfterJoin(s, 2, 11, 103);
    TwoRoomsRejoins(s, m);
    TwoRoomsRejoin(s, m);
    StepKeepsListsExactly(s, Join(2, 11, 103), m);
    ClosedPeers(m, 1, 10, {5}, 2, 11);
    ClosedPeers(m, 1, 10, {5}, 2, 12);
  }

  lemma TwoRoomsRejoin(s: Store, m: Store)
    requires Inv(s) && HasPeer(s, 1, 10) && HasPeer(s, 2, 11) && HasPeer(s, 2, 12)
    requires 5 in s.producers && s.producers[5] == Producer(2, 11, 3, Audio, false)
    requires 6 in s.consumers && s.consumers[6] == Consumer(2, 12, 4, 5, Audio, false)
    requires m == AfterJoin(s, 2, 11, 103)
    ensures HasPeer(m, 1, 10) && HasPeer(m, 2, 11) && HasPeer(m, 2, 12) && 6 in PeerAt(m, 2, 12).consumers
    ensures 5 !in m.producers && 6 in m.consumers && m.consumers[6] == s.consumers[6]
  {
    hide AfterJoin, Inv;
    RejoinDropsListed(s, 2, 11, 103, 1, 10);
    RejoinDropsListed(s, 2, 11, 103, 2, 12);
    ListsExactlyOwn(s, 2, 11);
    ListsExactlyOwn(s, 2, 12);
  }

  lemma TwoRoomsRejoins(s: Store, m: Store)
    requires NoHandles(s) && HasPeer(s, 2, 11) && m == AfterJoin(s, 2, 11, 103)
    ensures Next(s, Join(2, 11, 103), m) && LeavesNoKeys(s, Join(2, 11, 103), m)
  {
    FallbackLeavesNoKeys(s, Join(2, 11, 103), m);
    FallbackRejoin(s, 2, 11, 103);
  }

  lemma RejoinDropsListed(s: Store, r: Id, u: Id, socketId: Id, q: Id, v: Id)
    requires HasPeer(s, r, u) && HasPeer(s, q, v) && !(q == r && v == u)
    ensures var p, w := PeerAt(s, r, u), AfterJoin(s, r, u, socketId);
            && HasPeer(w, r, u) && HasPeer(w, q, v) && PeerAt(w, q, v) == PeerAt(s, q, v)
            && w.producers == s.producers - p.producers && w.consumers == s.consumers - p.consumers
  {
  }
}
