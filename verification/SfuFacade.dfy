/**
 The SFU facade: each call changes the store and then issues the snapshot
 command of the rooms it touched.
 */
module SfuFacade {
  import opened Common
  import opened SfuStore
  import SfuService
  import opened SfuSnapshot

  class SfuFacade {
    const sfu: SfuService.SfuService
    var queue: seq<Command>
    var redis: Redis

    ghost function State(): Store
      reads sfu
    {
      sfu.State()
    }

    ghost function Here(): World
      reads this, sfu
    {
      World(State(), redis, queue)
    }

    ghost predicate Valid()
      reads this, sfu
    {
      Inv(State())
    }

    /** The snapshots are, or are on their way to being, current. */
    ghost predicate CacheCoherent()
      reads this, sfu
    {
      Coherent(State(), redis, queue)
    }

    constructor ()
      ensures Valid() && CacheCoherent() && Here() == World(EmptyStore, map[], []) && fresh(sfu)
    {
      sfu := new SfuService.SfuService();
      queue, redis := [], map[];
    }

    /** Computes the command at the call, before anything else can change the store. */
    method PersistRoomSnapshot(roomId: Id, now: int)
      modifies this`queue
      ensures queue == old(queue) + [CommandFor(State(), roomId, now)]
    {
      if roomId !in sfu.rooms || sfu.rooms[roomId].peers == map[] {
        queue := queue + [Del(roomId)];
        return;
      }
      var states := sfu.ListRoomMediaStates(roomId, None);
      queue := queue + [Set(roomId, Snapshot(sfu.rooms[roomId].peers.Keys, states, now))];
    }

    method PersistSnapshots(roomIds: seq<Id>, now: int)
      modifies this`queue
      ensures queue == old(queue) + Commands(State(), roomIds, now)
      decreases |roomIds|
    {
      if roomIds == [] {
        assert queue + [] == queue;
        return;
      }
      PersistRoomSnapshot(roomIds[0], now);
      PersistSnapshots(roomIds[1..], now);
    }

    method JoinRoom(roomId: Id, userId: Id, socketId: Id, now: int) returns (peers: set<Id>)
      requires Valid()
      modifies this`queue, sfu
      ensures Valid() && Happens(old(Here()), Step(Join(roomId, userId, socketId), [roomId], now), Here())
      ensures queue == old(queue) + [CommandFor(State(), roomId, now)]
      ensures old(CacheCoherent()) ==> CacheCoherent()
      ensures HasPeer(State(), roomId, userId) && PeerAt(State(), roomId, userId).socketId == socketId
      ensures peers == sfu.rooms[roomId].peers.Keys
    {
      hide Inv, Coherent, Next;
      ghost var a := Here();
      peers := sfu.JoinRoom(roomId, userId, socketId);
      StepHappens(a, Join(roomId, userId, socketId), State(), [roomId], now);
      PersistSnapshots([roomId], now);
    }

    method LeaveRoom(roomId: Id, userId: Id, now: int)
      requires Valid()
      modifies this`queue, sfu
      ensures Valid() && Happens(old(Here()), Step(Leave(roomId, userId), [roomId], now), Here())
      ensures old(CacheCoherent()) ==> CacheCoherent()
    {
      hide Inv, Coherent, Next;
      ghost var a := Here();
      sfu.LeaveRoom(roomId, userId);
      StepHappens(a, Leave(roomId, userId), State(), [roomId], now);
      PersistSnapshots([roomId], now);
    }

    method LeaveUserFromAllRooms(userId: Id, now: int) returns (leftRoomIds: seq<Id>)
      requires Valid()
      modifies this`queue, sfu
      ensures Valid() && Happens(old(Here()), Step(LeaveAll(userId), leftRoomIds, now), Here())
      ensures old(CacheCoherent()) ==> CacheCoherent()
      ensures forall i, j | 0 <= i < j < |leftRoomIds| :: leftRoomIds[i] != leftRoomIds[j]
    {
      hide Inv, Coherent, Next;
      ghost var a := Here();
      leftRoomIds := sfu.LeaveUserFromAllRooms(userId);
      StepHappens(a, LeaveAll(userId), State(), leftRoomIds, now);
      PersistSnapshots(leftRoomIds, now);
    }

    method CreateWebRtcTransport(roomId: Id, userId: Id, direction: Direction, id: Id, available: bool)
      returns (r: Result<Id>)
      requires Valid() && id !in sfu.issued
      modifies sfu
      ensures old(CacheCoherent()) ==> CacheCoherent()
      ensures Valid() && State() == AfterCreateTransport(old(State()), roomId, userId, direction, id, available)
      ensures r == if HasPeer(old(State()), roomId, userId) then Ok(id) else Err(Failed("Peer not joined"))
    {
      r := sfu.CreateWebRtcTransport(roomId, userId, direction, id, available);
      if old(CacheCoherent()) {
        NoSnapshotNeeded(old(State()), CreateTransport(roomId, userId, direction, id, available), State(),
                         redis, queue);
      }
    }

    method ConnectTransport(transportId: Id) returns (r: Result<()>)
      requires Valid()
      modifies sfu
      ensures old(CacheCoherent()) ==> CacheCoherent()
      ensures Valid() && State() == AfterConnect(old(State()), transportId)
    {
      r := sfu.ConnectTransport(transportId);
      if old(CacheCoherent()) {
        NoSnapshotNeeded(old(State()), Connect(transportId), State(), redis, queue);
      }
    }

    /** Persists only after a produce that succeeded. */
    method Produce(roomId: Id, userId: Id, transportId: Id, kind: Kind, id: Id, available: bool, now: int)
      returns (r: Result<Id>)
      requires Valid() && id !in sfu.issued
      modifies this`queue, sfu
      ensures old(CacheCoherent()) ==> CacheCoherent()
      ensures Valid() && State() == AfterProduce(old(State()), roomId, userId, transportId, kind, id, available)
      ensures r.Ok? <==> MayProduce(old(State()), userId, transportId) && HasPeer(old(State()), roomId, userId)
      ensures Happens(old(Here()), Step(Op.Produce(roomId, userId, transportId, kind, id, available),
                                          if r.Ok? then [roomId] else [], now), Here())
    {
      hide Inv, Coherent, Next;
      ghost var a := Here();
      r := sfu.Produce(roomId, userId, transportId, kind, id, available);
      ProduceHappens(a, Op.Produce(roomId, userId, transportId, kind, id, available), State(), r.Ok?, now);
      PersistSnapshots(if r.Ok? then [roomId] else [], now);
    }

    method Consume(roomId: Id, userId: Id, transportId: Id, producerId: Id, id: Id, available: bool, canConsume: bool)
      returns (r: Result<Id>)
      requires Valid() && id !in sfu.issued
      modifies sfu
      ensures Valid()
      ensures old(CacheCoherent()) ==> CacheCoherent()
      ensures State() == AfterConsume(old(State()), roomId, userId, transportId, producerId, id, available, canConsume)
      ensures r == ConsumeAnswer(old(State()), roomId, userId, transportId, producerId, id, available, canConsume)
    {
      r := sfu.Consume(roomId, userId, transportId, producerId, id, available, canConsume);
      if old(CacheCoherent()) {
        NoSnapshotNeeded(old(State()), Op.Consume(roomId, userId, transportId, producerId, id, available, canConsume),
                       State(), redis, queue);
      }
    }

    /** Persists the room the caller names, which need not be the producer's. */
    method CloseProducer(roomId: Id, userId: Id, producerId: Id, now: int)
      requires Valid()
      modifies this`queue, sfu
      ensures Valid() && State() == AfterCloseProducer(old(State()), roomId, userId, producerId)
      ensures queue == old(queue) + [CommandFor(State(), roomId, now)]
      ensures old(CacheCoherent()) ==>
                (CacheCoherent() <==> CloseIsSeen(old(State()), redis, old(queue), roomId, userId, producerId))
    {
      hide Inv, Coherent, Next;
      sfu.CloseProducer(roomId, userId, producerId);
      if old(CacheCoherent()) {
        ForeignCloseExactly(old(State()), redis, queue, roomId, userId, producerId, now);
      }
      PersistRoomSnapshot(roomId, now);
    }

    /** A library producer goes with its transport; the facade is not told and persists nothing. */
    method ProducerTransportClosed(roomId: Id, userId: Id, producerId: Id)
      requires Valid()
      requires producerId in sfu.producers ==> LibraryProducer(State(), roomId, userId, producerId)
      modifies sfu
      ensures Valid() && State() == AfterProducerEvent(old(State()), roomId, userId, producerId)
      ensures old(CacheCoherent()) ==>
                (CacheCoherent() <==>
                   || producerId !in old(sfu.producers)
                   || roomId !in Drain(redis, queue)
                   || HasTwin(old(State()), producerId))
    {
      hide Inv, Coherent, Next;
      if CacheCoherent() { LibraryEventExactly(State(), redis, queue, roomId, userId, producerId); }
      sfu.ProducerTransportClosed(roomId, userId, producerId);
    }

    method CloseUserProducers(roomId: Id, userId: Id, now: int) returns (producerIds: set<Id>)
      requires Valid()
      modifies this`queue, sfu
      ensures Valid() && Happens(old(Here()), Step(Op.CloseUserProducers(roomId, userId), [roomId], now), Here())
      ensures old(CacheCoherent()) ==> CacheCoherent()
      ensures producerIds == ProducersOf(old(State()), roomId, userId)
    {
      hide Inv, Coherent, Next;
      ghost var a := Here();
      producerIds := sfu.CloseUserProducers(roomId, userId);
      StepHappens(a, Op.CloseUserProducers(roomId, userId), State(), [roomId], now);
      PersistSnapshots([roomId], now);
    }

    /** Redis applies the oldest command. */
    method RedisStep()
      requires queue != []
      modifies this`queue, this`redis
      ensures redis == Apply(old(redis), old(queue)[0]) && queue == old(queue)[1..]
      ensures old(CacheCoherent()) ==> CacheCoherent()
    {
      if CacheCoherent() { RedisKeepsCoherence(State(), redis, queue, 0); }
      redis, queue := Apply(redis, queue[0]), queue[1..];
    }

    method RedisExpires(roomId: Id)
      modifies this`redis
      ensures redis == old(redis) - {roomId}
      ensures old(CacheCoherent()) ==> CacheCoherent()
    {
      if CacheCoherent() { RedisKeepsCoherence(State(), redis, queue, roomId); }
      redis := redis - {roomId};
    }

    /** The read is a command too: it is answered after the commands issued before it. */
    method GetPersistedRoomSnapshot(roomId: Id, exceptUserId: Option<Id>) returns (r: Option<Snapshot>)
      modifies this`queue, this`redis
      ensures redis == Drain(old(redis), old(queue)) && queue == []
      ensures r == if roomId in redis then Some(Filtered(redis[roomId], exceptUserId)) else None
      ensures old(CacheCoherent()) ==> CacheCoherent()
    {
      while queue != []
        invariant Drain(redis, queue) == Drain(old(redis), old(queue))
        invariant old(CacheCoherent()) ==> CacheCoherent()
        decreases |queue|
      {
        RedisStep();
      }
      if roomId !in redis { return None; }
      var parsed := redis[roomId];
      if exceptUserId.None? { return Some(parsed); }
      var filteredStates: map<Id, SfuService.MediaState> := map[];
      var pending := parsed.mediaStates.Keys;
      while pending != {}
        invariant pending <= parsed.mediaStates.Keys
        invariant forall u :: u in filteredStates <==> u in parsed.mediaStates.Keys - pending && u != exceptUserId.value
        invariant forall u | u in filteredStates :: filteredStates[u] == parsed.mediaStates[u]
      {
        var userId :| userId in pending;
        pending := pending - {userId};
        if userId != exceptUserId.value {
          filteredStates := filteredStates[userId := parsed.mediaStates[userId]];
        }
      }
      assert filteredStates == parsed.mediaStates - {exceptUserId.value};
      return Some(parsed.(peers := parsed.peers - {exceptUserId.value}, mediaStates := filteredStates));
    }
  }

  /**
   A step followed by the commands of the rooms it persists is a world event; if
   it leaves no room unseen it keeps coherence.
   */
  lemma StepHappens(a: World, op: Op, w: Store, order: seq<Id>, now: int)
    requires Inv(a.store) && Next(a.store, op, w)
    requires forall r :: r in order <==> r in Persisted(a.store, op)
    ensures var queue := a.queue + Commands(w, order, now);
            && (Unseen(a.store, op) == {} && Coherent(a.store, a.redis, a.queue) ==> Coherent(w, a.redis, queue))
            && Happens(a, Step(op, order, now), World(w, a.redis, queue))
  {
    if Coherent(a.store, a.redis, a.queue) {
      StepIsCoherentExactly(a.store, op, w, a.redis, a.queue, order, now);
    }
  }

  lemma ProduceHappens(a: World, op: Op, w: Store, ok: bool, now: int)
    requires Inv(a.store) && op.Produce? && Next(a.store, op, w)
    requires ok <==> MayProduce(a.store, op.u, op.transportId) && HasPeer(a.store, op.r, op.u)
    ensures var order := if ok then [op.r] else [];
            var queue := a.queue + Commands(w, order, now);
            && (Coherent(a.store, a.redis, a.queue) ==> Coherent(w, a.redis, queue))
            && Happens(a, Step(op, order, now), World(w, a.redis, queue))
  {
    StepHappens(a, op, w, if ok then [op.r] else [], now);
  }

  /** Steps the facade does not persist change no picture. */
  lemma NoSnapshotNeeded(s: Store, op: Op, w: Store, redis: Redis, queue: seq<Command>)
    requires Inv(s) && Coherent(s, redis, queue) && Next(s, op, w)
    requires op.CreateTransport? || op.Connect? || op.Consume?
    ensures Coherent(w, redis, queue)
  {
    StepIsCoherentExactly(s, op, w, redis, queue, [], 0);
    assert queue + Commands(w, [], 0) == queue;
  }
}
