/**
 The room snapshots that the SFU facade keeps in Redis. Every facade step that
 changes a room issues a command; Redis applies commands in issue order and may
 expire a snapshot at any time.
 */
module SfuSnapshot {
  import opened Common
  import opened SfuStore
  import opened SfuService

  datatype Snapshot = Snapshot(peers: set<Id>, mediaStates: map<Id, MediaState>, updatedAt: int)

  type Redis = map<Id, Snapshot>

  datatype Command = Set(roomId: Id, snapshot: Snapshot) | Del(roomId: Id)

  function Apply(redis: Redis, c: Command): Redis {
    match c
    case Set(r, snapshot) => redis[r := snapshot]
    case Del(r) => redis - {r}
  }

  /** Redis once all pending commands have been applied. */
  function Drain(redis: Redis, queue: seq<Command>): Redis
    decreases |queue|
  {
    if queue == [] then redis else Drain(Apply(redis, queue[0]), queue[1..])
  }

  /** What a snapshot of the room should hold; None for a room without peers. */
  ghost function Current(s: Store, r: Id): Option<(set<Id>, map<Id, MediaState>)> {
    if r !in s.rooms || s.rooms[r].peers == map[] then None
    else Some((s.rooms[r].peers.Keys, MediaStates(s, r, None)))
  }

  /** The command `persistRoomSnapshot` issues. */
  ghost function CommandFor(s: Store, r: Id, now: int): Command {
    match Current(s, r)
    case None => Del(r)
    case Some((peers, states)) => Set(r, Snapshot(peers, states, now))
  }

  ghost predicate Shows(s: Store, r: Id, snapshot: Snapshot) {
    Current(s, r) == Some((snapshot.peers, snapshot.mediaStates))
  }

  /** Every snapshot, but for the rooms in `except`, is current. */
  ghost predicate MatchesBut(s: Store, redis: Redis, except: set<Id>) {
    forall r | r in redis && r !in except :: Shows(s, r, redis[r])
  }

  /**
   Once the pending commands are applied, each room's snapshot is either absent
   or equal to the current peers and media states, and a room without peers has
   none.
   */
  ghost predicate Coherent(s: Store, redis: Redis, queue: seq<Command>) {
    MatchesBut(s, Drain(redis, queue), {})
  }

  lemma {:induction false} DrainSnoc(redis: Redis, queue: seq<Command>, c: Command)
    ensures Drain(redis, queue + [c]) == Apply(Drain(redis, queue), c)
    decreases |queue|
  {
    if queue == [] {
      assert [c][1..] == [];
      assert Drain(redis, [c]) == Drain(Apply(redis, c), []);
      assert queue + [c] == [c];
    } else {
      assert (queue + [c])[0] == queue[0] && (queue + [c])[1..] == queue[1..] + [c];
      DrainSnoc(Apply(redis, queue[0]), queue[1..], c);
    }
  }

  ghost predicate SubRedis(a: Redis, b: Redis) {
    forall r | r in a :: r in b && a[r] == b[r]
  }

  lemma {:induction false} DrainKeepsSub(a: Redis, b: Redis, queue: seq<Command>)
    requires SubRedis(a, b)
    ensures SubRedis(Drain(a, queue), Drain(b, queue))
    decreases |queue|
  {
    if queue != [] { DrainKeepsSub(Apply(a, queue[0]), Apply(b, queue[0]), queue[1..]); }
  }

  /** Applying the oldest command and expiring a snapshot keep the cache coherent. */
  lemma RedisKeepsCoherence(s: Store, redis: Redis, queue: seq<Command>, r: Id)
    requires Coherent(s, redis, queue)
    ensures queue != [] ==> Coherent(s, Apply(redis, queue[0]), queue[1..])
    ensures Coherent(s, redis - {r}, queue)
  {
    DrainKeepsSub(redis - {r}, redis, queue);
  }

  /** Persisting a room settles that room, whatever its snapshot was. */
  lemma PersistSettles(s: Store, redis: Redis, queue: seq<Command>, r: Id, now: int, except: set<Id>)
    requires MatchesBut(s, Drain(redis, queue), except)
    ensures MatchesBut(s, Drain(redis, queue + [CommandFor(s, r, now)]), except - {r})
    ensures Current(s, r).Some? <==> r in Drain(redis, queue + [CommandFor(s, r, now)])
  {
    DrainSnoc(redis, queue, CommandFor(s, r, now));
  }

  // ----------------------------------------------- which rooms a step can change

  /** The producers of the room are the same in both stores. */
  ghost predicate SameProducers(s: Store, w: Store, r: Id) {
    && (forall id | id in s.producers && s.producers[id].roomId == r ::
          id in w.producers && w.producers[id] == s.producers[id])
    && (forall id | id in w.producers && w.producers[id].roomId == r ::
          id in s.producers && w.producers[id] == s.producers[id])
  }

  ghost predicate SamePeers(s: Store, w: Store, r: Id) {
    forall u :: HasPeer(s, r, u) <==> HasPeer(w, r, u)
  }

  lemma SameMedia(s: Store, w: Store, r: Id, u: Id)
    requires SameProducers(s, w, r)
    ensures MediaOf(s, r, u) == MediaOf(w, r, u)
  {
    forall kind ensures Sends(s, r, u, kind) <==> Sends(w, r, u, kind) { }
  }

  lemma SameCurrent(s: Store, w: Store, r: Id)
    requires SamePeers(s, w, r) && (forall u | HasPeer(s, r, u) :: MediaOf(s, r, u) == MediaOf(w, r, u))
    ensures Current(s, r) == Current(w, r)
  {
    assert Current(s, r).None? <==> forall u :: !HasPeer(s, r, u) by { NoPeers(s, r); }
    assert Current(w, r).None? <==> forall u :: !HasPeer(w, r, u) by { NoPeers(w, r); }
    if Current(s, r).Some? {
      assert forall u :: u in s.rooms[r].peers.Keys <==> HasPeer(s, r, u);
      assert forall u :: u in w.rooms[r].peers.Keys <==> HasPeer(w, r, u);
      assert s.rooms[r].peers.Keys == w.rooms[r].peers.Keys;
      assert MediaStates(s, r, None) == MediaStates(w, r, None);
    }
  }

  lemma NoPeers(s: Store, r: Id)
    ensures Current(s, r).None? <==> forall u :: !HasPeer(s, r, u)
  {
    if r in s.rooms && s.rooms[r].peers != map[] {
      var u :| u in s.rooms[r].peers;
      assert HasPeer(s, r, u);
    }
  }

  lemma SameRoomSameCurrent(s: Store, w: Store, r: Id)
    requires SamePeers(s, w, r) && SameProducers(s, w, r)
    ensures Current(s, r) == Current(w, r)
  {
    forall u | HasPeer(s, r, u) ensures MediaOf(s, r, u) == MediaOf(w, r, u) { SameMedia(s, w, r, u); }
    SameCurrent(s, w, r);
  }

  /** The rooms whose snapshot the facade persists after a step; a failed produce persists none. */
  ghost function Persisted(s: Store, op: Op): set<Id> {
    match op
    case Join(r, u, _) => {r}
    case Leave(r, u) => {r}
    case LeaveAll(u) => RoomsOf(s, u)
    case Produce(r, u, transportId, _, _, _) => if MayProduce(s, u, transportId) && HasPeer(s, r, u) then {r} else {}
    case CloseProducer(r, u, _) => {r}
    case CloseUserProducers(r, u) => {r}
    case _ => {}
  }

  /** Another live producer of the same owner shows the same kind in the same room. */
  ghost predicate HasTwin(s: Store, id: Id)
    requires id in s.producers
  {
    exists other :: other in s.producers && other != id
      && s.producers[other].roomId == s.producers[id].roomId && s.producers[other].userId == s.producers[id].userId
      && s.producers[other].kind == s.producers[id].kind
  }

  /**
   The rooms whose picture a step changes without persisting them: that of a
   producer closed in the name of another room, and that of a producer that goes
   with its transport, unless a twin keeps the picture.
   */
  ghost function Unseen(s: Store, op: Op): set<Id> {
    match op
    case CloseProducer(r, u, id) =>
      if HasPeer(s, r, u) && id in s.producers && s.producers[id].roomId != r && !HasTwin(s, id)
      then {s.producers[id].roomId} else {}
    case ProducerEvent(r, _, id) => if id in s.producers && !HasTwin(s, id) then {r} else {}
    case _ => {}
  }

  /** A step changes what is to be shown of no room but those it persists and those it leaves unseen. */
  lemma StepTouchesPersistedRooms(s: Store, op: Op, w: Store, q: Id)
    requires Inv(s) && Next(s, op, w) && q !in Persisted(s, op) + Unseen(s, op)
    ensures Current(s, q) == Current(w, q)
  {
    StepKeepsOtherPeers(s, op, w, q);
    if op.CloseProducer? || op.ProducerEvent? {
      forall v | HasPeer(s, q, v) ensures MediaOf(s, q, v) == MediaOf(w, q, v) { SeenLossKeepsMedia(s, op, w, q, v); }
      SameCurrent(s, w, q);
    } else {
      StepKeepsOtherProducers(s, op, w, q);
      SameRoomSameCurrent(s, w, q);
    }
  }

  /** The producer such a step deletes. */
  function Lost(op: Op): Id
    requires op.CloseProducer? || op.ProducerEvent?
  {
    if op.CloseProducer? then op.producerId else op.id
  }

  lemma SeenLossKeepsMedia(s: Store, op: Op, w: Store, q: Id, v: Id)
    requires Next(s, op, w) && (op.CloseProducer? || op.ProducerEvent?) && q !in Persisted(s, op) + Unseen(s, op)
    ensures MediaOf(s, q, v) == MediaOf(w, q, v)
  {
    if w.producers != s.producers {
      SeenCloseKeepsMedia(s, w, Lost(op), q, v);
    }
  }

  /** And it does change what is to be shown of those it leaves unseen. */
  lemma UnseenRoomsChange(s: Store, op: Op, w: Store, q: Id)
    requires Inv(s) && Next(s, op, w) && q in Unseen(s, op)
    ensures q !in Persisted(s, op) && Current(s, q) != Current(w, q)
  {
    var id := Lost(op);
    var v, kind := s.producers[id].userId, s.producers[id].kind;
    assert ProducerListed(s, id) && HasPeer(s, q, v);
    StepKeepsOtherPeers(s, op, w, q);
    assert Sends(s, q, v, kind) && w.producers == s.producers - {id};
    assert !Sends(w, q, v, kind);
    KindShown(s, q, v, kind);
    KindShown(w, q, v, kind);
  }

  lemma StepKeepsOtherPeers(s: Store, op: Op, w: Store, q: Id)
    requires Inv(s) && Next(s, op, w) && q !in Persisted(s, op)
    ensures SamePeers(s, w, q)
  {
    if op.Join? {
      JoinKeepsOthers(s, op.r, op.u, op.socketId, w, q);
    } else if op.Leave? || op.LeaveAll? {
      LeaveKeepsOtherPeers(s, op, w, q);
    } else if op.CloseProducer? || op.CloseUserProducers? {
      CloseKeepsOtherPeers(s, op, w, q);
    } else {
      AddKeepsOtherPeers(s, op, w, q);
    }
  }

  lemma LeaveKeepsOtherPeers(s: Store, op: Op, w: Store, q: Id)
    requires (op.Leave? || op.LeaveAll?) && Next(s, op, w) && q !in Persisted(s, op)
    ensures SamePeers(s, w, q)
  {
    forall u ensures HasPeer(s, q, u) <==> HasPeer(w, q, u) {
      match op
      case Leave(r, v) => if HasPeer(s, r, v) { LeftRoomsPeers(s, {r}, v, q, u); }
      case LeaveAll(v) => LeftRoomsPeers(s, RoomsOf(s, v), v, q, u);
    }
  }

  lemma CloseKeepsOtherPeers(s: Store, op: Op, w: Store, q: Id)
    requires (op.CloseProducer? || op.CloseUserProducers?) && Next(s, op, w)
    ensures SamePeers(s, w, q)
  {
    forall u ensures HasPeer(s, q, u) <==> HasPeer(w, q, u) {
      match op
      case CloseProducer(r, v, id) => if HasPeer(s, r, v) { ClosedPeers(s, r, v, {id}, q, u); }
      case CloseUserProducers(r, v) => if HasPeer(s, r, v) { ClosedPeers(s, r, v, PeerAt(s, r, v).producers, q, u); }
    }
  }

  lemma AddKeepsOtherPeers(s: Store, op: Op, w: Store, q: Id)
    requires op.CreateTransport? || op.Connect? || op.Produce? || op.Consume?
             || op.ProducerEvent? || op.ConsumerEvent? || op.WorkerDied?
    requires Next(s, op, w)
    ensures SamePeers(s, w, q)
  {
    forall u ensures HasPeer(s, q, u) <==> HasPeer(w, q, u) {
      match op
      case CreateTransport(r, v, _, _, _) => EnsureRoomPeers(s, r, q, u);
      case Produce(r, v, _, _, _, _) => EnsureRoomPeers(s, r, q, u);
      case Consume(r, v, _, _, _, _, _) => EnsureRoomPeers(s, r, q, u);
      case WorkerDied => WorkerDiedPeers(s, q, u);
      case _ =>
    }
  }

  lemma RejoinKeepsOthers(s: Store, r: Id, u: Id, socketId: Id, w: Store, q: Id)
    requires Inv(s) && HasPeer(s, r, u) && Rejoins(s, r, u, socketId, w) && q != r
    ensures SamePeers(s, w, q) && SameProducers(s, w, q)
  {
    hide PartlyCleaned, AllListed;
    var c: Store :| PartlyCleaned(s, c, r, u) && HasPeer(c, r, u)
                    && w == SetPeer(c, r, u, PeerAt(c, r, u).(socketId := socketId));
    PartlyCleanedShrinks(s, c, r, u);
    assert ListsOwn(s, r, u);
  }

  lemma JoinKeepsOthers(s: Store, r: Id, u: Id, socketId: Id, w: Store, q: Id)
    requires Inv(s) && Next(s, Join(r, u, socketId), w) && q != r
    ensures SamePeers(s, w, q) && SameProducers(s, w, q)
  {
    if HasPeer(s, r, u) {
      RejoinKeepsOthers(s, r, u, socketId, w, q);
    } else {
      forall v ensures HasPeer(s, q, v) <==> HasPeer(w, q, v) { EnsureRoomPeers(s, r, q, v); }
      EnsureRoomPeers(s, r, r, u);
    }
  }

  lemma StepKeepsOtherProducers(s: Store, op: Op, w: Store, q: Id)
    requires Inv(s) && Next(s, op, w) && !op.CloseProducer? && !op.ProducerEvent? && q !in Persisted(s, op)
    ensures SameProducers(s, w, q)
  {
    if op.Join? {
      JoinKeepsOthers(s, op.r, op.u, op.socketId, w, q);
    } else if op.Leave? || op.LeaveAll? {
      LeaveKeepsOtherProducers(s, op, w, q);
    } else if op.CloseUserProducers? {
      CloseKeepsOtherProducers(s, op.r, op.u, q);
    } else if op.Produce? {
      ProduceKeepsOtherProducers(s, op.r, op.u, op.transportId, op.kind, op.id, op.available, q);
    } else {
      OthersKeepProducers(s, op, w);
    }
  }

  lemma OthersKeepProducers(s: Store, op: Op, w: Store)
    requires op.CreateTransport? || op.Connect? || op.Consume? || op.ConsumerEvent? || op.WorkerDied?
    requires Next(s, op, w)
    ensures w.producers == s.producers
  {
  }

  lemma LeaveKeepsOtherProducers(s: Store, op: Op, w: Store, q: Id)
    requires Inv(s) && (op.Leave? || op.LeaveAll?) && Next(s, op, w) && q !in Persisted(s, op)
    ensures SameProducers(s, w, q)
  {
    if op.LeaveAll? {
      forall id | id in s.producers && s.producers[id].roomId == q ensures s.producers[id].userId != op.u {
        assert ProducerListed(s, id);
      }
    }
  }

  lemma CloseKeepsOtherProducers(s: Store, r: Id, u: Id, q: Id)
    requires Inv(s) && q != r
    ensures SameProducers(s, AfterCloseUserProducers(s, r, u), q)
  {
    if HasPeer(s, r, u) { assert ListsOwn(s, r, u); }
  }

  lemma ProduceKeepsOtherProducers(s: Store, r: Id, u: Id, transportId: Id, kind: Kind, id: Id, available: bool, q: Id)
    requires Inv(s) && id !in s.issued
    requires q != r || !MayProduce(s, u, transportId) || !HasPeer(s, r, u)
    ensures SameProducers(s, AfterProduce(s, r, u, transportId, kind, id, available), q)
  {
    EnsureRoomPeers(s, r, r, u);
    assert id !in s.producers;
  }

  // ------------------------------------------------------------------------ runs

  datatype World = World(store: Store, redis: Redis, queue: seq<Command>)

  datatype Event =
    | Step(op: Op, order: seq<Id>, now: int)
    | RedisApplies
    | RedisExpires(roomId: Id)

  /** The commands for the rooms in `order`, computed from the store right after the step. */
  ghost function Commands(s: Store, order: seq<Id>, now: int): seq<Command> {
    if order == [] then [] else [CommandFor(s, order[0], now)] + Commands(s, order[1..], now)
  }

  /**
   One event. A step of the store is a facade call or a library event; `order`
   enumerates the rooms it persists, none for a library event.
   */
  ghost predicate Happens(a: World, e: Event, b: World) {
    match e
    case Step(op, order, now) =>
      && Next(a.store, op, b.store)
      && (forall r :: r in order <==> r in Persisted(a.store, op))
      && b.redis == a.redis && b.queue == a.queue + Commands(b.store, order, now)
    case RedisApplies =>
      a.queue != [] && b == a.(redis := Apply(a.redis, a.queue[0]), queue := a.queue[1..])
    case RedisExpires(r) => b == a.(redis := a.redis - {r})
  }

  function Without(a: set<Id>, order: seq<Id>): set<Id> {
    set r | r in a && r !in order
  }

  /** Persisting rooms settles those rooms and touches no other. */
  lemma {:induction false} PersistAllSettles(s: Store, redis: Redis, queue: seq<Command>, order: seq<Id>,
                                             now: int, except: set<Id>)
    requires MatchesBut(s, Drain(redis, queue), except)
    ensures MatchesBut(s, Drain(redis, queue + Commands(s, order, now)), Without(except, order))
    decreases |order|
  {
    if order == [] {
      assert queue + [] == queue && Without(except, []) == except;
    } else {
      var c := CommandFor(s, order[0], now);
      PersistSettles(s, redis, queue, order[0], now, except);
      PersistAllSettles(s, redis, queue + [c], order[1..], now, except - {order[0]});
      assert queue + [c] + Commands(s, order[1..], now) == queue + Commands(s, order, now);
      assert Without(except - {order[0]}, order[1..]) == Without(except, order);
    }
  }

  lemma {:induction false} PersistAllKeepsOthers(s: Store, redis: Redis, queue: seq<Command>, order: seq<Id>,
                                                 now: int, q: Id)
    requires q in Drain(redis, queue) && q !in order
    ensures var m := Drain(redis, queue + Commands(s, order, now));
            q in m && m[q] == Drain(redis, queue)[q]
    decreases |order|
  {
    if order == [] {
      assert queue + [] == queue;
    } else {
      var c := CommandFor(s, order[0], now);
      DrainSnoc(redis, queue, c);
      PersistAllKeepsOthers(s, redis, queue + [c], order[1..], now, q);
      assert queue + [c] + Commands(s, order[1..], now) == queue + Commands(s, order, now);
    }
  }

  /** The rooms that may be shown wrongly after a step, if those in `stale` were before. */
  ghost function StaleAfterStep(stale: set<Id>, s: Store, op: Op): set<Id> {
    stale - Persisted(s, op) + Unseen(s, op)
  }

  /** A step with its commands settles what it persists; of the others only the unseen rooms turn stale. */
  lemma StepKeepsCoherence(s: Store, op: Op, w: Store, redis: Redis, queue: seq<Command>, order: seq<Id>, now: int,
                           stale: set<Id>)
    requires Inv(s) && Next(s, op, w) && MatchesBut(s, Drain(redis, queue), stale)
    requires forall r :: r in order <==> r in Persisted(s, op)
    ensures MatchesBut(w, Drain(redis, queue + Commands(w, order, now)), StaleAfterStep(stale, s, op))
  {
    var m := Drain(redis, queue);
    var except := stale + Persisted(s, op) + Unseen(s, op);
    forall r | r in m && r !in except ensures Shows(w, r, m[r]) {
      assert Shows(s, r, m[r]);
      StepTouchesPersistedRooms(s, op, w, r);
    }
    PersistAllSettles(w, redis, queue, order, now, except);
    forall r | r in Without(except, order) ensures r in StaleAfterStep(stale, s, op) { }
  }

  /** From a coherent cache, a step keeps it coherent exactly when no room it leaves unseen has a snapshot. */
  lemma StepIsCoherentExactly(s: Store, op: Op, w: Store, redis: Redis, queue: seq<Command>, order: seq<Id>, now: int)
    requires Inv(s) && Next(s, op, w) && Coherent(s, redis, queue)
    requires forall r :: r in order <==> r in Persisted(s, op)
    ensures Coherent(w, redis, queue + Commands(w, order, now)) <==> Unseen(s, op) !! Drain(redis, queue).Keys
  {
    var m, after := Drain(redis, queue), Drain(redis, queue + Commands(w, order, now));
    StepKeepsCoherence(s, op, w, redis, queue, order, now, {});
    forall q | q in Unseen(s, op) && q in m ensures q in after && !Shows(w, q, after[q]) {
      UnseenRoomsChange(s, op, w, q);
      PersistAllKeepsOthers(w, redis, queue, order, now, q);
      assert Shows(s, q, m[q]);
    }
    forall q | q in after && q !in m && q in Unseen(s, op) ensures false {
      UnseenRoomsChange(s, op, w, q);
      PersistAllAddsNoOther(w, redis, queue, order, now, q);
    }
  }

  lemma {:induction false} PersistAllAddsNoOther(s: Store, redis: Redis, queue: seq<Command>, order: seq<Id>,
                                                 now: int, q: Id)
    requires q !in Drain(redis, queue) && q !in order
    ensures q !in Drain(redis, queue + Commands(s, order, now))
    decreases |order|
  {
    if order == [] {
      assert queue + [] == queue;
    } else {
      var c := CommandFor(s, order[0], now);
      DrainSnoc(redis, queue, c);
      PersistAllAddsNoOther(s, redis, queue + [c], order[1..], now, q);
      assert queue + [c] + Commands(s, order[1..], now) == queue + Commands(s, order, now);
    }
  }

  /** A run, world by world. */
  ghost predicate Trace(worlds: seq<World>, events: seq<Event>) {
    && |worlds| == |events| + 1
    && forall i | 0 <= i < |events| :: Happens(worlds[i], events[i], worlds[i + 1])
  }

  /** The rooms left unseen within the first `n` events of a run and not persisted since. */
  ghost function Stale(worlds: seq<World>, events: seq<Event>, n: nat): set<Id>
    requires n <= |events| < |worlds|
  {
    if n == 0 then {}
    else StaleAfter(Stale(worlds, events, n - 1), worlds[n - 1], events[n - 1])
  }

  ghost function StaleAfter(stale: set<Id>, a: World, e: Event): set<Id> {
    if e.Step? then StaleAfterStep(stale, a.store, e.op) else stale
  }

  /**
   In every run of facade calls, library events, command applications and
   expiries in any order, draining the queue leaves each snapshot expired or
   current, but for rooms left unseen and not persisted since.
   */
  lemma {:induction false} RunKeepsCoherence(worlds: seq<World>, events: seq<Event>, n: nat)
    requires Trace(worlds, events) && n <= |events|
    requires Inv(worlds[0].store) && Coherent(worlds[0].store, worlds[0].redis, worlds[0].queue)
    ensures Inv(worlds[n].store)
    ensures MatchesBut(worlds[n].store, Drain(worlds[n].redis, worlds[n].queue), Stale(worlds, events, n))
    decreases n
  {
    hide Inv, MatchesBut, Happens;
    if n == 0 {
    } else {
      var a, b := worlds[n - 1], worlds[n];
      RunKeepsCoherence(worlds, events, n - 1);
      EventKeepsCoherence(a, events[n - 1], b, Stale(worlds, events, n - 1));
    }
  }

  lemma EventKeepsCoherence(a: World, e: Event, b: World, stale: set<Id>)
    requires Happens(a, e, b) && Inv(a.store) && MatchesBut(a.store, Drain(a.redis, a.queue), stale)
    ensures Inv(b.store)
    ensures MatchesBut(b.store, Drain(b.redis, b.queue), StaleAfter(stale, a, e))
  {
    match e {
      case Step(op, order, now) =>
        NextKeepsInv(a.store, op, b.store);
        StepKeepsCoherence(a.store, op, b.store, a.redis, a.queue, order, now, stale);
      case RedisApplies =>
      case RedisExpires(r) => DrainKeepsSub(b.redis, a.redis, a.queue);
    }
  }

  /** So a run in which no step leaves a room unseen keeps the cache coherent throughout. */
  lemma {:induction false} SeenRunsStayCoherent(worlds: seq<World>, events: seq<Event>, n: nat)
    requires Trace(worlds, events) && n <= |events|
    requires Inv(worlds[0].store) && Coherent(worlds[0].store, worlds[0].redis, worlds[0].queue)
    requires forall i | 0 <= i < n && events[i].Step? :: Unseen(worlds[i].store, events[i].op) == {}
    ensures Coherent(worlds[n].store, worlds[n].redis, worlds[n].queue)
  {
    NothingStale(worlds, events, n);
    RunKeepsCoherence(worlds, events, n);
  }

  lemma {:induction false} NothingStale(worlds: seq<World>, events: seq<Event>, n: nat)
    requires n <= |events| < |worlds|
    requires forall i | 0 <= i < n && events[i].Step? :: Unseen(worlds[i].store, events[i].op) == {}
    ensures Stale(worlds, events, n) == {}
    decreases n
  {
    if n > 0 { NothingStale(worlds, events, n - 1); }
  }

  // ------------------------------------------------ steps that are not persisted

  /** When a close that names room `r` leaves the cache coherent. */
  ghost predicate CloseIsSeen(s: Store, redis: Redis, queue: seq<Command>, r: Id, u: Id, id: Id) {
    || !HasPeer(s, r, u)
    || id !in s.producers
    || s.producers[id].roomId == r
    || s.producers[id].roomId !in Drain(redis, queue)
    || HasTwin(s, id)
  }

  /**
   `closeProducer` persists the named room only. The cache stays coherent exactly
   when nothing is closed, or the named room is the producer's own, or that room
   has no snapshot, or a twin keeps its picture unchanged.
   */
  lemma ForeignCloseExactly(s: Store, redis: Redis, queue: seq<Command>, r: Id, u: Id, id: Id, now: int)
    requires Inv(s) && Coherent(s, redis, queue)
    ensures var w := AfterCloseProducer(s, r, u, id);
            Coherent(w, redis, queue + [CommandFor(w, r, now)]) <==> CloseIsSeen(s, redis, queue, r, u, id)
  {
    hide Inv, Coherent, AfterCloseProducer;
    var w := AfterCloseProducer(s, r, u, id);
    StepIsCoherentExactly(s, Op.CloseProducer(r, u, id), w, redis, queue, [r], now);
    assert Commands(w, [r], now) == [CommandFor(w, r, now)];
  }

  /**
   A library producer that goes with its transport is persisted by nobody. The
   cache stays coherent exactly when the producer was gone already, or its room
   has no snapshot, or a twin keeps its picture unchanged.
   */
  lemma LibraryEventExactly(s: Store, redis: Redis, queue: seq<Command>, r: Id, u: Id, id: Id)
    requires Inv(s) && Coherent(s, redis, queue)
    requires id in s.producers ==> LibraryProducer(s, r, u, id)
    ensures Coherent(AfterProducerEvent(s, r, u, id), redis, queue) <==>
              id !in s.producers || r !in Drain(redis, queue) || HasTwin(s, id)
  {
    hide Inv, Coherent, AfterProducerEvent;
    var w := AfterProducerEvent(s, r, u, id);
    StepIsCoherentExactly(s, ProducerEvent(r, u, id), w, redis, queue, [], 0);
    assert queue + Commands(w, [], 0) == queue;
  }

  /** A cache in which every snapshot is current, and the room has one. */
  ghost predicate CachedWith(s: Store, redis: Redis, queue: seq<Command>, r: Id) {
    Coherent(s, redis, queue) && r in Drain(redis, queue)
  }

  lemma PersistedIsCached(s: Store, r: Id, u: Id, now: int)
    requires HasPeer(s, r, u)
    ensures CachedWith(s, map[], [CommandFor(s, r, now)], r)
  {
    PersistSettles(s, map[], [], r, now, {});
    NoPeers(s, r);
    assert [] + [CommandFor(s, r, now)] == [CommandFor(s, r, now)];
  }

  /**
   A library producer goes with its transport: any cache that had the room right
   shows the user on air although the only producer is gone.
   */
  lemma TransportCloseIsNotSeen()
    ensures exists s: Store :: Runs(EmptyStore, LibraryRun, s)
              && CachedWith(s, map[], [CommandFor(s, 1, 0)], 1)
              && Next(s, ProducerEvent(1, 2, 5), AfterProducerEvent(s, 1, 2, 5))
              && forall redis, queue | CachedWith(s, redis, queue, 1) ::
                   !Coherent(AfterProducerEvent(s, 1, 2, 5), redis, queue)
  {
    hide Coherent, AfterProducerEvent, Runs, Inv, CachedWith, CommandFor;
    var s := LibraryPeer();
    ReachableStoresAreSound(LibraryRun, s);
    PersistedIsCached(s, 1, 2, 0);
    forall redis, queue | CachedWith(s, redis, queue, 1)
      ensures !Coherent(AfterProducerEvent(s, 1, 2, 5), redis, queue)
    {
      LoneProducerLost(s, redis, queue, 1, 2, 5);
    }
  }

  lemma LoneProducerLost(s: Store, redis: Redis, queue: seq<Command>, r: Id, u: Id, id: Id)
    requires Inv(s) && s.producers.Keys == {id} && LibraryProducer(s, r, u, id) && CachedWith(s, redis, queue, r)
    ensures !Coherent(AfterProducerEvent(s, r, u, id), redis, queue)
  {
    hide Coherent, AfterProducerEvent, Inv;
    LibraryEventExactly(s, redis, queue, r, u, id);
  }

  /** User 10 closes the producer of room 2 in the name of room 1: room 2 is still shown with it. */
  lemma ForeignCloseIsNotSeen()
    ensures exists s: Store :: Runs(EmptyStore, TwoRoomsRun, s)
              && CachedWith(s, map[], [CommandFor(s, 2, 0)], 2)
              && forall redis, queue, now | CachedWith(s, redis, queue, 2) ::
                   var w := AfterCloseProducer(s, 1, 10, 5);
                   !Coherent(w, redis, queue + [CommandFor(w, 1, now)])
  {
    hide Coherent, AfterCloseProducer, CommandFor, Runs, Inv, CachedWith;
    var s := TwoRooms();
    ReachableStoresAreSound(TwoRoomsRun, s);
    PersistedIsCached(s, 2, 11, 0);
    forall redis, queue, now | CachedWith(s, redis, queue, 2)
      ensures var w := AfterCloseProducer(s, 1, 10, 5); !Coherent(w, redis, queue + [CommandFor(w, 1, now)])
    {
      LoneProducerClosed(s, redis, queue, 1, 10, 5, now);
    }
  }

  lemma LoneProducerClosed(s: Store, redis: Redis, queue: seq<Command>, r: Id, u: Id, id: Id, now: int)
    requires Inv(s) && s.producers.Keys == {id} && HasPeer(s, r, u) && s.producers[id].roomId != r
    requires CachedWith(s, redis, queue, s.producers[id].roomId)
    ensures var w := AfterCloseProducer(s, r, u, id); !Coherent(w, redis, queue + [CommandFor(w, r, now)])
  {
    hide Coherent, AfterCloseProducer, CommandFor, Inv;
    ForeignCloseExactly(s, redis, queue, r, u, id, now);
  }

  lemma KindShown(s: Store, r: Id, u: Id, kind: Kind)
    requires HasPeer(s, r, u)
    ensures Current(s, r).Some? && u in Current(s, r).value.1
    ensures Has(Current(s, r).value.1[u], kind) <==> Sends(s, r, u, kind)
  {
    NoPeers(s, r);
  }

  lemma SeenCloseKeepsMedia(s: Store, w: Store, id: Id, q: Id, v: Id)
    requires w.producers == s.producers - {id}
    requires id in s.producers && s.producers[id].roomId == q ==> HasTwin(s, id)
    ensures MediaOf(s, q, v) == MediaOf(w, q, v)
  {
    forall kind ensures Sends(s, q, v, kind) <==> Sends(w, q, v, kind) {
      if Sends(s, q, v, kind) {
        var x :| x in s.producers && s.producers[x].roomId == q && s.producers[x].userId == v
                 && s.producers[x].kind == kind;
        if x == id {
          var other :| other in s.producers && other != id && s.producers[other].roomId == q
                    && s.producers[other].userId == s.producers[id].userId
                    && s.producers[other].kind == s.producers[id].kind;
          assert other in w.producers;
        } else {
          assert x in w.producers;
        }
      }
    }
  }

  // ---------------------------------------------------------------- filtered reads

  function Filtered(snapshot: Snapshot, except: Option<Id>): Snapshot {
    match except
    case None => snapshot
    case Some(u) => snapshot.(peers := snapshot.peers - {u}, mediaStates := snapshot.mediaStates - {u})
  }

  /** Reading a coherent snapshot without a user is listing the room without that user. */
  lemma FilteredSnapshotIsLiveView(s: Store, redis: Redis, r: Id, except: Option<Id>)
    requires MatchesBut(s, redis, {}) && r in redis
    ensures r in s.rooms
    ensures Filtered(redis[r], except).mediaStates == MediaStates(s, r, except)
    ensures Filtered(redis[r], except).peers == s.rooms[r].peers.Keys - (if except.Some? then {except.value} else {})
  {
    assert Shows(s, r, redis[r]);
  }

  /**
   The read of a room that was persisted just before, which is what `sfu.join`
   does, is live whatever the cache held and whatever else is still pending: the
   states are those in memory, without the user and dated at the write.
   */
  lemma PersistedReadIsLive(s: Store, redis: Redis, queue: seq<Command>, r: Id, now: int, except: Option<Id>)
    ensures var cache := Drain(redis, queue + [CommandFor(s, r, now)]);
            if Current(s, r).None? then r !in cache
            else r in cache && Filtered(cache[r], except).mediaStates == MediaStates(s, r, except)
                 && cache[r].updatedAt == now
  {
    DrainSnoc(redis, queue, CommandFor(s, r, now));
  }

  /** So overlaying the snapshot with the states in memory, as the reply does, gives those in memory. */
  lemma MergedStatesAreLive(s: Store, redis: Redis, queue: seq<Command>, r: Id, now: int, except: Option<Id>)
    ensures var cache := Drain(redis, queue + [CommandFor(s, r, now)]);
            (if r in cache then Filtered(cache[r], except).mediaStates else map[]) + MediaStates(s, r, except)
              == MediaStates(s, r, except)
  {
    PersistedReadIsLive(s, redis, queue, r, now, except);
  }
}
