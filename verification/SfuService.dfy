/**
 The SFU services over the store they share: each method walks and rewrites the
 maps as the source does and is proved against a store function of SfuStore.
 */
module SfuService {
  import opened Common
  import opened SfuStore
  import SfuPairing
  import SfuEffects

  datatype MediaState = MediaState(audio: bool, video: bool, screen: bool)

  datatype ProducerInfo = ProducerInfo(producerId: Id, userId: Id, kind: Kind)

  ghost predicate Sends(s: Store, r: Id, u: Id, kind: Kind) {
    exists id :: id in s.producers && s.producers[id].roomId == r && s.producers[id].userId == u
                 && s.producers[id].kind == kind
  }

  ghost function MediaOf(s: Store, r: Id, u: Id): MediaState {
    MediaState(Sends(s, r, u, Audio), Sends(s, r, u, Video), Sends(s, r, u, Screen))
  }

  predicate Has(m: MediaState, kind: Kind) {
    match kind case Audio => m.audio case Video => m.video case Screen => m.screen
  }

  const Silent := MediaState(false, false, false)

  /** The media states of the peers of a room but `except`. */
  ghost function MediaStates(s: Store, r: Id, except: Option<Id>): map<Id, MediaState> {
    if r !in s.rooms then map[]
    else map u | u in s.rooms[r].peers && except != Some(u) :: MediaOf(s, r, u)
  }

  /** `list` holds each producer of the room exactly once, but for those of `except`. */
  ghost predicate ListsProducers(s: Store, r: Id, except: Option<Id>, list: seq<ProducerInfo>) {
    && (forall i, j | 0 <= i < j < |list| :: list[i].producerId != list[j].producerId)
    && (forall i | 0 <= i < |list| ::
          list[i].producerId in s.producers && IsInfo(s, r, except, list[i].producerId, list[i]))
    && (forall id | id in s.producers && s.producers[id].roomId == r && except != Some(s.producers[id].userId) ::
          exists i :: 0 <= i < |list| && list[i].producerId == id)
  }

  ghost predicate IsInfo(s: Store, r: Id, except: Option<Id>, id: Id, info: ProducerInfo)
    requires id in s.producers
  {
    var p := s.producers[id];
    p.roomId == r && except != Some(p.userId) && info == ProducerInfo(id, p.userId, p.kind)
  }

  /**
   The two views of a room agree: a peer's state shows a kind exactly when the
   producer list has one of that kind from that peer, and every listed producer
   belongs to a current peer.
   */
  lemma MediaViewsAgree(s: Store, r: Id, except: Option<Id>, list: seq<ProducerInfo>)
    requires Inv(s) && ListsProducers(s, r, except, list)
    ensures forall u, kind | u in MediaStates(s, r, except) ::
              Has(MediaStates(s, r, except)[u], kind) <==>
                exists i :: 0 <= i < |list| && list[i].userId == u && list[i].kind == kind
    ensures forall i | 0 <= i < |list| :: list[i].userId in MediaStates(s, r, except)
  {
    forall u, kind | u in MediaStates(s, r, except)
      ensures Sends(s, r, u, kind) <==> exists i :: 0 <= i < |list| && list[i].userId == u && list[i].kind == kind
    {
      if Sends(s, r, u, kind) {
        var id :| id in s.producers && s.producers[id].roomId == r && s.producers[id].userId == u
                  && s.producers[id].kind == kind;
        var i :| 0 <= i < |list| && list[i].producerId == id;
        assert IsInfo(s, r, except, id, list[i]);
      }
    }
    forall i | 0 <= i < |list| ensures list[i].userId in MediaStates(s, r, except) {
      assert ProducerListed(s, list[i].producerId);
    }
  }

  /** A user with no producer in the room shows no media. */
  lemma NoProducersNoMedia(s: Store, r: Id, u: Id)
    requires forall id | id in s.producers :: !(s.producers[id].roomId == r && s.producers[id].userId == u)
    ensures MediaOf(s, r, u) == Silent
  {
  }

  /**
   After `closeUserProducers` the user sends nothing in the room, and no consumer
   in the store refers to a producer the user had listed.
   */
  lemma ForceMuteSilences(s: Store, r: Id, u: Id)
    requires Inv(s) && HasPeer(s, r, u)
    ensures var w := AfterCloseUserProducers(s, r, u);
            && MediaOf(w, r, u) == Silent
            && (forall id | id in w.consumers :: w.consumers[id].producerId !in PeerAt(s, r, u).producers)
  {
    ListsExactlyOwn(s, r, u);
    NoProducersNoMedia(AfterCloseUserProducers(s, r, u), r, u);
  }

  /** A rejoin in fallback mode silences the user too, and keeps its transports. */
  lemma RejoinSilences(s: Store, r: Id, u: Id, socketId: Id)
    requires Inv(s) && HasPeer(s, r, u)
    ensures var w := AfterJoin(s, r, u, socketId);
            && MediaOf(w, r, u) == Silent
            && w.transports == s.transports
            && HasPeer(w, r, u) && PeerAt(w, r, u) == Peer(socketId, PeerAt(s, r, u).transports, {}, {})
            && (forall id | id in w.consumers :: !(w.consumers[id].roomId == r && w.consumers[id].userId == u))
  {
    ListsExactlyOwn(s, r, u);
    NoProducersNoMedia(AfterJoin(s, r, u, socketId), r, u);
  }

  /** No live consumer or producer that the peer lists has a handle. */
  predicate InFallback(s: Store, r: Id, u: Id)
    requires HasPeer(s, r, u)
  {
    ConsumerHandles(s, r, u) == {} && ProducerHandles(s, r, u) == {}
  }

  /**
   A rejoin leaves the user off air exactly when the user was off air before, or
   when nothing of the peer stops the cleanup.
   */
  lemma RejoinSilencesExactly(s: Store, r: Id, u: Id, socketId: Id, w: Store)
    requires Inv(s) && HasPeer(s, r, u) && Rejoins(s, r, u, socketId, w)
    ensures MediaOf(w, r, u) == Silent <==> MediaOf(s, r, u) == Silent || InFallback(s, r, u)
  {
    var c: Store :| PartlyCleaned(s, c, r, u) && HasPeer(c, r, u)
                    && w == SetPeer(c, r, u, PeerAt(c, r, u).(socketId := socketId));
    if InFallback(s, r, u) {
      FallbackRejoin(s, r, u, socketId);
      RejoinSilences(s, r, u, socketId);
    } else {
      SilentMeansNoProducers(s, r, u);
      SilentMeansNoProducers(w, r, u);
      if ConsumerHandles(s, r, u) == {} {
        var id :| id in ProducerHandles(s, r, u);
        assert ListsOwn(s, r, u) && id in w.producers;
      }
    }
  }

  lemma SilentMeansNoProducers(s: Store, r: Id, u: Id)
    ensures MediaOf(s, r, u) == Silent <==>
              forall id | id in s.producers :: !(s.producers[id].roomId == r && s.producers[id].userId == u)
  {
    forall id | id in s.producers && s.producers[id].roomId == r && s.producers[id].userId == u
      ensures MediaOf(s, r, u) != Silent
    {
      assert Sends(s, r, u, s.producers[id].kind);
    }
  }

  /**
   The worker comes up between the user's first producer and first consumer, so
   user 2 sends audio without a handle and consumes with one.
   */
  const MixedRun := [
    Join(1, 2, 9), Join(1, 20, 8),
    CreateTransport(1, 2, Send, 3, false), Produce(1, 2, 3, Audio, 5, false),
    CreateTransport(1, 20, Send, 13, true), Produce(1, 20, 13, Video, 7, true),
    CreateTransport(1, 2, Recv, 4, true), Consume(1, 2, 4, 7, 6, true, true)]

  /** One library consumer is enough: its user rejoins and is still on air. */
  lemma ConsumerHandleKeepsOnAir(socketId: Id)
    ensures exists s: Store :: Runs(EmptyStore, MixedRun, s) && HasPeer(s, 1, 2)
              && forall w | Next(s, Join(1, 2, socketId), w) :: MediaOf(w, 1, 2) != Silent
  {
    var s := MixedPeer();
    ReachableStoresAreSound(MixedRun, s);
    forall w | Next(s, Join(1, 2, socketId), w) ensures MediaOf(w, 1, 2) != Silent {
      assert 6 in ConsumerHandles(s, 1, 2);
      assert Sends(s, 1, 2, s.producers[5].kind);
      RejoinSilencesExactly(s, 1, 2, socketId, w);
    }
  }

  lemma MixedPeer() returns (w: Store)
    ensures Runs(EmptyStore, MixedRun, w) && HasPeer(w, 1, 2)
    ensures 5 in w.producers && w.producers[5] == Producer(1, 2, 3, Audio, false)
    ensures 6 in w.consumers && w.consumers[6] == Consumer(1, 2, 4, 7, Video, true)
    ensures 6 in PeerAt(w, 1, 2).consumers
  {
    hide Next, Runs, AfterJoin, AfterCreateTransport, AfterProduce, AfterConsume;
    var a := AfterJoin(EmptyStore, 1, 2, 9);
    JoinAdds(EmptyStore, 1, 2, 9, a);
    var b := AfterJoin(a, 1, 20, 8);
    JoinAdds(a, 1, 20, 8, b);
    var c := AfterCreateTransport(b, 1, 2, Send, 3, false);
    TransportAdds(b, 1, 2, Send, 3, false, c);
    var d := AfterProduce(c, 1, 2, 3, Audio, 5, false);
    ProduceAdds(c, 1, 2, 3, Audio, 5, false, d);
    var e := AfterCreateTransport(d, 1, 20, Send, 13, true);
    TransportAdds(d, 1, 20, Send, 13, true, e);
    var f := AfterProduce(e, 1, 20, 13, Video, 7, true);
    ProduceAdds(e, 1, 20, 13, Video, 7, true, f);
    var g := AfterCreateTransport(f, 1, 2, Recv, 4, true);
    TransportAdds(f, 1, 2, Recv, 4, true, g);
    w := AfterConsume(g, 1, 2, 4, 7, 6, true, true);
    ConsumeAdds(g, 1, 2, 4, 7, 6, true, w);
    MixedIsRun(a, b, c, d, e, f, g, w);
  }

  lemma MixedIsRun(a: Store, b: Store, c: Store, d: Store, e: Store, f: Store, g: Store, w: Store)
    requires Next(EmptyStore, Join(1, 2, 9), a) && Next(a, Join(1, 20, 8), b)
    requires Next(b, CreateTransport(1, 2, Send, 3, false), c) && Next(c, Produce(1, 2, 3, Audio, 5, false), d)
    requires Next(d, CreateTransport(1, 20, Send, 13, true), e) && Next(e, Produce(1, 20, 13, Video, 7, true), f)
    requires Next(f, CreateTransport(1, 2, Recv, 4, true), g) && Next(g, Consume(1, 2, 4, 7, 6, true, true), w)
    ensures Runs(EmptyStore, MixedRun, w)
  {
    hide Next, Runs;
    StoresMakeRun([EmptyStore, a, b, c, d, e, f, g, w], MixedRun);
  }

  class SfuService {
    var rooms: map<Id, Room>
    var transports: map<Id, Transport>
    var producers: map<Id, Producer>
    var consumers: map<Id, Consumer>
    ghost var issued: set<Id>

    ghost function State(): Store
      reads this
    {
      Store(rooms, transports, producers, consumers, issued)
    }

    constructor ()
      ensures State() == EmptyStore && Inv(State())
    {
      rooms, transports, producers, consumers, issued := map[], map[], map[], map[], {};
    }

    method EnsureRoom(roomId: Id)
      modifies this`rooms
      ensures State() == SfuStore.EnsureRoom(old(State()), roomId) && roomId in rooms
    {
      if roomId !in rooms { rooms := rooms[roomId := Room(map[], false)]; }
    }

    method PutPeer(roomId: Id, userId: Id, peer: Peer)
      requires roomId in rooms
      modifies this`rooms
      ensures State() == SetPeer(old(State()), roomId, userId, peer)
    {
      rooms := rooms[roomId := rooms[roomId].(peers := rooms[roomId].peers[userId := peer])];
    }

    /** Deletes the listed consumers one by one, but returns at the first that has a handle. */
    method DropConsumersUntilHandle(listed: set<Id>) returns (stopped: bool)
      modifies this`consumers
      ensures stopped <==> HandledConsumers(old(consumers), listed) != {}
      ensures PartlyGone(old(consumers), consumers, listed - HandledConsumers(old(consumers), listed))
      ensures !stopped ==> consumers == old(consumers) - listed
    {
      var pending := listed;
      while pending != {}
        invariant pending <= listed
        invariant forall id :: id in consumers <==> id in old(consumers) && id !in listed - pending
        invariant forall id | id in consumers :: consumers[id] == old(consumers)[id]
        invariant HandledConsumers(old(consumers), listed) <= pending
      {
        var consumerId :| consumerId in pending;
        if consumerId in consumers && consumers[consumerId].handle {
          assert consumerId in HandledConsumers(old(consumers), listed);
          return true;
        }
        consumers := consumers - {consumerId};
        pending := pending - {consumerId};
      }
      return false;
    }

    method DropProducersUntilHandle(listed: set<Id>) returns (stopped: bool)
      modifies this`producers
      ensures stopped <==> HandledProducers(old(producers), listed) != {}
      ensures PartlyGone(old(producers), producers, listed - HandledProducers(old(producers), listed))
      ensures !stopped ==> producers == old(producers) - listed
    {
      var pending := listed;
      while pending != {}
        invariant pending <= listed
        invariant forall id :: id in producers <==> id in old(producers) && id !in listed - pending
        invariant forall id | id in producers :: producers[id] == old(producers)[id]
        invariant HandledProducers(old(producers), listed) <= pending
      {
        var producerId :| producerId in pending;
        if producerId in producers && producers[producerId].handle {
          assert producerId in HandledProducers(old(producers), listed);
          return true;
        }
        producers := producers - {producerId};
        pending := pending - {producerId};
      }
      return false;
    }

    /** The source deletes transport keys from `producers`; no producer has a transport's key. */
    method DropTransportsUntilHandle(listed: set<Id>)
      requires listed !! producers.Keys
      modifies this`producers
      ensures producers == old(producers)
    {
      var pending := listed;
      while pending != {}
        invariant pending <= listed && producers == old(producers)
      {
        var transportId :| transportId in pending;
        if transportId in transports && transports[transportId].handle { return; }
        assert transportId !in producers;
        producers := producers - {transportId};
        pending := pending - {transportId};
      }
    }

    /** `_cleanupPeerResources`: returns at the first entry with a handle. */
    method CleanupPeerResources(roomId: Id, userId: Id)
      requires HasPeer(State(), roomId, userId)
      requires PeerAt(State(), roomId, userId).transports !! producers.Keys
      modifies this`rooms, this`producers, this`consumers
      ensures PartlyCleaned(old(State()), State(), roomId, userId)
    {
      var peer := rooms[roomId].peers[userId];
      var stopped := DropConsumersUntilHandle(peer.consumers);
      if stopped { return; }
      PutPeer(roomId, userId, peer.(consumers := {}));
      SetPeerTwice(old(State()), roomId, userId, peer.(consumers := {}), peer.(consumers := {}, producers := {}));
      stopped := DropProducersUntilHandle(peer.producers);
      if stopped { return; }
      PutPeer(roomId, userId, peer.(consumers := {}, producers := {}));
      DropTransportsUntilHandle(peer.transports);
    }

    /** A rejoin takes the user off air exactly when `RejoinSilencesExactly` says so. */
    method JoinRoom(roomId: Id, userId: Id, socketId: Id) returns (peers: set<Id>)
      requires Inv(State())
      modifies this`rooms, this`producers, this`consumers
      ensures Inv(State()) && Next(old(State()), Join(roomId, userId, socketId), State())
      ensures HasPeer(State(), roomId, userId) && PeerAt(State(), roomId, userId).socketId == socketId
      ensures peers == rooms[roomId].peers.Keys
      ensures HasPeer(old(State()), roomId, userId) ==>
                (MediaOf(State(), roomId, userId) == Silent <==>
                   MediaOf(old(State()), roomId, userId) == Silent || InFallback(old(State()), roomId, userId))
      ensures SfuEffects.Does(old(State()), Join(roomId, userId, socketId), State())
    {
      ghost var s := State();
      EnsureRoomKeepsInv(s, roomId);
      EnsureRoom(roomId);
      if userId !in rooms[roomId].peers {
        PutPeer(roomId, userId, Peer(socketId, {}, {}, {}));
      } else {
        assert ListsOwn(State(), roomId, userId);
        CleanupPeerResources(roomId, userId);
        PartlyCleanedShrinks(s, State(), roomId, userId);
        PutPeer(roomId, userId, rooms[roomId].peers[userId].(socketId := socketId));
        RejoinSilencesExactly(s, roomId, userId, socketId, State());
      }
      NextKeepsInv(s, Join(roomId, userId, socketId), State());
      SfuEffects.NextDoes(s, Join(roomId, userId, socketId), State());
      return rooms[roomId].peers.Keys;
    }

    method LeaveRoom(roomId: Id, userId: Id)
      requires Inv(State())
      modifies this`rooms, this`transports, this`producers, this`consumers
      ensures State() == AfterLeave(old(State()), roomId, userId) && Inv(State())
      ensures SfuEffects.Does(old(State()), Leave(roomId, userId), State())
    {
      hide SfuEffects.Does, Inv, LeftRooms, RoomsWithout;
      SfuEffects.LeaveEffect(State(), roomId, userId);
      ghost var s := State();
      if roomId !in rooms || userId !in rooms[roomId].peers { return; }
      LeftRoomsKeepsInv(s, {roomId}, userId);
      TeardownIsExact(s, roomId, userId);
      var peer := rooms[roomId].peers[userId];
      DropConsumers(peer.consumers);
      DropProducers(peer.producers);
      DropTransports(peer.transports);
      RemovePeer(roomId, userId);
    }

    method DropConsumers(listed: set<Id>)
      modifies this`consumers
      ensures consumers == old(consumers) - listed
    {
      var pending := listed;
      while pending != {}
        invariant pending <= listed
        invariant forall id :: id in consumers <==> id in old(consumers) && id !in listed - pending
        invariant forall id | id in consumers :: consumers[id] == old(consumers)[id]
      {
        var consumerId :| consumerId in pending;
        consumers := consumers - {consumerId};
        pending := pending - {consumerId};
      }
    }

    method DropProducers(listed: set<Id>)
      modifies this`producers
      ensures producers == old(producers) - listed
    {
      var pending := listed;
      while pending != {}
        invariant pending <= listed
        invariant forall id :: id in producers <==> id in old(producers) && id !in listed - pending
        invariant forall id | id in producers :: producers[id] == old(producers)[id]
      {
        var producerId :| producerId in pending;
        producers := producers - {producerId};
        pending := pending - {producerId};
      }
    }

    method DropTransports(listed: set<Id>)
      modifies this`transports
      ensures transports == old(transports) - listed
    {
      var pending := listed;
      while pending != {}
        invariant pending <= listed
        invariant forall id :: id in transports <==> id in old(transports) && id !in listed - pending
        invariant forall id | id in transports :: transports[id] == old(transports)[id]
      {
        var transportId :| transportId in pending;
        transports := transports - {transportId};
        pending := pending - {transportId};
      }
    }

    method RemovePeer(roomId: Id, userId: Id)
      requires roomId in rooms && userId in rooms[roomId].peers
      modifies this`rooms
      ensures rooms == RoomsWithout(old(rooms), {roomId}, userId)
    {
      ghost var was := rooms[roomId].peers;
      var left := rooms[roomId].peers - {userId};
      assert left == map[] <==> was.Keys == {userId} by {
        if was.Keys == {userId} { assert left.Keys == {}; }
        if left == map[] { assert was.Keys - {userId} == left.Keys == {}; }
      }
      if left == map[] {
        rooms := rooms - {roomId};
      } else {
        rooms := rooms[roomId := rooms[roomId].(peers := left)];
      }
    }

    /** Deletes rooms while it walks over them; returns the rooms it took the user out of. */
    method LeaveUserFromAllRooms(userId: Id) returns (leftRoomIds: seq<Id>)
      requires Inv(State())
      modifies this`rooms, this`transports, this`producers, this`consumers
      ensures State() == AfterLeaveAll(old(State()), userId) && Inv(State())
      ensures forall r :: r in leftRoomIds <==> r in RoomsOf(old(State()), userId)
      ensures forall i, j | 0 <= i < j < |leftRoomIds| :: leftRoomIds[i] != leftRoomIds[j]
      ensures SfuEffects.Does(old(State()), LeaveAll(userId), State())
    {
      hide SfuEffects.Does, Inv;
      SfuEffects.LeaveAllEffect(State(), userId);
      ghost var s := State();
      leftRoomIds := [];
      ghost var left: set<Id> := {};
      var pending := rooms.Keys;
      assert LeftRooms(s, {}, userId) == s by { LeftNone(s, userId); }
      while pending != {}
        invariant State() == LeftRooms(s, left, userId) && Inv(State())
        invariant left == RoomsOf(s, userId) - pending && pending <= s.rooms.Keys
        invariant forall r :: r in leftRoomIds <==> r in left
        invariant forall i, j | 0 <= i < j < |leftRoomIds| :: leftRoomIds[i] != leftRoomIds[j]
      {
        var roomId :| roomId in pending;
        pending := pending - {roomId};
        LeftRoomsPeers(s, left, userId, roomId, userId);
        if roomId in rooms && userId in rooms[roomId].peers {
          LeftRoomsCompose(s, left, roomId, userId);
          LeaveRoom(roomId, userId);
          leftRoomIds := leftRoomIds + [roomId];
          left := left + {roomId};
        }
        assert left == RoomsOf(s, userId) - pending;
      }
      assert left == RoomsOf(s, userId);
    }

    method GetPeerSocketId(roomId: Id, userId: Id) returns (socketId: Option<Id>)
      ensures socketId == if HasPeer(State(), roomId, userId)
                          then Some(PeerAt(State(), roomId, userId).socketId) else None
    {
      if roomId in rooms && userId in rooms[roomId].peers {
        return Some(rooms[roomId].peers[userId].socketId);
      }
      return None;
    }

    method GetUserMediaState(roomId: Id, userId: Id) returns (base: MediaState)
      ensures base == MediaOf(State(), roomId, userId)
    {
      base := MediaState(false, false, false);
      var pending := producers.Keys;
      while pending != {}
        invariant pending <= producers.Keys
        invariant forall kind ::
                    Has(base, kind) <==> SendsAmong(producers, producers.Keys - pending, roomId, userId, kind)
      {
        var id :| id in pending;
        ghost var seen := producers.Keys - pending;
        pending := pending - {id};
        assert producers.Keys - pending == seen + {id};
        ghost var before := base;
        var producer := producers[id];
        if producer.roomId == roomId && producer.userId == userId {
          match producer.kind
          case Audio => base := base.(audio := true);
          case Video => base := base.(video := true);
          case Screen => base := base.(screen := true);
        }
        forall kind ensures Has(base, kind) <==> SendsAmong(producers, seen + {id}, roomId, userId, kind) {
          assert SendsAmong(producers, seen + {id}, roomId, userId, kind) <==>
            (|| SendsAmong(producers, seen, roomId, userId, kind)
             || (producer.roomId == roomId && producer.userId == userId && producer.kind == kind));
        }
      }
      forall kind ensures Has(base, kind) <==> Sends(State(), roomId, userId, kind) {
        assert producers.Keys - {} == producers.Keys;
      }
      assert Has(base, Audio) <==> Sends(State(), roomId, userId, Audio);
      assert Has(base, Video) <==> Sends(State(), roomId, userId, Video);
      assert Has(base, Screen) <==> Sends(State(), roomId, userId, Screen);
    }

    method ListRoomMediaStates(roomId: Id, exceptUserId: Option<Id>) returns (states: map<Id, MediaState>)
      ensures states == MediaStates(State(), roomId, exceptUserId)
    {
      if roomId !in rooms { return map[]; }
      states := map[];
      var peers := rooms[roomId].peers;
      var pending := peers.Keys;
      while pending != {}
        invariant pending <= peers.Keys
        invariant forall u :: u in states <==> u in peers.Keys - pending && exceptUserId != Some(u)
        invariant forall u | u in states :: states[u] == MediaOf(State(), roomId, u)
      {
        var userId :| userId in pending;
        pending := pending - {userId};
        if exceptUserId != Some(userId) {
          var state := GetUserMediaState(roomId, userId);
          states := states[userId := state];
        }
      }
    }

    method ListRoomProducers(roomId: Id, exceptUserId: Option<Id>) returns (list: seq<ProducerInfo>)
      ensures ListsProducers(State(), roomId, exceptUserId, list)
    {
      list := [];
      var pending := producers.Keys;
      while pending != {}
        invariant pending <= producers.Keys
        invariant forall i, j | 0 <= i < j < |list| :: list[i].producerId != list[j].producerId
        invariant forall i | 0 <= i < |list| :: list[i].producerId in producers.Keys - pending
                    && IsInfo(State(), roomId, exceptUserId, list[i].producerId, list[i])
        invariant forall id | id in producers.Keys - pending && producers[id].roomId == roomId
                    && exceptUserId != Some(producers[id].userId) ::
                    exists i :: 0 <= i < |list| && list[i].producerId == id
      {
        var id :| id in pending;
        pending := pending - {id};
        ghost var was := list;
        if producers[id].roomId == roomId && exceptUserId != Some(producers[id].userId) {
          list := list + [ProducerInfo(id, producers[id].userId, producers[id].kind)];
          assert list[|was|].producerId == id;
        }
        forall x | x in producers.Keys - pending && producers[x].roomId == roomId
                   && exceptUserId != Some(producers[x].userId)
          ensures exists i :: 0 <= i < |list| && list[i].producerId == x
        {
          if x != id {
            var i :| 0 <= i < |was| && was[i].producerId == x;
            assert list[i].producerId == x;
          }
        }
      }
    }

    /** `available` is the library's state; `id` the key the library or `randomUUID` makes. */
    method CreateWebRtcTransport(roomId: Id, userId: Id, direction: Direction, id: Id, available: bool)
      returns (r: Result<Id>)
      requires Inv(State()) && id !in issued
      modifies this`rooms, this`transports, this`issued
      ensures State() == AfterCreateTransport(old(State()), roomId, userId, direction, id, available)
      ensures r == if HasPeer(old(State()), roomId, userId) then Ok(id) else Err(Failed("Peer not joined"))
      ensures Inv(State())
      ensures SfuEffects.Does(old(State()), CreateTransport(roomId, userId, direction, id, available), State())
    {
      hide SfuEffects.Does, Inv;
      SfuEffects.CreateTransportEffect(State(), roomId, userId, direction, id, available);
      CreateTransportKeepsInv(State(), roomId, userId, direction, id, available);
      EnsureRoomPeers(State(), roomId, roomId, userId);
      EnsureRoom(roomId);
      if userId !in rooms[roomId].peers { return Err(Failed("Peer not joined")); }
      rooms := rooms[roomId := rooms[roomId].(router := rooms[roomId].router || available)];
      var handle := available && rooms[roomId].router;
      transports := transports[id := Transport(roomId, userId, direction, false, handle)];
      issued := issued + {id};
      var peer := rooms[roomId].peers[userId];
      PutPeer(roomId, userId, peer.(transports := peer.transports + {id}));
      return Ok(id);
    }

    method ConnectTransport(transportId: Id) returns (r: Result<()>)
      requires Inv(State())
      modifies this`transports
      ensures State() == AfterConnect(old(State()), transportId) && Inv(State())
      ensures r == if transportId in old(transports) then Ok(()) else Err(Failed("Transport not found"))
      ensures SfuEffects.Does(old(State()), Connect(transportId), State())
    {
      SfuEffects.ConnectEffect(State(), transportId);
      ConnectKeepsInv(State(), transportId);
      if transportId !in transports { return Err(Failed("Transport not found")); }
      transports := transports[transportId := transports[transportId].(connected := true)];
      return Ok(());
    }

    method Produce(roomId: Id, userId: Id, transportId: Id, kind: Kind, id: Id, available: bool)
      returns (r: Result<Id>)
      requires Inv(State()) && id !in issued
      modifies this`rooms, this`producers, this`issued
      ensures State() == AfterProduce(old(State()), roomId, userId, transportId, kind, id, available)
      ensures r == if !MayProduce(old(State()), userId, transportId) then Err(Failed("Invalid send transport"))
                   else if !HasPeer(old(State()), roomId, userId) then Err(Failed("Peer not joined"))
                   else Ok(id)
      ensures Inv(State())
      ensures SfuEffects.Does(old(State()), Op.Produce(roomId, userId, transportId, kind, id, available), State())
    {
      hide SfuEffects.Does, Inv;
      SfuEffects.ProduceEffect(State(), roomId, userId, transportId, kind, id, available);
      ProduceKeepsInv(State(), roomId, userId, transportId, kind, id, available);
      r := ProduceUnchecked(roomId, userId, transportId, kind, id, available);
    }

    method ProduceUnchecked(roomId: Id, userId: Id, transportId: Id, kind: Kind, id: Id, available: bool)
      returns (r: Result<Id>)
      modifies this`rooms, this`producers, this`issued
      ensures State() == AfterProduce(old(State()), roomId, userId, transportId, kind, id, available)
      ensures r == if !MayProduce(old(State()), userId, transportId) then Err(Failed("Invalid send transport"))
                   else if !HasPeer(old(State()), roomId, userId) then Err(Failed("Peer not joined"))
                   else Ok(id)
    {
      EnsureRoomPeers(State(), roomId, roomId, userId);
      if transportId !in transports || transports[transportId].userId != userId
         || transports[transportId].direction != Send {
        return Err(Failed("Invalid send transport"));
      }
      EnsureRoom(roomId);
      if userId !in rooms[roomId].peers { return Err(Failed("Peer not joined")); }
      var handle := available && transports[transportId].handle;
      producers := producers[id := Producer(roomId, userId, transportId, kind, handle)];
      issued := issued + {id};
      var peer := rooms[roomId].peers[userId];
      PutPeer(roomId, userId, peer.(producers := peer.producers + {id}));
      return Ok(id);
    }

    method Consume(roomId: Id, userId: Id, transportId: Id, producerId: Id, id: Id, available: bool, canConsume: bool)
      returns (r: Result<Id>)
      requires Inv(State()) && id !in issued
      modifies this`rooms, this`consumers, this`issued
      ensures State() == AfterConsume(old(State()), roomId, userId, transportId, producerId, id, available, canConsume)
      ensures r == ConsumeAnswer(old(State()), roomId, userId, transportId, producerId, id, available, canConsume)
      ensures Inv(State())
      ensures SfuEffects.Does(
                old(State()), Op.Consume(roomId, userId, transportId, producerId, id, available, canConsume), State())
      ensures SfuEffects.AnswersConsume(old(State()), roomId, userId, transportId, producerId, id,
                                        available, canConsume, r)
    {
      hide SfuEffects.Does, SfuEffects.AnswersConsume, Inv;
      SfuEffects.ConsumeAnswers(State(), roomId, userId, transportId, producerId, id, available, canConsume);
      SfuEffects.ConsumeEffect(State(), roomId, userId, transportId, producerId, id, available, canConsume);
      ConsumeKeepsInv(State(), roomId, userId, transportId, producerId, id, available, canConsume);
      r := ConsumeUnchecked(roomId, userId, transportId, producerId, id, available, canConsume);
    }

    method ConsumeUnchecked(roomId: Id, userId: Id, transportId: Id, producerId: Id, id: Id,
                            available: bool, canConsume: bool) returns (r: Result<Id>)
      modifies this`rooms, this`consumers, this`issued
      ensures State() == AfterConsume(old(State()), roomId, userId, transportId, producerId, id, available, canConsume)
      ensures r == ConsumeAnswer(old(State()), roomId, userId, transportId, producerId, id, available, canConsume)
    {
      EnsureRoomPeers(State(), roomId, roomId, userId);
      if transportId !in transports || transports[transportId].userId != userId
         || transports[transportId].direction != Recv {
        return Err(Failed("Invalid recv transport"));
      }
      if producerId !in producers || producers[producerId].roomId != roomId {
        return Err(Failed("Producer not found"));
      }
      EnsureRoom(roomId);
      if userId !in rooms[roomId].peers { return Err(Failed("Peer not joined")); }
      var handle := available && rooms[roomId].router && transports[transportId].handle;
      if handle && !canConsume { return Err(Failed("Router cannot consume this producer")); }
      AddConsumer(id, Consumer(roomId, userId, transportId, producerId, producers[producerId].kind, handle));
      return Ok(id);
    }

    method AddConsumer(id: Id, c: Consumer)
      requires HasPeer(State(), c.roomId, c.userId)
      modifies this`rooms, this`consumers, this`issued
      ensures State() == (
        var e, p := old(State()), PeerAt(old(State()), c.roomId, c.userId);
        SetPeer(e.(consumers := e.consumers[id := c], issued := e.issued + {id}),
                c.roomId, c.userId, p.(consumers := p.consumers + {id})))
    {
      consumers := consumers[id := c];
      issued := issued + {id};
      var peer := rooms[c.roomId].peers[c.userId];
      PutPeer(c.roomId, c.userId, peer.(consumers := peer.consumers + {id}));
    }

    /** The `transportclose` handler registered for a library producer of (roomId, userId). */
    method ProducerTransportClosed(roomId: Id, userId: Id, producerId: Id)
      requires Inv(State())
      requires producerId in producers ==> LibraryProducer(State(), roomId, userId, producerId)
      modifies this`rooms, this`producers
      ensures State() == AfterProducerEvent(old(State()), roomId, userId, producerId) && Inv(State())
      ensures SfuEffects.Does(old(State()), ProducerEvent(roomId, userId, producerId), State())
    {
      hide SfuEffects.Does, Inv;
      SfuEffects.ProducerEventEffect(State(), roomId, userId, producerId);
      ProducerEventKeepsInv(State(), roomId, userId, producerId);
      producers := producers - {producerId};
      if roomId in rooms && userId in rooms[roomId].peers {
        var peer := rooms[roomId].peers[userId];
        PutPeer(roomId, userId, peer.(producers := peer.producers - {producerId}));
      }
    }

    /** The `transportclose` and `producerclose` handler registered for a library consumer of (roomId, userId). */
    method ConsumerClosed(roomId: Id, userId: Id, consumerId: Id)
      requires Inv(State())
      requires consumerId in consumers ==> LibraryConsumer(State(), roomId, userId, consumerId)
      modifies this`rooms, this`consumers
      ensures State() == AfterConsumerEvent(old(State()), roomId, userId, consumerId) && Inv(State())
      ensures SfuEffects.Does(old(State()), ConsumerEvent(roomId, userId, consumerId), State())
    {
      hide SfuEffects.Does, Inv;
      SfuEffects.ConsumerEventEffect(State(), roomId, userId, consumerId);
      ConsumerEventKeepsInv(State(), roomId, userId, consumerId);
      consumers := consumers - {consumerId};
      if roomId in rooms && userId in rooms[roomId].peers {
        var peer := rooms[roomId].peers[userId];
        PutPeer(roomId, userId, peer.(consumers := peer.consumers - {consumerId}));
      }
    }

    /** `invalidateAllRouters` of the worker supervisor, which shares the store. */
    method InvalidateAllRouters()
      requires Inv(State())
      modifies this`rooms
      ensures State() == AfterWorkerDied(old(State())) && Inv(State())
      ensures SfuEffects.Does(old(State()), WorkerDied, State())
    {
      hide SfuEffects.Does, Inv;
      SfuEffects.WorkerDiedEffect(State());
      WorkerDiedKeepsInv(State());
      var was := rooms;
      var pending := was.Keys;
      while pending != {}
        invariant pending <= was.Keys && rooms.Keys == was.Keys
        invariant forall r | r in was :: rooms[r] == if r in pending then was[r] else was[r].(router := false)
      {
        var roomId :| roomId in pending;
        pending := pending - {roomId};
        if rooms[roomId].router {
          rooms := rooms[roomId := rooms[roomId].(router := false)];
        }
      }
      assert rooms == map r | r in was :: was[r].(router := false);
    }

    method CloseProducer(roomId: Id, userId: Id, producerId: Id)
      requires Inv(State())
      modifies this`rooms, this`producers, this`consumers
      ensures State() == AfterCloseProducer(old(State()), roomId, userId, producerId) && Inv(State())
      ensures SfuPairing.ListsExact(old(State())) ==>
                (SfuPairing.ListsExact(State()) <==>
                   (HasPeer(old(State()), roomId, userId) ==>
                      SfuPairing.ClosesOwn(old(State()), roomId, userId, producerId)))
      ensures SfuEffects.Does(old(State()), Op.CloseProducer(roomId, userId, producerId), State())
    {
      hide SfuEffects.Does, Inv, SfuPairing.ListsExact, SfuPairing.ClosesOwn;
      SfuEffects.CloseProducerEffect(State(), roomId, userId, producerId);
      if SfuPairing.ListsExact(State()) { SfuPairing.CloseKeepsLists(State(), roomId, userId, producerId); }
      if roomId !in rooms || userId !in rooms[roomId].peers { return; }
      ClosedKeepsInv(State(), roomId, userId, {producerId});
      CloseOne(roomId, userId, producerId);
    }

    method CloseOne(roomId: Id, userId: Id, producerId: Id)
      requires HasPeer(State(), roomId, userId)
      modifies this`rooms, this`producers, this`consumers
      ensures State() == Closed(old(State()), roomId, userId, {producerId})
    {
      ghost var s := State();
      var peer := rooms[roomId].peers[userId];
      PutPeer(roomId, userId, peer.(producers := peer.producers - {producerId}));
      producers := producers - {producerId};

      var consumersToDelete := set id | id in consumers && consumers[id].producerId == producerId;
      assert consumersToDelete == ConsumersOf(s, {producerId});
      StruckIsClosed(s, roomId, userId, producerId);
      StrikeConsumers(roomId, consumersToDelete);
      assert rooms == Closed(s, roomId, userId, {producerId}).rooms;
    }

    /** Deletes the consumers, and strikes them from the lists of the named room's peers. */
    method StrikeConsumers(roomId: Id, consumersToDelete: set<Id>)
      requires roomId in rooms && consumersToDelete <= consumers.Keys
      modifies this`rooms, this`consumers
      ensures consumers == old(consumers) - consumersToDelete
      ensures rooms == old(rooms)[roomId := old(rooms)[roomId].(peers :=
                StruckPeers(old(rooms)[roomId].peers, old(consumers), consumersToDelete))]
    {
      ghost var peers, was := rooms[roomId].peers, consumers;
      NothingStruck(peers, was);
      var pending := consumersToDelete;
      assert consumersToDelete - pending == {};
      while pending != {}
        invariant pending <= consumersToDelete
        invariant forall id :: id in consumers <==> id in was && id !in consumersToDelete - pending
        invariant forall id | id in consumers :: consumers[id] == was[id]
        invariant roomId in rooms && rooms == old(rooms)[roomId := old(rooms)[roomId].(peers := rooms[roomId].peers)]
        invariant rooms[roomId].peers == StruckPeers(peers, was, consumersToDelete - pending)
      {
        var consumerId :| consumerId in pending;
        StrikeOne(peers, was, consumersToDelete - pending, consumerId);
        assert consumersToDelete - (pending - {consumerId}) == consumersToDelete - pending + {consumerId};
        pending := pending - {consumerId};
        var consumerUser := consumers[consumerId].userId;
        if consumerUser in rooms[roomId].peers {
          var consumerPeer := rooms[roomId].peers[consumerUser];
          PutPeer(roomId, consumerUser, consumerPeer.(consumers := consumerPeer.consumers - {consumerId}));
        }
        consumers := consumers - {consumerId};
      }
      assert consumersToDelete - pending == consumersToDelete;
    }

    method CloseUserProducers(roomId: Id, userId: Id) returns (producerIds: set<Id>)
      requires Inv(State())
      modifies this`rooms, this`producers, this`consumers
      ensures State() == AfterCloseUserProducers(old(State()), roomId, userId) && Inv(State())
      ensures producerIds == ProducersOf(old(State()), roomId, userId)
      ensures SfuEffects.Does(old(State()), Op.CloseUserProducers(roomId, userId), State())
    {
      hide SfuEffects.Does, Inv;
      SfuEffects.CloseUserProducersEffect(State(), roomId, userId);
      ghost var s := State();
      if roomId !in rooms || userId !in rooms[roomId].peers { return {}; }
      producerIds := rooms[roomId].peers[userId].producers;
      ClosedNothing(s, roomId, userId);
      var pending := producerIds;
      assert producerIds - pending == {};
      while pending != {}
        invariant pending <= producerIds
        invariant State() == Closed(s, roomId, userId, producerIds - pending) && Inv(State())
      {
        var producerId :| producerId in pending;
        ghost var done := producerIds - pending;
        pending := pending - {producerId};
        assert producerIds - pending == done + {producerId};
        ClosedCompose(s, roomId, userId, done, producerId);
        CloseProducer(roomId, userId, producerId);
      }
      assert producerIds - {} == producerIds;
    }
  }

  lemma LeftNone(s: Store, u: Id)
    ensures LeftRooms(s, {}, u) == s
  {
    assert LeftRooms(s, {}, u).rooms == s.rooms;
    assert LeftRooms(s, {}, u).transports == s.transports;
    assert LeftRooms(s, {}, u).producers == s.producers;
    assert LeftRooms(s, {}, u).consumers == s.consumers;
  }

  ghost predicate SendsAmong(producers: map<Id, Producer>, ids: set<Id>, r: Id, u: Id, kind: Kind) {
    exists id :: id in ids && id in producers && producers[id].roomId == r && producers[id].userId == u
                 && producers[id].kind == kind
  }

  lemma NothingStruck(peers: map<Id, Peer>, consumers: map<Id, Consumer>)
    ensures StruckPeers(peers, consumers, {}) == peers
  {
    forall v | v in peers ensures StruckPeers(peers, consumers, {})[v] == peers[v] {
      assert ConsumersOfUser(consumers, {}, v) == {};
    }
  }

  /** Each consumer of `done` struck from the list of its user. */
  ghost function StruckPeers(peers: map<Id, Peer>, consumers: map<Id, Consumer>, done: set<Id>): map<Id, Peer> {
    map v | v in peers ::
      peers[v].(consumers := peers[v].consumers - ConsumersOfUser(consumers, done, v))
  }

  ghost function ConsumersOfUser(consumers: map<Id, Consumer>, done: set<Id>, v: Id): set<Id> {
    set id | id in done && id in consumers && consumers[id].userId == v
  }

  lemma StrikeOne(peers: map<Id, Peer>, consumers: map<Id, Consumer>, done: set<Id>, id: Id)
    requires id in consumers
    ensures var u, before := consumers[id].userId, StruckPeers(peers, consumers, done);
            StruckPeers(peers, consumers, done + {id}) ==
              if u in peers then before[u := before[u].(consumers := before[u].consumers - {id})] else before
  {
    var u := consumers[id].userId;
    var before, after := StruckPeers(peers, consumers, done), StruckPeers(peers, consumers, done + {id});
    forall v | v in peers
      ensures after[v] == if v == u then before[v].(consumers := before[v].consumers - {id}) else before[v]
    {
      assert ConsumersOfUser(consumers, done + {id}, v)
          == ConsumersOfUser(consumers, done, v) + if v == u then {id} else {};
    }
    if u in peers {
      assert after == before[u := before[u].(consumers := before[u].consumers - {id})];
    } else {
      assert after == before;
    }
  }

  lemma StruckIsClosed(s: Store, r: Id, u: Id, producerId: Id)
    requires HasPeer(s, r, u)
    ensures var p := PeerAt(s, r, u);
            StruckPeers(s.rooms[r].peers[u := p.(producers := p.producers - {producerId})],
                        s.consumers, ConsumersOf(s, {producerId}))
              == Closed(s, r, u, {producerId}).rooms[r].peers
  {
    var p, closed := PeerAt(s, r, u), Closed(s, r, u, {producerId}).rooms[r].peers;
    var struck := StruckPeers(s.rooms[r].peers[u := p.(producers := p.producers - {producerId})],
                              s.consumers, ConsumersOf(s, {producerId}));
    forall v | v in s.rooms[r].peers ensures struck[v] == closed[v] {
      assert ConsumersOfUser(s.consumers, ConsumersOf(s, {producerId}), v) == Struck(s, {producerId}, v);
    }
    assert struck.Keys == closed.Keys;
  }
}
