/**
 The chat gateway's handlers over its own maps and the SFU facade. Each handler
 is proved to take the gateway along one message of Presence.
 */
module ChatGateway {
  import opened Common
  import opened SfuStore
  import SfuService
  import SfuSnapshot
  import SfuFacade
  import opened Presence

  /** What `sfu.joined` answers. */
  datatype JoinReply = JoinReply(
    peers: set<Id>, producers: seq<SfuService.ProducerInfo>, mediaStates: map<Id, SfuService.MediaState>,
    recoveredSnapshotAt: Option<int>)

  class ChatGateway {
    const facade: SfuFacade.SfuFacade
    var onlineUsers: map<Id, Id>
    var socketUsers: map<Id, Id>
    var threadViewers: map<Id, set<Id>>
    var userStatus: map<Id, Status>
    var huddleParticipants: map<Id, set<Id>>

    ghost function State(): Gate
      reads this, facade.sfu
    {
      Gate(onlineUsers, socketUsers, threadViewers, userStatus, huddleParticipants, facade.State())
    }

    ghost predicate Valid()
      reads this, facade, facade.sfu
    {
      facade.Valid() && AllPresent(State())
    }

    constructor ()
      ensures Valid() && facade.CacheCoherent() && State() == EmptyGate
    {
      facade := new SfuFacade.SfuFacade();
      onlineUsers, socketUsers, threadViewers, userStatus, huddleParticipants := map[], map[], map[], map[], map[];
    }

    /** `user` is who the handshake token names; None disconnects the client. */
    method HandleConnection(client: Id, user: Option<Id>)
      requires Valid() && client !in socketUsers
      modifies this
      ensures Valid()
      ensures State() == if user.Some? then AfterConnection(old(State()), client, user.value) else old(State())
      ensures user.Some? ==>
                && onlineUsers == old(onlineUsers)[user.value := client]
                && socketUsers == old(socketUsers)[client := user.value]
                && userStatus == old(userStatus)[user.value := Online]
                && huddleParticipants == old(huddleParticipants) && threadViewers == old(threadViewers)
    {
      if user.None? { return; }
      ConnectKeepsPresence(State(), client, user.value);
      onlineUsers := onlineUsers[user.value := client];
      socketUsers := socketUsers[client := user.value];
      userStatus := userStatus[user.value := Online];
    }

    /** Returns the SFU rooms whose other members are told that the user left. */
    method HandleDisconnect(client: Id, now: int) returns (leftSfuRooms: seq<Id>)
      requires Valid()
      modifies this, facade`queue, facade.sfu
      ensures Valid() && Handles(old(State()), Message.Disconnect(client), State())
      ensures old(facade.CacheCoherent()) ==> facade.CacheCoherent()
      ensures forall r :: r in leftSfuRooms <==>
                client in old(socketUsers) && HasPeer(old(facade.State()), r, old(socketUsers)[client])
      ensures client in old(socketUsers) ==>
                var user := old(socketUsers)[client];
                && socketUsers == old(socketUsers) - {client} && onlineUsers == old(onlineUsers) - {user}
                && userStatus == old(userStatus)[user := Offline]
                && ExitedAll(old(huddleParticipants), huddleParticipants, user)
                && ExitedAll(old(threadViewers), threadViewers, user)
                && (forall r :: !HasPeer(facade.State(), r, user))
    {
      hide Inv;
      if client !in socketUsers { return []; }
      ghost var g := State();
      var userId := socketUsers[client];
      Forget(client, userId);
      leftSfuRooms := facade.LeaveUserFromAllRooms(userId, now);
      DisconnectHandled(g, client, State());
    }

    /** The gateway's own five maps forget the user. */
    method Forget(client: Id, userId: Id)
      requires forall c | c in huddleParticipants :: huddleParticipants[c] != {}
      modifies this`onlineUsers, this`socketUsers, this`userStatus, this`huddleParticipants, this`threadViewers
      ensures socketUsers == old(socketUsers) - {client}
      ensures onlineUsers == old(onlineUsers) - {userId}
      ensures userStatus == old(userStatus)[userId := Offline]
      ensures huddleParticipants == ExitAll(old(huddleParticipants), userId)
      ensures threadViewers == ExitAll(old(threadViewers), userId)
      ensures ExitedAll(old(huddleParticipants), huddleParticipants, userId)
      ensures ExitedAll(old(threadViewers), threadViewers, userId)
    {
      ExitAllExits(huddleParticipants, userId);
      ExitAllExits(threadViewers, userId);
      socketUsers := socketUsers - {client};
      onlineUsers := onlineUsers - {userId};
      userStatus := userStatus[userId := Offline];
      LeaveHuddles(userId);
      LeaveThreads(userId);
    }

    /** Walks the huddles, deleting emptied ones on the way. */
    method LeaveHuddles(userId: Id)
      requires forall c | c in huddleParticipants :: huddleParticipants[c] != {}
      modifies this`huddleParticipants
      ensures huddleParticipants == ExitAll(old(huddleParticipants), userId)
    {
      var was := huddleParticipants;
      var pending := was.Keys;
      while pending != {}
        invariant pending <= was.Keys
        invariant forall c :: c in huddleParticipants <==> c in was && (c in pending || was[c] - {userId} != {})
        invariant forall c | c in huddleParticipants ::
                    huddleParticipants[c] == if c in pending then was[c] else was[c] - {userId}
      {
        var channelId :| channelId in pending;
        pending := pending - {channelId};
        var members := huddleParticipants[channelId];
        if userId !in members {
          assert members - {userId} == members;
        } else {
          huddleParticipants := Exit(huddleParticipants, channelId, userId);
        }
      }
      assert huddleParticipants == ExitAll(was, userId);
    }

    method LeaveThreads(userId: Id)
      modifies this`threadViewers
      ensures threadViewers == ExitAll(old(threadViewers), userId)
    {
      var was := threadViewers;
      var pending := was.Keys;
      while pending != {}
        invariant pending <= was.Keys
        invariant forall c :: c in threadViewers <==> c in was && (c in pending || was[c] - {userId} != {})
        invariant forall c | c in threadViewers ::
                    threadViewers[c] == if c in pending then was[c] else was[c] - {userId}
      {
        var parentId :| parentId in pending;
        pending := pending - {parentId};
        threadViewers := Exit(threadViewers, parentId, userId);
      }
      assert threadViewers == ExitAll(was, userId);
    }

    /** `authenticated` tells whether the handshake token still verifies; the handler throws if not. */
    method HandleThreadOpen(client: Id, authenticated: bool, threadParentId: Id) returns (viewers: set<Id>)
      requires Valid() && client in socketUsers
      modifies this`threadViewers
      ensures Valid()
      ensures authenticated ==>
                && Handles(old(State()), ThreadOpen(client, threadParentId), State())
                && viewers == threadViewers[threadParentId]
                && Entered(old(threadViewers), threadViewers, threadParentId, socketUsers[client])
      ensures !authenticated ==> State() == old(State())
    {
      if !authenticated { return {}; }
      ghost var g := State();
      var userId := socketUsers[client];
      EnterEnters(threadViewers, threadParentId, userId);
      HandlesKeepsPresence(g, ThreadOpen(client, threadParentId),
                           g.(threadViewers := Enter(g.threadViewers, threadParentId, userId)));
      viewers := if threadParentId in threadViewers then threadViewers[threadParentId] else {};
      viewers := viewers + {userId};
      threadViewers := threadViewers[threadParentId := viewers];
    }

    method HandleThreadClose(client: Id, authenticated: bool, threadParentId: Id)
      requires Valid() && client in socketUsers
      modifies this`threadViewers
      ensures Valid()
      ensures authenticated ==>
                && Handles(old(State()), ThreadClose(client, threadParentId), State())
                && Exited(old(threadViewers), threadViewers, threadParentId, socketUsers[client])
      ensures !authenticated ==> State() == old(State())
    {
      if !authenticated { return; }
      ghost var g := State();
      var userId := socketUsers[client];
      ExitExits(threadViewers, threadParentId, userId);
      HandlesKeepsPresence(g, ThreadClose(client, threadParentId),
                           g.(threadViewers := Exit(g.threadViewers, threadParentId, userId)));
      if threadParentId !in threadViewers { return; }
      var viewers := threadViewers[threadParentId] - {userId};
      if viewers == {} {
        threadViewers := threadViewers - {threadParentId};
      } else {
        threadViewers := threadViewers[threadParentId := viewers];
      }
    }

    method HandleWebrtcJoin(client: Id, authenticated: bool, channelId: Id)
      requires Valid() && client in socketUsers
      modifies this`huddleParticipants
      ensures Valid()
      ensures authenticated ==>
                && Handles(old(State()), WebrtcJoin(client, channelId), State())
                && Entered(old(huddleParticipants), huddleParticipants, channelId, socketUsers[client])
      ensures !authenticated ==> State() == old(State())
    {
      if !authenticated { return; }
      ghost var g := State();
      var userId := socketUsers[client];
      EnterEnters(huddleParticipants, channelId, userId);
      HandlesKeepsPresence(g, WebrtcJoin(client, channelId), g.(huddles := Enter(g.huddles, channelId, userId)));
      var current := if channelId in huddleParticipants then huddleParticipants[channelId] else {};
      huddleParticipants := huddleParticipants[channelId := current + {userId}];
    }

    method HandleWebrtcLeave(client: Id, authenticated: bool, channelId: Id)
      requires Valid() && client in socketUsers
      modifies this`huddleParticipants
      ensures Valid()
      ensures authenticated ==>
                && Handles(old(State()), WebrtcLeave(client, channelId), State())
                && Exited(old(huddleParticipants), huddleParticipants, channelId, socketUsers[client])
      ensures !authenticated ==> State() == old(State())
    {
      if !authenticated { return; }
      ghost var g := State();
      var userId := socketUsers[client];
      ExitExits(huddleParticipants, channelId, userId);
      HandlesKeepsPresence(g, WebrtcLeave(client, channelId), g.(huddles := Exit(g.huddles, channelId, userId)));
      if channelId in huddleParticipants {
        var members := huddleParticipants[channelId] - {userId};
        if members == {} {
          huddleParticipants := huddleParticipants - {channelId};
        } else {
          huddleParticipants := huddleParticipants[channelId := members];
        }
      }
    }

    /** `allowed`: the token verifies and the channel grants access; otherwise the handler throws. */
    method HandleSfuJoin(client: Id, allowed: bool, channelId: Id, now: int) returns (reply: Option<JoinReply>)
      requires Valid() && client in socketUsers
      modifies facade, facade.sfu
      ensures Valid() && reply.Some? == allowed
      ensures allowed ==> Handles(old(State()), SfuJoin(client, channelId), State())
      ensures !allowed ==> State() == old(State())
      ensures old(facade.CacheCoherent()) ==> facade.CacheCoherent()
      ensures allowed ==>
                var user := socketUsers[client];
                && HasPeer(facade.State(), channelId, user)
                && reply.value.peers == facade.State().rooms[channelId].peers.Keys - {user}
                && SfuService.ListsProducers(facade.State(), channelId, Some(user), reply.value.producers)
                && reply.value.mediaStates == SfuService.MediaStates(facade.State(), channelId, Some(user))
                && reply.value.recoveredSnapshotAt == Some(now)
    {
      hide AllPresent, Inv;
      if !allowed { return None; }
      ghost var g := State();
      var user := socketUsers[client];
      var peers := facade.JoinRoom(channelId, user, client, now);
      HandlesKeepsPresence(g, SfuJoin(client, channelId), State());
      SfuSnapshot.NoPeers(facade.State(), channelId);
      SfuSnapshot.PersistedReadIsLive(facade.State(), facade.redis, old(facade.queue), channelId, now, Some(user));
      SfuSnapshot.MergedStatesAreLive(facade.State(), facade.redis, old(facade.queue), channelId, now, Some(user));
      var persisted := facade.GetPersistedRoomSnapshot(channelId, Some(user));
      var inMemoryMediaStates := facade.sfu.ListRoomMediaStates(channelId, Some(user));
      var recovered := if persisted.Some? then persisted.value.mediaStates else map[];
      var producers := facade.sfu.ListRoomProducers(channelId, Some(user));
      return Some(JoinReply(peers - {user}, producers, recovered + inMemoryMediaStates,
                            if persisted.Some? then Some(persisted.value.updatedAt) else None));
    }

    /** Serves `sfu.leave` for the sender and `sfu.host-kick` for another user. */
    method LeaveSfuRoom(channelId: Id, userId: Id, now: int)
      requires Valid()
      modifies facade`queue, facade.sfu
      ensures Valid() && Handles(old(State()), SfuOther(Leave(channelId, userId)), State())
      ensures old(facade.CacheCoherent()) ==> facade.CacheCoherent()
    {
      hide AllPresent, Inv;
      ghost var g := State();
      facade.LeaveRoom(channelId, userId, now);
      HandlesKeepsPresence(g, SfuOther(Leave(channelId, userId)), State());
    }

    /** Tells the kicked user's socket; the socket is read before the peer is gone. */
    method HandleSfuHostKick(isHost: bool, channelId: Id, targetUserId: Id, now: int) returns (told: Option<Id>)
      requires Valid()
      modifies facade`queue, facade.sfu
      ensures Valid()
      ensures isHost ==> Handles(old(State()), SfuOther(Leave(channelId, targetUserId)), State())
      ensures !isHost ==> State() == old(State()) && told.None?
      ensures told.Some? ==> IsSocketOf(old(State()), told.value, targetUserId)
      ensures told.Some? <==> isHost && HasPeer(old(facade.State()), channelId, targetUserId)
      ensures !HasPeer(facade.State(), channelId, targetUserId) || !isHost
      ensures old(facade.CacheCoherent()) ==> facade.CacheCoherent()
    {
      hide Inv;
      if !isHost { return None; }
      told := facade.sfu.GetPeerSocketId(channelId, targetUserId);
      if HasPeer(facade.State(), channelId, targetUserId) {
        LeftRoomsPeers(facade.State(), {channelId}, targetUserId, channelId, targetUserId);
      }
      LeaveSfuRoom(channelId, targetUserId, now);
    }

    /** `sfu.host-force-mute`; only the host is obeyed. */
    method HandleSfuHostForceMute(isHost: bool, channelId: Id, targetUserId: Id, now: int)
      returns (closedProducerIds: set<Id>)
      requires Valid()
      modifies facade`queue, facade.sfu
      ensures Valid()
      ensures isHost ==> Handles(old(State()), SfuOther(Op.CloseUserProducers(channelId, targetUserId)), State())
      ensures isHost && HasPeer(old(facade.State()), channelId, targetUserId) ==>
                Silenced(facade.State(), channelId, targetUserId)
      ensures isHost ==> closedProducerIds == ProducersOf(old(facade.State()), channelId, targetUserId)
      ensures old(facade.CacheCoherent()) ==> facade.CacheCoherent()
      ensures !isHost ==> State() == old(State())
    {
      if !isHost { return {}; }
      closedProducerIds := MuteSfuUser(channelId, targetUserId, now);
    }

    method MuteSfuUser(channelId: Id, userId: Id, now: int) returns (closedProducerIds: set<Id>)
      requires Valid()
      modifies facade`queue, facade.sfu
      ensures Valid() && Handles(old(State()), SfuOther(Op.CloseUserProducers(channelId, userId)), State())
      ensures old(facade.CacheCoherent()) ==> facade.CacheCoherent()
      ensures HasPeer(old(facade.State()), channelId, userId) ==> Silenced(facade.State(), channelId, userId)
      ensures closedProducerIds == ProducersOf(old(facade.State()), channelId, userId)
    {
      hide AllPresent, Inv;
      ghost var g := State();
      closedProducerIds := facade.CloseUserProducers(channelId, userId, now);
      MuteHandled(g, channelId, userId, State());
    }
  }

  lemma DisconnectHandled(g: Gate, client: Id, h: Gate)
    requires AllPresent(g) && client in g.socketUsers && h == AfterDisconnect(g, client)
    ensures AllPresent(h) && Handles(g, Message.Disconnect(client), h)
  {
    HandlesKeepsPresence(g, Message.Disconnect(client), h);
  }

  /** Still in the room, with nothing on air. */
  ghost predicate Silenced(s: Store, r: Id, u: Id) {
    HasPeer(s, r, u) && SfuService.MediaOf(s, r, u) == SfuService.Silent
  }

  lemma MuteHandled(g: Gate, r: Id, u: Id, h: Gate)
    requires AllPresent(g) && Inv(g.store) && h == g.(store := AfterCloseUserProducers(g.store, r, u))
    ensures AllPresent(h) && Handles(g, SfuOther(Op.CloseUserProducers(r, u)), h)
    ensures HasPeer(g.store, r, u) ==> Silenced(h.store, r, u)
  {
    hide AllPresent, Inv;
    HandlesKeepsPresence(g, SfuOther(Op.CloseUserProducers(r, u)), h);
    if HasPeer(g.store, r, u) {
      SfuService.ForceMuteSilences(g.store, r, u);
    }
  }
}
