/**
 Who is where: the chat gateway's five maps beside the SFU store, as a state
 machine over connects, disconnects and room messages.
 */
module Presence {
  import opened Common
  import opened SfuStore

  datatype Status = Online | Offline | Away | Dnd

  /** Users and sockets are told apart by name only: both are keys. */
  datatype Gate = Gate(
    onlineUsers: map<Id, Id>,
    socketUsers: map<Id, Id>,
    threadViewers: map<Id, set<Id>>,
    userStatus: map<Id, Status>,
    huddles: map<Id, set<Id>>,
    store: Store)

  ghost predicate HasSocket(g: Gate, u: Id) {
    exists s :: s in g.socketUsers && g.socketUsers[s] == u
  }

  predicate IsSocketOf(g: Gate, s: Id, u: Id) {
    s in g.socketUsers && g.socketUsers[s] == u
  }

  /** No empty member set is stored, and every member has a live socket. */
  ghost predicate MembersLive(g: Gate, members: map<Id, set<Id>>) {
    forall c | c in members :: members[c] != {} && forall u | u in members[c] :: HasSocket(g, u)
  }

  /**
   Huddle participants, thread viewers and SFU peers have live sockets, and the
   socket noted for an online user or a peer is a live socket of that user.
   */
  ghost predicate AllPresent(g: Gate) {
    && MembersLive(g, g.huddles)
    && MembersLive(g, g.threadViewers)
    && (forall u | u in g.onlineUsers :: IsSocketOf(g, g.onlineUsers[u], u))
    && (forall r: Id, u: Id | HasPeer(g.store, r, u) :: IsSocketOf(g, PeerAt(g.store, r, u).socketId, u))
  }

  function Members(m: map<Id, set<Id>>, c: Id): set<Id> {
    if c in m then m[c] else {}
  }

  function Enter(m: map<Id, set<Id>>, c: Id, u: Id): map<Id, set<Id>> {
    m[c := Members(m, c) + {u}]
  }

  /** Takes `u` out of `c`; an emptied set is not kept. */
  function Exit(m: map<Id, set<Id>>, c: Id, u: Id): map<Id, set<Id>> {
    if c !in m then m
    else if m[c] - {u} == {} then m - {c}
    else m[c := m[c] - {u}]
  }

  /** Takes `u` out everywhere. */
  function ExitAll(m: map<Id, set<Id>>, u: Id): map<Id, set<Id>> {
    map c | c in m && m[c] - {u} != {} :: m[c] - {u}
  }

  // Who is a member of what afterwards, member by member.

  predicate In(m: map<Id, set<Id>>, c: Id, x: Id) {
    c in m && x in m[c]
  }

  /** `u` is in `c` now, and whoever was anywhere still is. */
  ghost predicate Entered(before: map<Id, set<Id>>, after: map<Id, set<Id>>, c: Id, u: Id) {
    && (forall d: Id, x: Id :: In(after, d, x) <==> In(before, d, x) || (d == c && x == u))
    && (forall d: Id | d != c :: d in after <==> d in before)
  }

  /** `u` is no longer in `c`, and nobody else left anything; `c` is kept only for somebody. */
  ghost predicate Exited(before: map<Id, set<Id>>, after: map<Id, set<Id>>, c: Id, u: Id) {
    && (forall d: Id, x: Id :: In(after, d, x) <==> In(before, d, x) && !(d == c && x == u))
    && (forall d: Id | d != c :: d in after <==> d in before)
    && (c in after ==> after[c] != {})
  }

  /** `u` is in nothing any more, and nobody else left anything; nothing is kept for nobody. */
  ghost predicate ExitedAll(before: map<Id, set<Id>>, after: map<Id, set<Id>>, u: Id) {
    && (forall d: Id, x: Id :: In(after, d, x) <==> In(before, d, x) && x != u)
    && (forall d: Id | d in after :: after[d] != {})
  }

  lemma EnterEnters(m: map<Id, set<Id>>, c: Id, u: Id)
    ensures Entered(m, Enter(m, c, u), c, u)
  {
  }

  lemma ExitExits(m: map<Id, set<Id>>, c: Id, u: Id)
    ensures Exited(m, Exit(m, c, u), c, u)
  {
    if c in m { assert forall x :: x in m[c] - {u} <==> x in m[c] && x != u; }
  }

  lemma ExitAllExits(m: map<Id, set<Id>>, u: Id)
    ensures ExitedAll(m, ExitAll(m, u), u)
  {
    forall d: Id, x: Id | In(m, d, x) && x != u ensures In(ExitAll(m, u), d, x) {
      assert x in m[d] - {u};
    }
  }

  function AfterConnection(g: Gate, socket: Id, u: Id): Gate {
    g.(onlineUsers := g.onlineUsers[u := socket],
       socketUsers := g.socketUsers[socket := u],
       userStatus := g.userStatus[u := Online])
  }

  /** A disconnect forgets the user everywhere, other sockets of the user or not. */
  function AfterDisconnect(g: Gate, socket: Id): Gate {
    if socket !in g.socketUsers then g
    else
      var u := g.socketUsers[socket];
      g.(onlineUsers := g.onlineUsers - {u},
         socketUsers := g.socketUsers - {socket},
         userStatus := g.userStatus[u := Offline],
         huddles := ExitAll(g.huddles, u),
         threadViewers := ExitAll(g.threadViewers, u),
         store := AfterLeaveAll(g.store, u))
  }

  datatype Message =
    | Connect(socket: Id, user: Id)
    | Disconnect(socket: Id)
    | ThreadOpen(socket: Id, thread: Id)
    | ThreadClose(socket: Id, thread: Id)
    | WebrtcJoin(socket: Id, channel: Id)
    | WebrtcLeave(socket: Id, channel: Id)
    | SetPresence(user: Id, status: Status)
    | SfuJoin(socket: Id, room: Id)
    | SfuOther(op: Op)

  /**
   One message. Messages come from connected sockets and speak for the socket's
   user; a new socket has a new name. Kicks, mutes and library events are among
   the other SFU operations and may come from anyone.
   */
  ghost predicate Handles(g: Gate, m: Message, h: Gate) {
    match m
    case Connect(socket, u) => socket !in g.socketUsers && h == AfterConnection(g, socket, u)
    case Disconnect(socket) => h == AfterDisconnect(g, socket)
    case ThreadOpen(socket, t) =>
      socket in g.socketUsers && h == g.(threadViewers := Enter(g.threadViewers, t, g.socketUsers[socket]))
    case ThreadClose(socket, t) =>
      socket in g.socketUsers && h == g.(threadViewers := Exit(g.threadViewers, t, g.socketUsers[socket]))
    case WebrtcJoin(socket, c) =>
      socket in g.socketUsers && h == g.(huddles := Enter(g.huddles, c, g.socketUsers[socket]))
    case WebrtcLeave(socket, c) =>
      socket in g.socketUsers && h == g.(huddles := Exit(g.huddles, c, g.socketUsers[socket]))
    case SetPresence(u, status) => h == g.(userStatus := g.userStatus[u := status])
    case SfuJoin(socket, r) =>
      && socket in g.socketUsers && h == g.(store := h.store)
      && Next(g.store, Join(r, g.socketUsers[socket], socket), h.store)
    case SfuOther(op) => !op.Join? && h == g.(store := h.store) && Next(g.store, op, h.store)
  }

  // ---------------------------------------------------- what SFU steps do to peers

  /** Only a join makes a peer or moves one to another socket. */
  lemma OthersAddNoPeer(s: Store, op: Op, w: Store, r: Id, u: Id)
    requires !op.Join? && Next(s, op, w) && HasPeer(w, r, u)
    ensures HasPeer(s, r, u) && PeerAt(w, r, u).socketId == PeerAt(s, r, u).socketId
  {
    match op
    case Leave(q, v) => if HasPeer(s, q, v) { LeftRoomsPeers(s, {q}, v, r, u); }
    case LeaveAll(v) => LeftRoomsPeers(s, RoomsOf(s, v), v, r, u);
    case CloseProducer(q, v, id) => if HasPeer(s, q, v) { ClosedPeers(s, q, v, {id}, r, u); }
    case CloseUserProducers(q, v) => if HasPeer(s, q, v) { ClosedPeers(s, q, v, PeerAt(s, q, v).producers, r, u); }
    case CreateTransport(q, v, _, _, _) => EnsureRoomPeers(s, q, r, u);
    case Produce(q, v, _, _, _, _) => EnsureRoomPeers(s, q, r, u);
    case Consume(q, v, _, _, _, _, _) => EnsureRoomPeers(s, q, r, u);
    case _ =>
  }

  lemma JoinAddsOnePeer(s: Store, q: Id, v: Id, socketId: Id, w: Store, r: Id, u: Id)
    requires Next(s, Join(q, v, socketId), w) && HasPeer(w, r, u)
    ensures if r == q && u == v then PeerAt(w, r, u).socketId == socketId
            else HasPeer(s, r, u) && PeerAt(w, r, u).socketId == PeerAt(s, r, u).socketId
  {
    if HasPeer(s, q, v) {
      var c: Store :| PartlyCleaned(s, c, q, v) && HasPeer(c, q, v)
                      && w == SetPeer(c, q, v, PeerAt(c, q, v).(socketId := socketId));
      PartlyCleanedShrinks(s, c, q, v);
      SetPeerPeers(c, q, v, PeerAt(c, q, v).(socketId := socketId), r, u);
      SetPeerPeers(s, q, v, PeerAt(c, q, v), r, u);
    } else {
      EnsureRoomPeers(s, q, r, u);
    }
  }

  // ------------------------------------------------------------------- invariance

  lemma MembersStayLive(g: Gate, h: Gate, members: map<Id, set<Id>>)
    requires MembersLive(g, members) && forall u | HasSocket(g, u) :: HasSocket(h, u)
    ensures MembersLive(h, members)
  {
  }

  lemma ExitKeepsLive(g: Gate, members: map<Id, set<Id>>, c: Id, u: Id)
    requires MembersLive(g, members)
    ensures MembersLive(g, Exit(members, c, u))
  {
    if c in members { assert members[c] - {u} <= members[c]; }
  }

  lemma EnterKeepsLive(g: Gate, members: map<Id, set<Id>>, c: Id, u: Id)
    requires MembersLive(g, members) && HasSocket(g, u)
    ensures MembersLive(g, Enter(members, c, u))
  {
    assert u in Enter(members, c, u)[c];
  }

  lemma ConnectKeepsPresence(g: Gate, socket: Id, u: Id)
    requires AllPresent(g) && socket !in g.socketUsers
    ensures AllPresent(AfterConnection(g, socket, u))
  {
    var h := AfterConnection(g, socket, u);
    forall v | HasSocket(g, v) ensures HasSocket(h, v) {
      var s :| s in g.socketUsers && g.socketUsers[s] == v;
      assert h.socketUsers[s] == v;
    }
    MembersStayLive(g, h, g.huddles);
    MembersStayLive(g, h, g.threadViewers);
  }

  /** A disconnect takes away a socket of one user only, and forgets that user everywhere. */
  lemma DisconnectKeepsPresence(g: Gate, socket: Id)
    requires AllPresent(g) && socket in g.socketUsers
    ensures AllPresent(AfterDisconnect(g, socket))
  {
    var u, h := g.socketUsers[socket], AfterDisconnect(g, socket);
    forall v | HasSocket(g, v) && v != u ensures HasSocket(h, v) {
      var s :| s in g.socketUsers && g.socketUsers[s] == v;
      assert h.socketUsers[s] == v;
    }
    ExitAllKeepsLive(g, h, g.huddles, u);
    ExitAllKeepsLive(g, h, g.threadViewers, u);
    forall v | v in h.onlineUsers ensures IsSocketOf(h, h.onlineUsers[v], v) {
      assert IsSocketOf(g, g.onlineUsers[v], v);
    }
    forall r: Id, v: Id | HasPeer(h.store, r, v) ensures IsSocketOf(h, PeerAt(h.store, r, v).socketId, v) {
      LeftRoomsPeers(g.store, RoomsOf(g.store, u), u, r, v);
      assert IsSocketOf(g, PeerAt(g.store, r, v).socketId, v);
    }
  }

  lemma ExitAllKeepsLive(g: Gate, h: Gate, members: map<Id, set<Id>>, u: Id)
    requires MembersLive(g, members) && forall v | HasSocket(g, v) && v != u :: HasSocket(h, v)
    ensures MembersLive(h, ExitAll(members, u))
  {
  }

  lemma HandlesKeepsPresence(g: Gate, m: Message, h: Gate)
    requires AllPresent(g) && Handles(g, m, h)
    ensures AllPresent(h)
  {
    match m
    case Connect(socket, u) => ConnectKeepsPresence(g, socket, u);
    case Disconnect(socket) => if socket in g.socketUsers { DisconnectKeepsPresence(g, socket); }
    case ThreadOpen(socket, t) => EnterKeepsLive(g, g.threadViewers, t, g.socketUsers[socket]); SocketsUnchanged(g, h);
    case ThreadClose(socket, t) => ExitKeepsLive(g, g.threadViewers, t, g.socketUsers[socket]); SocketsUnchanged(g, h);
    case WebrtcJoin(socket, c) => EnterKeepsLive(g, g.huddles, c, g.socketUsers[socket]); SocketsUnchanged(g, h);
    case WebrtcLeave(socket, c) => ExitKeepsLive(g, g.huddles, c, g.socketUsers[socket]); SocketsUnchanged(g, h);
    case SetPresence(u, status) => SocketsUnchanged(g, h);
    case SfuJoin(socket, r) =>
      SocketsUnchanged(g, h);
      forall q: Id, u: Id | HasPeer(h.store, q, u) ensures IsSocketOf(h, PeerAt(h.store, q, u).socketId, u) {
        JoinAddsOnePeer(g.store, r, g.socketUsers[socket], socket, h.store, q, u);
      }
    case SfuOther(op) =>
      SocketsUnchanged(g, h);
      forall q: Id, u: Id | HasPeer(h.store, q, u) ensures IsSocketOf(h, PeerAt(h.store, q, u).socketId, u) {
        OthersAddNoPeer(g.store, op, h.store, q, u);
      }
  }

  lemma SocketsUnchanged(g: Gate, h: Gate)
    requires g.socketUsers == h.socketUsers
    ensures forall members :: MembersLive(g, members) <==> MembersLive(h, members)
  {
    assert forall u :: HasSocket(g, u) <==> HasSocket(h, u);
  }

  const EmptyGate := Gate(map[], map[], map[], map[], map[], EmptyStore)

  ghost predicate GateRuns(g: Gate, ms: seq<Message>, h: Gate)
    decreases |ms|
  {
    if ms == [] then h == g
    else exists n: Gate :: Handles(g, ms[0], n) && GateRuns(n, ms[1..], h)
  }

  /** In every run of messages, everyone listed anywhere has a live socket. */
  lemma {:induction false} RunKeepsPresence(g: Gate, ms: seq<Message>, h: Gate)
    requires AllPresent(g) && GateRuns(g, ms, h)
    ensures AllPresent(h)
    decreases |ms|
  {
    if ms != [] {
      var n: Gate :| Handles(g, ms[0], n) && GateRuns(n, ms[1..], h);
      HandlesKeepsPresence(g, ms[0], n);
      RunKeepsPresence(n, ms[1..], h);
    }
  }

  lemma RunsFromTheStartKeepPresence(ms: seq<Message>, h: Gate)
    requires GateRuns(EmptyGate, ms, h)
    ensures AllPresent(h)
  {
    assert AllPresent(EmptyGate);
    RunKeepsPresence(EmptyGate, ms, h);
  }

  // --------------------------------------------------------- several sockets a user

  /** Every user with a live socket is listed as online. */
  ghost predicate OnlineComplete(g: Gate) {
    forall s | s in g.socketUsers :: g.socketUsers[s] in g.onlineUsers
  }

  /**
   The converse of the online invariant is lost with a second socket: after a
   disconnect the online list is complete exactly when the socket was the user's
   only one.
   */
  lemma DisconnectLosesSecondSockets(g: Gate, socket: Id)
    requires OnlineComplete(g) && socket in g.socketUsers
    ensures OnlineComplete(AfterDisconnect(g, socket)) <==>
              forall s | IsSocketOf(g, s, g.socketUsers[socket]) :: s == socket
  {
    var h, u := AfterDisconnect(g, socket), g.socketUsers[socket];
    forall s | IsSocketOf(g, s, u) && s != socket ensures !OnlineComplete(h) {
      assert s in h.socketUsers && h.socketUsers[s] !in h.onlineUsers;
    }
    if forall s | IsSocketOf(g, s, u) :: s == socket {
      forall s | s in h.socketUsers ensures h.socketUsers[s] in h.onlineUsers {
        assert IsSocketOf(g, s, u) ==> s == socket;
      }
    }
  }

  /** Two tabs, one closed: the user still has a socket but counts as offline. */
  lemma TwoTabsOneClosed()
    ensures var g := AfterDisconnect(AfterConnection(AfterConnection(EmptyGate, 1, 7), 2, 7), 1);
            HasSocket(g, 7) && 7 !in g.onlineUsers && g.userStatus[7] == Offline
  {
    var g := AfterDisconnect(AfterConnection(AfterConnection(EmptyGate, 1, 7), 2, 7), 1);
    assert g.socketUsers[2] == 7;
  }
}
