/**
 The supervisor of the media worker: one worker at most, a retry loop with
 growing delays when it dies, and the routers of the rooms that live in it.
 */
module WorkerSupervisor {
  import opened Common

  const MAX_RESTART_ATTEMPTS := 5
  const BASE_DELAY_MS := 3000
  const MAX_DELAY_MS := 30000

  function Pow2(n: nat): (r: nat)
    ensures r >= 1
  {
    if n == 0 then 1 else 2 * Pow2(n - 1)
  }

  function DelayMs(attempts: nat): int {
    var d := BASE_DELAY_MS * Pow2(attempts);
    if d < MAX_DELAY_MS then d else MAX_DELAY_MS
  }

  /**
   The fields of the service, and the rooms with their routers. The rest is
   history: whether the module was initialised, how many loops run, and how
   often the current outage tried and waited.
   */
  datatype Supervisor = Supervisor(
    worker: Option<Id>,
    available: bool,
    restarting: bool,
    attempts: nat,
    restartTask: bool,
    rooms: map<Id, Option<Id>>,
    initialised: bool,
    loops: nat,
    tries: nat,
    delays: seq<int>)

  const Idle := Supervisor(None, false, false, 0, false, map[], false, 0, 0, [])

  datatype Op =
    | Initialise
    | Died
    | AttemptFails
    | AttemptSucceeds(newWorker: Id)
    | RoomOpens(room: Id)
    | RoomCloses(room: Id)
    | EnsureRouter(room: Id, newRouter: Id)

  /** Only a held worker dies, only a running loop makes attempts, and the module starts once. */
  predicate Enabled(s: Supervisor, op: Op) {
    match op
    case Initialise => !s.initialised
    case Died => s.worker.Some?
    case AttemptFails => s.loops > 0
    case AttemptSucceeds(_) => s.loops > 0
    case RoomOpens(r) => r !in s.rooms
    case _ => true
  }

  /** A turn of the loop up to the call that creates a worker; the first of an outage does not wait. */
  function Try(s: Supervisor): Supervisor {
    s.(tries := s.tries + 1, delays := if s.attempts > 0 then s.delays + [DelayMs(s.attempts)] else s.delays)
  }

  /** Entering `startWorkerWithRetry`. Past the last attempt its task ends before it is stored, so it stays stored. */
  function Begin(s: Supervisor): Supervisor {
    if !s.restarting && s.available && s.worker.Some? then s
    else if s.restartTask then s
    else if s.attempts >= MAX_RESTART_ATTEMPTS then s.(restarting := false, restartTask := true)
    else Try(s.(restartTask := true, loops := s.loops + 1))
  }

  function WithoutRouters(rooms: map<Id, Option<Id>>): map<Id, Option<Id>> {
    map r | r in rooms :: None
  }

  /** What `handleWorkerDied` writes before it starts over. */
  function Dead(s: Supervisor): Supervisor {
    s.(restarting := true, available := false, attempts := 0, worker := None,
       rooms := WithoutRouters(s.rooms), tries := 0, delays := [])
  }

  function Next(s: Supervisor, op: Op): Supervisor
    requires Enabled(s, op)
  {
    match op
    case Initialise => Begin(s.(initialised := true))
    case Died =>
      if s.restarting then s else Begin(Dead(s))
    case AttemptFails =>
      var f := s.(attempts := s.attempts + 1, available := false, worker := None);
      if f.attempts < MAX_RESTART_ATTEMPTS then Try(f)
      else f.(restarting := false, restartTask := false, loops := f.loops - 1)
    case AttemptSucceeds(w) =>
      s.(worker := Some(w), available := true, attempts := 0, restarting := false,
         restartTask := false, loops := s.loops - 1)
    case RoomOpens(r) => s.(rooms := s.rooms[r := None])
    case RoomCloses(r) => s.(rooms := s.rooms - {r})
    case EnsureRouter(r, router) =>
      if !s.available || s.worker.None? || r !in s.rooms || s.rooms[r].Some? then s
      else s.(rooms := s.rooms[r := Some(router)])
  }

  /** The waits before the second, third, ... attempt of an outage. */
  function Schedule(n: nat): (d: seq<int>)
    ensures |d| == n
  {
    if n == 0 then [] else Schedule(n - 1) + [DelayMs(n)]
  }

  ghost predicate Inv(s: Supervisor) {
    && (s.available <==> s.worker.Some?)
    && (s.available ==> !s.restarting && s.attempts == 0 && !s.restartTask)
    && s.loops == (if s.restartTask then 1 else 0)
    && (s.restarting ==> s.restartTask)
    && (s.restartTask ==>
          s.attempts < MAX_RESTART_ATTEMPTS && s.tries == s.attempts + 1 && s.delays == Schedule(s.attempts))
    && s.tries <= MAX_RESTART_ATTEMPTS && |s.delays| < MAX_RESTART_ATTEMPTS && s.delays == Schedule(|s.delays|)
    && (!s.available ==> forall r | r in s.rooms :: s.rooms[r].None?)
    && (!s.initialised ==> s == Idle.(rooms := s.rooms))
    && (s.initialised && !s.available && !s.restartTask ==> s.attempts == MAX_RESTART_ATTEMPTS)
  }

  lemma NextKeepsInv(s: Supervisor, op: Op)
    requires Inv(s) && Enabled(s, op)
    ensures Inv(Next(s, op))
  {
    assert Schedule(0) == [];
    assert s.restartTask ==> Schedule(s.attempts + 1) == s.delays + [DelayMs(s.attempts + 1)];
  }

  /** Nothing but the rooms differs. */
  predicate OnlyRooms(s: Supervisor, w: Supervisor) {
    w == s.(rooms := w.rooms)
  }

  /** A loop is under way, with so many failures, tries and waits behind it, and no worker. */
  predicate Trying(w: Supervisor, failures: nat, tries: nat, delays: seq<int>) {
    && w.worker == None && !w.available && w.restartTask && w.loops == 1
    && w.attempts == failures && w.tries == tries && w.delays == delays && w.initialised
  }

  /** What each event does to the fields and to every single room. */
  ghost predicate Does(s: Supervisor, op: Op, w: Supervisor) {
    match op
    case Initialise => Trying(w, 0, 1, []) && !w.restarting && w.rooms == s.rooms
    case Died =>
      && Trying(w, 0, 1, []) && w.restarting
      && w.rooms.Keys == s.rooms.Keys && forall r | r in w.rooms :: w.rooms[r] == None
    case AttemptFails =>
      && w.rooms == s.rooms
      && if s.attempts < 4 then
           && Trying(w, s.attempts + 1, s.tries + 1, s.delays + [[6000, 12000, 24000, 30000][s.attempts]])
           && w.restarting == s.restarting
         else
           && w.worker == None && !w.available && !w.restarting && !w.restartTask && w.loops == 0
           && w.attempts == 5 && w.tries == s.tries && w.delays == s.delays && w.initialised
    case AttemptSucceeds(worker) =>
      && w.worker == Some(worker) && w.available && !w.restarting && !w.restartTask && w.loops == 0
      && w.attempts == 0 && w.tries == s.tries && w.delays == s.delays && w.initialised && w.rooms == s.rooms
    case RoomOpens(r) =>
      && OnlyRooms(s, w) && w.rooms.Keys == s.rooms.Keys + {r} && w.rooms[r] == None
      && forall x | x in s.rooms :: w.rooms[x] == s.rooms[x]
    case RoomCloses(r) =>
      && OnlyRooms(s, w) && w.rooms.Keys == s.rooms.Keys - {r}
      && forall x | x in w.rooms :: w.rooms[x] == s.rooms[x]
    case EnsureRouter(r, router) =>
      && OnlyRooms(s, w) && w.rooms.Keys == s.rooms.Keys
      && forall x | x in s.rooms :: w.rooms[x] ==
           if x == r && s.rooms[x].None? && s.worker.Some? then Some(router) else s.rooms[x]
  }

  lemma NextDoes(s: Supervisor, op: Op)
    requires Inv(s) && Enabled(s, op)
    ensures Does(s, op, Next(s, op))
  {
    if op.AttemptFails? && s.attempts < 4 { WaitTable(s.attempts); }
  }

  lemma WaitTable(failures: nat)
    requires failures < 4
    ensures DelayMs(failures + 1) == [6000, 12000, 24000, 30000][failures]
  {
    assert Pow2(1) == 2 && Pow2(2) == 4 && Pow2(3) == 8 && Pow2(4) == 16;
  }

  // ---------------------------------------------------------------------- runs

  ghost predicate AllEnabled(s: Supervisor, ops: seq<Op>)
    decreases |ops|
  {
    ops != [] ==> Enabled(s, ops[0]) && AllEnabled(Next(s, ops[0]), ops[1..])
  }

  ghost function Run(s: Supervisor, ops: seq<Op>): Supervisor
    requires AllEnabled(s, ops)
    decreases |ops|
  {
    if ops == [] then s else Run(Next(s, ops[0]), ops[1..])
  }

  lemma {:induction false} RunKeepsInv(s: Supervisor, ops: seq<Op>)
    requires Inv(s) && AllEnabled(s, ops)
    ensures Inv(Run(s, ops))
    decreases |ops|
  {
    if ops == [] {
    } else {
      NextKeepsInv(s, ops[0]);
      RunKeepsInv(Next(s, ops[0]), ops[1..]);
    }
  }

  lemma {:induction false} DelaysGrow(a: nat, b: nat)
    requires a <= b
    ensures DelayMs(a) <= DelayMs(b)
  {
    if a < b { DelaysGrow(a, b - 1); }
  }

  /** The waits never shrink and never exceed the cap. */
  lemma {:induction false} ScheduleGrows(n: nat)
    ensures forall i, j | 0 <= i <= j < n :: Schedule(n)[i] <= Schedule(n)[j] <= MAX_DELAY_MS
    ensures forall i | 0 <= i < n :: Schedule(n)[i] == DelayMs(i + 1)
  {
    if n == 0 {
    } else {
      ScheduleGrows(n - 1);
      forall i | 0 <= i < n ensures Schedule(n)[i] == DelayMs(i + 1) {
        if i < n - 1 { assert Schedule(n)[i] == Schedule(n - 1)[i]; }
      }
      forall i, j | 0 <= i <= j < n ensures Schedule(n)[i] <= Schedule(n)[j] <= MAX_DELAY_MS {
        DelaysGrow(i + 1, j + 1);
      }
    }
  }

  /**
   In every run from the start: the service is available exactly while it holds
   a worker, then it is not restarting and has no attempts on record; one loop
   runs at most; an outage tries five times at most, with growing capped waits
   in between; and no room keeps a router without a worker.
   */
  lemma EveryRunIsSupervised(ops: seq<Op>)
    requires AllEnabled(Idle, ops)
    ensures var s := Run(Idle, ops);
            && (s.available <==> s.worker.Some?)
            && (s.available ==> !s.restarting && s.attempts == 0)
            && s.loops <= 1 && s.tries <= MAX_RESTART_ATTEMPTS && |s.delays| < MAX_RESTART_ATTEMPTS
            && (forall i, j | 0 <= i <= j < |s.delays| :: s.delays[i] <= s.delays[j] <= MAX_DELAY_MS)
            && (!s.available ==> forall r | r in s.rooms :: s.rooms[r].None?)
  {
    assert Schedule(0) == [];
    RunKeepsInv(Idle, ops);
    ScheduleGrows(|Run(Idle, ops).delays|);
  }

  /** The whole wait of an outage that never succeeds. */
  lemma FullOutageWaits()
    ensures Schedule(MAX_RESTART_ATTEMPTS - 1) == [6000, 12000, 24000, 30000]
  {
    assert Pow2(1) == 2 && Pow2(2) == 4 && Pow2(3) == 8 && Pow2(4) == 16;
    assert Schedule(1) == [6000];
    assert Schedule(2) == [6000, 12000];
    assert Schedule(3) == [6000, 12000, 24000];
    assert Schedule(4) == [6000, 12000, 24000, 30000];
  }

  // ------------------------------------------------------------------ giving up

  /** No worker and no loop, after the last attempt. */
  ghost predicate GaveUp(s: Supervisor) {
    Inv(s) && s.initialised && !s.available && !s.restartTask
  }

  /** Once it has given up the service stays in fallback mode: nothing starts a loop again. */
  lemma {:induction false} GivenUpForGood(s: Supervisor, ops: seq<Op>)
    requires GaveUp(s) && AllEnabled(s, ops)
    ensures GaveUp(Run(s, ops)) && Run(s, ops).tries == s.tries
    decreases |ops|
  {
    if ops == [] {
    } else {
      NextKeepsInv(s, ops[0]);
      GivenUpForGood(Next(s, ops[0]), ops[1..]);
    }
  }

  // ------------------------------------------------------------- one whole outage

  /** The first attempt that gives a worker. */
  function FirstSuccess(outcomes: seq<Option<Id>>): (r: Option<nat>)
    ensures r.Some? ==> r.value < |outcomes| && outcomes[r.value].Some?
    ensures forall j | 0 <= j < (if r.Some? then r.value else |outcomes|) :: outcomes[j].None?
  {
    if outcomes == [] then None
    else if outcomes[0].Some? then Some(0)
    else
      var r := FirstSuccess(outcomes[1..]);
      if r.Some? then Some(r.value + 1) else None
  }

  /** A loop ended with the first worker it got, or without one after its last attempt. */
  ghost predicate Settled(s: Supervisor, w: Supervisor, outcomes: seq<Option<Id>>) {
    && Inv(w) && !w.restartTask && w.rooms == s.rooms && w.initialised
    && match FirstSuccess(outcomes)
       case Some(i) => w.worker == outcomes[i] && w.tries == s.tries + i
       case None => GaveUp(w) && w.tries == MAX_RESTART_ATTEMPTS
  }

  lemma SuccessEndsTheLoop(s: Supervisor, worker: Id)
    requires Inv(s) && s.restartTask
    ensures var n := Next(s, AttemptSucceeds(worker));
            && Inv(n) && !n.restartTask && n.initialised
            && n.worker == Some(worker) && n.rooms == s.rooms && n.tries == s.tries
  {
    NextKeepsInv(s, AttemptSucceeds(worker));
  }

  lemma FailureTriesAgain(s: Supervisor)
    requires Inv(s) && s.restartTask
    ensures var n := Next(s, AttemptFails);
            && Inv(n) && n.rooms == s.rooms && n.attempts == s.attempts + 1
            && if s.attempts + 1 < MAX_RESTART_ATTEMPTS then n.restartTask && n.tries == s.tries + 1
               else GaveUp(n) && n.tries == MAX_RESTART_ATTEMPTS
  {
    NextKeepsInv(s, AttemptFails);
  }

  lemma SettledLater(s: Supervisor, n: Supervisor, w: Supervisor, outcomes: seq<Option<Id>>)
    requires outcomes != [] && outcomes[0].None? && Settled(n, w, outcomes[1..])
    requires n.rooms == s.rooms && n.tries == s.tries + 1
    ensures Settled(s, w, outcomes)
  {
  }

  /** The states a loop goes through as its attempts turn out; it stops at the first worker or at the last attempt. */
  function Loop(s: Supervisor, outcomes: seq<Option<Id>>): Supervisor
    requires s.loops > 0
    decreases |outcomes|
  {
    if outcomes == [] then s
    else if outcomes[0].Some? then Next(s, AttemptSucceeds(outcomes[0].value))
    else
      var n := Next(s, AttemptFails);
      if s.attempts + 1 < MAX_RESTART_ATTEMPTS then Loop(n, outcomes[1..]) else n
  }

  lemma {:induction false} LoopSettles(s: Supervisor, outcomes: seq<Option<Id>>)
    requires Inv(s) && s.restartTask && s.attempts + |outcomes| == MAX_RESTART_ATTEMPTS
    ensures Settled(s, Loop(s, outcomes), outcomes)
    decreases |outcomes|
  {
    if outcomes[0].Some? {
      SuccessEndsTheLoop(s, outcomes[0].value);
      assert FirstSuccess(outcomes) == Some(0);
    } else {
      var n := Next(s, AttemptFails);
      FailureTriesAgain(s);
      if |outcomes| == 1 {
        assert FirstSuccess(outcomes).None?;
      } else {
        LoopSettles(n, outcomes[1..]);
        SettledLater(s, n, Loop(n, outcomes[1..]), outcomes);
      }
    }
  }

  /** A death begins a loop that tries five times if it must; the rooms lose their routers at once. */
  lemma DeathBeginsALoop(s: Supervisor)
    requires Inv(s) && s.worker.Some?
    ensures var d := Next(s, Died);
            && Inv(d) && d.restartTask && d.restarting && d.attempts == 0 && d.tries == 1 && d.delays == []
            && d.rooms == WithoutRouters(s.rooms)
  {
    NextKeepsInv(s, Died);
  }

  /** An outage is over within five attempts, or for good. */
  lemma OutageSettles(s: Supervisor, outcomes: seq<Option<Id>>)
    requires Inv(s) && s.worker.Some? && |outcomes| == MAX_RESTART_ATTEMPTS
    ensures Settled(Next(s, Died), Loop(Next(s, Died), outcomes), outcomes)
  {
    DeathBeginsALoop(s);
    LoopSettles(Next(s, Died), outcomes);
  }

  // ----------------------------------------------- the loop is a run of the steps

  /** The steps of a loop whose attempts turn out as given, as far as it gets. */
  function LoopSteps(attempts: nat, outcomes: seq<Option<Id>>): seq<Op>
    decreases |outcomes|
  {
    if attempts >= MAX_RESTART_ATTEMPTS || outcomes == [] then []
    else if outcomes[0].Some? then [AttemptSucceeds(outcomes[0].value)]
    else [AttemptFails] + LoopSteps(attempts + 1, outcomes[1..])
  }

  ghost predicate IsRun(s: Supervisor, ops: seq<Op>, w: Supervisor) {
    AllEnabled(s, ops) && Run(s, ops) == w
  }

  lemma RunFirst(s: Supervisor, op: Op, ops: seq<Op>, w: Supervisor)
    requires Enabled(s, op) && IsRun(Next(s, op), ops, w)
    ensures IsRun(s, [op] + ops, w)
  {
    assert ([op] + ops)[1..] == ops;
  }

  lemma OneStepRun(s: Supervisor, op: Op)
    requires Enabled(s, op)
    ensures IsRun(s, [op], Next(s, op))
  {
    RunFirst(s, op, [], Next(s, op));
    assert [op] + [] == [op];
  }

  lemma {:induction false} LoopIsARun(s: Supervisor, outcomes: seq<Option<Id>>)
    requires s.loops > 0 && s.attempts + |outcomes| == MAX_RESTART_ATTEMPTS
    ensures IsRun(s, LoopSteps(s.attempts, outcomes), Loop(s, outcomes))
    decreases |outcomes|
  {
    if outcomes == [] {
    } else if outcomes[0].Some? {
      OneStepRun(s, AttemptSucceeds(outcomes[0].value));
    } else {
      var n := Next(s, AttemptFails);
      if |outcomes| == 1 {
        OneStepRun(s, AttemptFails);
        assert LoopSteps(s.attempts, outcomes) == [AttemptFails];
      } else {
        LoopIsARun(n, outcomes[1..]);
        RunFirst(s, AttemptFails, LoopSteps(n.attempts, outcomes[1..]), Loop(n, outcomes[1..]));
      }
    }
  }

  /** `startWorkerWithRetry`, run to its end. */
  function Started(s: Supervisor, outcomes: seq<Option<Id>>): Supervisor {
    var b := Begin(s);
    if b.loops == s.loops then b else Loop(b, outcomes)
  }

  /** What is left of a loop whose turn starts at `h`; past the last attempt, the two writes behind it. */
  function Remaining(h: Supervisor, outcomes: seq<Option<Id>>): Supervisor
    requires h.loops > 0
  {
    if h.attempts < MAX_RESTART_ATTEMPTS then Loop(Try(h), outcomes)
    else h.(restarting := false, restartTask := false, loops := h.loops - 1)
  }

  function AfterFailure(h: Supervisor): Supervisor {
    Try(h).(attempts := h.attempts + 1, available := false, worker := None)
  }

  function AfterSuccess(h: Supervisor, worker: Id): Supervisor
    requires h.loops > 0
  {
    Try(h).(worker := Some(worker), available := true, attempts := 0, restarting := false,
            restartTask := false, loops := h.loops - 1)
  }

  lemma Turn(h: Supervisor, outcomes: seq<Option<Id>>)
    requires h.loops > 0 && h.attempts < MAX_RESTART_ATTEMPTS && outcomes != []
    ensures Remaining(h, outcomes)
            == if outcomes[0].Some? then AfterSuccess(h, outcomes[0].value)
               else Remaining(AfterFailure(h), outcomes[1..])
    ensures AfterFailure(h).loops == h.loops
  {
  }

  lemma RemainingAtEnd(h: Supervisor, outcomes: seq<Option<Id>>)
    requires h.loops > 0
    ensures h.attempts >= MAX_RESTART_ATTEMPTS ==>
              Remaining(h, outcomes) == h.(restarting := false, restartTask := false, loops := h.loops - 1)
  {
  }

  lemma StartedRemains(s: Supervisor, outcomes: seq<Option<Id>>)
    requires !s.restartTask && (s.restarting || !s.available || s.worker.None?)
    ensures Started(s, outcomes)
            == if s.attempts < MAX_RESTART_ATTEMPTS
               then Remaining(s.(restartTask := true, loops := s.loops + 1), outcomes)
               else s.(restarting := false, restartTask := true)
  {
  }

  lemma DeathStartsOver(s: Supervisor, outcomes: seq<Option<Id>>)
    requires Inv(s) && s.worker.Some? && |outcomes| == MAX_RESTART_ATTEMPTS
    ensures Started(Dead(s), outcomes) == Loop(Next(s, Died), outcomes)
    ensures Settled(Next(s, Died), Started(Dead(s), outcomes), outcomes)
  {
    OutageSettles(s, outcomes);
  }

  lemma InitialisationStarts(s: Supervisor, outcomes: seq<Option<Id>>)
    requires Inv(s) && !s.initialised && |outcomes| == MAX_RESTART_ATTEMPTS
    ensures Started(s.(initialised := true), outcomes) == Loop(Next(s, Initialise), outcomes)
    ensures Settled(Next(s, Initialise), Started(s.(initialised := true), outcomes), outcomes)
  {
    NextKeepsInv(s, Initialise);
    LoopSettles(Next(s, Initialise), outcomes);
  }
}
