/**
 The worker supervisor as the service runs it: fields changed in a retry loop.
 Whether an attempt gives a worker is up to the library, so `outcomes` tells;
 the ghost fields count tries and waits.
 */
module MediasoupService {
  import opened Common
  import opened WorkerSupervisor

  class MediasoupService {
    var worker: Option<Id>
    var mediasoupAvailable: bool
    var isRestarting: bool
    var restartAttempts: nat
    var restartTask: bool
    var rooms: map<Id, Option<Id>>
    ghost var initialised: bool
    ghost var loops: nat
    ghost var tries: nat
    ghost var delays: seq<int>

    ghost function State(): Supervisor
      reads this
    {
      Supervisor(worker, mediasoupAvailable, isRestarting, restartAttempts, restartTask, rooms,
                 initialised, loops, tries, delays)
    }

    constructor ()
      ensures Inv(State()) && State() == Idle
    {
      worker, mediasoupAvailable, isRestarting, restartAttempts, restartTask := None, false, false, 0, false;
      rooms, initialised, loops, tries, delays := map[], false, 0, 0, [];
    }

    method OnModuleInit(outcomes: seq<Option<Id>>)
      requires Inv(State()) && !initialised && |outcomes| == MAX_RESTART_ATTEMPTS
      modifies this
      ensures State() == Loop(Next(old(State()), Initialise), outcomes)
      ensures Settled(Next(old(State()), Initialise), State(), outcomes)
    {
      hide Settled, Loop, Next;
      InitialisationStarts(State(), outcomes);
      initialised := true;
      StartWorkerWithRetry(outcomes);
    }

    /** The `died` event of the held worker. */
    method HandleWorkerDied(outcomes: seq<Option<Id>>)
      requires Inv(State()) && worker.Some? && |outcomes| == MAX_RESTART_ATTEMPTS
      modifies this
      ensures State() == Loop(Next(old(State()), Died), outcomes)
      ensures Settled(Next(old(State()), Died), State(), outcomes)
    {
      hide Settled, Loop, Next;
      if isRestarting { return; }
      DeathStartsOver(State(), outcomes);
      isRestarting := true;
      mediasoupAvailable := false;
      restartAttempts := 0;
      worker := None;
      InvalidateAllRouters();
      tries, delays := 0, [];
      StartWorkerWithRetry(outcomes);
    }

    /** One turn of the loop: the wait and the attempt. */
    method MakeAttempt(outcome: Option<Id>) returns (ready: bool)
      requires loops > 0
      modifies this
      ensures ready == outcome.Some?
      ensures State() == if ready then AfterSuccess(old(State()), outcome.value) else AfterFailure(old(State()))
      ensures !ready ==> loops == old(loops) && restartAttempts == old(restartAttempts) + 1
    {
      if restartAttempts > 0 {
        delays := delays + [DelayMs(restartAttempts)];
      }
      tries := tries + 1;
      if outcome.Some? {
        worker := outcome;
        mediasoupAvailable := true;
        restartAttempts := 0;
        isRestarting := false;
        restartTask, loops := false, loops - 1;
        return true;
      }
      restartAttempts := restartAttempts + 1;
      mediasoupAvailable := false;
      worker := None;
      return false;
    }

    method StartWorkerWithRetry(outcomes: seq<Option<Id>>)
      requires |outcomes| + restartAttempts >= MAX_RESTART_ATTEMPTS
      modifies this
      ensures State() == Started(old(State()), outcomes)
    {
      hide Loop, Remaining;
      if !isRestarting && mediasoupAvailable && worker.Some? { return; }
      if restartTask { return; }
      StartedRemains(State(), outcomes);
      var endsAtOnce := restartAttempts >= MAX_RESTART_ATTEMPTS;
      restartTask, loops := true, loops + 1;
      RemainingAtEnd(State(), outcomes);
      RetryLoop(outcomes);
      // A task that never waited has ended before the field is assigned.
      if endsAtOnce { restartTask := true; }
    }

    /** The body of the task. */
    method RetryLoop(outcomes: seq<Option<Id>>)
      requires loops > 0 && |outcomes| + restartAttempts >= MAX_RESTART_ATTEMPTS
      modifies this
      ensures State() == Remaining(old(State()), outcomes)
    {
      hide Remaining, AfterFailure, AfterSuccess;
      var next := 0;
      assert outcomes[0..] == outcomes;
      while restartAttempts < MAX_RESTART_ATTEMPTS
        invariant loops > 0 && next <= |outcomes|
        invariant |outcomes| - next + restartAttempts >= MAX_RESTART_ATTEMPTS
        invariant Remaining(State(), outcomes[next..]) == Remaining(old(State()), outcomes)
        decreases MAX_RESTART_ATTEMPTS - restartAttempts
      {
        Turn(State(), outcomes[next..]);
        assert outcomes[next..][1..] == outcomes[next + 1..];
        var ready := MakeAttempt(outcomes[next]);
        next := next + 1;
        if ready { return; }
      }
      RemainingAtEnd(State(), outcomes[next..]);
      isRestarting := false;
      restartTask, loops := false, loops - 1;
    }

    method InvalidateAllRouters()
      modifies this`rooms
      ensures rooms == WithoutRouters(old(rooms))
      ensures rooms.Keys == old(rooms).Keys && forall r | r in rooms :: rooms[r] == None
    {
      var was := rooms;
      var pending := was.Keys;
      while pending != {}
        invariant pending <= was.Keys && rooms.Keys == was.Keys
        invariant forall r | r in was :: rooms[r] == if r in pending then was[r] else None
      {
        var r :| r in pending;
        pending := pending - {r};
        if rooms[r].Some? { rooms := rooms[r := None]; }
      }
    }

    method EnsureRoomRouter(room: Id, newRouter: Id)
      requires Inv(State())
      modifies this`rooms
      ensures State() == Next(old(State()), EnsureRouter(room, newRouter)) && Inv(State())
      ensures rooms.Keys == old(rooms).Keys
      ensures forall x | x in rooms :: rooms[x] ==
                if x == room && old(rooms)[x].None? && worker.Some? then Some(newRouter) else old(rooms)[x]
    {
      NextKeepsInv(State(), EnsureRouter(room, newRouter));
      if !mediasoupAvailable || worker.None? { return; }
      if room !in rooms || rooms[room].Some? { return; }
      rooms := rooms[room := Some(newRouter)];
    }
  }
}
