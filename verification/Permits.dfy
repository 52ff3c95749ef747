/** The simulation backend's permits, over every interleaving of events. */
module Permits {

  // Calls arrive, time out, lose their callers, and their tasks finish. A permit
  // is taken before the blocking task is spawned, moves into it, and is dropped
  // when it ends.

  datatype Task = Pending | Executing | Ended

  /** What became of the caller's future; a timeout or a drop detaches it from its blocking call. */
  datatype Caller = Awaiting | TimedOut | Dropped | Returned

  datatype Call = Queued | Abandoned | Spawned(task: Task, caller: Caller)

  datatype Backend = Backend(limit: nat, available: nat, calls: map<nat, Call>)

  datatype Event =
    | Start(id: nat)
    | Acquire(id: nat)       // takes a permit and spawns the task, with no await between
    | Abandon(id: nat)       // the caller goes away while still waiting for a permit
    | Begin(id: nat)
    | Finish(id: nat)        // the blocking call returns, fails or panics
    | Timeout(id: nat)
    | DropCaller(id: nat)
    | Return(id: nat)

  function NewBackend(limit: nat): Backend
    requires limit > 0
  {
    Backend(limit, limit, map[])
  }

  predicate Holds(s: Backend, id: nat) {
    id in s.calls && s.calls[id].Spawned? && s.calls[id].task != Ended
  }

  predicate IsQueued(s: Backend, id: nat) {
    id in s.calls && s.calls[id] == Queued
  }

  predicate Awaits(s: Backend, id: nat) {
    id in s.calls && s.calls[id].Spawned? && s.calls[id].caller == Awaiting
  }

  /** The calls whose permit is out. */
  function Holders(s: Backend): set<nat> {
    set id | id in s.calls && Holds(s, id)
  }

  /** The blocking tasks now running. */
  function Running(s: Backend): set<nat> {
    set id | id in s.calls && Holds(s, id) && s.calls[id].task == Executing
  }

  predicate Enabled(s: Backend, e: Event) {
    match e
    case Start(id) => id !in s.calls
    case Acquire(id) => IsQueued(s, id) && s.available > 0
    case Abandon(id) => IsQueued(s, id)
    case Begin(id) => Holds(s, id) && s.calls[id].task == Pending
    case Finish(id) => Holds(s, id) && s.calls[id].task == Executing
    case Timeout(id) => Awaits(s, id) && s.calls[id].task != Ended
    case DropCaller(id) => Awaits(s, id)
    case Return(id) => Awaits(s, id) && s.calls[id].task == Ended
  }

  function Put(s: Backend, id: nat, c: Call): Backend {
    s.(calls := s.calls[id := c])
  }

  function Apply(s: Backend, e: Event): Backend
    requires Enabled(s, e)
  {
    match e
    case Start(id) => Put(s, id, Queued)
    case Acquire(id) => Put(s, id, Spawned(Pending, Awaiting)).(available := s.available - 1)
    case Abandon(id) => Put(s, id, Abandoned)
    case Begin(id) => Put(s, id, s.calls[id].(task := Executing))
    case Finish(id) => Put(s, id, s.calls[id].(task := Ended)).(available := s.available + 1)
    case Timeout(id) => Put(s, id, s.calls[id].(caller := TimedOut))
    case DropCaller(id) => Put(s, id, s.calls[id].(caller := Dropped))
    case Return(id) => Put(s, id, s.calls[id].(caller := Returned))
  }

  /** An event that is not possible now changes nothing. */
  function Step(s: Backend, e: Event): Backend {
    if Enabled(s, e) then Apply(s, e) else s
  }

  function Run(s: Backend, es: seq<Event>): Backend {
    if es == [] then s else Step(Run(s, es[..|es| - 1]), es[|es| - 1])
  }

  predicate Conserved(s: Backend) {
    s.available + |Holders(s)| == s.limit
  }

  // ---------------------------------------------------------------------
  // Conservation.

  /** Only taking a permit adds a holder, and only the end of its task removes one. */
  lemma HoldersStep(s: Backend, e: Event)
    ensures var t := Step(s, e);
            Holders(t) == if Enabled(s, e) && e.Acquire? then Holders(s) + {e.id}
                          else if Enabled(s, e) && e.Finish? then Holders(s) - {e.id}
                          else Holders(s)
  {
    var t := Step(s, e);
    assert forall id :: id != e.id ==> (Holds(t, id) <==> Holds(s, id));
  }

  lemma StepConserves(s: Backend, e: Event)
    requires Conserved(s)
    ensures Conserved(Step(s, e)) && Step(s, e).limit == s.limit
  {
    HoldersStep(s, e);
    if Enabled(s, e) {
      if e.Acquire? {
        assert e.id !in Holders(s);
      } else if e.Finish? {
        assert e.id in Holders(s);
      }
    }
  }

  lemma {:induction false} RunConserves(limit: nat, es: seq<Event>)
    requires limit > 0
    ensures Conserved(Run(NewBackend(limit), es)) && Run(NewBackend(limit), es).limit == limit
  {
    if es == [] {
      assert Holders(NewBackend(limit)) == {};
    } else {
      RunConserves(limit, es[..|es| - 1]);
      StepConserves(Run(NewBackend(limit), es[..|es| - 1]), es[|es| - 1]);
    }
  }

  /**
   * At every moment of every run, free and held permits add up to the limit,
   * so no more than `limit` blocking tasks run at once.
   */
  lemma BoundedConcurrency(limit: nat, es: seq<Event>)
    requires limit > 0
    ensures var s := Run(NewBackend(limit), es);
            && s.available + |Holders(s)| == limit
            && |Running(s)| <= |Holders(s)| <= limit
  {
    RunConserves(limit, es);
    var s := Run(NewBackend(limit), es);
    assert Holders(s) == Running(s) + (Holders(s) - Running(s));
  }

  // ---------------------------------------------------------------------
  // When a permit comes back.

  lemma {:induction false} RunSplits(s: Backend, a: seq<Event>, b: seq<Event>)
    ensures Run(s, a + b) == Run(Run(s, a), b)
    decreases |b|
  {
    if b == [] {
      assert a + b == a;
    } else {
      assert (a + b)[..|a + b| - 1] == a + b[..|b| - 1];
      RunSplits(s, a, b[..|b| - 1]);
    }
  }

  /** Without its task finishing, nothing returns a permit: no timeout, no dropped caller, no other event. */
  lemma {:induction false} HeldUntilFinished(s: Backend, id: nat, es: seq<Event>)
    requires Holds(s, id) && Finish(id) !in es
    ensures Holds(Run(s, es), id)
  {
    if es != [] {
      var front, e := es[..|es| - 1], es[|es| - 1];
      assert e in es;
      HeldUntilFinished(s, id, front);
      HoldersStep(Run(s, front), e);
      assert id in Holders(Run(s, front));
      assert id in Holders(Run(s, es));
    }
  }

  /** A call that times out goes on holding its permit until its task ends, and returns exactly one then. */
  lemma TimedOutCallHolds(s: Backend, id: nat, later: seq<Event>)
    requires Enabled(s, Timeout(id)) && Finish(id) !in later
    ensures var t := Run(Step(s, Timeout(id)), later);
            && Holds(t, id)
            && (Enabled(t, Finish(id)) ==>
                  Step(t, Finish(id)).available == t.available + 1 && !Holds(Step(t, Finish(id)), id))
  {
    HeldUntilFinished(Step(s, Timeout(id)), id, later);
  }

  /** Once ended, a task never holds a permit again. */
  lemma {:induction false} EndedNeverHolds(s: Backend, id: nat, es: seq<Event>)
    requires id in s.calls && s.calls[id].Spawned? && s.calls[id].task == Ended
    ensures var t := Run(s, es);
            id in t.calls && t.calls[id].Spawned? && t.calls[id].task == Ended
  {
    if es != [] {
      EndedNeverHolds(s, id, es[..|es| - 1]);
    }
  }

  predicate IsFinish(e: Event) { e.Finish? }

  /** With every permit held and no task finishing, no call is ever admitted, whatever times out. */
  lemma {:induction false} HungTasksStarve(s: Backend, es: seq<Event>)
    requires s.available == 0 && forall i :: 0 <= i < |es| ==> !IsFinish(es[i])
    ensures Run(s, es).available == 0 && Holders(Run(s, es)) == Holders(s)
  {
    if es != [] {
      var front, e := es[..|es| - 1], es[|es| - 1];
      assert forall i :: 0 <= i < |front| ==> front[i] == es[i];
      assert !IsFinish(es[|es| - 1]);
      HungTasksStarve(s, front);
      HoldersStep(Run(s, front), e);
    }
  }

  /** No deadlock: if a call waits, it can be admitted now or some task holds a permit it may yet return. */
  lemma QueuedCanProgress(limit: nat, es: seq<Event>, id: nat)
    requires limit > 0 && IsQueued(Run(NewBackend(limit), es), id)
    ensures var s := Run(NewBackend(limit), es);
            || Enabled(s, Acquire(id))
            || exists h :: h in Holders(s) && Holds(s, h)
  {
    RunConserves(limit, es);
    var s := Run(NewBackend(limit), es);
    if s.available == 0 {
      assert |Holders(s)| > 0;
      assert Holders(s) != {};
      var h :| h in Holders(s);
      assert Holds(s, h);
    }
  }

  /** A queued call can be admitted exactly while fewer than `limit` permits are held, and then holds one. */
  lemma AdmittedExactly(limit: nat, es: seq<Event>, id: nat)
    requires limit > 0 && IsQueued(Run(NewBackend(limit), es), id)
    ensures var s := Run(NewBackend(limit), es);
            && (Enabled(s, Acquire(id)) <==> |Holders(s)| < limit)
            && (|Holders(s)| < limit ==> Holders(Step(s, Acquire(id))) == Holders(s) + {id})
            && (|Holders(s)| >= limit ==> Step(s, Acquire(id)) == s)
  {
    RunConserves(limit, es);
    HoldersStep(Run(NewBackend(limit), es), Acquire(id));
  }

  /** Any call not seen before can join the queue, and any queued call can leave it. */
  lemma QueueIsOpen(s: Backend, id: nat)
    ensures id !in s.calls ==> IsQueued(Step(s, Start(id)), id)
    ensures IsQueued(s, id) ==> !IsQueued(Step(s, Abandon(id)), id) && Step(s, Abandon(id)).available == s.available
  {
  }

  /** A held task can be moved on: it can begin or it can finish, not both, and having begun it can finish. */
  lemma HolderCanMove(s: Backend, id: nat)
    requires Holds(s, id)
    ensures Enabled(s, Begin(id)) != Enabled(s, Finish(id))
    ensures Enabled(s, Begin(id)) ==> Enabled(Step(s, Begin(id)), Finish(id))
    ensures Enabled(s, Finish(id)) ==> !Holds(Step(s, Finish(id)), id)
  {
  }

  /** A waiting caller either can time out, while its task holds a permit, or gets its result, once it has ended. */
  lemma CallerOutcome(s: Backend, id: nat)
    requires Awaits(s, id)
    ensures Enabled(s, Timeout(id)) <==> Holds(s, id)
    ensures Enabled(s, Return(id)) <==> !Holds(s, id)
    ensures Holds(s, id) ==> Step(s, Timeout(id)).calls[id] == Spawned(s.calls[id].task, TimedOut)
    ensures !Holds(s, id) ==> Step(s, Return(id)).calls[id] == Spawned(Ended, Returned)
    ensures Step(s, DropCaller(id)).calls[id] == Spawned(s.calls[id].task, Dropped)
    ensures Holders(Step(s, Timeout(id))) == Holders(s) && Holders(Step(s, DropCaller(id))) == Holders(s)
  {
    HoldersStep(s, Timeout(id));
    HoldersStep(s, DropCaller(id));
  }

  /** A caller learns one outcome only: whatever happens later, it stays. */
  lemma {:induction false} OutcomeIsFinal(s: Backend, es: seq<Event>, id: nat)
    requires id in s.calls && s.calls[id].Spawned? && s.calls[id].caller != Awaiting
    ensures id in Run(s, es).calls && Run(s, es).calls[id].Spawned?
    ensures Run(s, es).calls[id].caller == s.calls[id].caller
  {
    if es != [] {
      OutcomeIsFinal(s, es[..|es| - 1], id);
    }
  }

  /** No leak: when no task is left, every permit is free again. */
  lemma AllPermitsReturn(limit: nat, es: seq<Event>)
    requires limit > 0 && Holders(Run(NewBackend(limit), es)) == {}
    ensures Run(NewBackend(limit), es).available == limit
  {
    RunConserves(limit, es);
  }
}
