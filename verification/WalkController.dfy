/** The controller's commands, run one at a time over the files and processes of the
    machine, while the rest of the world moves between any two of their steps. */
module WalkController {
  import opened Sequences
  import opened WalkMachine

  datatype Outcome = Started | Refused(reason: Reason) | HandoverFailed
  datatype Reason = UnsafeId | OutputExists | LockUnreadable | AlreadyRunning | LockVanished | AttemptExists | LockTaken | LaunchFailed

  datatype Status = Idle | Running(lock: Lock) | Terminal(finished: Option<string>) | Cancelled(attempt: string) | Unreadable

  /** What a start comes to in a state, if nothing else moves. */
  function StartOutcome(s: State, id: string, child: Option<Pid>, rewritten: bool): Outcome {
    if !SafeId(id) then Refused(UnsafeId)
    else if s.receipt || s.diagnostics then Refused(OutputExists)
    else CheckedOutcome(s, id, child, rewritten)
  }

  /** The same once the id is safe and no output was found. */
  function CheckedOutcome(s: State, id: string, child: Option<Pid>, rewritten: bool): Outcome {
    if s.lock == Some(Garbled) then Refused(LockUnreadable)
    else if s.lock.Some? && s.lock.value.owner.pid in s.live then Refused(AlreadyRunning)
    else if id in s.attempts then Refused(AttemptExists)
    else if child.None? || child.value in s.live then Refused(LaunchFailed)
    else if rewritten then Started
    else HandoverFailed
  }

  /** What a start with this outcome leaves, if nothing else moves. */
  function Leaves(r: Outcome, s: State, id: string, child: Pid): State {
    match r
    case Refused(AttemptExists) => s.(lock := None)
    case Refused(LaunchFailed) => s.(lock := None, attempts := s.attempts + {id})
    case Refused(_) => s
    case _ =>
      s.(lock := if r.Started? then Some(Held(Lock(child, id))) else None, attempts := s.attempts + {id},
         live := s.live + {child}, workers := s.workers[child := id], started := s.started + [id])
  }

  /** The attempts with a directory once a start came to this. */
  function AttemptsAfter(r: Outcome, attempts: set<string>, id: string): set<string> {
    if r in {Started, HandoverFailed, Refused(LaunchFailed)} then attempts + {id} else attempts
  }

  function PidOf(child: Option<Pid>): Pid { if child.Some? then child.value else 0 }

  ghost predicate AllOk(states: seq<State>) { forall s | s in states :: SerialOk(s) }

  class Site {
    var lock: Option<LockFile>
    var attempts: set<string>
    var receipt: bool
    var diagnostics: bool
    var live: set<Pid>
    var workers: map<Pid, string>
    var callers: map<Pid, Stage>
    var started: seq<string>
    var tick: nat
    // what the world does at each tick
    const world: nat -> seq<Event>
    // every event since the beginning
    ghost var trace: seq<Event>
    ghost const origin: State

    constructor (s: State, world: nat -> seq<Event>)
      requires s.callers == map[]
      ensures Valid() && Now() == s == origin && trace == [] && this.world == world
    {
      lock, attempts, receipt, diagnostics := s.lock, s.attempts, s.receipt, s.diagnostics;
      live, workers, callers, started := s.live, s.workers, s.callers, s.started;
      this.world, tick := world, 0;
      trace, origin := [], s;
    }

    function Now(): State
      reads this
    {
      State(lock, attempts, receipt, diagnostics, live, workers, callers, started)
    }

    /** What the fields hold is where the events lead, one command at a time. */
    ghost predicate Valid()
      reads this
    {
      Run(origin, trace) == Some(Now()) && SerialRun(origin, trace)
    }

    /** It began well and no lock of a live worker was ever given up. */
    ghost predicate Sound()
      reads this
    {
      AllOk([origin]) && HandoverRun(origin, trace)
    }

    /** Nothing happens but the commands themselves. */
    ghost predicate Calm() { forall n: nat :: world(n) == [] }

    /** No command is in progress. */
    predicate Quiet()
      reads this
    {
      callers == map[]
    }

    /** Perform one step. */
    method Do(e: Event)
      requires Valid() && Step(Now(), e).Some? && SerialStep(Now(), e)
      modifies this
      ensures Valid() && Now() == Step(old(Now()), e).value && trace == old(trace) + [e]
      ensures old(Sound()) && HandedOver(old(Now()), e) ==> Sound()
      ensures tick == old(tick)
    {
      RunOne(origin, trace, e);
      var n := Step(Now(), e).value;
      lock, attempts, receipt, diagnostics := n.lock, n.attempts, n.receipt, n.diagnostics;
      live, workers, callers, started := n.live, n.workers, n.callers, n.started;
      trace := trace + [e];
    }

    /** The world does what this tick holds and can happen; it spares the command in
        progress. */
    method Elapse()
      requires Valid()
      modifies this
      ensures Valid() && callers == old(callers) && started == old(started)
      ensures lock == old(lock) && attempts == old(attempts)
      ensures old(receipt) ==> receipt
      ensures old(diagnostics) ==> diagnostics
      ensures old(Sound()) ==> Sound()
      ensures Calm() ==> Now() == old(Now())
    {
      var events := world(tick);
      tick := tick + 1;
      for i := 0 to |events|
        invariant Valid() && callers == old(callers) && started == old(started)
        invariant lock == old(lock) && attempts == old(attempts)
        invariant old(receipt) ==> receipt
        invariant old(diagnostics) ==> diagnostics
        invariant old(Sound()) ==> Sound()
        invariant Calm() ==> Now() == old(Now())
      {
        Happen(events[i]);
      }
    }

    method Happen(e: Event)
      requires Valid()
      modifies this
      ensures Valid() && callers == old(callers) && started == old(started)
      ensures lock == old(lock) && attempts == old(attempts)
      ensures old(receipt) ==> receipt
      ensures old(diagnostics) ==> diagnostics
      ensures old(Sound()) ==> Sound()
    {
      if OfWorld(e) && !e.CallerDies? && Step(Now(), e).Some? { Do(e); }
    }

    lemma SoundIsSafe()
      requires Valid() && Sound()
      ensures SerialOk(Now())
    {
      assert origin in [origin];
      SerialRunsAreSafe(origin, trace);
    }

    // ----- Single steps of the only command in progress

    method StepRead(c: Pid, id: string)
      requires Valid() && callers == map[c := Checked(id)]
      modifies this
      ensures Valid() && (old(Sound()) ==> Sound())
      ensures Now() == old(Now()).(callers := callers)
      ensures callers == if lock.None? then map[c := Cleared(id)]
                         else if lock.value.Garbled? then map[]
                         else map[c := Saw(id, lock.value.owner)]
    {
      Do(ReadLock(c));
    }

    method StepProbe(c: Pid, id: string, owner: Lock)
      requires Valid() && callers == map[c := Saw(id, owner)]
      modifies this
      ensures Valid() && (old(Sound()) ==> Sound())
      ensures Now() == old(Now()).(callers := callers)
      ensures callers == if owner.pid in live then map[] else map[c := Dead(id, owner)]
    {
      Do(Probe(c));
    }

    method StepUnlink(c: Pid, id: string, owner: Lock)
      requires Valid() && callers == map[c := Dead(id, owner)]
      modifies this
      ensures Valid() && (old(Sound()) ==> Sound())
      ensures Now() == old(Now()).(lock := None, callers := callers)
      ensures callers == if old(lock).None? then map[] else map[c := Cleared(id)]
    {
      Do(Unlink(c));
    }

    method StepMakeDir(c: Pid, id: string)
      requires Valid() && callers == map[c := Cleared(id)]
      modifies this
      ensures Valid() && (old(Sound()) ==> Sound())
      ensures Now() == old(Now()).(attempts := old(attempts) + {id}, callers := callers)
      ensures callers == if id in old(attempts) then map[] else map[c := Made(id)]
    {
      assert id in attempts ==> attempts == attempts + {id};
      Do(MakeDir(c));
    }

    method StepClaim(c: Pid, id: string)
      requires Valid() && callers == map[c := Made(id)]
      modifies this
      ensures Valid() && (old(Sound()) ==> Sound())
      ensures Now() == old(Now()).(lock := lock, callers := callers)
      ensures lock == if old(lock).Some? then old(lock) else Some(Held(Lock(c, id)))
      ensures callers == if old(lock).Some? then map[] else map[c := Claimed(id)]
    {
      Do(Claim(c));
    }

    method StepSpawn(c: Pid, id: string, child: Pid)
      requires Valid() && callers == map[c := Claimed(id)] && child !in live
      modifies this
      ensures Valid() && (old(Sound()) ==> Sound())
      ensures Now() == old(Now()).(
                live := old(live) + {child}, workers := old(workers)[child := id], started := old(started) + [id],
                callers := callers)
      ensures callers == map[c := Spawned(id, child)]
    {
      Do(Spawn(c, child));
    }

    /** The last step of a command leaves a lock or none, and nothing in progress. */
    method StepLast(c: Pid, e: Event)
      requires Valid() && c in callers && callers.Keys == {c}
      requires match e
               case SpawnFails(d) => d == c && callers[c].Claimed?
               case Rewrite(d) => d == c && callers[c].Spawned?
               case RewriteFails(d) => d == c && callers[c].Spawned?
               case PollUnlink(d) => d == c && callers[c].Polling?
               case CancelUnlink(d) => d == c && callers[c].Killed?
               case _ => false
      modifies this
      ensures Valid()
      ensures old(Sound()) && (e.RewriteFails? ==> old(callers)[c].child !in old(workers)) ==> Sound()
      ensures Now() == old(Now()).(lock := lock, callers := map[])
      ensures lock == if e.Rewrite? then Some(Held(Lock(old(callers)[c].child, old(callers)[c].id))) else None
    {
      ghost var before := callers;
      Do(e);
      assert before - {c} == map[];
    }

    method StepKill(c: Pid, owner: Lock)
      requires Valid() && callers == map[c := Cancelling(owner)]
      modifies this
      ensures Valid() && (old(Sound()) ==> Sound())
      ensures Now() == old(Now()).(live := live, workers := old(workers) - {owner.pid}, callers := callers)
      ensures live == if owner.pid in old(workers) then old(live) - {owner.pid} else old(live)
      ensures callers == map[c := Killed(owner)]
    {
      Do(CancelKill(c));
    }

    method StepBegin(c: Pid, e: Event)
      requires Valid() && Quiet() && CanCall(Now(), c) && Begins(e) && e.caller == c && BeginStep(Now(), e).Some?
      modifies this
      ensures Valid() && (old(Sound()) ==> Sound())
      ensures Now() == old(Now()).(callers := callers)
      ensures callers == map[c := if e.StartCheck? then Checked(e.id)
                                  else if e.PollRead? then Polling(lock.value.owner) else Cancelling(lock.value.owner)]
    {
      Do(e);
    }

    // ----- Commands

    /** Clear a dead lock. */
    method ClearDeadLock(c: Pid, id: string) returns (r: Option<Reason>)
      requires Valid() && callers == map[c := Checked(id)]
      modifies this
      ensures Valid() && started == old(started) && attempts == old(attempts)
      ensures old(Sound()) ==> Sound()
      ensures callers == if r.None? then map[c := Cleared(id)] else map[]
      ensures r == Some(LockUnreadable) <==> old(lock) == Some(Garbled)
      ensures r.None? ==> lock.None?
      ensures r.Some? ==> lock == old(lock)
      ensures r.Some? ==> r.value == LockUnreadable || (r.value == AlreadyRunning && old(lock).Some?)
      ensures Calm() ==> Now() == old(Now()).(lock := lock, callers := callers)
      ensures Calm() && r != Some(LockUnreadable) ==>
                (r.Some? <==> old(lock).Some? && old(lock).value.owner.pid in old(live))
    {
      var seen := lock;
      StepRead(c, id);
      if seen.None? { return None; }
      if seen.value.Garbled? { return Some(LockUnreadable); }
      Elapse();
      var owner := seen.value.owner;
      StepProbe(c, id, owner);
      if owner.pid in live { return Some(AlreadyRunning); }
      Elapse();
      var there := lock.Some?;
      StepUnlink(c, id, owner);
      return if there then None else Some(LockVanished);
    }

    /** Make the attempt directory and claim the lock. */
    method ClaimAttempt(c: Pid, id: string) returns (r: Option<Reason>)
      requires Valid() && callers == map[c := Cleared(id)] && lock.None?
      modifies this
      ensures Valid() && started == old(started) && attempts == old(attempts) + {id}
      ensures r.None? || (r == Some(AttemptExists) && lock.None?)
      ensures Calm() ==> Now() == old(Now()).(lock := lock, attempts := attempts, callers := callers)
      ensures old(Sound()) ==> Sound()
      ensures callers == if r.None? then map[c := Claimed(id)] else map[]
      ensures r == Some(AttemptExists) <==> id in old(attempts)
    {
      var taken := id in attempts;
      StepMakeDir(c, id);
      if taken { return Some(AttemptExists); }
      Elapse();
      var held := lock.Some?;
      StepClaim(c, id);
      return if held then Some(LockTaken) else None;
    }

    /** Launch the worker and hand the lock over to it. */
    method LaunchWorker(c: Pid, id: string, child: Option<Pid>, rewritten: bool) returns (r: Outcome)
      requires Valid() && callers == map[c := Claimed(id)]
      modifies this
      ensures Valid() && Quiet() && attempts == old(attempts)
      ensures !r.Refused? ==> started == old(started) + [id] && child.Some?
      ensures r.Refused? ==> started == old(started) && lock.None?
      ensures r.Started? ==> LockIs(Now(), Lock(child.value, id))
      ensures r.HandoverFailed? ==> !rewritten && lock.None?
      ensures r == if child.None? || child.value in old(live) then Refused(LaunchFailed)
                   else if rewritten then Started else HandoverFailed
      ensures old(Sound()) && (r.HandoverFailed? ==> child.value !in workers) ==> Sound()
      ensures Calm() ==> Now() == if r.Refused? then old(Now()).(lock := None, callers := map[]) else old(Now()).(
                lock := if rewritten then Some(Held(Lock(child.value, id))) else None, live := old(live) + {child.value},
                workers := old(workers)[child.value := id], started := old(started) + [id], callers := map[])
    {
      if child.None? || child.value in live {
        StepLast(c, SpawnFails(c));
        return Refused(LaunchFailed);
      }
      StepSpawn(c, id, child.value);
      Elapse();
      StepLast(c, if rewritten then Rewrite(c) else RewriteFails(c));
      return if rewritten then Started else HandoverFailed;
    }

    /** What is left of a start once no lock is in the way. */
    method ClaimAndLaunch(c: Pid, id: string, child: Option<Pid>, rewritten: bool) returns (r: Outcome)
      requires Valid() && callers == map[c := Cleared(id)] && lock.None?
      modifies this
      ensures Valid() && Quiet()
      ensures r.Refused? ==> started == old(started) && r.reason in {AttemptExists, LaunchFailed}
      ensures !r.Refused? ==> started == old(started) + [id] && child.Some?
      ensures r.HandoverFailed? ==> !rewritten
      ensures r == Refused(AttemptExists) <==> id in old(attempts)
      ensures attempts == AttemptsAfter(r, old(attempts), id)
      ensures !r.Started? ==> lock.None?
      ensures Calm() ==> r == CheckedOutcome(old(Now()), id, child, rewritten)
      ensures Calm() ==> Now() == Leaves(r, old(Now()), id, PidOf(child)).(callers := map[])
      ensures r.Started? ==> LockIs(Now(), Lock(child.value, id))
      ensures old(Sound()) && (r.HandoverFailed? ==> child.value !in workers) ==> Sound()
    {
      Elapse();
      var unclaimed := ClaimAttempt(c, id);
      if unclaimed.Some? { return Refused(unclaimed.value); }
      Elapse();
      r := LaunchWorker(c, id, child, rewritten);
    }

    /** What is left of a start once the id is safe and no output was found. */
    method Proceed(c: Pid, id: string, child: Option<Pid>, rewritten: bool) returns (r: Outcome)
      requires Valid() && callers == map[c := Checked(id)]
      modifies this
      ensures Valid() && Quiet()
      ensures r.Refused? ==> started == old(started)
      ensures !r.Refused? ==> started == old(started) + [id] && id !in old(attempts) && child.Some?
      ensures r.HandoverFailed? ==> !rewritten
      ensures r == Refused(LockUnreadable) <==> old(lock) == Some(Garbled)
      ensures r == Refused(AlreadyRunning) ==> old(lock).Some? && old(lock).value.Held?
      ensures r == Refused(AttemptExists) ==> id in old(attempts)
      ensures r == Refused(LaunchFailed) ==> id !in old(attempts)
      ensures r.Refused? ==> r.reason in {LockUnreadable, AlreadyRunning, AttemptExists, LaunchFailed}
      ensures attempts == AttemptsAfter(r, old(attempts), id)
      ensures r in {Refused(LockUnreadable), Refused(AlreadyRunning)} ==> lock == old(lock)
      ensures r in {HandoverFailed, Refused(AttemptExists), Refused(LaunchFailed)} ==> lock.None?
      ensures Calm() ==> r == CheckedOutcome(old(Now()), id, child, rewritten)
      ensures Calm() ==> Now() == Leaves(r, old(Now()), id, PidOf(child)).(callers := map[])
      ensures r.Started? ==> LockIs(Now(), Lock(child.value, id))
      ensures old(Sound()) && (r.HandoverFailed? ==> child.value !in workers) ==> Sound()
    {
      Elapse();
      var uncleared := ClearDeadLock(c, id);
      if uncleared.Some? { return Refused(uncleared.value); }
      r := ClaimAndLaunch(c, id, child, rewritten);
    }

    /** Start a walk. A start that succeeds uses a new attempt, leaves its own worker
        the only one, and cannot happen once an output exists. */
    method Start(c: Pid, id: string, child: Option<Pid>, rewritten: bool) returns (r: Outcome)
      requires Valid() && Quiet() && CanCall(Now(), c)
      modifies this
      ensures Valid() && Quiet()
      ensures r.Refused? ==> started == old(started)
      ensures !r.Refused? ==> started == old(started) + [id] && id !in old(attempts) && child.Some? && SafeId(id)
      ensures old(receipt) || old(diagnostics) || !SafeId(id) || id in old(attempts) ==> r.Refused?
      ensures r.HandoverFailed? ==> !rewritten
      // what a refusal means; a start that is alone never loses the lock to another
      ensures r == Refused(UnsafeId) <==> !SafeId(id)
      ensures r == Refused(OutputExists) <==> SafeId(id) && (old(receipt) || old(diagnostics))
      ensures r == Refused(LockUnreadable) <==>
              SafeId(id) && !old(receipt) && !old(diagnostics) && old(lock) == Some(Garbled)
      ensures r == Refused(AlreadyRunning) ==> old(lock).Some? && old(lock).value.Held?
      ensures r == Refused(AttemptExists) ==> id in old(attempts)
      ensures r == Refused(LaunchFailed) ==> id !in old(attempts)
      ensures r != Refused(LockVanished) && r != Refused(LockTaken)
      // what is left behind
      ensures attempts == AttemptsAfter(r, old(attempts), id)
      ensures r in {Refused(UnsafeId), Refused(OutputExists)} ==> Now() == old(Now())
      ensures r in {Refused(LockUnreadable), Refused(AlreadyRunning)} ==> lock == old(lock)
      ensures r in {HandoverFailed, Refused(AttemptExists), Refused(LaunchFailed)} ==> lock.None?
      // and when nothing else moves, the outcome is settled beforehand
      ensures Calm() ==> r == StartOutcome(old(Now()), id, child, rewritten)
      ensures Calm() ==> Now() == Leaves(r, old(Now()), id, PidOf(child))
      ensures r.Started? ==> LockIs(Now(), Lock(child.value, id))
      ensures old(Sound()) && (r.HandoverFailed? ==> child.value !in workers) ==> Sound()
      ensures old(Sound()) && r.Started? ==> workers.Keys <= {child.value}
    {
      if !SafeId(id) { return Refused(UnsafeId); }
      if receipt || diagnostics { return Refused(OutputExists); }
      StepBegin(c, StartCheck(c, id));
      r := Proceed(c, id, child, rewritten);
      if r.Started? { OnlyWorker(child.value, id); }
    }

    lemma OnlyWorker(p: Pid, id: string)
      requires Valid() && Quiet() && LockIs(Now(), Lock(p, id))
      ensures Sound() ==> workers.Keys <= {p}
    {
      if Sound() {
        SoundIsSafe();
        forall q | q in workers ensures q == p { assert Accounted(Now(), q); }
      }
    }

    lemma NoWorker()
      requires Valid() && Quiet() && lock.None?
      ensures Sound() ==> workers == map[]
    {
      if Sound() {
        SoundIsSafe();
        forall q ensures q !in workers {
          assert q in workers ==> Accounted(Now(), q);
        }
      }
    }

    /** Report on the walk; the lock of a dead worker is removed. */
    method Poll(c: Pid) returns (r: Status, withReceipt: bool)
      requires Valid() && Quiet() && CanCall(Now(), c)
      modifies this
      ensures Valid() && Quiet() && started == old(started) && attempts == old(attempts)
      ensures old(Sound()) ==> Sound()
      // what is reported
      ensures r.Unreadable? <==> old(lock) == Some(Garbled)
      ensures r.Running? <==> old(lock).Some? && old(lock).value.Held? && old(lock).value.owner.pid in old(live)
      ensures r.Running? ==> r.lock == old(lock).value.owner
      ensures old(lock).None? ==> r == if old(receipt) then Terminal(None) else Idle
      ensures old(lock).Some? && !r.Unreadable? && !r.Running? ==> r == Terminal(Some(old(lock).value.owner.attempt))
      ensures withReceipt == receipt
      // what is left
      ensures old(lock).None? || r.Running? || r.Unreadable? ==> Now() == old(Now())
      ensures r.Idle? || r.Terminal? ==> lock.None? && (Sound() ==> workers == map[])
      ensures Calm() ==> Now() == if r.Running? || r.Unreadable? then old(Now()) else old(Now()).(lock := None)
    {
      if lock.None? {
        NoWorker();
        return if receipt then Terminal(None) else Idle, receipt;
      }
      if lock.value.Garbled? { return Unreadable, receipt; }
      var owner := lock.value.owner;
      if owner.pid in live { return Running(owner), receipt; }
      StepBegin(c, PollRead(c));
      Elapse();
      StepLast(c, PollUnlink(c));
      NoWorker();
      return Terminal(Some(owner.attempt)), receipt;
    }

    /** Stop the walk: signal, wait a bounded while, then kill. Afterwards there is
        no lock and no worker. */
    method Cancel(c: Pid, patience: nat) returns (r: Status)
      requires Valid() && Quiet() && CanCall(Now(), c)
      modifies this
      ensures Valid() && Quiet() && started == old(started) && attempts == old(attempts)
      ensures old(Sound()) ==> Sound()
      ensures r == if old(lock).None? then Idle
                   else if old(lock).value.Garbled? then Unreadable
                   else Cancelled(old(lock).value.owner.attempt)
      ensures !r.Unreadable? ==> lock.None? && (Sound() ==> workers == map[])
      ensures r.Unreadable? || r.Idle? ==> Now() == old(Now())
      ensures Calm() && r.Cancelled? ==> var p := old(lock).value.owner.pid;
                Now() == old(Now()).(
                  lock := None, workers := old(workers) - {p},
                  live := if p in old(workers) then old(live) - {p} else old(live))
    {
      if lock.None? {
        NoWorker();
        return Idle;
      }
      if lock.value.Garbled? { return Unreadable; }
      var owner := lock.value.owner;
      StepBegin(c, CancelRead(c));
      Elapse();
      var waited := 0;
      while owner.pid in live && waited < patience
        invariant Valid() && callers == map[c := Cancelling(owner)]
        invariant started == old(started) && attempts == old(attempts)
        invariant old(Sound()) ==> Sound()
        invariant Calm() ==> Now() == old(Now()).(callers := callers)
        decreases patience - waited
      {
        Elapse();
        waited := waited + 1;
      }
      StepKill(c, owner);
      Elapse();
      StepLast(c, CancelUnlink(c));
      NoWorker();
      return Cancelled(owner.attempt);
    }
  }
}
