/** The detached walk as a state machine: start, poll and cancel in small steps, about
    one per file operation or signal, with everything the processes do in between. */
module WalkMachine {
  import opened Sequences

  type Pid = int

  datatype Lock = Lock(pid: Pid, attempt: string)
  datatype LockFile = Garbled | Held(owner: Lock)

  /** Where a command stands between two of its steps. */
  datatype Stage =
    | Checked(id: string) | Saw(id: string, lock: Lock) | Dead(id: string, lock: Lock)
    | Cleared(id: string) | Made(id: string) | Claimed(id: string) | Spawned(id: string, child: Pid)
    | Polling(lock: Lock) | Cancelling(lock: Lock) | Killed(lock: Lock)

  /** Live holds the processes a signal would reach, workers the walks among them,
      callers the commands in progress, started the attempts that got a worker. */
  datatype State = State(
    lock: Option<LockFile>, attempts: set<string>, receipt: bool, diagnostics: bool,
    live: set<Pid>, workers: map<Pid, string>, callers: map<Pid, Stage>, started: seq<string>)

  datatype Event =
    | StartCheck(caller: Pid, id: string) | ReadLock(caller: Pid) | Probe(caller: Pid) | Unlink(caller: Pid)
    | MakeDir(caller: Pid) | Claim(caller: Pid) | Spawn(caller: Pid, child: Pid) | SpawnFails(caller: Pid)
    | Rewrite(caller: Pid) | RewriteFails(caller: Pid)
    | PollRead(caller: Pid) | PollUnlink(caller: Pid)
    | CancelRead(caller: Pid) | CancelKill(caller: Pid) | CancelUnlink(caller: Pid)
    | WorkerExits(pid: Pid) | Appears(pid: Pid) | Disappears(pid: Pid) | CallerDies(caller: Pid)
    | WriteDiagnostics | WriteReceipt

  predicate SafeId(id: string) {
    id != "" && '.' !in id && '/' !in id && '\\' !in id
  }

  predicate CanCall(s: State, c: Pid) { c in s.live && c !in s.callers && c !in s.workers }

  function At(s: State, c: Pid, stage: Stage): State { s.(callers := s.callers[c := stage]) }
  function Leave(s: State, c: Pid): State { s.(callers := s.callers - {c}) }

  /** A new command gets under way, if the state lets it do more than report. */
  function BeginStep(s: State, e: Event): Option<State> {
    match e
    case StartCheck(c, id) =>
      if CanCall(s, c) && SafeId(id) && !s.receipt && !s.diagnostics then Some(At(s, c, Checked(id))) else None
    case PollRead(c) =>
      if CanCall(s, c) && s.lock.Some? && s.lock.value.Held? && s.lock.value.owner.pid !in s.live
      then Some(At(s, c, Polling(s.lock.value.owner))) else None
    case CancelRead(c) =>
      if CanCall(s, c) && s.lock.Some? && s.lock.value.Held?
      then Some(At(s, c, Cancelling(s.lock.value.owner))) else None
    case _ => None
  }

  /** The next step of a start; a refused start leaves, its attempt directory stays. */
  function StartStep(s: State, e: Event, stage: Stage): Option<State> {
    match (e, stage)
    case (ReadLock(c), Checked(id)) =>
      if s.lock.None? then Some(At(s, c, Cleared(id)))
      else if s.lock.value.Garbled? then Some(Leave(s, c))
      else Some(At(s, c, Saw(id, s.lock.value.owner)))
    case (Probe(c), Saw(id, lock)) =>
      if lock.pid in s.live then Some(Leave(s, c)) else Some(At(s, c, Dead(id, lock)))
    case (Unlink(c), Dead(id, lock)) =>
      if s.lock.None? then Some(Leave(s, c)) else Some(At(s.(lock := None), c, Cleared(id)))
    case (MakeDir(c), Cleared(id)) =>
      if id in s.attempts then Some(Leave(s, c)) else Some(At(s.(attempts := s.attempts + {id}), c, Made(id)))
    case (Claim(c), Made(id)) =>
      if s.lock.Some? then Some(Leave(s, c)) else Some(At(s.(lock := Some(Held(Lock(c, id)))), c, Claimed(id)))
    case (SpawnFails(c), Claimed(_)) => Some(Leave(s.(lock := None), c))
    case (Spawn(c, child), Claimed(id)) =>
      if child in s.live then None
      else Some(At(s.(live := s.live + {child}, workers := s.workers[child := id], started := s.started + [id]),
                   c, Spawned(id, child)))
    case (Rewrite(c), Spawned(id, child)) => Some(Leave(s.(lock := Some(Held(Lock(child, id)))), c))
    // the worker is not stopped when its lock cannot be rewritten
    case (RewriteFails(c), Spawned(_, _)) => Some(Leave(s.(lock := None), c))
    case _ => None
  }

  function FinishStep(s: State, e: Event, stage: Stage): Option<State> {
    match (e, stage)
    case (PollUnlink(c), Polling(_)) => Some(Leave(s.(lock := None), c))
    case (CancelKill(c), Cancelling(lock)) =>
      // a worker leads its own process group, so the signals reach it
      var live := if lock.pid in s.workers then s.live - {lock.pid} else s.live;
      Some(At(s.(live := live, workers := s.workers - {lock.pid}), c, Killed(lock)))
    case (CancelUnlink(c), Killed(_)) => Some(Leave(s.(lock := None), c))
    case _ => None
  }

  predicate Holds(stage: Stage) { stage.Claimed? || stage.Spawned? }

  /** What happens outside the commands. A starter survives from claim to rewrite. */
  function WorldStep(s: State, e: Event): Option<State> {
    match e
    case WorkerExits(p) =>
      if p in s.workers then Some(s.(live := s.live - {p}, workers := s.workers - {p})) else None
    case Appears(p) => if p in s.live then None else Some(s.(live := s.live + {p}))
    case Disappears(p) =>
      if p in s.live && p !in s.workers && p !in s.callers then Some(s.(live := s.live - {p})) else None
    case CallerDies(c) =>
      if c in s.callers && !Holds(s.callers[c]) then Some(Leave(s.(live := s.live - {c}), c)) else None
    case WriteDiagnostics => if s.started == [] then None else Some(s.(diagnostics := true))
    case WriteReceipt => if s.started == [] || s.receipt then None else Some(s.(receipt := true))
    case _ => None
  }

  predicate Begins(e: Event) { e.StartCheck? || e.PollRead? || e.CancelRead? }

  predicate OfWorld(e: Event) {
    e.WorkerExits? || e.Appears? || e.Disappears? || e.CallerDies? || e.WriteDiagnostics? || e.WriteReceipt?
  }

  predicate Finishes(e: Event) { e.PollUnlink? || e.CancelKill? || e.CancelUnlink? }

  /** The state after one event, if it can happen. */
  function Step(s: State, e: Event): Option<State> {
    if OfWorld(e) then WorldStep(s, e)
    else if Begins(e) then BeginStep(s, e)
    else if e.caller !in s.callers then None
    else if Finishes(e) then FinishStep(s, e, s.callers[e.caller])
    else StartStep(s, e, s.callers[e.caller])
  }

  function Run(s: State, trace: seq<Event>): Option<State> {
    if trace == [] then Some(s)
    else
      var before := Run(s, trace[..|trace| - 1]);
      if before.Some? then Step(before.value, trace[|trace| - 1]) else None
  }

  // ----- Attempt ids

  predicate Owns(stage: Stage) { stage.Made? || stage.Claimed? }

  /** Attempts are started at most once, and one in preparation is not started yet. */
  ghost predicate IdsOk(s: State) {
    && Distinct(s.started) && (forall id | id in s.started :: id in s.attempts)
    && (forall c | c in s.callers && Owns(s.callers[c]) ::
          s.callers[c].id in s.attempts && s.callers[c].id !in s.started)
    && (forall c, d | c in s.callers && d in s.callers && c != d && Owns(s.callers[c]) && Owns(s.callers[d]) ::
          s.callers[c].id != s.callers[d].id)
  }

  lemma IdsStep(s: State, e: Event)
    requires IdsOk(s) && Step(s, e).Some?
    ensures IdsOk(Step(s, e).value)
  {
    var n := Step(s, e).value;
    if e.MakeDir? || e.Spawn? {
      IdsStartStep(s, e);
    } else {
      forall c | c in n.callers && Owns(n.callers[c])
        ensures c in s.callers && Owns(s.callers[c]) && n.callers[c].id == s.callers[c].id {
      }
      assert n.started == s.started && n.attempts == s.attempts;
    }
  }

  lemma IdsStartStep(s: State, e: Event)
    requires IdsOk(s) && (e.MakeDir? || e.Spawn?) && Step(s, e).Some?
    ensures IdsOk(Step(s, e).value)
  {
    var n, id := Step(s, e).value, s.callers[e.caller].id;
    if e.Spawn? {
      assert Owns(s.callers[e.caller]) && n.started == s.started + [id];
    } else {
      assert n.started == s.started;
    }
    forall c | c in n.callers && Owns(n.callers[c]) && c != e.caller
      ensures c in s.callers && n.callers[c] == s.callers[c] {
    }
  }

  /** However commands interleave, no attempt id is ever used twice. */
  lemma {:induction false} AttemptsAreNeverReused(s: State, trace: seq<Event>)
    requires IdsOk(s) && Run(s, trace).Some?
    ensures IdsOk(Run(s, trace).value)
  {
    if trace != [] {
      AttemptsAreNeverReused(s, trace[..|trace| - 1]);
      IdsStep(Run(s, trace[..|trace| - 1]).value, trace[|trace| - 1]);
    }
  }

  // ----- Single use

  predicate Starting(stage: Stage) {
    !(stage.Polling? || stage.Cancelling? || stage.Killed?) && !stage.Spawned?
  }

  predicate Spent(s: State) {
    (s.receipt || s.diagnostics) && forall c | c in s.callers :: !Starting(s.callers[c])
  }

  /** Once an output exists and no start is past its first check, no start ever
      succeeds again, whatever happens. */
  lemma {:induction false} OutputsAreSingleUse(s: State, trace: seq<Event>)
    requires Spent(s) && Run(s, trace).Some?
    ensures Spent(Run(s, trace).value) && Run(s, trace).value.started == s.started
  {
    if trace != [] {
      OutputsAreSingleUse(s, trace[..|trace| - 1]);
      SpentStep(Run(s, trace[..|trace| - 1]).value, trace[|trace| - 1]);
    }
  }

  lemma SpentStep(s: State, e: Event)
    requires Spent(s) && Step(s, e).Some?
    ensures Spent(Step(s, e).value) && Step(s, e).value.started == s.started
  {
  }

  // ----- At most one worker

  predicate LockIs(s: State, lock: Lock) { s.lock == Some(Held(lock)) }

  /** A live worker is named by the lock, or its starter is and will hand it over. */
  ghost predicate Accounted(s: State, p: Pid)
    requires p in s.workers
  {
    || LockIs(s, Lock(p, s.workers[p]))
    || (exists c | c in s.callers :: s.callers[c] == Spawned(s.workers[p], p) && LockIs(s, Lock(c, s.workers[p])))
  }

  ghost predicate LockOk(s: State) {
    && s.workers.Keys <= s.live && s.callers.Keys <= s.live && s.workers.Keys !! s.callers.Keys
    && (forall c | c in s.callers && Holds(s.callers[c]) :: LockIs(s, Lock(c, s.callers[c].id)))
    && (forall p | p in s.workers :: Accounted(s, p))
  }

  /** At most one worker is live, and the lock names it unless its starter still does. */
  lemma OneWorker(s: State, p: Pid, q: Pid)
    requires LockOk(s) && p in s.workers && q in s.workers
    ensures p == q
    ensures (forall c | c in s.callers :: !Holds(s.callers[c])) ==> LockIs(s, Lock(p, s.workers[p]))
  {
    assert Accounted(s, p) && Accounted(s, q);
  }

  /** Nothing stands behind the lock: neither a live worker nor a starter. */
  predicate Unused(s: State) {
    s.lock.Some? && s.lock.value.Held? ==>
      var p := s.lock.value.owner.pid;
      p !in s.workers && (p in s.callers ==> !Holds(s.callers[p]))
  }

  /** An unlink removes a lock nothing stands behind, and a lock is given up only
      after its worker is gone. */
  predicate Clean(s: State, e: Event) {
    match e
    case Unlink(_) => Unused(s)
    case PollUnlink(_) => Unused(s)
    case CancelUnlink(_) => Unused(s)
    case RewriteFails(c) => c in s.callers && s.callers[c].Spawned? ==> s.callers[c].child !in s.workers
    case _ => true
  }

  /** A test that every step of a run passes. */
  predicate Along(test: (State, Event) -> bool, s: State, trace: seq<Event>) {
    trace == [] ||
    (var front := trace[..|trace| - 1];
     Along(test, s, front) && (Run(s, front).Some? ==> test(Run(s, front).value, trace[|trace| - 1])))
  }

  function CleanTest(): (State, Event) -> bool { (s: State, e: Event) => Clean(s, e) }

  predicate CleanRun(s: State, trace: seq<Event>) { Along(CleanTest(), s, trace) }

  /** The condition is exact: a step keeps the invariant if and only if it is clean. */
  lemma LockStepIff(s: State, e: Event)
    requires LockOk(s) && Step(s, e).Some?
    ensures LockOk(Step(s, e).value) <==> Clean(s, e)
  {
    if Clean(s, e) {
      LockStep(s, e);
    } else if e.RewriteFails? {
      OrphanIsUnaccounted(s, e);
    } else {
      UnlinkLosesOwner(s, e);
    }
  }

  lemma OrphanIsUnaccounted(s: State, e: Event)
    requires LockOk(s) && e.RewriteFails? && Step(s, e).Some? && !Clean(s, e)
    ensures !LockOk(Step(s, e).value)
  {
    var child := s.callers[e.caller].child;
    assert child in Step(s, e).value.workers && Step(s, e).value.lock.None?;
    assert LockOk(Step(s, e).value) ==> Accounted(Step(s, e).value, child);
  }

  lemma UnlinkLosesOwner(s: State, e: Event)
    requires LockOk(s) && (e.Unlink? || e.PollUnlink? || e.CancelUnlink?) && Step(s, e).Some? && !Unused(s)
    ensures !LockOk(Step(s, e).value)
  {
    var n, p := Step(s, e).value, s.lock.value.owner.pid;
    assert n.lock.None? && n.workers == s.workers;
    if p in s.workers {
      assert LockOk(n) ==> Accounted(n, p);
    } else {
      assert p in n.callers && Holds(n.callers[p]);
    }
  }

  lemma LockStep(s: State, e: Event)
    requires LockOk(s) && Clean(s, e) && Step(s, e).Some?
    ensures LockOk(Step(s, e).value)
  {
    if OfWorld(e) {
      LockWorldStep(s, e);
    } else if Begins(e) {
      LockBeginStep(s, e);
    } else if Finishes(e) {
      LockFinishStep(s, e);
    } else {
      LockStartStep(s, e);
    }
  }

  lemma KeepsAccounts(s: State, n: State)
    requires forall p | p in s.workers :: Accounted(s, p)
    requires n.lock == s.lock && (forall p | p in n.workers :: p in s.workers && n.workers[p] == s.workers[p])
    requires forall c | c in s.callers && Holds(s.callers[c]) :: c in n.callers && n.callers[c] == s.callers[c]
    ensures forall p | p in n.workers :: Accounted(n, p)
  {
    forall p | p in n.workers ensures Accounted(n, p) {
      assert Accounted(s, p);
    }
  }

  lemma LockWorldStep(s: State, e: Event)
    requires LockOk(s) && OfWorld(e) && Step(s, e).Some?
    ensures LockOk(Step(s, e).value)
  {
    KeepsAccounts(s, Step(s, e).value);
  }

  lemma LockBeginStep(s: State, e: Event)
    requires LockOk(s) && Begins(e) && Step(s, e).Some?
    ensures LockOk(Step(s, e).value)
  {
    KeepsAccounts(s, Step(s, e).value);
  }

  lemma UnusedMeansQuiet(s: State)
    requires LockOk(s) && Unused(s)
    ensures s.workers == map[] && forall c | c in s.callers :: !Holds(s.callers[c])
  {
    forall p ensures p !in s.workers {
      assert p in s.workers ==> Accounted(s, p);
    }
  }

  lemma LockFinishStep(s: State, e: Event)
    requires LockOk(s) && Finishes(e) && Clean(s, e) && Step(s, e).Some?
    ensures LockOk(Step(s, e).value)
  {
    if e.CancelKill? {
      KeepsAccounts(s, Step(s, e).value);
    } else {
      UnusedMeansQuiet(s);
    }
  }

  /** A step of the command that holds the lock: only its own worker can be live. */
  lemma HolderStep(s: State, e: Event)
    requires LockOk(s) && !OfWorld(e) && !Begins(e) && !Finishes(e) && Clean(s, e) && Step(s, e).Some?
    requires Holds(s.callers[e.caller])
    ensures LockOk(Step(s, e).value)
  {
    var n, c := Step(s, e).value, e.caller;
    forall p | p in s.workers ensures s.callers[c] == Spawned(s.workers[p], p) {
      assert Accounted(s, p);
    }
    forall p | p in n.workers ensures Accounted(n, p) {
      if e.Spawn? { assert n.callers[c] == Spawned(n.workers[p], p); }
    }
  }

  /** A start that only looks. */
  lemma LookingStep(s: State, e: Event)
    requires LockOk(s) && (e.ReadLock? || e.Probe?) && Step(s, e).Some?
    ensures LockOk(Step(s, e).value)
  {
    KeepsAccounts(s, Step(s, e).value);
  }

  lemma MakeDirStep(s: State, e: Event)
    requires LockOk(s) && e.MakeDir? && Step(s, e).Some?
    ensures LockOk(Step(s, e).value)
  {
    KeepsAccounts(s, Step(s, e).value);
  }

  /** A claim finds the lock free or leaves it alone. */
  lemma ClaimStep(s: State, e: Event)
    requires LockOk(s) && e.Claim? && Step(s, e).Some?
    ensures LockOk(Step(s, e).value)
  {
    if s.lock.Some? {
      KeepsAccounts(s, Step(s, e).value);
    } else {
      UnusedMeansQuiet(s);
    }
  }

  lemma LockStartStep(s: State, e: Event)
    requires LockOk(s) && !OfWorld(e) && !Begins(e) && !Finishes(e) && Clean(s, e) && Step(s, e).Some?
    ensures LockOk(Step(s, e).value)
  {
    if e.Unlink? {
      UnusedMeansQuiet(s);
    } else if e.Claim? {
      ClaimStep(s, e);
    } else if Holds(s.callers[e.caller]) {
      HolderStep(s, e);
    } else if e.MakeDir? {
      MakeDirStep(s, e);
    } else {
      LookingStep(s, e);
    }
  }

  /** The invariant holds all the way. */
  ghost predicate Safe(s: State, trace: seq<Event>) {
    && (Run(s, trace).Some? ==> LockOk(Run(s, trace).value))
    && (trace != [] ==> Safe(s, trace[..|trace| - 1]))
  }

  /** Over every run, with any number of commands at once: at all times there is at
      most one live worker and the lock accounts for it, if and only if every step
      is clean. */
  lemma {:induction false} SafeIffClean(s: State, trace: seq<Event>)
    requires LockOk(s) && Run(s, trace).Some?
    ensures Safe(s, trace) <==> CleanRun(s, trace)
  {
    if trace != [] {
      var front := trace[..|trace| - 1];
      SafeIffClean(s, front);
      if Safe(s, front) {
        assert LockOk(Run(s, front).value);
        LockStepIff(Run(s, front).value, trace[|trace| - 1]);
      }
    }
  }

  // ----- One command at a time

  /** A command begins only when none is in progress. */
  predicate SerialStep(s: State, e: Event) { Begins(e) ==> s.callers == map[] }

  function SerialTest(): (State, Event) -> bool { (s: State, e: Event) => SerialStep(s, e) }

  predicate SerialRun(s: State, trace: seq<Event>) { Along(SerialTest(), s, trace) }

  /** A lock that could not be rewritten was that of a worker already gone. */
  predicate HandedOver(s: State, e: Event) { e.RewriteFails? ==> Clean(s, e) }

  function HandoverTest(): (State, Event) -> bool { (s: State, e: Event) => HandedOver(s, e) }

  predicate HandoverRun(s: State, trace: seq<Event>) { Along(HandoverTest(), s, trace) }

  /** What the only command knows about the lock it has read. */
  predicate Knows(s: State, stage: Stage) {
    && (stage.Saw? || stage.Cancelling? ==> LockIs(s, stage.lock))
    && (stage.Dead? || stage.Polling? || stage.Killed? ==> LockIs(s, stage.lock) && stage.lock.pid !in s.workers)
  }

  /** There is one command at most, and it knows what it has to. */
  ghost predicate AloneAndKnowing(s: State) {
    && (forall c, d | c in s.callers && d in s.callers :: c == d)
    && (forall c | c in s.callers :: Knows(s, s.callers[c]))
  }

  ghost predicate SerialOk(s: State) { LockOk(s) && AloneAndKnowing(s) }

  /** The only command in progress never unlinks a lock in use. */
  lemma SerialUnlinks(s: State, e: Event)
    requires SerialOk(s) && Step(s, e).Some?
    ensures Clean(s, e) <==> HandedOver(s, e)
  {
    if e.Unlink? || e.PollUnlink? || e.CancelUnlink? {
      assert Knows(s, s.callers[e.caller]);
    }
  }

  lemma WorldIsNoCommand(s: State, e: Event)
    requires SerialOk(s) && OfWorld(e) && Step(s, e).Some?
    ensures AloneAndKnowing(Step(s, e).value)
  {
  }

  lemma NewCommandIsAlone(s: State, e: Event)
    requires SerialOk(s) && Begins(e) && s.callers == map[] && Step(s, e).Some?
    ensures AloneAndKnowing(Step(s, e).value)
  {
  }

  lemma CommandStaysAlone(s: State, e: Event)
    requires SerialOk(s) && !OfWorld(e) && !Begins(e) && Step(s, e).Some?
    ensures AloneAndKnowing(Step(s, e).value)
  {
    assert Knows(s, s.callers[e.caller]);
  }

  lemma SerialStepOk(s: State, e: Event)
    requires SerialOk(s) && SerialStep(s, e) && HandedOver(s, e) && Step(s, e).Some?
    ensures SerialOk(Step(s, e).value)
  {
    SerialUnlinks(s, e);
    LockStep(s, e);
    if OfWorld(e) {
      WorldIsNoCommand(s, e);
    } else if Begins(e) {
      NewCommandIsAlone(s, e);
    } else {
      CommandStaysAlone(s, e);
    }
  }

  /** One command at a time: such a run is clean, and so safe, if and only if no lock
      of a live worker was given up; and between commands the lock then names the worker. */
  lemma {:induction false} SerialRunsAreSafe(s: State, trace: seq<Event>)
    requires SerialOk(s) && SerialRun(s, trace) && Run(s, trace).Some?
    ensures CleanRun(s, trace) <==> HandoverRun(s, trace)
    ensures HandoverRun(s, trace) ==> SerialOk(Run(s, trace).value)
  {
    if trace != [] {
      var front, last := trace[..|trace| - 1], trace[|trace| - 1];
      SerialRunsAreSafe(s, front);
      if HandoverRun(s, front) {
        SerialUnlinks(Run(s, front).value, last);
        if HandedOver(Run(s, front).value, last) { SerialStepOk(Run(s, front).value, last); }
      }
    }
  }

  // ----- Both conditions are needed

  lemma RunOne(s: State, trace: seq<Event>, e: Event)
    requires Run(s, trace).Some?
    ensures Run(s, trace + [e]) == Step(Run(s, trace).value, e)
    ensures SerialRun(s, trace + [e]) <==> SerialRun(s, trace) && SerialStep(Run(s, trace).value, e)
    ensures HandoverRun(s, trace + [e]) <==> HandoverRun(s, trace) && HandedOver(Run(s, trace).value, e)
  {
    assert (trace + [e])[..|trace|] == trace;
  }

  lemma StartClaims(s: State, trace: seq<Event>, c: Pid, id: string) returns (longer: seq<Event>)
    requires Run(s, trace).Some?
    requires var n := Run(s, trace).value;
             c in n.callers && n.callers[c] == Cleared(id) && n.lock.None? && id !in n.attempts
    ensures longer == trace + [MakeDir(c)] + [Claim(c)]
    ensures SerialRun(s, trace) ==> SerialRun(s, longer)
    ensures var n := Run(s, trace).value;
            Run(s, longer) == Some(n.(
              lock := Some(Held(Lock(c, id))), attempts := n.attempts + {id},
              callers := n.callers[c := Made(id)][c := Claimed(id)]))
  {
    RunOne(s, trace, MakeDir(c));
    RunOne(s, trace + [MakeDir(c)], Claim(c));
    longer := trace + [MakeDir(c)] + [Claim(c)];
  }

  /** The rest of a start that found the lock cleared, up to the launch of its worker. */
  lemma StartContinues(s: State, trace: seq<Event>, c: Pid, id: string, child: Pid) returns (longer: seq<Event>)
    requires Run(s, trace).Some?
    requires var n := Run(s, trace).value;
             && c in n.callers && n.callers[c] == Cleared(id)
             && n.lock.None? && id !in n.attempts && child !in n.live
    ensures longer == trace + [MakeDir(c)] + [Claim(c)] + [Spawn(c, child)]
    ensures SerialRun(s, trace) ==> SerialRun(s, longer)
    ensures var n := Run(s, trace).value;
            Run(s, longer) == Some(n.(
              lock := Some(Held(Lock(c, id))), attempts := n.attempts + {id}, live := n.live + {child},
              workers := n.workers[child := id], callers := n.callers[c := Spawned(id, child)],
              started := n.started + [id]))
  {
    var n := Run(s, trace).value;
    var claimed := StartClaims(s, trace, c, id);
    RunOne(s, claimed, Spawn(c, child));
    longer := claimed + [Spawn(c, child)];
    assert n.callers[c := Made(id)][c := Claimed(id)][c := Spawned(id, child)] == n.callers[c := Spawned(id, child)];
  }

  /** The first steps of a start, up to the check that the owner of the lock is dead. */
  lemma StartFindsDead(s: State, trace: seq<Event>, c: Pid, id: string) returns (longer: seq<Event>)
    requires Run(s, trace).Some? && SafeId(id)
    requires var n := Run(s, trace).value;
             && CanCall(n, c) && !n.receipt && !n.diagnostics
             && n.lock.Some? && n.lock.value.Held? && n.lock.value.owner.pid !in n.live
    ensures longer == trace + [StartCheck(c, id)] + [ReadLock(c)] + [Probe(c)]
    ensures var n := Run(s, trace).value;
            Run(s, longer) == Some(At(n, c, Dead(id, n.lock.value.owner)))
  {
    var n := Run(s, trace).value;
    RunOne(s, trace, StartCheck(c, id));
    RunOne(s, trace + [StartCheck(c, id)], ReadLock(c));
    RunOne(s, trace + [StartCheck(c, id)] + [ReadLock(c)], Probe(c));
    longer := trace + [StartCheck(c, id)] + [ReadLock(c)] + [Probe(c)];
    var dead := Dead(id, n.lock.value.owner);
    assert n.callers[c := Checked(id)][c := Saw(id, n.lock.value.owner)][c := dead] == n.callers[c := dead];
  }

  /** The first steps of a start that finds no lock. */
  lemma StartFindsNone(s: State, trace: seq<Event>, c: Pid, id: string) returns (longer: seq<Event>)
    requires Run(s, trace).Some? && SerialRun(s, trace) && SafeId(id)
    requires var n := Run(s, trace).value;
             CanCall(n, c) && !n.receipt && !n.diagnostics && n.lock.None? && n.callers == map[]
    ensures SerialRun(s, longer) && Run(s, longer) == Some(At(Run(s, trace).value, c, Cleared(id)))
  {
    RunOne(s, trace, StartCheck(c, id));
    longer := trace + [StartCheck(c, id)] + [ReadLock(c)];
    RunOne(s, trace + [StartCheck(c, id)], ReadLock(c));
    var n := Run(s, trace).value;
    assert n.callers[c := Checked(id)][c := Cleared(id)] == n.callers[c := Cleared(id)];
  }

  /** A state in which start may run, by c for a new attempt. */
  predicate MayStart(s: State, c: Pid, id: string, child: Pid) {
    && CanCall(s, c) && SafeId(id) && !s.receipt && !s.diagnostics
    && id !in s.attempts && child !in s.live
  }

  lemma StartUnlinks(s: State, trace: seq<Event>, c: Pid) returns (longer: seq<Event>)
    requires Run(s, trace).Some?
    requires var n := Run(s, trace).value; c in n.callers && n.callers[c].Dead? && n.lock.Some?
    ensures var n := Run(s, trace).value;
            Run(s, longer) == Some(At(n.(lock := None), c, Cleared(n.callers[c].id)))
  {
    RunOne(s, trace, Unlink(c));
    longer := trace + [Unlink(c)];
  }

  lemma StartEnds(s: State, trace: seq<Event>, e: Event) returns (longer: seq<Event>)
    requires Run(s, trace).Some? && (e.Rewrite? || e.RewriteFails?)
    requires var n := Run(s, trace).value; e.caller in n.callers && n.callers[e.caller].Spawned?
    ensures SerialRun(s, trace) ==> SerialRun(s, longer)
    ensures var n := Run(s, trace).value;
            var stage := n.callers[e.caller];
            var lock := if e.Rewrite? then Some(Held(Lock(stage.child, stage.id))) else None;
            Run(s, longer) == Some(Leave(n.(lock := lock), e.caller))
  {
    RunOne(s, trace, e);
    longer := trace + [e];
  }

  /** A whole start after its owner check: unlink, claim, launch and hand over. */
  lemma StartCompletes(s: State, trace: seq<Event>, c: Pid, id: string, child: Pid) returns (longer: seq<Event>)
    requires Run(s, trace).Some?
    requires var n := Run(s, trace).value;
             && c in n.callers && n.callers[c].Dead? && n.callers[c].id == id
             && n.lock.Some? && id !in n.attempts && child !in n.live
    ensures Run(s, longer).Some?
    ensures var n, m := Run(s, trace).value, Run(s, longer).value;
            && m.lock == Some(Held(Lock(child, id))) && m.attempts == n.attempts + {id} && m.live == n.live + {child}
            && m.workers == n.workers[child := id] && m.callers == n.callers - {c}
  {
    longer := StartUnlinks(s, trace, c);
    longer := StartContinues(s, longer, c, id, child);
    longer := StartEnds(s, longer, Rewrite(c));
  }

  /** Wherever a dead worker left its lock behind, two concurrent starts of new attempts
      may both succeed: the second unlinks the lock of the first. */
  lemma ConcurrentStartsRace(s: State, c: Pid, d: Pid, first: string, second: string, p: Pid, q: Pid)
    requires MayStart(s, c, first, p) && MayStart(s, d, second, q) && c != d && first != second && p != q
    requires s.lock.Some? && s.lock.value.Held? && s.lock.value.owner.pid !in s.live
    ensures exists trace :: Run(s, trace).Some? && {p, q} <= Run(s, trace).value.workers.Keys
  {
    var trace := StartFindsDead(s, [], c, first);
    trace := StartFindsDead(s, trace, d, second);
    trace := StartCompletes(s, trace, c, first, p);
    trace := StartCompletes(s, trace, d, second, q);
  }

  /** A lock that cannot be rewritten is removed while its worker lives on, and the
      next start, even one command at a time, launches a second worker. */
  lemma FailedRewriteOrphansWorker(s: State, c: Pid, d: Pid, first: string, second: string, p: Pid, q: Pid)
    requires MayStart(s, c, first, p) && MayStart(s, d, second, q) && c != d && first != second && p != q
    requires s.lock.None? && s.callers == map[]
    ensures exists trace :: SerialRun(s, trace) && Run(s, trace).Some? && {p, q} <= Run(s, trace).value.workers.Keys
  {
    var trace := StartFindsNone(s, [], c, first);
    trace := StartContinues(s, trace, c, first, p);
    trace := StartEnds(s, trace, RewriteFails(c));
    OrphanState(s, Run(s, trace).value, c, first, p);
    trace := StartFindsNone(s, trace, d, second);
    trace := StartContinues(s, trace, d, second, q);
  }

  lemma OrphanState(s: State, n: State, c: Pid, id: string, p: Pid)
    requires s.callers == map[] && n.callers == s.callers[c := Cleared(id)][c := Spawned(id, p)] - {c}
    ensures n.callers == map[]
  {
  }
}
