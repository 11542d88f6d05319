/** The host-wide, re-entrant lock of altavista/docker_test_lock.py, as a transition system.

    Any number of processes, any number of threads in each.  One action is one program point of
    one thread (or the death of one process), so a run is any interleaving, with a kill or an
    interrupt at any of them, inside the `finally` too.  `flock` belongs to an open file description: `files` is the
    kernel's table of descriptions of the lock file, `owner` the one that holds the lock. */
module DockerTestLock {
  import opened Base
  import HolderRecord

  datatype Thread = Thread(pid: nat, tid: nat)

  /** The sidecar: `says` is what describing its text comes to.  `pid` and `fd` are history variables: the
      process that wrote it, and the open description it had locked. */
  datatype Record = Record(pid: nat, says: HolderRecord.Description, fd: nat)

  /** The pid read back is the writer's. */
  predicate Honest(r: Record) {
    r.says == HolderRecord.Names(r.pid)
  }

  /** The clause the WAITING line ends with. */
  datatype Report = Unknown | Holder(pid: nat) | Stale(pid: nat)

  /** Where a thread is.  `Running` is the caller's own code, inside or outside `with` blocks; every
      other point lies inside the outermost call of `lock_docker_tests`. */
  datatype Point =
    | Running
    | Opened                              // os.open returned
    | Contended                           // LOCK_EX | LOCK_NB was refused
    | Described(seen: Option<Record>)     // the sidecar was read
    | Blocked(report: Report)             // waiting in LOCK_EX
    | Acquired                            // flock granted
    | Recorded                            // sidecar written
    | Unwinding                           // finally entered
    | Reset                               // depth set to 0
    | Unlinked                            // sidecar removed
    | Unlocked                            // LOCK_UN done

  /** One open `with` block: the outermost one keeps the descriptor in a local variable. */
  datatype Frame = Outer(fd: nat) | Nested

  /** `depth` is the thread-local counter, `stack` the open `with` blocks (innermost last), `fd` the
      local variable of the outermost call while it is not suspended at its `yield`. */
  datatype Local = Local(at: Point, depth: int, stack: seq<Frame>, fd: nat)

  datatype State = State(
    threads: map<Thread, Local>,
    dead: set<nat>,                       // pids that were killed; pids are not reused
    files: map<nat, Thread>,              // open descriptions of the lock file, and who opened them
    next: nat,                            // descriptions not used yet
    owner: Option<nat>,                   // the description holding the flock
    sidecar: Option<Record>,
    lost: set<nat>,                       // history: descriptions whose holder was killed
    left: set<nat>)                       // history: descriptions whose call was interrupted outside its `try`

  datatype Op =
    | Call
    | TryLock
    | ReadRecord
    | CheckAlive(alive: bool)             // os.kill's answer
    | BlockingLock
    | WriteRecord(says: HolderRecord.Description)
    | SetDepth
    | Exit                                // the innermost block is left, normally or by an exception
    | Interrupt                           // an exception at any point of the outermost `try`
    | Leave                               // an exception just before that `try`, or inside its `finally`
    | SlipIn                              // an exception after a nested `depth += 1`, before its `try`
    | SlipOut                             // an exception in a nested `finally`, before `depth -= 1`
    | ResetDepth
    | Unlink
    | Unlock
    | Close

  datatype Action =
    | Spawn(who: Thread)
    | Kill(pid: nat)
    | Step(t: Thread, op: Op)

  const BOOT := State(map[], {}, map[], 0, None, None, {}, {})

  predicate Free(s: State, fd: nat) {
    s.owner == None || s.owner == Some(fd)
  }

  predicate Interruptible(at: Point) {
    at.Opened? || at.Contended? || at.Described? || at.Blocked? || at.Acquired? || at.Recorded?
  }

  predicate OutsideTry(at: Point) {
    at.Opened? || at.Unwinding? || at.Reset? || at.Unlinked? || at.Unlocked?
  }

  /** A killed process is not alive, one with a thread is; os.kill may say either of a pid of no such process. */
  predicate MayAnswer(s: State, seen: Option<Record>, alive: bool) {
    seen.Some? && seen.value.says.Names? ==>
      && (seen.value.says.pid in s.dead ==> !alive)
      && ((exists t :: t in s.threads && t.pid == seen.value.says.pid) ==> alive)
  }

  predicate CanStep(s: State, l: Local, op: Op) {
    match op
    case Call => l.at.Running?
    case TryLock => l.at.Opened?
    case ReadRecord => l.at.Contended?
    case CheckAlive(alive) => l.at.Described? && MayAnswer(s, l.at.seen, alive)
    case BlockingLock => l.at.Blocked? && Free(s, l.fd)
    case WriteRecord(_) => l.at.Acquired?
    case SetDepth => l.at.Recorded?
    case Exit => l.at.Running? && l.stack != []
    case Interrupt => Interruptible(l.at)
    case Leave => OutsideTry(l.at)
    case SlipIn => l.at.Running? && l.depth > 0
    case SlipOut => l.at.Running? && l.stack != [] && l.stack[|l.stack| - 1].Nested?
    case ResetDepth => l.at.Unwinding?
    case Unlink => l.at.Reset?
    case Unlock => l.at.Unlinked?
    case Close => l.at.Unlocked?
  }

  predicate Enabled(s: State, a: Action) {
    match a
    case Spawn(t) => t !in s.threads && t.pid !in s.dead
    case Kill(_) => true
    case Step(t, op) => t in s.threads && CanStep(s, s.threads[t], op)
  }

  /** What `_describe_holder` returns; None is an exception. */
  function Describe(seen: Option<Record>, alive: bool): Option<Report> {
    match seen
    case None => Some(Unknown)
    case Some(r) =>
      match r.says
      case Unknown => Some(Unknown)
      case Names(pid) => Some(if alive then Holder(pid) else Stale(pid))
      case Raises => None
  }

  function Put(s: State, t: Thread, l: Local): State {
    s.(threads := s.threads[t := l])
  }

  /** LOCK_UN, or closing the description: nothing happens unless it holds the lock. */
  function Release(s: State, fd: nat): State {
    if s.owner == Some(fd) then s.(owner := None) else s
  }

  /** The branch on `_state.depth > 0`: nest, or open a description of one's own. */
  function ApplyCall(s: State, t: Thread): State
    requires t in s.threads
  {
    var l := s.threads[t];
    if l.depth > 0 then
      Put(s, t, l.(depth := l.depth + 1, stack := l.stack + [Nested]))
    else
      Put(s, t, l.(at := Opened, fd := s.next)).(files := s.files[s.next := t], next := s.next + 1)
  }

  /** The innermost block's `finally`: a nested one only counts down. */
  function ApplyExit(s: State, t: Thread): State
    requires t in s.threads && s.threads[t].stack != []
  {
    var l := s.threads[t];
    var n := |l.stack| - 1;
    match l.stack[n]
    case Nested => Put(s, t, l.(depth := l.depth - 1, stack := l.stack[..n]))
    case Outer(fd) => Put(s, t, l.(at := Unwinding, stack := l.stack[..n], fd := fd))
  }

  /** The kernel closes a dead process's descriptors, which releases the lock one of them held. */
  function ApplyKill(s: State, pid: nat): State {
    var held := s.owner.Some? && s.owner.value in s.files && s.files[s.owner.value].pid == pid;
    State(
      map t | t in s.threads && t.pid != pid :: s.threads[t],
      s.dead + {pid},
      map f | f in s.files && s.files[f].pid != pid :: s.files[f],
      s.next,
      if held then None else s.owner,
      s.sidecar,
      if held then s.lost + {s.owner.value} else s.lost,
      s.left)
  }

  function ApplyStep(s: State, t: Thread, op: Op): State
    requires t in s.threads && CanStep(s, s.threads[t], op)
  {
    var l := s.threads[t];
    match op
    case Call => ApplyCall(s, t)
    case TryLock =>
      if Free(s, l.fd) then Put(s, t, l.(at := Acquired)).(owner := Some(l.fd)) else Put(s, t, l.(at := Contended))
    case ReadRecord => Put(s, t, l.(at := Described(s.sidecar)))
    case CheckAlive(alive) =>
      var report := Describe(l.at.seen, alive);
      Put(s, t, l.(at := if report.Some? then Blocked(report.value) else Unwinding))
    case BlockingLock => Put(s, t, l.(at := Acquired)).(owner := Some(l.fd))
    case WriteRecord(says) => Put(s, t, l.(at := Recorded)).(sidecar := Some(Record(t.pid, says, l.fd)))
    case SetDepth => Put(s, t, l.(at := Running, depth := 1, stack := l.stack + [Outer(l.fd)]))
    case Exit => ApplyExit(s, t)
    case Interrupt => Put(s, t, l.(at := Unwinding))
    case Leave => Put(s, t, l.(at := Running)).(left := s.left + {l.fd})
    case SlipIn => Put(s, t, l.(depth := l.depth + 1))
    case SlipOut => Put(s, t, l.(stack := l.stack[..|l.stack| - 1]))
    case ResetDepth => Put(s, t, l.(at := Reset, depth := 0))
    case Unlink => Put(s, t, l.(at := Unlinked)).(sidecar := None)
    case Unlock => Release(Put(s, t, l.(at := Unlocked)), l.fd)
    case Close => Release(Put(s, t, l.(at := Running)).(files := s.files - {l.fd}), l.fd)
  }

  function Apply(s: State, a: Action): State
    requires Enabled(s, a)
  {
    match a
    case Spawn(t) => Put(s, t, Local(Running, 0, [], 0))
    case Kill(pid) => ApplyKill(s, pid)
    case Step(t, op) => ApplyStep(s, t, op)
  }

  /** An exception can strike at every point of the outermost call: at each point of its `try` it enters the `finally`,
      and just before the `try` and at each point of the `finally` it ends the call with the description left open. */
  lemma ExceptionAnywhere(s: State, t: Thread)
    requires t in s.threads
    ensures var at := s.threads[t].at;
      && (CanStep(s, s.threads[t], Interrupt) <==>
            !at.Running? && !at.Unwinding? && !at.Reset? && !at.Unlinked? && !at.Unlocked?)
      && (CanStep(s, s.threads[t], Leave) <==> at.Opened? || at.Unwinding? || at.Reset? || at.Unlinked? || at.Unlocked?)
  {
  }

  // ---------------------------------------------------------------- runs

  predicate Feasible(s: State, run: seq<Action>)
    decreases |run|
  {
    run == [] || (Enabled(s, run[0]) && Feasible(Apply(s, run[0]), run[1..]))
  }

  function After(s: State, run: seq<Action>): State
    requires Feasible(s, run)
    decreases |run|
  {
    if run == [] then s else After(Apply(s, run[0]), run[1..])
  }

  /** A state some run from an empty machine reaches. */
  ghost predicate Reachable(s: State) {
    exists run :: Feasible(BOOT, run) && After(BOOT, run) == s
  }

  // ---------------------------------------------------------------- the invariant

  /** The description a thread is using, if it is inside an outermost call or block. */
  function Using(l: Local): Option<nat> {
    if !l.at.Running? then Some(l.fd)
    else if l.stack != [] && l.stack[0].Outer? then Some(l.stack[0].fd)
    else None
  }

  /** Inside the locked body. */
  predicate InBody(l: Local) {
    l.at.Running? && l.stack != []
  }

  /** Past the grant and not yet unwinding, or counted as holding. */
  predicate MustHold(l: Local) {
    l.depth > 0 || InBody(l) || l.at.Acquired? || l.at.Recorded?
  }

  predicate MayHold(l: Local) {
    MustHold(l) || l.at.Unwinding? || l.at.Reset? || l.at.Unlinked?
  }

  /** The counter counts at least the open blocks; only the first one can be an outermost one. */
  predicate Counted(l: Local) {
    && l.depth >= |l.stack|
    && (forall i :: 1 <= i < |l.stack| ==> l.stack[i].Nested?)
    && (!l.at.Running? ==> l.stack == [])
    && (!l.at.Running? && !l.at.Unwinding? ==> l.depth == 0)
  }

  /** The thread owns the flock: through the description it is using, or one it has left open. */
  ghost predicate Has(s: State, t: Thread, l: Local) {
    && s.owner.Some? && s.owner.value in s.files && s.files[s.owner.value] == t
    && (s.owner == Using(l) || (Using(l) == None && s.owner.value in s.left))
  }

  ghost predicate UsesItsOwn(s: State, t: Thread, fd: Option<nat>) {
    fd.Some? ==> fd.value in s.files && s.files[fd.value] == t && fd.value !in s.left
  }

  ghost predicate ThreadOk(s: State, t: Thread, l: Local) {
    t.pid !in s.dead && Counted(l) && UsesItsOwn(s, t, Using(l)) && (MustHold(l) ==> Has(s, t, l))
  }

  ghost predicate ThreadsOk(s: State) {
    forall t :: t in s.threads ==> ThreadOk(s, t, s.threads[t])
  }

  ghost predicate FilesOk(s: State) {
    forall f :: f in s.files ==>
      f < s.next && s.files[f] in s.threads && (Using(s.threads[s.files[f]]) == Some(f) || f in s.left)
  }

  ghost predicate OwnerOk(s: State) {
    && (s.owner.Some? ==>
          && s.owner.value in s.files && s.files[s.owner.value] in s.threads
          && (s.owner.value in s.left || MayHold(s.threads[s.files[s.owner.value]])))
    && forall f :: f in s.left ==> f < s.next
  }

  /** The record on disk is the holder's, or a holder's that was killed. */
  ghost predicate SidecarOk(s: State) {
    s.sidecar.Some? ==>
      var r := s.sidecar.value;
      || (s.owner == Some(r.fd) && r.fd in s.files && s.files[r.fd].pid == r.pid)
      || (r.fd in s.lost && r.pid in s.dead)
  }

  /** A thread past its own unlink has left no record. */
  ghost predicate UnlinkedOk(s: State) {
    forall t :: t in s.threads && s.threads[t].at.Unlinked? && s.owner == Some(s.threads[t].fd) ==>
      s.sidecar == None || s.sidecar.value.fd != s.threads[t].fd
  }

  ghost predicate Inv(s: State) {
    ThreadsOk(s) && FilesOk(s) && OwnerOk(s) && SidecarOk(s) && UnlinkedOk(s)
  }

  lemma KillKeepsInv(s: State, pid: nat)
    requires Inv(s)
    ensures Inv(ApplyKill(s, pid))
  {
  }

  /** A thread that moves on with its own description keeps the invariant, whatever it does to the
      sidecar, if what it may claim about the lock stays true. */
  lemma MoveKeepsInv(s: State, t: Thread, l: Local, owner: Option<nat>, sidecar: Option<Record>)
    requires Inv(s) && t in s.threads
    requires Counted(l) && Using(l) == Using(s.threads[t]) && Using(l).Some?
    requires owner == s.owner || (s.owner == None && owner == Using(l)) || (s.owner == Using(l) && owner == None)
    requires MustHold(l) ==> owner == Using(l)
    requires owner == Using(l) ==> MayHold(l)
    requires sidecar == None || sidecar == s.sidecar
      || (sidecar.value.pid == t.pid && Some(sidecar.value.fd) == Using(l) == owner)
    requires s.owner == Using(l) && owner == None ==> s.threads[t].at.Unlinked?
    requires l.at.Unlinked? ==> sidecar == None
    ensures Inv(Put(s, t, l).(owner := owner, sidecar := sidecar))
  {
    var s' := Put(s, t, l).(owner := owner, sidecar := sidecar);
    var f := Using(l).value;
    assert forall u :: u in s.threads && u != t && Using(s.threads[u]).Some? ==> Using(s.threads[u]).value != f;
    forall u | u in s'.threads ensures ThreadOk(s', u, s'.threads[u]) {
      assert ThreadOk(s, u, s.threads[u]);
    }
    assert FilesOk(s');
    assert OwnerOk(s');
    assert SidecarOk(s');
    assert UnlinkedOk(s');
  }

  /** So does a thread that only counts in the caller's code. */
  lemma CountKeepsInv(s: State, t: Thread, l: Local)
    requires Inv(s) && t in s.threads && s.threads[t].at.Running? && l.at.Running?
    requires Counted(l) && Using(l) == Using(s.threads[t]) && (MustHold(l) ==> MustHold(s.threads[t]))
    requires Using(l).Some? ==> MayHold(l)
    ensures Inv(Put(s, t, l))
  {
    var s' := Put(s, t, l);
    assert ThreadsOk(s');
    assert FilesOk(s');
    assert OwnerOk(s');
    assert SidecarOk(s');
    assert UnlinkedOk(s');
  }

  /** So does one whose call is broken off outside its `try`: its description stays open for good. */
  lemma LeaveKeepsInv(s: State, t: Thread)
    requires Inv(s) && t in s.threads && CanStep(s, s.threads[t], Leave)
    ensures Inv(ApplyStep(s, t, Leave))
  {
    var s' := ApplyStep(s, t, Leave);
    var f := s.threads[t].fd;
    assert Using(s.threads[t]) == Some(f) && Using(s'.threads[t]) == None;
    assert forall u :: u in s.threads && u != t && Using(s.threads[u]).Some? ==> Using(s.threads[u]).value != f;
    assert ThreadsOk(s');
    assert FilesOk(s');
    assert OwnerOk(s');
    assert SidecarOk(s');
    assert UnlinkedOk(s');
  }

  lemma CallKeepsInv(s: State, t: Thread)
    requires Inv(s) && t in s.threads && CanStep(s, s.threads[t], Call)
    ensures Inv(ApplyStep(s, t, Call))
  {
    if s.threads[t].depth > 0 {
      CountKeepsInv(s, t, ApplyStep(s, t, Call).threads[t]);
    } else {
      OpenKeepsInv(s, t);
    }
  }

  lemma OpenKeepsInv(s: State, t: Thread)
    requires Inv(s) && t in s.threads && CanStep(s, s.threads[t], Call) && s.threads[t].depth <= 0
    ensures Inv(ApplyCall(s, t))
  {
    var s' := ApplyCall(s, t);
    assert s.next !in s.files && s.next !in s.left;
    forall u | u in s'.threads ensures ThreadOk(s', u, s'.threads[u]) {
      assert ThreadOk(s, u, s.threads[u]);
    }
    assert FilesOk(s') by { hide OwnerOk, SidecarOk, UnlinkedOk; }
    assert OwnerOk(s');
  }

  lemma ExitKeepsInv(s: State, t: Thread)
    requires Inv(s) && t in s.threads && CanStep(s, s.threads[t], Exit)
    ensures Inv(ApplyStep(s, t, Exit))
  {
    var l := s.threads[t];
    if l.stack[|l.stack| - 1].Nested? {
      CountKeepsInv(s, t, ApplyStep(s, t, Exit).threads[t]);
    } else {
      MoveKeepsInv(s, t, ApplyStep(s, t, Exit).threads[t], s.owner, s.sidecar);
    }
  }

  lemma CloseKeepsInv(s: State, t: Thread)
    requires Inv(s) && t in s.threads && CanStep(s, s.threads[t], Close)
    ensures Inv(ApplyStep(s, t, Close))
  {
    var s' := ApplyStep(s, t, Close);
    var f := s.threads[t].fd;
    assert s.owner != Some(f) && s'.owner == s.owner;
    assert forall u :: u in s.threads && u != t && Using(s.threads[u]).Some? ==> Using(s.threads[u]).value != f;
    forall u | u in s'.threads ensures ThreadOk(s', u, s'.threads[u]) {
      assert ThreadOk(s, u, s.threads[u]);
    }
    assert FilesOk(s');
  }

  lemma StepKeepsInv(s: State, t: Thread, op: Op)
    requires Inv(s) && t in s.threads && CanStep(s, s.threads[t], op)
    ensures Inv(ApplyStep(s, t, op))
  {
    hide FilesOk, SidecarOk, UnlinkedOk;
    match op
    case Call => CallKeepsInv(s, t);
    case Exit => ExitKeepsInv(s, t);
    case Close => CloseKeepsInv(s, t);
    case Leave => LeaveKeepsInv(s, t);
    case SlipIn => CountKeepsInv(s, t, ApplyStep(s, t, op).threads[t]);
    case SlipOut => CountKeepsInv(s, t, ApplyStep(s, t, op).threads[t]);
    case _ =>
      var s' := ApplyStep(s, t, op);
      MoveKeepsInv(s, t, s'.threads[t], s'.owner, s'.sidecar);
      assert s' == Put(s, t, s'.threads[t]).(owner := s'.owner, sidecar := s'.sidecar);
  }

  /** Every action of every thread keeps the invariant. */
  lemma ActionKeepsInv(s: State, a: Action)
    requires Inv(s) && Enabled(s, a)
    ensures Inv(Apply(s, a))
  {
    match a
    case Spawn(t) =>
      assert forall f :: f in s.files ==> s.files[f] != t;
    case Kill(pid) => KillKeepsInv(s, pid);
    case Step(t, op) => StepKeepsInv(s, t, op);
  }

  lemma {:induction false} RunKeepsInv(s: State, run: seq<Action>)
    requires Inv(s) && Feasible(s, run)
    ensures Inv(After(s, run))
    decreases |run|
  {
    if run != [] {
      ActionKeepsInv(s, run[0]);
      RunKeepsInv(Apply(s, run[0]), run[1..]);
    }
  }

  lemma ReachableInv(s: State)
    requires Reachable(s)
    ensures Inv(s)
  {
    var run :| Feasible(BOOT, run) && After(BOOT, run) == s;
    RunKeepsInv(BOOT, run);
  }

  // ---------------------------------------------------------------- the lock

  ghost predicate Holds(s: State, t: Thread) {
    s.owner.Some? && s.owner.value in s.files && s.files[s.owner.value] == t
  }

  /** At most one thread of one process is inside the body. */
  lemma MutualExclusion(s: State, t: Thread, u: Thread)
    requires Reachable(s) && t in s.threads && u in s.threads
    requires InBody(s.threads[t]) && InBody(s.threads[u])
    ensures t == u
  {
    ReachableInv(s);
  }

  /** A call of t was broken off outside its `try` and has left the lock held. */
  ghost predicate LeftLocked(s: State, t: Thread) {
    Holds(s, t) && s.owner.value in s.left
  }

  /** The thread-local counter never claims a lock the thread does not hold and never falls below the number of
      open blocks.  At 0 in the caller's code the thread holds nothing but what a broken-off call has left. */
  lemma CounterIsTheLock(s: State, t: Thread)
    requires Reachable(s) && t in s.threads
    ensures s.threads[t].depth > 0 ==> Holds(s, t)
    ensures s.threads[t].depth >= |s.threads[t].stack|
    ensures s.threads[t].at.Running? && s.threads[t].depth == 0 ==> (Holds(s, t) <==> LeftLocked(s, t))
  {
    ReachableInv(s);
  }

  predicate Waits(at: Point) {
    at.Opened? || at.Contended? || at.Described? || at.Blocked?
  }

  /** A thread on its way to, or in, a blocking `flock` holds the lock exactly when a call of its own has left it
      held: then it waits for itself. */
  lemma WaitsForItselfIff(s: State, t: Thread)
    requires Reachable(s) && t in s.threads && Waits(s.threads[t].at)
    ensures Holds(s, t) <==> LeftLocked(s, t)
  {
    ReachableInv(s);
  }

  // ---------------------------------------------------------------- calls broken off outside their `try`

  /** Some action of the run broke off, outside its `try`, the call that used description f. */
  ghost predicate BrokenOff(s: State, run: seq<Action>, f: nat)
    requires Feasible(s, run)
    decreases |run|
  {
    run != [] &&
    (|| (run[0].Step? && run[0].op == Leave && s.threads[run[0].t].fd == f)
     || BrokenOff(Apply(s, run[0]), run[1..], f))
  }

  /** What is left open is what the broken-off calls used. */
  lemma {:induction false} LeftIffBrokenOff(s: State, run: seq<Action>, f: nat)
    requires Feasible(s, run)
    ensures f in After(s, run).left <==> f in s.left || BrokenOff(s, run, f)
    decreases |run|
  {
    if run != [] {
      LeftIffBrokenOff(Apply(s, run[0]), run[1..], f);
    }
  }

  /** No call is broken off outside its `try`, and no nested block between its counting and its `try` or `finally`. */
  predicate Unbroken(run: seq<Action>) {
    forall i :: 0 <= i < |run| && run[i].Step? ==> !run[i].op.Leave? && !run[i].op.SlipIn? && !run[i].op.SlipOut?
  }

  /** Every thread in the caller's code has counted exactly its open blocks. */
  predicate CountsBlocks(s: State) {
    forall t :: t in s.threads && s.threads[t].at.Running? ==> s.threads[t].depth == |s.threads[t].stack|
  }

  lemma UnbrokenStep(s: State, a: Action)
    requires Enabled(s, a) && CountsBlocks(s) && s.left == {}
    requires a.Step? ==> !a.op.Leave? && !a.op.SlipIn? && !a.op.SlipOut? && Counted(s.threads[a.t])
    ensures CountsBlocks(Apply(s, a)) && Apply(s, a).left == {}
  {
  }

  lemma {:induction false} UnbrokenRunCounts(s: State, run: seq<Action>)
    requires Inv(s) && CountsBlocks(s) && s.left == {} && Feasible(s, run) && Unbroken(run)
    ensures CountsBlocks(After(s, run)) && After(s, run).left == {}
    decreases |run|
  {
    if run != [] {
      hide CountsBlocks, FilesOk, OwnerOk, SidecarOk, UnlinkedOk;
      assert run[0].Step? ==> Counted(s.threads[run[0].t]);
      UnbrokenStep(s, run[0]);
      ActionKeepsInv(s, run[0]);
      UnbrokenRunCounts(Apply(s, run[0]), run[1..]);
    }
  }

  /** After a run without such interrupts the depth is the number of open blocks, a thread at depth 0 in the caller's
      code holds nothing, and no thread waits for itself. */
  lemma UnbrokenRun(run: seq<Action>, t: Thread)
    requires Feasible(BOOT, run) && Unbroken(run) && t in After(BOOT, run).threads
    ensures var s := After(BOOT, run);
      var l := s.threads[t];
      && s.left == {}
      && (l.at.Running? ==> l.depth == |l.stack| && (l.depth > 0 <==> Holds(s, t)))
      && (Waits(l.at) ==> !Holds(s, t))
  {
    UnbrokenRunCounts(BOOT, run);
    CounterIsTheLock(After(BOOT, run), t);
    if Waits(After(BOOT, run).threads[t].at) {
      WaitsForItselfIff(After(BOOT, run), t);
    }
  }

  /** The lock changes hands only through being free.  It is freed only by the holder's own LOCK_UN, in
      the `finally` of its outermost block with the counter at 0, or by the death of its process. */
  lemma ReleasedOnlyByOutermostExit(s: State, a: Action)
    requires Reachable(s) && Enabled(s, a) && s.owner.Some? && Apply(s, a).owner != s.owner
    ensures Apply(s, a).owner == None
    ensures a.Step? ==>
      a.op == Unlock && Holds(s, a.t) && s.threads[a.t].depth == 0 && s.threads[a.t].stack == []
    ensures !a.Step? ==> a.Kill? && s.owner.value in s.files && s.files[s.owner.value].pid == a.pid
  {
    hide FilesOk, SidecarOk, UnlinkedOk;
    ReachableInv(s);
  }

  /** The actions by which the thread that holds the lock gives it back. */
  ghost function GiveBack(l: Local): seq<Op>
    decreases |l.stack|
  {
    match l.at
    case Unlinked => [Unlock]
    case Reset => [Unlink, Unlock]
    case Unwinding => [ResetDepth, Unlink, Unlock]
    case Acquired => [Interrupt, ResetDepth, Unlink, Unlock]
    case Recorded => [Interrupt, ResetDepth, Unlink, Unlock]
    case _ =>
      if |l.stack| <= 1 then [Exit, ResetDepth, Unlink, Unlock]
      else [Exit] + GiveBack(l.(stack := l.stack[..|l.stack| - 1], depth := l.depth - 1))
  }

  function By(t: Thread, ops: seq<Op>): seq<Action> {
    seq(|ops|, i requires 0 <= i < |ops| => Step(t, ops[i]))
  }

  lemma HolderIs(s: State, t: Thread)
    requires Inv(s) && Holds(s, t) && !LeftLocked(s, t)
    ensures t in s.threads
    ensures var l := s.threads[t];
      && Using(l) == s.owner && MayHold(l) && Counted(l) && (l.at.Running? ==> l.stack != [] && l.stack[0].Outer?)
  {
    hide SidecarOk, UnlinkedOk;
  }

  lemma GiveBackStarts(s: State, t: Thread)
    requires Inv(s) && Holds(s, t) && !LeftLocked(s, t)
    ensures t in s.threads && GiveBack(s.threads[t]) != [] && CanStep(s, s.threads[t], GiveBack(s.threads[t])[0])
    ensures GiveBack(s.threads[t])[0] in {Exit, Interrupt, ResetDepth, Unlink, Unlock}
    ensures GiveBack(s.threads[t])[0] == Unlock ==> GiveBack(s.threads[t]) == [Unlock]
  {
    HolderIs(s, t);
    hide Inv;
  }

  /** Leaving a nested block. */
  lemma GiveBackNested(s: State, t: Thread)
    requires t in s.threads && Counted(s.threads[t]) && s.threads[t].at.Running? && |s.threads[t].stack| > 1
    ensures var l := s.threads[t];
      && GiveBack(l) != [] && GiveBack(l)[0] == Exit && CanStep(s, l, Exit)
      && var next := ApplyStep(s, t, Exit).threads[t];
         GiveBack(next) == GiveBack(l)[1..] && StepsLeft(next) < StepsLeft(l)
  {
    var l := s.threads[t];
    var next := l.(stack := l.stack[..|l.stack| - 1], depth := l.depth - 1);
    assert GiveBack(l) == [Exit] + GiveBack(next);
    assert ApplyStep(s, t, Exit).threads[t] == next;
  }

  lemma GiveBackNext(s: State, t: Thread)
    requires Inv(s) && Holds(s, t) && !LeftLocked(s, t)
    ensures t in s.threads && GiveBack(s.threads[t]) != [] && CanStep(s, s.threads[t], GiveBack(s.threads[t])[0])
    ensures var l, op := s.threads[t], GiveBack(s.threads[t])[0];
      op != Unlock ==>
        var next := ApplyStep(s, t, op).threads[t];
        GiveBack(next) == GiveBack(l)[1..] && StepsLeft(next) < StepsLeft(l)
  {
    HolderIs(s, t);
    GiveBackStarts(s, t);
    hide Inv, Holds, LeftLocked, MayAnswer, Describe, ApplyCall;
    var l := s.threads[t];
    if l.at.Running? && |l.stack| > 1 {
      hide *;
      GiveBackNested(s, t);
    }
  }

  /** The holder can take the first of these steps, and it brings the release closer. */
  lemma GiveBackStep(s: State, t: Thread)
    requires Inv(s) && Holds(s, t) && !LeftLocked(s, t)
    ensures t in s.threads
    ensures GiveBack(s.threads[t]) != []
    ensures var l, op := s.threads[t], GiveBack(s.threads[t])[0];
      && CanStep(s, l, op)
      && (op == Unlock ==> GiveBack(l) == [Unlock] && ApplyStep(s, t, op).owner == None)
      && (op != Unlock ==>
            && Holds(ApplyStep(s, t, op), t) && !LeftLocked(ApplyStep(s, t, op), t)
            && var next := ApplyStep(s, t, op).threads[t];
               GiveBack(next) == GiveBack(l)[1..] && StepsLeft(next) < StepsLeft(l))
  {
    HolderIs(s, t);
    GiveBackStarts(s, t);
    GiveBackNext(s, t);
    hide Inv, GiveBack, StepsLeft;
  }

  function StepsLeft(l: Local): nat {
    match l.at
    case Unlinked => 0
    case Reset => 1
    case Unwinding => 2
    case _ => 3 + |l.stack|
  }

  lemma {:induction false} ReleaseBy(s: State, t: Thread)
    requires Inv(s) && Holds(s, t) && !LeftLocked(s, t)
    ensures t in s.threads && Feasible(s, By(t, GiveBack(s.threads[t])))
    ensures After(s, By(t, GiveBack(s.threads[t]))).owner == None
    decreases StepsLeft(s.threads[t])
  {
    hide Inv, GiveBack, Holds, LeftLocked, StepsLeft, ApplyStep;
    GiveBackStep(s, t);
    var ops := GiveBack(s.threads[t]);
    var run := By(t, ops);
    assert run[0] == Step(t, ops[0]) && run[1..] == By(t, ops[1..]);
    StepKeepsInv(s, t, ops[0]);
    if ops[0] == Unlock {
      assert run[1..] == [];
    } else {
      ReleaseBy(ApplyStep(s, t, ops[0]), t);
    }
  }

  /** An exception just after a nested count, or just before it is taken back, leaves the depth one above what it was,
      with the same blocks open and the lock still held. */
  lemma SlipsOvercount(s: State, t: Thread) returns (a: State, b: State)
    requires Reachable(s) && t in s.threads && InBody(s.threads[t])
    ensures CanStep(s, s.threads[t], SlipIn) && CanStep(s, s.threads[t], Call)
    ensures var nested := ApplyStep(s, t, Call);
      && t in nested.threads && CanStep(nested, nested.threads[t], SlipOut)
      && a == ApplyStep(s, t, SlipIn) && b == ApplyStep(nested, t, SlipOut)
    ensures Reachable(a) && Holds(a, t) && Reachable(b) && Holds(b, t)
    ensures var l := s.threads[t].(depth := s.threads[t].depth + 1);
      a == s.(threads := s.threads[t := l]) && b == s.(threads := s.threads[t := l])
  {
    InBodyCounts(s, t);
    InBodyHolds(s, t);
    hide Reachable, Inv;
    a := Next(s, Step(t, SlipIn));
    var nested := Next(s, Step(t, Call));
    b := Next(nested, Step(t, SlipOut));
    var l := s.threads[t];
    assert (l.stack + [Nested])[..|l.stack|] == l.stack;
  }

  lemma InBodyCounts(s: State, t: Thread)
    requires Reachable(s) && t in s.threads && InBody(s.threads[t])
    ensures s.threads[t].depth > 0
  {
    ReachableInv(s);
  }

  /** What a broken-off call has left held stays held, whatever anybody does, until its process dies. */
  lemma {:induction false} LeftForGood(s: State, run: seq<Action>)
    requires Inv(s) && s.owner.Some? && s.owner.value in s.left && Feasible(s, run)
    requires forall i :: 0 <= i < |run| ==> run[i] != Kill(s.files[s.owner.value].pid)
    ensures After(s, run).owner == s.owner && s.owner.value in After(s, run).left
    ensures s.owner.value in After(s, run).files && After(s, run).files[s.owner.value] == s.files[s.owner.value]
    decreases |run|
  {
    if run != [] {
      LeftStays(s, run[0]);
      ActionKeepsInv(s, run[0]);
      assert forall i :: 0 <= i < |run[1..]| ==> run[1..][i] == run[i + 1];
      LeftForGood(Apply(s, run[0]), run[1..]);
    }
  }

  lemma LeftStays(s: State, a: Action)
    requires Inv(s) && s.owner.Some? && s.owner.value in s.left && Enabled(s, a)
    requires a != Kill(s.files[s.owner.value].pid)
    ensures Apply(s, a).owner == s.owner && s.owner.value in Apply(s, a).left
    ensures s.owner.value in Apply(s, a).files && Apply(s, a).files[s.owner.value] == s.files[s.owner.value]
  {
    hide FilesOk, SidecarOk, UnlinkedOk;
  }

  ghost predicate OnlySteps(run: seq<Action>) {
    forall i :: 0 <= i < |run| ==> run[i].Step?
  }

  /** The lock can be had back without killing anybody exactly when no broken-off call has left it held; then its
      holder is a live thread whose own steps, leaving the blocks it has open, release it. */
  lemma ReleasableIff(s: State)
    requires Reachable(s) && s.owner.Some?
    ensures s.owner.value !in s.left <==>
      exists run :: Feasible(s, run) && OnlySteps(run) && After(s, run).owner == None
    ensures s.owner.value !in s.left ==>
      exists t :: t in s.threads && Holds(s, t) && Feasible(s, By(t, GiveBack(s.threads[t])))
                  && After(s, By(t, GiveBack(s.threads[t]))).owner == None
  {
    hide GiveBack;
    ReachableInv(s);
    if s.owner.value in s.left {
      forall run | Feasible(s, run) && OnlySteps(run) ensures After(s, run).owner != None {
        LeftForGood(s, run);
      }
    } else {
      var t := s.files[s.owner.value];
      assert Holds(s, t);
      ReleaseBy(s, t);
      assert OnlySteps(By(t, GiveBack(s.threads[t])));
    }
  }

  /** One action more is reachable too. */
  lemma Next(s: State, a: Action) returns (s': State)
    requires Reachable(s) && Enabled(s, a)
    ensures Reachable(s') && s' == Apply(s, a)
  {
    var run :| Feasible(BOOT, run) && After(BOOT, run) == s;
    Append(BOOT, run, a);
    s' := Apply(s, a);
    assert Feasible(BOOT, run + [a]) && After(BOOT, run + [a]) == s';
  }

  /** A thread in its outermost block leaves it and is interrupted in the `finally`, before LOCK_UN. */
  lemma InterruptedFinally(s: State, t: Thread) returns (s': State)
    requires Reachable(s) && t in s.threads && InBody(s.threads[t]) && |s.threads[t].stack| == 1
    requires s.threads[t].stack[0].Outer?
    ensures Reachable(s') && t in s'.threads && LeftLocked(s', t)
    ensures s'.threads[t].at.Running? && s'.threads[t].depth == 0 && s'.threads[t].stack == []
    ensures s'.sidecar == s.sidecar
  {
    hide Inv, Reachable;
    InBodyHolds(s, t);
    s' := Next(s, Step(t, Exit));
    s' := Next(s', Step(t, ResetDepth));
    s' := Next(s', Step(t, Leave));
  }

  lemma InBodyHolds(s: State, t: Thread)
    requires Reachable(s) && t in s.threads && InBody(s.threads[t])
    ensures Holds(s, t) && (Using(s.threads[t]).Some? ==> s.owner == Using(s.threads[t]))
  {
    ReachableInv(s);
  }

  lemma StaysOut(s: State, a: Action, t: Thread)
    requires Inv(s) && t in s.threads && LeftLocked(s, t) && s.threads[t].depth == 0 && Enabled(s, a)
    requires a != Kill(t.pid)
    ensures var s' := Apply(s, a); t in s'.threads && LeftLocked(s', t) && s'.threads[t].depth == 0
  {
    hide SidecarOk, UnlinkedOk;
    LeftStays(s, a);
  }

  /** However the others run, nobody is in a body again until the process of t dies. */
  lemma {:induction false} NobodyGetsIn(s: State, t: Thread, run: seq<Action>, u: Thread)
    requires Inv(s) && t in s.threads && LeftLocked(s, t) && s.threads[t].depth == 0
    requires Feasible(s, run) && Kill(t.pid) !in run
    requires u in After(s, run).threads
    ensures !InBody(After(s, run).threads[u])
    decreases |run|
  {
    if run == [] {
      assert MustHold(s.threads[u]) ==> Has(s, u, s.threads[u]);
    } else {
      assert run[0] in run && forall a :: a in run[1..] ==> a in run;
      StaysOut(s, run[0], t);
      ActionKeepsInv(s, run[0]);
      NobodyGetsIn(Apply(s, run[0]), t, run[1..], u);
    }
  }

  /** An answer of os.kill that is right for every pid. */
  predicate Alive(s: State, seen: Option<Record>) {
    seen.Some? && seen.value.says.Names? && exists t :: t in s.threads && t.pid == seen.value.says.pid
  }

  lemma AliveMayBeAnswered(s: State, seen: Option<Record>)
    requires Inv(s)
    ensures MayAnswer(s, seen, Alive(s, seen))
  {
  }

  /** The next call of a thread whose `finally` was interrupted waits for itself, and then nobody is in a body again
      until its process dies. */
  lemma SelfDeadlock(s: State, t: Thread) returns (s': State)
    requires Reachable(s) && t in s.threads && LeftLocked(s, t)
    requires s.threads[t].at.Running? && s.threads[t].depth == 0
    requires s.sidecar.Some? ==> !s.sidecar.value.says.Raises?
    ensures Reachable(s') && t in s'.threads && s'.threads[t].at.Blocked? && LeftLocked(s', t)
    ensures forall run, u ::
      Feasible(s', run) && u in After(s', run).threads && InBody(After(s', run).threads[u]) ==> Kill(t.pid) in run
  {
    hide Reachable, Inv, InBody;
    s' := Next(s, Step(t, Call));
    CalledAnew(s, t);
    s' := Next(s', Step(t, TryLock));
    s' := Next(s', Step(t, ReadRecord));
    ReachableInv(s');
    AliveMayBeAnswered(s', s.sidecar);
    s' := Next(s', Step(t, CheckAlive(Alive(s', s.sidecar))));
    ReachableInv(s');
    forall run, u |
      Feasible(s', run) && u in After(s', run).threads && InBody(After(s', run).threads[u]) ensures Kill(t.pid) in run
    {
      if Kill(t.pid) !in run {
        NobodyGetsIn(s', t, run, u);
      }
    }
  }

  lemma CalledAnew(s: State, t: Thread)
    requires Reachable(s) && t in s.threads && LeftLocked(s, t) && CanStep(s, s.threads[t], Call)
    requires s.threads[t].depth == 0
    ensures var s' := ApplyStep(s, t, Call);
      s'.threads[t].at == Opened && !Free(s', s'.threads[t].fd) && LeftLocked(s', t) && s'.threads[t].depth == 0
  {
    ReachableInv(s);
  }

  // ---------------------------------------------------------------- the holder record

  /** The record written from a holder's pid and texts. */
  ghost function RecordOf(h: HolderRecord.Holder, fd: nat, other: char -> bool, decimal: char -> Option<nat>): Record {
    Record(h.pid, HolderRecord.Describe(HolderRecord.Written(h), other, decimal), fd)
  }

  /** Texts without line separators make an honest record. */
  lemma CleanRecordIsHonest(h: HolderRecord.Holder, fd: nat, other: char -> bool, decimal: char -> Option<nat>)
    requires HolderRecord.Clean(h) && HolderRecord.IsPid(h.pid)
    ensures Honest(RecordOf(h, fd, other, decimal))
  {
    HolderRecord.WrittenRecordNamesItsPid(h, other, decimal);
  }

  /** An honest record whose pid is alive names the process that holds the lock at that instant; any other
      was left by a process killed while it held the lock. */
  lemma RecordNamesTheHolder(s: State, pid: nat)
    requires Reachable(s) && s.sidecar.Some? && Honest(s.sidecar.value)
    requires s.sidecar.value.says == HolderRecord.Names(pid)
    ensures var r := s.sidecar.value;
      if pid in s.dead then r.fd in s.lost
      else s.owner == Some(r.fd) && exists t :: Holds(s, t) && t.pid == pid
  {
    ReachableInv(s);
    var r := s.sidecar.value;
    if s.owner == Some(r.fd) && r.fd in s.files && s.files[r.fd].pid == r.pid {
      assert Holds(s, s.files[r.fd]);
    }
  }

  lemma {:induction false} DeadStayDead(s: State, run: seq<Action>)
    requires Feasible(s, run)
    ensures s.dead <= After(s, run).dead
    decreases |run|
  {
    if run != [] {
      assert s.dead <= Apply(s, run[0]).dead;
      DeadStayDead(Apply(s, run[0]), run[1..]);
    }
  }

  /** No action of the run is a step of t. */
  ghost predicate Without(run: seq<Action>, t: Thread) {
    forall i :: 0 <= i < |run| ==> !(run[i].Step? && run[i].t == t)
  }

  lemma OthersStepLeaves(s: State, a: Action, t: Thread)
    requires t in s.threads && Enabled(s, a) && !(a.Step? && a.t == t)
    ensures if a == Kill(t.pid) then t.pid in Apply(s, a).dead
            else t in Apply(s, a).threads && Apply(s, a).threads[t] == s.threads[t]
  {
  }

  /** Whatever the others do, a thread that lives on is where it was. */
  lemma {:induction false} OthersLeave(s: State, run: seq<Action>, t: Thread)
    requires Inv(s) && t in s.threads && Feasible(s, run) && Without(run, t)
    ensures t in After(s, run).threads ==> After(s, run).threads[t] == s.threads[t]
    decreases |run|
  {
    if run != [] {
      OthersStepLeaves(s, run[0], t);
      ActionKeepsInv(s, run[0]);
      RunKeepsInv(s, run);
      DeadStayDead(Apply(s, run[0]), run[1..]);
      if run[0] != Kill(t.pid) {
        OthersLeave(Apply(s, run[0]), run[1..], t);
      }
    }
  }

  /** What a waiter reports.  It reads the sidecar in state `s`; any actions of other threads later it asks whether
      the recorded pid is alive.  It says Unknown exactly when there was no record to read.  A process it calls the
      holder did hold the lock when the sidecar was read, one it calls stale has no thread left when it asks, and
      a recorded process that has one is called the holder. */
  lemma ReportIsTrue(s: State, t: Thread, run: seq<Action>, alive: bool)
    requires Reachable(s) && Enabled(s, Step(t, ReadRecord)) && Feasible(Apply(s, Step(t, ReadRecord)), run)
    requires Without(run, t)
    requires s.sidecar.Some? ==> Honest(s.sidecar.value)
    requires Enabled(After(Apply(s, Step(t, ReadRecord)), run), Step(t, CheckAlive(alive)))
    ensures var s' := After(Apply(s, Step(t, ReadRecord)), run);
      var at := Apply(s', Step(t, CheckAlive(alive))).threads[t].at;
      && at.Blocked?
      && (at.report == Unknown <==> s.sidecar == None)
      && (forall pid :: at.report == Holder(pid) ==> exists u :: Holds(s, u) && u.pid == pid)
      && (forall pid :: at.report == Stale(pid) ==> forall u :: u in s'.threads ==> u.pid != pid)
      && (forall u :: s.sidecar.Some? && u in s'.threads && u.pid == s.sidecar.value.pid ==> at.report == Holder(u.pid))
      && (s.sidecar.Some? && s.sidecar.value.pid in s'.dead ==> at.report == Stale(s.sidecar.value.pid))
  {
    var read := Apply(s, Step(t, ReadRecord));
    ReachableInv(s);
    ActionKeepsInv(s, Step(t, ReadRecord));
    OthersLeave(read, run, t);
    RunKeepsInv(read, run);
    DeadStayDead(read, run);
    hide Inv, After, Feasible, Holds;
    assert After(read, run).threads[t].at == Described(s.sidecar);
    if s.sidecar.Some? {
      RecordNamesTheHolder(s, s.sidecar.value.pid);
    }
  }

  /** Between writing its record and setting the counter to 0. */
  predicate Signed(l: Local) {
    l.depth > 0 || InBody(l) || l.at.Recorded?
  }

  /** Whoever is in the body has a record on disk. */
  ghost predicate RecordPresent(s: State) {
    forall t :: t in s.threads && Signed(s.threads[t]) ==>
      RecordedFor(s, t)
  }

  /** A thread that never got the lock runs the `finally`, and somebody else has signed for it. */
  ghost predicate ForeignUnlink(s: State, a: Action) {
    a.Step? && a.op == Unlink && a.t in s.threads && !Holds(s, a.t)
    && exists u :: Holds(s, u) && u in s.threads && Signed(s.threads[u])
  }

  ghost predicate RecordedFor(s: State, t: Thread) {
    s.sidecar.Some? && s.sidecar.value.pid == t.pid && s.owner == Some(s.sidecar.value.fd)
  }

  lemma OwnStepKeepsRecord(s: State, t: Thread, op: Op)
    requires Inv(s) && RecordPresent(s) && t in s.threads && CanStep(s, s.threads[t], op)
    requires Signed(ApplyStep(s, t, op).threads[t])
    ensures RecordedFor(ApplyStep(s, t, op), t)
  {
    hide FilesOk, OwnerOk, SidecarOk, UnlinkedOk;
  }

  lemma OtherStepKeepsRecord(s: State, t: Thread, op: Op, u: Thread)
    requires Inv(s) && t in s.threads && CanStep(s, s.threads[t], op)
    requires u in s.threads && u != t && Holds(s, u)
    ensures u in ApplyStep(s, t, op).threads && ApplyStep(s, t, op).threads[u] == s.threads[u]
    ensures ApplyStep(s, t, op).owner == s.owner
    ensures ApplyStep(s, t, op).sidecar == if op == Unlink then None else s.sidecar
    ensures Holds(ApplyStep(s, t, op), u)
  {
    hide SidecarOk, UnlinkedOk;
  }

  lemma SignedKeepsRecord(s: State, a: Action, u: Thread)
    requires Inv(s) && RecordPresent(s) && Enabled(s, a) && !ForeignUnlink(s, a)
    requires u in Apply(s, a).threads && Signed(Apply(s, a).threads[u])
    ensures RecordedFor(Apply(s, a), u)
  {
    match a
    case Spawn(_) =>
    case Kill(_) =>
    case Step(t, op) =>
      if t == u {
        OwnStepKeepsRecord(s, t, op);
      } else {
        assert u in s.threads && s.threads[u] == Apply(s, a).threads[u];
        assert Holds(s, u);
        OtherStepKeepsRecord(s, t, op, u);
      }
  }

  /** The one action that takes the holder's record away is an interrupted waiter's unlink. */
  lemma RecordLostOnlyByForeignUnlink(s: State, a: Action)
    requires Inv(s) && RecordPresent(s) && Enabled(s, a)
    ensures RecordPresent(Apply(s, a)) <==> !ForeignUnlink(s, a)
  {
    var s' := Apply(s, a);
    ActionKeepsInv(s, a);
    if ForeignUnlink(s, a) {
      var u :| Holds(s, u) && u in s.threads && Signed(s.threads[u]);
      assert u in s'.threads && s'.threads[u] == s.threads[u];
    } else {
      forall u | u in s'.threads && Signed(s'.threads[u])
        ensures RecordedFor(s', u)
      {
        SignedKeepsRecord(s, a, u);
      }
    }
  }

  ghost predicate NoForeignUnlink(s: State, run: seq<Action>)
    requires Feasible(s, run)
    decreases |run|
  {
    run == [] || (!ForeignUnlink(s, run[0]) && NoForeignUnlink(Apply(s, run[0]), run[1..]))
  }

  /** In a run without such an unlink, every holder's record is on disk the whole time. */
  lemma {:induction false} RecordAlwaysPresent(s: State, run: seq<Action>)
    requires Inv(s) && RecordPresent(s) && Feasible(s, run) && NoForeignUnlink(s, run)
    ensures RecordPresent(After(s, run))
    decreases |run|
  {
    if run != [] {
      RecordLostOnlyByForeignUnlink(s, run[0]);
      ActionKeepsInv(s, run[0]);
      RecordAlwaysPresent(Apply(s, run[0]), run[1..]);
    }
  }

  lemma {:induction false} Append(s: State, run: seq<Action>, a: Action)
    requires Feasible(s, run) && Enabled(After(s, run), a)
    ensures Feasible(s, run + [a]) && After(s, run + [a]) == Apply(After(s, run), a)
    decreases |run|
  {
    if run == [] {
      assert (run + [a])[1..] == [];
    } else {
      assert (run + [a])[1..] == run[1..] + [a];
      Append(Apply(s, run[0]), run[1..], a);
    }
  }

  /** u, which holds nothing, takes one step of its call while t stays in the body. */
  lemma Wait(s: State, t: Thread, u: Thread, run: seq<Action>, op: Op) returns (longer: seq<Action>)
    requires Inv(s) && Feasible(s, run)
    requires var m := After(s, run);
      t in m.threads && InBody(m.threads[t]) && Holds(m, t) && u in m.threads && u != t && CanStep(m, m.threads[u], op)
    requires forall i :: 0 <= i < |run| ==> run[i].Step? && run[i].t == u
    ensures longer == run + [Step(u, op)] && Feasible(s, longer)
    ensures forall i :: 0 <= i < |longer| ==> longer[i].Step? && longer[i].t == u
    ensures var m := After(s, longer);
      t in m.threads && InBody(m.threads[t]) && Holds(m, t)
      && After(s, longer) == ApplyStep(After(s, run), u, op)
  {
    RunKeepsInv(s, run);
    OtherStepKeepsRecord(After(s, run), u, op, t);
    Append(s, run, Step(u, op));
    longer := run + [Step(u, op)];
  }

  /** So "the holder's record is always present" fails: whenever a thread t is in its body, any thread u
      that holds nothing can call, wait, be interrupted and erase t's record, all by itself, while t
      stays in the body with the lock. */
  lemma InterruptedWaiterErasesTheRecord(s: State, t: Thread, u: Thread) returns (run: seq<Action>)
    requires Reachable(s) && t in s.threads && InBody(s.threads[t])
    requires u in s.threads && u != t && s.threads[u].at.Running? && s.threads[u].depth == 0
    ensures Feasible(s, run) && forall i :: 0 <= i < |run| ==> run[i].Step? && run[i].t == u
    ensures var s' := After(s, run);
      t in s'.threads && InBody(s'.threads[t]) && Holds(s', t) && s'.sidecar == None && !RecordPresent(s')
  {
    hide Inv;
    ReachableInv(s);
    InBodyHolds(s, t);
    run := Wait(s, t, u, [], Call);
    NotFree(s, t, u, run);
    run := Wait(s, t, u, run, TryLock);
    run := Wait(s, t, u, run, ReadRecord);
    run := Wait(s, t, u, run, Interrupt);
    run := Wait(s, t, u, run, ResetDepth);
    run := Wait(s, t, u, run, Unlink);
  }

  /** Nor does it take an interrupt: when t's record makes describing it raise, u's call ends by erasing it. */
  lemma RaisingRecordIsErased(s: State, t: Thread, u: Thread) returns (run: seq<Action>)
    requires Reachable(s) && t in s.threads && InBody(s.threads[t])
    requires u in s.threads && u != t && s.threads[u].at.Running? && s.threads[u].depth == 0
    requires s.sidecar.Some? && s.sidecar.value.says.Raises?
    ensures run == By(u, [Call, TryLock, ReadRecord, CheckAlive(false), ResetDepth, Unlink]) && Feasible(s, run)
    ensures var s' := After(s, run);
      t in s'.threads && InBody(s'.threads[t]) && Holds(s', t) && s'.sidecar == None && !RecordPresent(s')
  {
    hide Inv;
    ReachableInv(s);
    InBodyHolds(s, t);
    run := Wait(s, t, u, [], Call);
    NotFree(s, t, u, run);
    run := Wait(s, t, u, run, TryLock);
    run := Wait(s, t, u, run, ReadRecord);
    run := Wait(s, t, u, run, CheckAlive(false));
    run := Wait(s, t, u, run, ResetDepth);
    run := Wait(s, t, u, run, Unlink);
  }

  lemma NotFree(s: State, t: Thread, u: Thread, run: seq<Action>)
    requires Inv(s) && Feasible(s, run)
    requires var m := After(s, run);
      t in m.threads && Holds(m, t) && u in m.threads && u != t && !m.threads[u].at.Running?
    ensures !Free(After(s, run), After(s, run).threads[u].fd)
  {
    RunKeepsInv(s, run);
  }

  /** Such a state exists, whatever the record says: A enters its block while B is doing something else. */
  lemma SomebodyGetsIn(says: HolderRecord.Description) returns (s: State, a: Thread, b: Thread)
    ensures Reachable(s) && a != b && a in s.threads && b in s.threads
    ensures InBody(s.threads[a]) && s.threads[b].at.Running? && s.threads[b].depth == 0 && RecordPresent(s)
    ensures s.threads[a].stack == [Outer(0)] && s.sidecar == Some(Record(1, says, 0))
  {
    hide Reachable;
    a, b := Thread(1, 1), Thread(2, 1);
    s := BootIsReachable();
    s := Next(s, Spawn(b));
    s := Next(s, Spawn(a));
    s := Next(s, Step(a, Call));
    s := Next(s, Step(a, TryLock));
    s := Next(s, Step(a, WriteRecord(says)));
    s := Next(s, Step(a, SetDepth));
  }

  lemma BootIsReachable() returns (s: State)
    ensures s == BOOT && Reachable(s)
  {
    s := BOOT;
    assert Feasible(BOOT, []) && After(BOOT, []) == BOOT;
  }

  /** And so does a thread that waits for itself. */
  lemma SomebodyWaitsForItself() returns (s: State, a: Thread)
    ensures Reachable(s) && a in s.threads && s.threads[a].at.Blocked? && LeftLocked(s, a)
  {
    var b: Thread;
    s, a, b := SomebodyGetsIn(HolderRecord.Names(1));
    s := InterruptedFinally(s, a);
    s := SelfDeadlock(s, a);
  }
}
