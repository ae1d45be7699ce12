/**
  The test worker and its control calls (src/nat_test.c: nat_test_start,
  nat_test_stop, nat_test_run_both, nat_test_thread_entry_point and
  set_network_mode) as a sequential transition system.

  The worker thread boots, sets the state to IDLE, and then loops: it waits
  on a one-slot semaphore, sets RUNNING, runs the selected test(s), and sets
  IDLE again. Control calls from the shell read and write the same state.
  Interleavings are represented as a sequence of events; the grace sleep of
  nat_test_stop becomes a boolean input saying whether the worker finished
  its run during it.
 */
module TestRunner {
  import opened NatTypes

  /** Where the worker thread is. */
  datatype WorkerPc = NotStarted | WaitingForStart | InRun

  /**
    The shared thread data: the run state, the selected test type, the
    semaphore (a one-slot signal), and the worker's position.
   */
  datatype Worker = Worker(state: TestState, kind: TestType, wakeup: bool, pc: WorkerPc)

  /** Zero-initialised static data before the worker thread starts. */
  const Boot: Worker := Worker(Uninitialized, TestUdp, false, NotStarted)

  /** A control call's return value and the state it leaves. */
  datatype Answer = Answer(code: int, after: Worker)

  /** nat_test_start */
  function NatTestStart(w: Worker, t: TestType): (a: Answer)
    ensures a.code == -1 <==> w.state == Running || w.state == Abort
    ensures a.code == 0 || a.code == -1
    ensures a.code == -1 ==> a.after == w
    ensures a.code == 0 ==> a.after == w.(kind := t, wakeup := true)
  {
    match w.state
    case Running => Answer(-1, w)
    case Abort => Answer(-1, w)
    case _ => Answer(0, w.(kind := t, wakeup := true))
  }

  /** The worker's end of a run: state back to IDLE, waiting for the next start. */
  function FinishRun(w: Worker): Worker {
    w.(state := Idle, pc := WaitingForStart)
  }

  /**
    nat_test_stop. From RUNNING the state becomes ABORT; from RUNNING or
    ABORT the call sleeps and then fails unless the state is IDLE again.
    `settled` says whether the worker finished its run during the sleep
    (it can only do so if it is in a run).
   */
  function NatTestStop(w: Worker, settled: bool): (a: Answer)
    ensures w.state == Idle || w.state == Uninitialized ==> a == Answer(0, w)
    ensures a.code == 0 || a.code == -1
    ensures a.code == 0 <==> a.after.state == Idle || a.after.state == Uninitialized
    ensures w.state == Running || w.state == Abort ==>
              (a.code == 0 <==> settled && w.pc == InRun)
    ensures a.code == -1 ==> a.after == w.(state := Abort)
  {
    match w.state
    case Running => Grace(w.(state := Abort), settled)
    case Abort => Grace(w, settled)
    case _ => Answer(0, w)
  }

  /** The end of the grace sleep: success exactly when the worker is back to IDLE. */
  function Grace(w: Worker, settled: bool): (a: Answer)
    ensures a.code == 0 || a.code == -1
    ensures a.code == 0 <==> a.after.state == Idle
    ensures a.after == (if settled && w.pc == InRun then FinishRun(w) else w)
  {
    var w' := if settled && w.pc == InRun then FinishRun(w) else w;
    if w'.state != Idle then Answer(-1, w') else Answer(0, w')
  }

  /** The events of the system: control calls and worker steps. */
  datatype Event =
    | StartCall(t: TestType)
    | StopCall(settled: bool)
    | WorkerBoots        // sets IDLE before the loop
    | WorkerWakes        // takes the semaphore, sets RUNNING
    | WorkerFinishes     // the run returned; sets IDLE

  /**
    An event's effect; a worker step that cannot happen yet leaves the state
    alone. Each control call is one atomic event here; the stop performed
    as two steps is NatTestStopSplit below.
   */
  function Apply(w: Worker, e: Event): (w': Worker)
    ensures e == WorkerBoots && w.pc == NotStarted ==> w' == w.(state := Idle, pc := WaitingForStart)
    ensures e == WorkerWakes && w.pc == WaitingForStart && w.wakeup ==>
              w' == w.(state := Running, wakeup := false, pc := InRun)
    ensures e == WorkerFinishes && w.pc == InRun ==> w' == w.(state := Idle, pc := WaitingForStart)
    ensures e == WorkerWakes && !(w.pc == WaitingForStart && w.wakeup) ==> w' == w
    ensures (e == WorkerBoots && w.pc != NotStarted) || (e == WorkerFinishes && w.pc != InRun) ==> w' == w
    ensures e.StartCall? ==> w'.pc == w.pc && w'.state == w.state
    ensures e.StopCall? ==> w'.kind == w.kind && w'.wakeup == w.wakeup
  {
    match e
    case StartCall(t) => NatTestStart(w, t).after
    case StopCall(settled) => NatTestStop(w, settled).after
    case WorkerBoots =>
      if w.pc == NotStarted then w.(state := Idle, pc := WaitingForStart) else w
    case WorkerWakes =>
      if w.pc == WaitingForStart && w.wakeup then w.(state := Running, wakeup := false, pc := InRun) else w
    case WorkerFinishes =>
      if w.pc == InRun then FinishRun(w) else w
  }

  function Trace(w: Worker, es: seq<Event>): Worker
    decreases |es|
  {
    if |es| == 0 then w else Trace(Apply(w, es[0]), es[1..])
  }

  /**
    The run state tells where the worker is: UNINITIALIZED before it boots,
    RUNNING or ABORT exactly while it is in a run.
   */
  predicate Consistent(w: Worker) {
    && (w.state == Uninitialized <==> w.pc == NotStarted)
    && (w.state == Running || w.state == Abort <==> w.pc == InRun)
  }

  lemma ApplyKeepsConsistent(w: Worker, e: Event)
    requires Consistent(w)
    ensures Consistent(Apply(w, e))
  {
  }

  /** Every reachable state is consistent. */
  lemma {:induction false} TraceKeepsConsistent(w: Worker, es: seq<Event>)
    requires Consistent(w)
    ensures Consistent(Trace(w, es))
    decreases |es|
  {
    if |es| > 0 {
      ApplyKeepsConsistent(w, es[0]);
      TraceKeepsConsistent(Apply(w, es[0]), es[1..]);
    }
  }

  /** Every state reachable from boot is consistent, so none is wedged (see Wedged below). */
  lemma ReachableConsistent(es: seq<Event>)
    ensures Consistent(Trace(Boot, es))
    ensures !Wedged(Trace(Boot, es))
  {
    TraceKeepsConsistent(Boot, es);
  }

  /**
    A start during a run is refused and changes nothing, so a second run is
    never queued behind the current one.
   */
  lemma StartDuringRunRefused(w: Worker, t: TestType)
    requires Consistent(w) && w.pc == InRun
    ensures NatTestStart(w, t) == Answer(-1, w)
  {
  }

  /**
    Two starts before the worker wakes both succeed: the semaphore holds one
    signal and the later type is the one that runs.
   */
  lemma LastStartWins(w: Worker, t1: TestType, t2: TestType)
    requires Consistent(w) && w.pc == WaitingForStart
    ensures var a1 := NatTestStart(w, t1);
            var a2 := NatTestStart(a1.after, t2);
            && a1.code == 0 && a2.code == 0
            && Apply(a2.after, WorkerWakes) == w.(state := Running, kind := t2, wakeup := false, pc := InRun)
  {
  }

  /** Stopping an idle worker succeeds and changes nothing, however often it is repeated. */
  lemma StopWhenIdleIdempotent(w: Worker, s1: bool, s2: bool)
    requires w.state == Idle
    ensures NatTestStop(w, s1) == Answer(0, w)
    ensures NatTestStop(NatTestStop(w, s1).after, s2) == Answer(0, w)
  {
  }

  /** A failed stop leaves ABORT behind; once the worker finishes, a retried stop succeeds. */
  lemma StopRetry(w: Worker)
    requires Consistent(w) && w.state == Running
    ensures NatTestStop(w, false) == Answer(-1, w.(state := Abort))
    ensures NatTestStop(w.(state := Abort), true).code == 0
  {
  }

  /**
    The protocols the worker runs for a selector (nat_test_thread_entry_point
    and nat_test_run_both); `stateAfterUdp` is the run state read once the
    UDP run of a UDP-and-TCP test has returned.
   */
  function RunPlan(kind: TestType, stateAfterUdp: TestState): (ps: seq<Protocol>)
    ensures |ps| >= 1 && ps[0] == (if kind == TestTcp then Tcp else Udp)
    ensures Tcp in ps <==> kind == TestTcp || (kind == TestUdpAndTcp && stateAfterUdp != Abort)
    ensures kind != TestUdpAndTcp ==> |ps| == 1
    ensures |ps| <= 2 && (Udp in ps <==> kind != TestTcp)
    ensures |ps| == 2 ==> ps == [Udp, Tcp]
  {
    match kind
    case TestUdp => [Udp]
    case TestTcp => [Tcp]
    case TestUdpAndTcp => if stateAfterUdp != Abort then [Udp, Tcp] else [Udp]
  }

  // ---------------------------------------------------------------------
  // nat_test_stop as written: a read of the state, later a write

  /**
    nat_test_stop as the code performs it: the switch reads the state once
    (`seen`), and ABORT is then written over whatever the state is by that
    time (`w`). A worker step may run between the two.
   */
  function NatTestStopSplit(w: Worker, seen: TestState, settled: bool): (a: Answer)
    ensures seen == w.state ==> a == NatTestStop(w, settled)
    ensures seen == Running ==> a.after.state == Abort || a.after == FinishRun(w)
    ensures seen == Running ==> (a.code == 0 <==> settled && w.pc == InRun)
    ensures seen == Abort ==> (a.code == 0 <==> (settled && w.pc == InRun) || w.state == Idle)
    ensures seen != Running && seen != Abort ==> a == Answer(0, w)
  {
    match seen
    case Running => Grace(w.(state := Abort), settled)
    case Abort => Grace(w, settled)
    case _ => Answer(0, w)
  }

  /** ABORT with no run in progress and no start pending: nothing ever clears it. */
  predicate Wedged(w: Worker) {
    w.state == Abort && w.pc == WaitingForStart && !w.wakeup
  }

  /** No event moves a wedged worker. */
  lemma {:induction false} WedgedForever(w: Worker, es: seq<Event>)
    requires Wedged(w)
    ensures Trace(w, es) == w
    decreases |es|
  {
    if |es| > 0 {
      assert Apply(w, es[0]) == w;
      WedgedForever(w, es[1..]);
    }
  }

  /**
    The worker finishes its run after the stop has read RUNNING and before
    it writes ABORT: the stop fails, and ABORT stays behind on an idle
    worker. From then on every start and stop fails and no run ever begins.
   */
  lemma {:induction false} StopRaceWedges(t: TestType, settled: bool, es: seq<Event>)
    ensures var w := Worker(Running, t, false, InRun);
            var a := NatTestStopSplit(Apply(w, WorkerFinishes), w.state, settled);
            && Consistent(w)
            && a.code == -1 && Wedged(a.after) && !Consistent(a.after)
            && Trace(a.after, es) == a.after
  {
    var w := Worker(Running, t, false, InRun);
    var a := NatTestStopSplit(Apply(w, WorkerFinishes), w.state, settled);
    WedgedForever(a.after, es);
  }

  /** A wedged worker refuses every start and every stop. */
  lemma WedgedRefusesControl(w: Worker, t: TestType, settled: bool)
    requires Wedged(w)
    ensures NatTestStart(w, t) == Answer(-1, w)
    ensures NatTestStop(w, settled) == Answer(-1, w)
  {
  }

  // ---------------------------------------------------------------------
  // set_network_mode

  /** enum lte_lc_system_mode values accepted by set_network_mode. */
  const LTE_LC_SYSTEM_MODE_LTEM: int := 1
  const LTE_LC_SYSTEM_MODE_NBIOT: int := 2

  /** enum set_network_mode_error */
  const INVALID_MODE: int := 1
  const TEST_RUNNING: int := 2

  datatype ModeChange = ModeChange(code: int, mode: int)

  /**
    set_network_mode: the mode is validated first, then the run state; the
    same mode is accepted without change. Storing a new mode also restarts
    the radio and waits for registration, which is not modelled.
   */
  function SetNetworkMode(requested: int, state: TestState, current: int): (r: ModeChange)
    ensures requested != LTE_LC_SYSTEM_MODE_LTEM && requested != LTE_LC_SYSTEM_MODE_NBIOT ==>
              r.code == -INVALID_MODE
    ensures (requested == LTE_LC_SYSTEM_MODE_LTEM || requested == LTE_LC_SYSTEM_MODE_NBIOT) && state != Idle ==>
              r.code == -TEST_RUNNING
    ensures r.code == 0 <==> (requested == LTE_LC_SYSTEM_MODE_LTEM || requested == LTE_LC_SYSTEM_MODE_NBIOT) && state == Idle
    ensures r.mode == (if r.code == 0 then requested else current)
  {
    if requested != LTE_LC_SYSTEM_MODE_LTEM && requested != LTE_LC_SYSTEM_MODE_NBIOT then
      ModeChange(-INVALID_MODE, current)
    else if state != Idle then
      ModeChange(-TEST_RUNNING, current)
    else if current == requested then
      ModeChange(0, current)
    else
      ModeChange(0, requested)
  }
}
