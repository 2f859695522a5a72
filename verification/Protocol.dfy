/**
 The debugger's table of threads and how it relates to what the kernel knows.
 */
module Protocol {
  import opened Bytes
  import opened Memory
  import opened Tracee
  import opened Traps

  /** The running state of the process or of one thread. */
  datatype RunState = Stopped | Running | Exited | Terminated

  datatype TrapType = SingleStepTrap | SoftwareBreak | HardwareBreak | SyscallTrap | CloneTrap | UnknownTrap

  datatype Syscall = Syscall(id: int, entry: bool)

  datatype StopReason = StopReason(
    reason: RunState,
    info: int,
    tid: int,
    trap: Option<TrapType>,
    syscall: Option<Syscall>)

  datatype ThreadState = ThreadState(
    state: RunState,
    reason: StopReason,
    pendingSigstop: bool,
    expectingSyscallExit: bool)

  datatype CatchPolicy = CatchNone | CatchSome(ids: set<int>) | CatchAll

  /** newStopReason. */
  function NewStopReason(e: Event): (r: StopReason)
    ensures r.tid == e.tid && (r.reason == Stopped <==> e.status.IsStop()) && r.reason != Running
    ensures r.info == SIGSTOP && r.reason == Stopped <==> e.status == Stop(SIGSTOP)
  {
    match e.status
    case Exit(code) => StopReason(Exited, code, e.tid, None, None)
    case Kill(sig) => StopReason(Terminated, sig, e.tid, None, None)
    case Stop(sig) => StopReason(Stopped, sig, e.tid, None, None)
    case CloneStop => StopReason(Stopped, SIGTRAP, e.tid, Some(CloneTrap), None)
  }

  function TrapOf(siCode: int): TrapType {
    if siCode == 0x80 then SoftwareBreak
    else if siCode == 2 then SingleStepTrap
    else if siCode == 4 then HardwareBreak
    else UnknownTrap
  }

  /** augmentStopReasonForThread: the refined reason, and whether a syscall exit comes next. */
  function Augment(r: StopReason, siCode: int, sysno: int, expecting: bool): (StopReason, bool) {
    if r.info == SIGTRAP + 0x80 then
      (r.(trap := Some(SyscallTrap), info := SIGTRAP, syscall := Some(Syscall(sysno, !expecting))), !expecting)
    else if r.info != SIGTRAP then (r, expecting)
    else (r.(trap := Some(TrapOf(siCode))), expecting)
  }

  /** shouldResumeFromSyscall. */
  predicate ShouldResume(policy: CatchPolicy, r: StopReason) {
    r.syscall.Some? && !policy.CatchAll? && !(policy.CatchSome? && r.syscall.value.id in policy.ids)
  }

  // ---------------------------------------------------------------- what handleSignal does with a stop

  /** The stop is looked into: it is not a clone event, a new thread or the debugger's own SIGSTOP. */
  predicate Inspected(threads: map<int, ThreadState>, reason: StopReason, isMainStop: bool) {
    && reason.reason == Stopped
    && !(reason.trap == Some(CloneTrap) && isMainStop)
    && !(reason.tid !in threads && isMainStop)
    && !(reason.tid in threads && threads[reason.tid].pendingSigstop && reason.info == SIGSTOP)
  }

  /** Whether the thread's next system call stop is an exit. */
  predicate Expecting(threads: map<int, ThreadState>, tid: int) {
    tid in threads && threads[tid].expectingSyscallExit
  }

  /** The refined reason of an event. */
  function Refined(reason: StopReason, e: Event, expecting: bool): StopReason {
    Augment(reason, e.siCode, e.sysno, expecting).0
  }

  /** Whether a syscall exit is to be expected after it. */
  function Expects(reason: StopReason, e: Event, expecting: bool): bool {
    Augment(reason, e.siCode, e.sysno, expecting).1
  }

  /** Whether a syscall exit is to be expected once handleSignal is done with a stop. */
  function ExpectsNext(threads: map<int, ThreadState>, reason: StopReason, e: Event, isMainStop: bool): bool {
    var expecting := Expecting(threads, reason.tid);
    if Inspected(threads, reason, isMainStop) then Expects(reason, e, expecting) else expecting
  }

  /** The software site a thread has run into: a kernel-sent SIGTRAP just behind an enabled one. */
  function Hit(sites: seq<Site>, refined: StopReason, regs: Regs): Option<Site> {
    if refined.trap == Some(SoftwareBreak) then FirstTrapped(sites, Wrap64(regs.pc - 1)) else None
  }

  /** The registers after the stop: moved back onto the trap that was hit, otherwise as they are. */
  function Corrected(sites: seq<Site>, refined: StopReason, regs: Regs): Regs {
    if Hit(sites, refined, regs).Some? then regs.(pc := Wrap64(regs.pc - 1)) else regs
  }

  /** The hit handler asks for the thread to be resumed. */
  predicate HandlerAsks(sites: seq<Site>, refined: StopReason, regs: Regs) {
    Hit(sites, refined, regs).Some? && Hit(sites, refined, regs).value.onHit == Some(true)
  }

  /** A system call stop that the catch policy does not ask for. */
  predicate Filtered(policy: CatchPolicy, refined: StopReason) {
    refined.trap == Some(SyscallTrap) && ShouldResume(policy, refined)
  }

  /** The system call stops of one thread, from a state in which an exit is or is not expected. */
  function SyscallStops(tid: int, sysnos: seq<int>, expecting: bool): seq<StopReason>
    decreases |sysnos|
  {
    if sysnos == [] then []
    else
      var (r, next) := Augment(StopReason(Stopped, 133, tid, None, None), 0, sysnos[0], expecting);
      [r] + SyscallStops(tid, sysnos[1..], next)
  }

  /** Entries and exits alternate, each under its own system call number, and the signal becomes SIGTRAP. */
  lemma {:induction false} SyscallsAlternate(tid: int, sysnos: seq<int>, expecting: bool, k: nat)
    requires k < |sysnos|
    ensures |SyscallStops(tid, sysnos, expecting)| == |sysnos|
    ensures SyscallStops(tid, sysnos, expecting)[k] ==
            StopReason(Stopped, 5, tid, Some(SyscallTrap), Some(Syscall(sysnos[k], (k % 2 == 0) == !expecting)))
    decreases |sysnos|
  {
    if k > 0 {
      SyscallsAlternate(tid, sysnos[1..], !expecting, k - 1);
    } else if |sysnos| > 1 {
      SyscallsAlternate(tid, sysnos[1..], !expecting, 0);
    }
  }

  /** A SIGTRAP is classified by its si_code: SI_KERNEL, TRAP_TRACE and TRAP_HWBKPT of Linux; other signals are left alone. */
  lemma TrapsNamed(e: Event, expecting: bool)
    requires e.status.Stop? && e.status.sig != 133
    ensures
      var r := Refined(NewStopReason(e), e, expecting);
      && r.(trap := None) == StopReason(Stopped, e.status.sig, e.tid, None, None)
      && (r.trap.Some? <==> e.status.sig == 5)
      && (r.trap == Some(SoftwareBreak) <==> e.status.sig == 5 && e.siCode == 128)
      && (r.trap == Some(SingleStepTrap) <==> e.status.sig == 5 && e.siCode == 2)
      && (r.trap == Some(HardwareBreak) <==> e.status.sig == 5 && e.siCode == 4)
      && Expects(NewStopReason(e), e, expecting) == expecting
  {
  }

  /** What the user catches is reported: no call, these calls, or all of them. */
  lemma CaughtReported(sysno: int, entry: bool, tid: int, ids: set<int>)
    ensures
      var r := StopReason(Stopped, 5, tid, Some(SyscallTrap), Some(Syscall(sysno, entry)));
      && Filtered(CatchNone, r) && !Filtered(CatchAll, r)
      && (Filtered(CatchSome(ids), r) <==> sysno !in ids)
  {
  }

  // ---------------------------------------------------------------- what waitOnSignalFor makes of an event

  /** The reason of a stop, refined. */
  function RefinedStop(threads: map<int, ThreadState>, e: Event): StopReason {
    Refined(NewStopReason(e), e, Expecting(threads, e.tid))
  }

  /**
   The stops that are not reported: clone events, the first stop of a new thread, the SIGSTOP
   that the debugger itself had sent, a hit handler that asks to resume, and system calls that
   are not to be caught.
   */
  predicate Swallowed(threads: map<int, ThreadState>, sites: seq<Site>, policy: CatchPolicy, e: Event) {
    || e.status.CloneStop?
    || e.tid !in threads
    || (threads[e.tid].pendingSigstop && e.status == Stop(SIGSTOP))
    || HandlerAsks(sites, RefinedStop(threads, e), e.regs)
    || Filtered(policy, RefinedStop(threads, e))
  }

  /** The events after which it waits on: swallowed stops, and exits of threads other than the main one. */
  predicate Passes(threads: map<int, ThreadState>, sites: seq<Site>, policy: CatchPolicy, pid: int, e: Event) {
    if e.status.IsStop() then Swallowed(threads, sites, policy, e) else e.tid != pid
  }

  /** The entry of a thread once its stop has been handled. */
  function EntryAfter(threads: map<int, ThreadState>, e: Event): ThreadState {
    if e.tid !in threads then Fresh(e.tid)
    else threads[e.tid].(pendingSigstop := threads[e.tid].pendingSigstop && e.status != Stop(SIGSTOP),
                         expectingSyscallExit := ExpectsNext(threads, NewStopReason(e), e, true))
  }

  /** The table after a stop has been handled. */
  function TableHandled(threads: map<int, ThreadState>, e: Event): map<int, ThreadState> {
    if e.tid !in threads && e.status.CloneStop? then threads else threads[e.tid := EntryAfter(threads, e)]
  }

  /** The table after an event that is passed over: the thread runs on, or is forgotten. */
  function TableAfter(threads: map<int, ThreadState>, e: Event): map<int, ThreadState> {
    if !e.status.IsStop() then threads - {e.tid}
    else if e.tid !in threads && e.status.CloneStop? then threads
    else threads[e.tid := EntryAfter(threads, e).(state := Running)]
  }

  /** The waiting after an event that is passed over; after an exit it is for any thread. */
  function AwaitAfter(e: Event, toAwait: Option<int>): Option<int> {
    if e.status.IsStop() then toAwait else None
  }

  /** What is reported of an event that is not passed over. */
  function ReportOf(threads: map<int, ThreadState>, e: Event): StopReason {
    if e.status.IsStop() then RefinedStop(threads, e) else NewStopReason(e)
  }

  /**
   Of `future` n events were taken. All were passed over, or all but the last, and then `last`
   is what is to be reported of it.
   */
  ghost predicate MainWait(threads: map<int, ThreadState>, sites: seq<Site>, policy: CatchPolicy, pid: int,
                           future: seq<Event>, toAwait: Option<int>, n: nat, last: Option<StopReason>)
    decreases n
  {
    if n == 0 then last.None?
    else
      && future != []
      && var e := Reported(future[0], toAwait);
         if Passes(threads, sites, policy, pid, e)
         then MainWait(TableAfter(threads, e), sites, policy, pid, future[1..], AwaitAfter(e, toAwait), n - 1, last)
         else n == 1 && last == Some(ReportOf(threads, e))
  }

  lemma {:induction false} MainWaitTakes(threads: map<int, ThreadState>, sites: seq<Site>, policy: CatchPolicy, pid: int,
                      future: seq<Event>, toAwait: Option<int>, n: nat, last: Option<StopReason>)
    requires MainWait(threads, sites, policy, pid, future, toAwait, n, last)
    ensures n <= |future|
    decreases n
  {
    if n > 0 && Passes(threads, sites, policy, pid, Reported(future[0], toAwait)) {
      var e := Reported(future[0], toAwait);
      MainWaitTakes(TableAfter(threads, e), sites, policy, pid, future[1..], AwaitAfter(e, toAwait), n - 1, last);
    }
  }

  lemma MainWaitMore(threads: map<int, ThreadState>, sites: seq<Site>, policy: CatchPolicy, pid: int,
                     future: seq<Event>, toAwait: Option<int>, n: nat, last: Option<StopReason>)
    requires future != [] && Passes(threads, sites, policy, pid, Reported(future[0], toAwait))
    requires
      var e := Reported(future[0], toAwait);
      MainWait(TableAfter(threads, e), sites, policy, pid, future[1..], AwaitAfter(e, toAwait), n, last)
    ensures MainWait(threads, sites, policy, pid, future, toAwait, n + 1, last)
  {
  }

  lemma MainWaitNone(threads: map<int, ThreadState>, sites: seq<Site>, policy: CatchPolicy, pid: int, future: seq<Event>, toAwait: Option<int>)
    ensures MainWait(threads, sites, policy, pid, future, toAwait, 0, None)
  {
  }

  lemma MainWaitLast(threads: map<int, ThreadState>, sites: seq<Site>, policy: CatchPolicy, pid: int, future: seq<Event>, toAwait: Option<int>)
    requires future != [] && !Passes(threads, sites, policy, pid, Reported(future[0], toAwait))
    ensures MainWait(threads, sites, policy, pid, future, toAwait, 1, Some(ReportOf(threads, Reported(future[0], toAwait))))
  {
  }

  /** Nothing of a log is forgotten. */
  ghost predicate LogGrown(log: seq<Action>, log': seq<Action>) {
    |log| <= |log'| && log'[..|log|] == log
  }

  lemma LogGrownTrans(log: seq<Action>, log': seq<Action>, log'': seq<Action>)
    requires LogGrown(log, log') && LogGrown(log', log'')
    ensures LogGrown(log, log'')
  {
    assert log''[..|log|] == log'[..|log|];
  }

  /**
   A handler that asks to resume, as the one on _dl_debug_state does, has its thread
   continued with the pc on the enabled trap: the int3 is hit again at once.
   */
  lemma HandlerTrapsAgain()
    ensures
      var site := Site(-1, 0x1000, false, true, true, 0x55, -1, Some(true));
      var e := Event(1, Stop(SIGTRAP), Regs(0x1001, 0, 0, 0, [], []), 0x80, 0, map[]);
      var refined := Refined(NewStopReason(e), e, false);
      var table := map[1 := ThreadState(Running, NewStopReason(e), false, false)];
      && Inspected(table, NewStopReason(e), true) && HandlerAsks([site], refined, e.regs)
      && Corrected([site], refined, e.regs).pc == 0x1000 && 0x1000 in TrapAddrs([site])
  {
    var site := Site(-1, 0x1000, false, true, true, 0x55, -1, Some(true));
    assert FirstTrapped([site], 0x1000) == Some(site);
    assert site in [site];
  }

  // ---------------------------------------------------------------- what has happened to the program

  /**
   One thing that happened to the program's memory or to a thread's registers: a report was
   taken while int3s were planted at `traps`, and perhaps the thread was new; its pc was moved
   back onto the trap it had hit; registers were loaded or memory written for an inferior call.
   */
  datatype Deed =
    | Took(tid: int, traps: set<int>)
    | Found(tid: int)
    | Moved(tid: int, traps: set<int>)
    | Loaded(tid: int, regs: Regs)
    | Wrote(at: U64, bytes: seq<Byte>)

  /** The program's own memory, the registers of its threads, and what wait4 will still report. */
  datatype World = World(own: Mem, regs: map<int, Regs>, future: seq<Event>)

  /** The world after a deed. What a report brings is decided by the events alone, whoever it is reported for. */
  ghost function After(w: World, d: Deed): (r: World)
    ensures r.own.Keys == w.own.Keys
  {
    match d
    case Took(tid, traps) =>
      if w.future == [] then w
      else
        var e := w.future[0];
        World(Stored(w.own, Landing(Patched(w.own, traps), e.stores)),
              if e.status.IsStop() then w.regs[tid := e.regs] else w.regs,
              w.future[1..])
    case Found(_) => w
    case Moved(tid, traps) =>
      if tid in w.regs && Wrap64(w.regs[tid].pc - 1) in traps
      then w.(regs := w.regs[tid := w.regs[tid].(pc := Wrap64(w.regs[tid].pc - 1))])
      else w
    case Loaded(tid, regs) => w.(regs := w.regs[tid := regs])
    case Wrote(at, bytes) => w.(own := WriteBytes(w.own, at, bytes))
  }

  /** The world after a list of deeds. */
  ghost function Replay(w: World, past: seq<Deed>): (r: World)
    ensures r.own.Keys == w.own.Keys
  {
    if past == [] then w else After(Replay(w, past[..|past| - 1]), past[|past| - 1])
  }

  /** A function that replays from `start`; the trigger keeps it from being followed step by step where only its value matters. */
  ghost predicate Replays(replay: seq<Deed> -> World, start: World) {
    && replay([]) == start
    && forall past: seq<Deed>, d: Deed {:trigger After(replay(past), d)} :: replay(past + [d]) == After(replay(past), d)
  }

  lemma ReplayReplays(start: World)
    ensures Replays((past: seq<Deed>) => Replay(start, past), start)
  {
    var replay := (past: seq<Deed>) => Replay(start, past);
    forall past: seq<Deed>, d: Deed
      ensures replay(past + [d]) == After(replay(past), d)
    {
      assert (past + [d])[..|past|] == past;
    }
  }

  /** There is only one. */
  lemma {:induction false} ReplayIs(replay: seq<Deed> -> World, start: World, past: seq<Deed>)
    requires Replays(replay, start)
    ensures replay(past) == Replay(start, past)
  {
    if past != [] {
      var before, d := past[..|past| - 1], past[|past| - 1];
      ReplayIs(replay, start, before);
      ReplayPush(replay, start, before, d);
      assert before + [d] == past;
    }
  }

  lemma ReplayPush(replay: seq<Deed> -> World, start: World, past: seq<Deed>, d: Deed)
    requires Replays(replay, start)
    ensures replay(past + [d]) == After(replay(past), d)
  {
  }

  /** Nothing of the past is forgotten. */
  ghost predicate Grown(past: seq<Deed>, past': seq<Deed>) {
    |past| <= |past'| && past'[..|past|] == past
  }

  /** A deed of waiting with int3s at `traps`: a report, and at most that its thread is new or was moved back onto its trap. */
  ghost predicate Waiting(past: seq<Deed>, k: int, traps: set<int>)
    requires 0 <= k < |past|
  {
    match past[k]
    case Took(_, ts) => ts == traps
    case Found(tid) => k > 0 && past[k - 1] == Took(tid, traps)
    case Moved(tid, ts) => ts == traps && k > 0 && (past[k - 1] == Took(tid, traps) || past[k - 1] == Found(tid))
    case _ => false
  }

  /** All that happened in between was waiting, with int3s at `traps`. */
  ghost predicate Waited(past: seq<Deed>, past': seq<Deed>, traps: set<int>) {
    Grown(past, past') && forall k :: |past| <= k < |past'| ==> Waiting(past', k, traps)
  }

  lemma WaitedTrans(past: seq<Deed>, past': seq<Deed>, past'': seq<Deed>, traps: set<int>)
    requires Waited(past, past', traps) && Waited(past', past'', traps)
    ensures Waited(past, past'', traps)
  {
    assert past''[..|past|] == past'[..|past|];
    forall k | |past| <= k < |past''|
      ensures Waiting(past'', k, traps)
    {
      if k < |past'| {
        assert past''[k] == past''[..|past'|][k] && Waiting(past', k, traps);
        assert k > 0 ==> past''[k - 1] == past''[..|past'|][k - 1];
      }
    }
  }

  /** A report that was taken, and what handleSignal noted about it on a main stop or of a known thread. */
  ghost predicate NotedAt(past: seq<Deed>, past': seq<Deed>, tid: int, traps: set<int>) {
    past' == past || past' == past + [Moved(tid, traps)] || past' == past + [Found(tid)]
  }

  lemma TookThen(past: seq<Deed>, past': seq<Deed>, past'': seq<Deed>, tid: int, traps: set<int>)
    requires past' == past + [Took(tid, traps)] && NotedAt(past', past'', tid, traps)
    ensures Waited(past, past'', traps)
    ensures past'' != past' + [Found(tid)] <==> NoneFound(past, past'')
  {
    assert past'' == past' + [Found(tid)] ==> past''[|past'|].Found?;
  }

  /** What one step-over takes: the queued SIGSTOP and the stop after the step, while `traps` are planted. */
  ghost predicate Stepped(past: seq<Deed>, past': seq<Deed>, tid: int, traps: set<int>) {
    || past' == past
    || past' == past + [Took(tid, traps)]
    || past' == past + [Took(tid, traps), Took(tid, traps)]
  }

  lemma WaitedNone(past: seq<Deed>, traps: set<int>)
    ensures Waited(past, past, traps) && NoneFound(past, past)
  {
  }

  lemma WaitedOn(past: seq<Deed>, past': seq<Deed>, past'': seq<Deed>, traps: set<int>)
    requires Waited(past, past', traps) && Waited(past', past'', traps)
    ensures Waited(past, past'', traps)
    ensures NoneFound(past, past'') <==> NoneFound(past, past') && NoneFound(past', past'')
  {
    WaitedTrans(past, past', past'', traps);
    NoneFoundParts(past, past', past'');
  }

  /** What the first pass takes: reports of threads that are stepped over the trap at their pc, with all the others planted. */
  ghost predicate SteppedAll(past: seq<Deed>, past': seq<Deed>, regs: map<int, Regs>, traps: set<int>) {
    && Grown(past, past')
    && forall k :: |past| <= k < |past'| ==> SteppedTook(past'[k], regs, traps)
  }

  ghost predicate SteppedTook(d: Deed, regs: map<int, Regs>, traps: set<int>) {
    d.Took? && d.tid in regs && d.traps == traps - {regs[d.tid].pc}
  }

  lemma SteppedMore(past: seq<Deed>, past': seq<Deed>, past'': seq<Deed>, regs: map<int, Regs>, traps: set<int>, tid: int)
    requires SteppedAll(past, past', regs, traps) && tid in regs && Stepped(past', past'', tid, traps - {regs[tid].pc})
    ensures SteppedAll(past, past'', regs, traps)
  {
    forall k | |past| <= k < |past''|
      ensures SteppedTook(past''[k], regs, traps)
    {
      assert k < |past'| ==> past''[k] == past'[k];
    }
  }

  /** The program ran, and the debugger only watched: it loaded no registers and wrote no memory of its own. */
  ghost predicate Ran(past: seq<Deed>, past': seq<Deed>) {
    Grown(past, past') && forall k :: |past| <= k < |past'| ==> !past'[k].Loaded? && !past'[k].Wrote?
  }

  /** A resume and the wait after it. */
  lemma RanOn(past: seq<Deed>, past': seq<Deed>, mid: seq<Deed>, past'': seq<Deed>, regs: map<int, Regs>, traps: set<int>)
    requires Ran(past, past') && SteppedAll(past', mid, regs, traps) && Waited(mid, past'', traps)
    ensures Ran(past, past'')
    ensures NoneFound([], past'') ==> NoneFound([], past') && NoneFound(mid, past'')
  {
    assert past''[..|past'|] == mid[..|past'|] && past''[..|past|] == past'[..|past|];
    forall k | 0 <= k < |past''|
      ensures k < |past'| ==> past''[k] == past'[k]
      ensures |past'| <= k < |mid| ==> SteppedTook(past''[k], regs, traps)
      ensures |mid| <= k ==> Waiting(past'', k, traps)
    {
      assert k < |mid| ==> past''[k] == past''[..|mid|][k];
    }
  }

  /** At most one report, then at most one more. */
  lemma SteppedBoth(past: seq<Deed>, past': seq<Deed>, past'': seq<Deed>, tid: int, traps: set<int>)
    requires past' == past || past' == past + [Took(tid, traps)]
    requires past'' == past' || past'' == past' + [Took(tid, traps)]
    ensures Stepped(past, past'', tid, traps)
  {
  }

  /** What was not found all along was not found in either part. */
  lemma NoneFoundParts(past: seq<Deed>, past': seq<Deed>, past'': seq<Deed>)
    requires |past| <= |past'| && Grown(past', past'')
    ensures NoneFound(past, past'') <==> NoneFound(past, past') && NoneFound(past', past'')
  {
    forall k | |past| <= k < |past'|
      ensures past''[k] == past'[k]
    {
      assert past''[k] == past''[..|past'|][k];
    }
  }

  /** What handleSignal adds to the past. */
  function Noted(threads: map<int, ThreadState>, reason: StopReason, clone: bool, moved: bool, traps: set<int>): seq<Deed> {
    (if reason.reason == Stopped && !clone && reason.tid !in threads then [Found(reason.tid)] else []) +
    (if moved then [Moved(reason.tid, traps)] else [])
  }

  /** No thread was found in between. */
  ghost predicate NoneFound(past: seq<Deed>, past': seq<Deed>) {
    forall k :: |past| <= k < |past'| ==> !past'[k].Found?
  }

  predicate Dead(t: ThreadState) {
    t.state == Exited || t.state == Terminated
  }

  /**
   The table entry of a thread agrees with the kernel: its state is the kernel's,
   and PendingSigstop is set exactly when a SIGSTOP the debugger sent is still
   undelivered.
   */
  predicate ThreadOk(t: ThreadState, tid: int, running: map<int, bool>, queued: set<int>) {
    match t.state
    case Running => tid in running && running[tid] && (t.pendingSigstop <==> tid in queued)
    case Stopped => tid in running && !running[tid] && (t.pendingSigstop <==> tid in queued)
    case _ => tid !in running && tid !in queued
  }

  /** Every entry but that of `except` agrees, and SIGSTOPs are only queued for tracked threads. */
  ghost predicate TableOk(threads: map<int, ThreadState>, running: map<int, bool>, queued: set<int>, except: set<int>) {
    && queued <= threads.Keys + except
    && forall t <- threads :: t !in except ==> ThreadOk(threads[t], t, running, queued)
  }

  /** Two maps that differ at `key` at most. */
  ghost predicate SameBut<T>(m: map<int, T>, m': map<int, T>, key: int) {
    forall t :: t != key ==> (t in m <==> t in m') && (t in m ==> m'[t] == m[t])
  }

  /** Why handleSignal asks for a thread to be resumed, if it does. */
  datatype Verdict = Report | CloneEvent | NewThread | OwnSigstop | HandlerResumes | FilteredSyscall

  /** The table entry of a thread seen for the first time. */
  function Fresh(tid: int): ThreadState {
    ThreadState(Stopped, StopReason(Stopped, 0, tid, None, None), false, false)
  }

  /** What the kernel knows once it has reported an event of a thread. */
  function RunningAfter(running: map<int, bool>, e: Event): map<int, bool> {
    if e.status.IsStop() then running[e.tid := false] else running - {e.tid}
  }

  function QueuedAfter(queued: set<int>, e: Event): set<int> {
    if e.status.IsStop() && e.status != Stop(SIGSTOP) then queued else queued - {e.tid}
  }

  /** An event of one thread leaves the entries of all others in agreement. */
  lemma TableAfterEvent(threads: map<int, ThreadState>, running: map<int, bool>, queued: set<int>, e: Event)
    requires TableOk(threads, running, queued, {})
    ensures TableOk(threads, RunningAfter(running, e), QueuedAfter(queued, e), {e.tid})
  {
  }

  /** Dropping the entries of threads the kernel no longer has. */
  lemma TableDrop(threads: map<int, ThreadState>, running: map<int, bool>, queued: set<int>, except: set<int>, gone: set<int>)
    requires TableOk(threads, running, queued, except)
    requires except <= gone && gone !! queued
    ensures TableOk(threads - gone, running, queued, {})
  {
    forall q <- queued
      ensures q in threads - gone
    {
    }
  }

  /** The table after an event was taken and before the entry of its thread is updated. */
  ghost predicate OpenTable(threads: map<int, ThreadState>, running: map<int, bool>, queued: set<int>, e: Event) {
    && TableOk(threads, running, queued, {e.tid})
    && (e.tid !in threads ==> e.tid !in queued)
    && if e.status.IsStop() then
         e.tid in running && !running[e.tid] && (e.tid in threads ==> (threads[e.tid].pendingSigstop <==> e.tid in queued))
       else
         e.tid !in running && e.tid !in queued
  }

  /**
   handleSignal clears PendingSigstop exactly when the event is the SIGSTOP that
   was pending, so the entry stays right about what is queued.
   */
  lemma OpenAfter(threads: map<int, ThreadState>, threads': map<int, ThreadState>, running: map<int, bool>, queued: set<int>, e: Event)
    requires TableOk(threads, running, queued, {}) && SameBut(threads, threads', e.tid)
    requires e.tid in threads ==> e.tid in threads'
    requires e.tid in threads' && e.status.IsStop() ==>
      threads'[e.tid].pendingSigstop == (e.tid in threads && threads[e.tid].pendingSigstop && e.status != Stop(SIGSTOP))
    requires e.tid in threads && e.status.IsStop() ==> !Dead(threads[e.tid])
    ensures OpenTable(threads', RunningAfter(running, e), QueuedAfter(queued, e), e)
  {
    TableAfterEvent(threads, running, queued, e);
    TableReopen(threads, threads', RunningAfter(running, e), QueuedAfter(queued, e), e.tid);
  }

  /** An untracked thread needs no entry. */
  lemma TableClose(threads: map<int, ThreadState>, running: map<int, bool>, queued: set<int>, tid: int)
    requires TableOk(threads, running, queued, {tid}) && tid !in threads && tid !in queued
    ensures TableOk(threads, running, queued, {})
  {
    forall q <- queued
      ensures q in threads
    {
    }
  }

  /** The open entry may change without affecting the others. */
  lemma TableReopen(threads: map<int, ThreadState>, threads': map<int, ThreadState>, running: map<int, bool>, queued: set<int>, tid: int)
    requires TableOk(threads, running, queued, {tid}) && SameBut(threads, threads', tid)
    ensures TableOk(threads', running, queued, {tid})
  {
    forall q <- queued
      ensures q in threads'.Keys + {tid}
    {
      assert q == tid || q in threads;
    }
  }

  /** Filling in the one entry that was still open. */
  lemma TableSet(threads: map<int, ThreadState>, threads': map<int, ThreadState>, running: map<int, bool>, queued: set<int>, tid: int)
    requires TableOk(threads, running, queued, {tid}) && SameBut(threads, threads', tid)
    requires tid in threads' && ThreadOk(threads'[tid], tid, running, queued)
    ensures TableOk(threads', running, queued, {})
  {
    forall q <- queued
      ensures q in threads'
    {
      assert q == tid || q in threads;
    }
  }

  /** A dead entry names itself as the reason. */
  ghost predicate ReasonsOk(threads: map<int, ThreadState>) {
    forall t <- threads :: Dead(threads[t]) ==> threads[t].reason.tid == t && threads[t].reason.reason == threads[t].state
  }

  /** The register cache of every stopped thread, but for `except`, is what the kernel holds. */
  ghost predicate CacheHolds(threads: map<int, ThreadState>, cache: map<int, Regs>, regs: map<int, Regs>, except: set<int>) {
    forall t <- threads :: t !in except && threads[t].state == Stopped ==> t in cache && t in regs && cache[t] == regs[t]
  }

  /** No tracked thread is known to be dead. */
  ghost predicate AllAlive(threads: map<int, ThreadState>) {
    forall t <- threads :: !Dead(threads[t])
  }

  /** The same threads in the same states. */
  ghost predicate SameStates(threads: map<int, ThreadState>, threads': map<int, ThreadState>) {
    && (forall t :: t in threads <==> t in threads')
    && forall t <- threads :: threads'[t].state == threads[t].state
  }

  lemma SameKeys<T, U>(m: map<int, T>, m': map<int, U>)
    requires forall t :: t in m <==> t in m'
    ensures m.Keys == m'.Keys
  {
    assert forall t :: t in m.Keys <==> t in m'.Keys;
  }

  /** Two maps that differ at one key at most are equal if they agree there. */
  lemma SameButIs<T>(m: map<int, T>, m': map<int, T>, key: int)
    requires SameBut(m, m', key)
    ensures key in m' ==> m' == m[key := m'[key]]
    ensures key !in m' && key !in m ==> m' == m
  {
    if key in m' {
      var updated := m[key := m'[key]];
      forall t
        ensures t in m' <==> t in updated
        ensures t in m' ==> m'[t] == updated[t]
      {
      }
      assert m' == updated;
    } else if key !in m {
      forall t
        ensures t in m' <==> t in m
        ensures t in m' ==> m'[t] == m[t]
      {
      }
      assert m' == m;
    }
  }

  lemma KeysWithin<T>(m: map<int, T>, m': map<int, T>, key: int)
    requires SameBut(m, m', key)
    ensures (key in m' ==> key in m) ==> m'.Keys <= m.Keys
  {
    if key in m' ==> key in m {
      forall t | t in m'.Keys
        ensures t in m.Keys
      {
        assert t in m';
      }
    }
  }

  ghost predicate AllStopped(threads: map<int, ThreadState>) {
    forall t <- threads :: threads[t].state == Stopped
  }

  /** The number of single steps of a thread in a log, and of free continues. */
  ghost function Steps(log: seq<Action>, tid: int): nat {
    if log == [] then 0
    else Steps(log[..|log| - 1], tid) + if log[|log| - 1].Step? && log[|log| - 1].tid == tid then 1 else 0
  }

  ghost function Conts(log: seq<Action>, tid: int): nat {
    if log == [] then 0
    else Conts(log[..|log| - 1], tid) + if log[|log| - 1].Cont? && log[|log| - 1].tid == tid then 1 else 0
  }

  lemma StepsPush(log: seq<Action>, a: Action, tid: int)
    ensures Steps(log + [a], tid) == Steps(log, tid) + if a.Step? && a.tid == tid then 1 else 0
    ensures Conts(log + [a], tid) == Conts(log, tid) + if a.Cont? && a.tid == tid then 1 else 0
  {
    assert (log + [a])[..|log|] == log;
  }

  /** Every trap of the set is in the memory. */
  predicate AllPlanted(m: Mem, traps: set<int>) {
    forall a <- traps :: a in m && m[a] == INT3
  }

  /**
   What one step-over executes: exactly one instruction, with the int3s of `traps`
   and no others over the program's own memory `own`; before it at most the
   delivery of a queued SIGSTOP, which executes nothing.
   */
  ghost predicate StepActs(acts: seq<Action>, tid: int, pc: U64, own: Mem, traps: set<int>) {
    && 1 <= |acts| <= 2
    && acts[|acts| - 1] == Step(tid, pc, Patched(own, traps))
    && (|acts| == 2 ==> acts[0].Cont? && acts[0].tid == tid && acts[0].bounced)
  }

  /** What a step-over has executed when it gets stuck or fails on the way: a beginning of it. */
  ghost predicate StepPart(acts: seq<Action>, tid: int, pc: U64, own: Mem, traps: set<int>) {
    || acts == []
    || StepActs(acts, tid, pc, own, traps)
    || (|acts| == 1 && acts[0].Cont? && acts[0].tid == tid && acts[0].bounced)
  }

  /** What a step-over has executed, by whether it got through; no other thread's registers change if it did. */
  ghost predicate Executed(done: bool, acts: seq<Action>, tid: int, pc: U64, own: Mem, traps: set<int>, regs: map<int, Regs>, regs': map<int, Regs>) {
    && StepPart(acts, tid, pc, own, traps)
    && (done ==> StepActs(acts, tid, pc, own, traps) && SameBut(regs, regs', tid))
  }

  /** Two site lists with the same sites, enabled alike. */
  predicate SameEnabled(sites: seq<Site>, sites': seq<Site>) {
    && |sites| == |sites'|
    && forall k :: 0 <= k < |sites| ==> SameSite(sites[k], sites'[k]) && sites[k].isEnabled == sites'[k].isEnabled
  }

  /** Everything about a site that enabling and disabling it leaves alone. */
  predicate SameSite(s: Site, t: Site) {
    && s.id == t.id && s.address == t.address && s.isHardware == t.isHardware
    && s.isInternal == t.isInternal && s.onHit == t.onHit
  }

  /** The addresses at which some site, of either kind, is enabled. */
  function EnabledAddrs(sites: seq<Site>): set<int> {
    set s | s in sites && s.isEnabled :: s.address
  }

  /** Stepping over executes nothing unless the thread sits on an enabled site, whose trap alone is then lifted. */
  ghost predicate SteppedOver(acts: seq<Action>, tid: int, cachedPc: U64, pc: U64, own: Mem, sites: seq<Site>) {
    if cachedPc in EnabledAddrs(sites)
    then StepActs(acts, tid, pc, own, TrapAddrs(sites) - {cachedPc})
    else acts == []
  }

  /** The same for a step-over that got stuck or failed. */
  ghost predicate PartlyOver(acts: seq<Action>, tid: int, cachedPc: U64, pc: U64, own: Mem, sites: seq<Site>) {
    if cachedPc in EnabledAddrs(sites)
    then StepPart(acts, tid, pc, own, TrapAddrs(sites) - {cachedPc})
    else acts == []
  }

  /**
   Everything the first pass of a resume lets run: single instructions of threads
   on enabled sites, each with all traps but its own in place, and deliveries of
   queued SIGSTOPs.
   */
  ghost predicate SteppingOnly(acts: seq<Action>, regs: map<int, Regs>, sites: seq<Site>) {
    forall a <- acts ::
      && (a.Step? ==> a.tid in regs && a.pc == regs[a.tid].pc && a.pc in EnabledAddrs(sites)
                      && AllPlanted(a.mem, TrapAddrs(sites) - {a.pc}))
      && (a.Cont? ==> a.bounced)
  }

  /** Everything the second pass lets run: threads continued with all traps in place. */
  ghost predicate ContinuingOnly(acts: seq<Action>, sites: seq<Site>) {
    forall a <- acts :: a.Cont? && AllPlanted(a.mem, TrapAddrs(sites))
  }

  /** How many instructions of a thread the first pass runs. */
  function StepsDue(t: ThreadState, regs: Regs, sites: seq<Site>): nat {
    if t.state == Stopped && regs.pc in EnabledAddrs(sites) then 1 else 0
  }

  lemma {:induction false} StepsAppend(log: seq<Action>, acts: seq<Action>, tid: int)
    ensures Steps(log + acts, tid) == Steps(log, tid) + Steps(acts, tid)
    ensures Conts(log + acts, tid) == Conts(log, tid) + Conts(acts, tid)
  {
    if acts == [] {
      assert log + acts == log;
    } else {
      var init, last := acts[..|acts| - 1], acts[|acts| - 1];
      StepsAppend(log, init, tid);
      StepsPush(log + init, last, tid);
      StepsPush(init, last, tid);
      assert (log + init) + [last] == log + acts;
      assert init + [last] == acts;
    }
  }

  /** One step-over runs one instruction of its thread and none of any other. */
  lemma StepActsCount(acts: seq<Action>, tid: int, pc: U64, own: Mem, traps: set<int>, t: int)
    requires StepActs(acts, tid, pc, own, traps)
    ensures Steps(acts, t) == if t == tid then 1 else 0
  {
    var init, last := acts[..|acts| - 1], acts[|acts| - 1];
    StepsPush(init, last, t);
    assert init + [last] == acts;
    if |acts| == 2 {
      StepsPush([], acts[0], t);
      assert [] + [acts[0]] == init;
    } else {
      assert init == [];
    }
  }

  /** What a step-over lets run is what the first pass may let run. */
  lemma PartlyOverOnly(acts: seq<Action>, tid: int, pc: U64, own: Mem, sites: seq<Site>, regs: map<int, Regs>)
    requires PartlyOver(acts, tid, pc, pc, own, sites) && tid in regs && regs[tid].pc == pc
    requires forall s <- sites :: Trapped(s) ==> s.address in own
    ensures SteppingOnly(acts, regs, sites)
  {
    assert AllPlanted(Patched(own, TrapAddrs(sites) - {pc}), TrapAddrs(sites) - {pc});
    forall a <- acts
      ensures a == acts[0] || a == acts[|acts| - 1]
    {
    }
  }

  /** The first pass has run, for the threads no longer in `todo`, what is due. */
  ghost predicate PassOneAt(trace: seq<Action>, threads: map<int, ThreadState>, regs: map<int, Regs>, sites: seq<Site>, todo: set<int>)
    requires threads.Keys <= regs.Keys
  {
    && SteppingOnly(trace, regs, sites)
    && forall t <- threads :: Steps(trace, t) == if t in todo then 0 else StepsDue(threads[t], regs[t], sites)
  }

  /** Stepping one more thread over. `sites'` is enabled like `sites`. */
  lemma PassOneStep(trace: seq<Action>, acts: seq<Action>, threads: map<int, ThreadState>, regs: map<int, Regs>, own: Mem,
                    sites: seq<Site>, sites': seq<Site>, todo: set<int>, tid: int)
    requires threads.Keys <= regs.Keys && tid in todo && tid in threads && threads[tid].state == Stopped
    requires PassOneAt(trace, threads, regs, sites, todo)
    requires SameEnabled(sites, sites')
    requires SteppedOver(acts, tid, regs[tid].pc, regs[tid].pc, own, sites')
    requires forall s <- sites' :: Trapped(s) ==> s.address in own
    ensures PassOneAt(trace + acts, threads, regs, sites, todo - {tid})
  {
    SameEnabledAddrs(sites, sites');
    PartlyOverOnly(acts, tid, regs[tid].pc, own, sites', regs);
    var pc := regs[tid].pc;
    forall t <- threads
      ensures Steps(trace + acts, t) == if t in todo - {tid} then 0 else StepsDue(threads[t], regs[t], sites)
    {
      StepsAppend(trace, acts, t);
      if pc in EnabledAddrs(sites') {
        StepActsCount(acts, tid, pc, own, TrapAddrs(sites') - {pc}, t);
      }
    }
  }

  /** What a step-over that got stuck or failed adds to the first pass. */
  lemma PassOneStuck(trace: seq<Action>, acts: seq<Action>, regs: map<int, Regs>, own: Mem, sites: seq<Site>, sites': seq<Site>, tid: int)
    requires tid in regs && SteppingOnly(trace, regs, sites) && SameEnabled(sites, sites')
    requires PartlyOver(acts, tid, regs[tid].pc, regs[tid].pc, own, sites')
    requires forall s <- sites' :: Trapped(s) ==> s.address in own
    ensures SteppingOnly(trace + acts, regs, sites)
  {
    SameEnabledAddrs(sites, sites');
    PartlyOverOnly(acts, tid, regs[tid].pc, own, sites', regs);
  }

  /** One round of the first pass for a stopped thread: what it adds, and what holds after it if it got through. */
  lemma PassOneRound(done: seq<Action>, acts: seq<Action>, threads0: map<int, ThreadState>, threads: map<int, ThreadState>, threads': map<int, ThreadState>,
                     cache: map<int, Regs>, regs: map<int, Regs>, regs': map<int, Regs>, own: Mem,
                     sites0: seq<Site>, sites: seq<Site>, sites': seq<Site>, todo: set<int>, tid: int, finished: bool)
    requires threads0.Keys <= cache.Keys && tid in todo && todo <= threads0.Keys
    requires SameEnabled(sites0, sites) && SameStates(threads0, threads) && tid in threads && threads[tid].state == Stopped
    requires finished ==> threads' == threads || threads' == threads[tid := threads[tid].(pendingSigstop := false)]
    requires PassOneAt(done, threads0, cache, sites0, todo) && CacheHolds(threads, cache, regs, threads0.Keys - todo)
    requires forall s <- sites :: Trapped(s) ==> s.address in own
    requires tid in regs && PartlyOver(acts, tid, cache[tid].pc, regs[tid].pc, own, sites)
    requires finished ==> SteppedOver(acts, tid, cache[tid].pc, regs[tid].pc, own, sites) && SameBut(regs, regs', tid)
    ensures SteppingOnly(done + acts, cache, sites0)
    ensures finished ==> PassOneAt(done + acts, threads0, cache, sites0, todo - {tid})
    ensures finished ==> CacheHolds(threads', cache, regs', threads0.Keys - (todo - {tid}))
  {
    PassOneStuck(done, acts, cache, own, sites0, sites, tid);
    if finished {
      PassOneStep(done, acts, threads0, cache, own, sites0, sites, todo, tid);
    }
  }

  /** A step-over leaves the states of the threads alone. */
  lemma SameStatesStepped(threads0: map<int, ThreadState>, threads: map<int, ThreadState>, threads': map<int, ThreadState>, tid: int)
    requires SameStates(threads0, threads) && tid in threads
    requires threads' == threads || threads' == threads[tid := threads[tid].(pendingSigstop := false)]
    ensures SameStates(threads0, threads')
  {
  }

  /** A thread that is not stopped has nothing due. */
  lemma PassOneSkip(trace: seq<Action>, threads: map<int, ThreadState>, regs: map<int, Regs>, sites: seq<Site>, todo: set<int>, tid: int)
    requires threads.Keys <= regs.Keys && PassOneAt(trace, threads, regs, sites, todo)
    requires tid in threads && threads[tid].state != Stopped
    ensures PassOneAt(trace, threads, regs, sites, todo - {tid})
  {
  }

  /** The second pass has continued, once each, the stopped threads no longer in `todo`. */
  ghost predicate PassTwoAt(trace: seq<Action>, threads: map<int, ThreadState>, sites: seq<Site>, todo: set<int>) {
    && ContinuingOnly(trace, sites)
    && forall t <- threads :: Conts(trace, t) == if t in todo || threads[t].state != Stopped then 0 else 1
  }

  lemma PassTwoStep(trace: seq<Action>, a: Action, threads: map<int, ThreadState>, sites: seq<Site>, todo: set<int>)
    requires PassTwoAt(trace, threads, sites, todo)
    requires a.Cont? && a.tid in todo && a.tid in threads && threads[a.tid].state == Stopped
    requires AllPlanted(a.mem, TrapAddrs(sites))
    ensures PassTwoAt(trace + [a], threads, sites, todo - {a.tid})
  {
    forall t <- threads
      ensures Conts(trace + [a], t) == if t in todo - {a.tid} || threads[t].state != Stopped then 0 else 1
    {
      StepsPush(trace, a, t);
    }
  }

  lemma SameEnabledAddrs(sites: seq<Site>, sites': seq<Site>)
    requires SameEnabled(sites, sites')
    ensures TrapAddrs(sites) == TrapAddrs(sites') && EnabledAddrs(sites) == EnabledAddrs(sites')
  {
    SameEnabledSubset(sites, sites');
    SameEnabledSubset(sites', sites);
  }

  lemma SameEnabledTrans(a: seq<Site>, b: seq<Site>, c: seq<Site>)
    requires SameEnabled(a, b) && SameEnabled(b, c)
    ensures SameEnabled(a, c)
  {
  }

  lemma SameEnabledSubset(sites: seq<Site>, sites': seq<Site>)
    requires SameEnabled(sites, sites')
    ensures TrapAddrs(sites) <= TrapAddrs(sites') && EnabledAddrs(sites) <= EnabledAddrs(sites')
  {
    forall s | s in sites && s.isEnabled
      ensures s.address in EnabledAddrs(sites') && (Trapped(s) ==> s.address in TrapAddrs(sites'))
    {
      var k :| 0 <= k < |sites| && sites[k] == s;
      assert sites'[k] in sites' && sites'[k].address == s.address;
    }
  }
}
