/**
 Calling a function in the traced process: EvaluateExpression and the malloc call
 nested in it save the registers, borrow a breakpoint site at the entry point as
 the return address, and put everything back on every way out.
 */
module InferiorCalls {
  import opened Bytes
  import opened Memory
  import opened Tracee
  import opened DebugRegisters
  import opened Traps
  import opened Protocol
  import opened Stoppoints
  import opened Debugger

  /** What a call sets up: the registers of the thread, and bytes on its stack. */
  datatype Setup = Setup(regs: Regs, at: U64, bytes: seq<Byte>)

  /**
   How a call ends: back at a stop, an error once it was started, the end of the process, never started, or
   still blocked in wait4. Strayed is where the model stops following the code: memory was
   allocated, but the caches no longer describe the current thread.
   */
  datatype CallEnd = Back | Error | Gone | Refused | NeverEnds | Strayed

  predicate Started(end: CallEnd) {
    end == Back || end == Error || end == Gone
  }

  /** No site, and no return site, lies in the stack bytes of the setup. */
  predicate Clear(sites: seq<Site>, s: Setup) {
    forall t <- sites :: !(s.at <= t.address < s.at + |s.bytes|)
  }

  /** A deed of a call: the program runs, registers are loaded into thread tid, stack bytes of a setup are written as far as they can be. */
  predicate DeedFor(d: Deed, tid: int, all: seq<Setup>) {
    match d
    case Loaded(t, _) => t == tid
    case Wrote(at, bytes) => exists s <- all :: at == s.at && bytes <= s.bytes
    case _ => true
  }

  /** Nothing else happened in between. */
  ghost predicate ForCall(past: seq<Deed>, past': seq<Deed>, tid: int, all: seq<Setup>) {
    Grown(past, past') && forall k :: |past| <= k < |past'| ==> DeedFor(past'[k], tid, all)
  }

  lemma ForCallTrans(past: seq<Deed>, past': seq<Deed>, past'': seq<Deed>, tid: int, all: seq<Setup>)
    requires ForCall(past, past', tid, all) && ForCall(past', past'', tid, all)
    ensures ForCall(past, past'', tid, all)
  {
    assert past''[..|past|] == past'[..|past|];
    forall k | |past| <= k < |past''|
      ensures DeedFor(past''[k], tid, all)
    {
      assert k < |past'| ==> past''[k] == past''[..|past'|][k];
    }
  }

  /** Loading the registers and pushing the bytes of a setup. */
  lemma PreparedFor(past: seq<Deed>, past': seq<Deed>, tid: int, s: Setup, written: nat, all: seq<Setup>)
    requires s in all && written <= |s.bytes|
    requires past' == past + [Loaded(tid, s.regs)] + [Wrote(s.at, s.bytes[..written])]
    ensures ForCall(past, past', tid, all) && (NoneFound([], past') <==> NoneFound([], past))
  {
    forall k | 0 <= k < |past|
      ensures past'[k] == past[k]
    {
    }
    assert s.bytes[..written] <= s.bytes;
  }

  lemma LoadedFor(past: seq<Deed>, past': seq<Deed>, tid: int, regs: Regs, all: seq<Setup>)
    requires past' == past || past' == past + [Loaded(tid, regs)]
    ensures ForCall(past, past', tid, all) && (NoneFound([], past') <==> NoneFound([], past))
  {
    forall k | 0 <= k < |past|
      ensures past'[k] == past[k]
    {
    }
  }

  /** A step-over and the wait after it. */
  lemma CallRan(past: seq<Deed>, mid: seq<Deed>, past': seq<Deed>, tid: int, lifted: set<int>, traps: set<int>, all: seq<Setup>)
    requires Stepped(past, mid, tid, lifted) && Waited(mid, past', traps)
    ensures ForCall(past, past', tid, all)
    ensures NoneFound([], past') ==> NoneFound([], past) && NoneFound(mid, past')
  {
    assert past'[..|past|] == mid[..|past|] == past;
    forall k | 0 <= k < |past'|
      ensures k < |past| ==> past'[k] == past[k]
      ensures |past| <= k < |mid| ==> past'[k].Took?
      ensures |mid| <= k ==> Waiting(past', k, traps)
    {
      assert k < |mid| ==> past'[k] == past'[..|mid|][k];
    }
  }

  // ---------------------------------------------------------------- the call in the log

  /** The bytes are in memory at an address. */
  ghost predicate BytesAt(m: Mem, at: int, bytes: seq<Byte>) {
    forall a :: at <= a < at + |bytes| ==> a in m && m[a] == bytes[a - at]
  }

  /**
   The action runs thread tid from where the setup says: one instruction if a site is there,
   freely otherwise, with the traps of all sites but that in place, and if they could be
   written with the stack bytes in memory.
   */
  ghost predicate CalledBy(a: Action, tid: int, s: Setup, trapped: bool, traps: set<int>, written: bool) {
    && a.tid == tid && a.pc == s.regs.pc && (a.Step? <==> trapped)
    && AllPlanted(a.mem, traps - {s.regs.pc})
    && (written ==> BytesAt(a.mem, s.at, s.bytes))
  }

  ghost predicate Called(log: seq<Action>, log': seq<Action>, tid: int, s: Setup, trapped: bool, traps: set<int>, written: bool) {
    exists k :: |log| <= k < |log'| && CalledBy(log'[k], tid, s, trapped, traps, written)
  }

  /** A call stays in the log. */
  lemma CalledStays(before: seq<Action>, log: seq<Action>, log': seq<Action>, after: seq<Action>, tid: int, s: Setup, trapped: bool, traps: set<int>, written: bool)
    requires LogGrown(before, log) && LogGrown(log', after) && Called(log, log', tid, s, trapped, traps, written)
    ensures Called(before, after, tid, s, trapped, traps, written)
  {
    var k :| |log| <= k < |log'| && CalledBy(log'[k], tid, s, trapped, traps, written);
    assert after[k] == after[..|log'|][k];
  }

  /** The stack bytes are where no site is, so traps do not cover them. */
  lemma BytesUncovered(own: Mem, traps: set<int>, sites: seq<Site>, s: Setup)
    requires Clear(sites, s) && traps <= TrapAddrs(sites) && BytesAt(own, s.at, s.bytes)
    ensures BytesAt(Patched(own, traps), s.at, s.bytes)
  {
    forall a | s.at <= a < s.at + |s.bytes|
      ensures a in own && a !in traps
    {
      assert forall t <- sites :: t.address != a;
      assert a !in TrapAddrs(sites);
    }
  }

  /** Bytes that can be written are there afterwards. */
  lemma BytesWritten(own: Mem, mem: Mem, s: Setup)
    requires own.Keys == mem.Keys && WordsMapped(mem, s.at, |s.bytes|)
    ensures BytesAt(WriteBytes(own, s.at, s.bytes), s.at, s.bytes)
  {
    forall a | s.at <= a < s.at + |s.bytes|
      ensures a in own
    {
      assert WordMapped(mem, a);
      assert a in mem.Keys;
    }
  }

  /** A step-over and a continue of the thread are the call. */
  lemma RunCalled(log: seq<Action>, acts: seq<Action>, act: Action, log': seq<Action>, tid: int, own: Mem, sites: seq<Site>, s: Setup, written: bool)
    requires log' == log + acts + [act] && SteppedOver(acts, tid, s.regs.pc, s.regs.pc, own, sites)
    requires forall t <- sites :: Trapped(t) ==> t.address in own
    requires s.regs.pc !in EnabledAddrs(sites) ==>
      act.Cont? && act.tid == tid && act.pc == s.regs.pc && act.mem == Patched(own, TrapAddrs(sites))
    requires Clear(sites, s) && (written ==> BytesAt(own, s.at, s.bytes))
    ensures Called(log, log', tid, s, s.regs.pc in EnabledAddrs(sites), TrapAddrs(sites), written)
  {
    var traps, pc := TrapAddrs(sites), s.regs.pc;
    if pc in EnabledAddrs(sites) {
      var k := |log| + |acts| - 1;
      assert log'[k] == acts[|acts| - 1] == Step(tid, pc, Patched(own, traps - {pc}));
      if written {
        BytesUncovered(own, traps - {pc}, sites, s);
      }
      assert CalledBy(log'[k], tid, s, true, traps, written);
    } else {
      assert log'[|log|] == act;
      if written {
        BytesUncovered(own, traps, sites, s);
      }
      assert CalledBy(log'[|log|], tid, s, false, traps, written);
    }
  }

  // ---------------------------------------------------------------- the borrowed site

  /**
   `now` is `before` with the return site borrowed: site i with another hit handler if
   it existed, and an additional enabled software site at the end if it did not.
   */
  predicate Borrowed(before: seq<Site>, now: seq<Site>, i: nat, existed: bool, handler: Option<bool>) {
    && i < |now|
    && (if existed then SameEnabled(before, now[i := now[i].(onHit := handler)])
        else |now| == i + 1 && SameEnabled(before, now[..i]) && now[i].isEnabled && !now[i].isHardware)
  }

  lemma BorrowedStays(before: seq<Site>, now: seq<Site>, later: seq<Site>, i: nat, existed: bool, handler: Option<bool>)
    requires Borrowed(before, now, i, existed, handler) && SameEnabled(now, later)
    ensures Borrowed(before, later, i, existed, handler)
  {
    if existed {
      var a, b := now[i := now[i].(onHit := handler)], later[i := later[i].(onHit := handler)];
      forall k | 0 <= k < |before|
        ensures SameSite(before[k], b[k]) && before[k].isEnabled == b[k].isEnabled
      {
        assert SameSite(before[k], a[k]) && SameSite(now[k], later[k]);
      }
    } else {
      forall k | 0 <= k < |before|
        ensures SameSite(before[k], later[..i][k]) && before[k].isEnabled == later[..i][k].isEnabled
      {
        assert SameSite(before[k], now[..i][k]) && SameSite(now[k], later[k]);
      }
    }
  }

  /** A hit handler matters neither to the overlay nor to the slots. */
  lemma HandlerKeepsTraps(own: Mem, mem: Mem, sites: seq<Site>, i: nat, h: Option<bool>)
    requires i < |sites| && Distinct(sites) && Overlaid(own, mem, sites)
    ensures Distinct(sites[i := sites[i].(onHit := h)]) && Overlaid(own, mem, sites[i := sites[i].(onHit := h)])
  {
    var s := sites[i].(onHit := h);
    TrapAddrsUpdate(sites, i, s);
    Updated(sites, i, s);
    assert sites[i] in sites;
    assert TrapAddrs(sites[i := s]) == TrapAddrs(sites);
  }

  lemma HandlerKeepsSlots(d: DebugRegs, sites: seq<Site>, wps: seq<Watchpoint>, owner: map<int, Owner>, i: nat, h: Option<bool>)
    requires i < |sites| && SlotsOk(d, sites, wps, owner)
    ensures SlotsOk(d, sites[i := sites[i].(onHit := h)], wps, owner)
  {
    var s := sites[i].(onHit := h);
    var sites' := sites[i := s];
    Updated(sites, i, s);
    assert sites[i] in sites;
    forall j <- owner
      ensures Claimed(owner[j], j, sites', wps)
    {
      assert Claimed(owner[j], j, sites, wps);
    }
  }

  /** Borrowing the return site matters to no hardware site. */
  lemma TakesBackBorrowed(before: seq<Site>, now: seq<Site>, i: nat, existed: bool, handler: Option<bool>, pc: U64, d: DebugRegs)
    requires Borrowed(before, now, i, existed, handler) && KeptSlots(before, now)
    ensures TakesBack(before, pc, d) <==> TakesBack(now, pc, d)
  {
    forall k | 0 <= k < |before|
      ensures before[k].address == now[k].address && UsesSlot(before[k]) == UsesSlot(now[k])
    {
      assert SameSite(before[k], if existed then now[i := now[i].(onHit := handler)][k] else now[..i][k]);
    }
    if TakesBack(before, pc, d) {
      forall s <- now | UsesSlot(s) && s.address == pc
        ensures InLowestSlot(s, d)
      {
        var k :| 0 <= k < |now| && now[k] == s;
        assert before[k] in before;
      }
    }
    if TakesBack(now, pc, d) {
      forall s <- before | UsesSlot(s) && s.address == pc
        ensures InLowestSlot(s, d)
      {
        var k :| 0 <= k < |before| && before[k] == s;
        assert now[k] in now;
      }
    }
  }

  lemma KeptTrans(before: seq<Site>, now: seq<Site>, later: seq<Site>, i: nat, existed: bool, handler: Option<bool>)
    requires Borrowed(before, now, i, existed, handler) && KeptSlots(before, now) && KeptSlots(now, later)
    ensures KeptSlots(before, later)
  {
    forall k | 0 <= k < |before| && UsesSlot(before[k])
      ensures later[k].slot == before[k].slot
    {
      assert SameSite(before[k], if existed then now[i := now[i].(onHit := handler)][k] else now[..i][k]);
    }
  }

  /** The thread starts on an enabled site, counting the one that will be borrowed at the entry point. */
  ghost predicate AtSite(sites: seq<Site>, entry: U64, pc: U64) {
    pc in EnabledAddrs(sites) || (pc == entry && !HasSite(sites, entry))
  }

  /** Borrowing the return site adds one enabled address at most, whose site can be disabled. */
  lemma BorrowedAddrs(before: seq<Site>, now: seq<Site>, i: nat, existed: bool, handler: Option<bool>, pc: U64, own: Mem)
    requires Borrowed(before, now, i, existed, handler) && (existed <==> HasSite(before, now[i].address)) && Mapped(own, now[i].address, 8)
    ensures pc in EnabledAddrs(now) <==> AtSite(before, now[i].address, pc)
    ensures TrapAddrs(before) <= TrapAddrs(now)
    ensures CannotStep(now, pc, true, own) <==> CannotStep(before, pc, true, own)
  {
    var back := GivenBack(now, i, existed, handler);
    SameEnabledAddrs(before, back);
    CannotStepSame(before, back, pc, true, own);
    forall k | 0 <= k < |back|
      ensures SameButHandler(now[k], back[k])
    {
    }
    SameUpToHandlers(now, back, i, existed, pc, own);
  }

  /** Borrowing again adds nothing. */
  lemma AtBorrowed(before: seq<Site>, now: seq<Site>, i: nat, existed: bool, handler: Option<bool>, entry: U64, pc: U64)
    requires Borrowed(before, now, i, existed, handler) && now[i].address == entry
    ensures AtSite(now, entry, pc) <==> pc in EnabledAddrs(now)
  {
    assert now[i] in now;
  }

  /** The malloc call, if there is one, is in the log. */
  ghost predicate MallocCalled(log: seq<Action>, log': seq<Action>, tid: int, malloc: Option<Setup>, sites: seq<Site>, entry: U64, own: Mem) {
    malloc.Some? ==>
      var s := malloc.value;
      Called(log, log', tid, s, AtSite(sites, entry, s.regs.pc), TrapAddrs(sites), WordsMapped(own, s.at, |s.bytes|))
  }

  lemma SlotStays(log: seq<Action>, log': seq<Action>, after: seq<Action>, tid: int, malloc: Option<Setup>, sites: seq<Site>, entry: U64, own: Mem)
    requires MallocCalled(log, log', tid, malloc, sites, entry, own) && LogGrown(log', after)
    ensures MallocCalled(log, after, tid, malloc, sites, entry, own)
  {
    if malloc.Some? {
      var s := malloc.value;
      CalledStays(log, log, log', after, tid, s, AtSite(sites, entry, s.regs.pc), TrapAddrs(sites), WordsMapped(own, s.at, |s.bytes|));
    }
  }

  /** Two sites that differ in the hit handler at most. */
  predicate SameButHandler(s: Site, t: Site) {
    t == s.(onHit := t.onHit)
  }

  lemma SameUpToHandlers(now: seq<Site>, back: seq<Site>, i: nat, existed: bool, pc: U64, own: Mem)
    requires i < |now| && |back| == (if existed then |now| else i) && forall k :: 0 <= k < |back| ==> SameButHandler(now[k], back[k])
    requires existed || (|now| == i + 1 && now[i].isEnabled && !now[i].isHardware && Mapped(own, now[i].address, 8))
    ensures pc in EnabledAddrs(now) <==> pc in EnabledAddrs(back) || (!existed && pc == now[i].address)
    ensures TrapAddrs(back) <= TrapAddrs(now)
    ensures CannotStep(now, pc, true, own) <==> CannotStep(back, pc, true, own)
  {
    assert forall k :: 0 <= k < |back| ==> now[k] in now && back[k] in back;
    assert !existed ==> now[i] in now;
    forall s <- now
      ensures (exists k :: 0 <= k < |back| && now[k] == s) || (!existed && s == now[i])
    {
      var k :| 0 <= k < |now| && now[k] == s;
    }
  }

  /** With fewer traps to be planted, and the same otherwise. */
  lemma CalledWith(log: seq<Action>, log': seq<Action>, tid: int, s: Setup, trapped: bool, traps: set<int>, fewer: set<int>, written: bool)
    requires Called(log, log', tid, s, trapped, traps, written) && fewer <= traps
    ensures Called(log, log', tid, s, trapped, fewer, written)
  {
    var k :| |log| <= k < |log'| && CalledBy(log'[k], tid, s, trapped, traps, written);
    assert CalledBy(log'[k], tid, s, trapped, fewer, written);
  }

  /** Site i is one that can be given back: if it did not exist before, an enabled software site at the end of the list. */
  predicate Lent(now: seq<Site>, i: nat, existed: bool) {
    i < |now| && (existed || (|now| == i + 1 && now[i].isEnabled && !now[i].isHardware))
  }

  lemma LentStays(now: seq<Site>, later: seq<Site>, i: nat, existed: bool)
    requires Lent(now, i, existed) && SameEnabled(now, later)
    ensures Lent(later, i, existed) && later[i].address == now[i].address
  {
    assert SameSite(now[i], later[i]);
  }

  /** The list of sites with the return site given back. */
  function GivenBack(now: seq<Site>, i: nat, existed: bool, handler: Option<bool>): seq<Site>
    requires i < |now|
  {
    if existed then now[i := now[i].(onHit := handler)] else now[..i]
  }

  /** A call that keeps the sites, between borrowing the return site and giving it back. */
  lemma PutBackSame(before: seq<Site>, lent: seq<Site>, mid: seq<Site>, i: nat, existed: bool, handler: Option<bool>)
    requires Borrowed(before, lent, i, existed, handler) && KeptSlots(before, lent) && SameEnabled(lent, mid)
    ensures i < |mid| && mid[i].address == lent[i].address
    ensures SameEnabled(before, GivenBack(mid, i, existed, handler))
    ensures KeptSlots(lent, mid) ==> KeptSlots(before, GivenBack(mid, i, existed, handler))
  {
    BorrowedStays(before, lent, mid, i, existed, handler);
    assert SameSite(lent[i], mid[i]);
    forall k | 0 <= k < |before| && UsesSlot(before[k]) && KeptSlots(lent, mid)
      ensures GivenBack(mid, i, existed, handler)[k].slot == before[k].slot
    {
      assert SameSite(before[k], GivenBack(lent, i, existed, handler)[k]);
    }
  }

  /** An entry that is only kept where it differs from the rule. */
  function Put<V>(m: map<int, V>, key: int, asRuled: bool, v: V): (r: map<int, V>)
    ensures m.Keys <= {key} ==> r == if asRuled then map[] else map[key := v]
    ensures m.Keys <= {key} ==> (r == map[] <==> asRuled)
  {
    assert !asRuled ==> key in m[key := v];
    if asRuled then m - {key} else m[key := v]
  }

  predicate HasSite(sites: seq<Site>, addr: U64) {
    exists s <- sites :: s.address == addr
  }

  lemma HasSiteStays(now: seq<Site>, later: seq<Site>, i: nat)
    requires SameEnabled(now, later) && i < |now|
    ensures later[i].address == now[i].address && HasSite(later, now[i].address)
  {
    assert SameSite(now[i], later[i]) && later[i] in later;
  }

  /** The first site at an address. */
  method SiteAt(sites: seq<Site>, addr: U64) returns (r: Option<int>)
    ensures r.Some? ==> 0 <= r.value < |sites| && sites[r.value].address == addr
    ensures r.None? ==> forall s <- sites :: s.address != addr
  {
    for i := 0 to |sites|
      invariant forall j :: 0 <= j < i ==> sites[j].address != addr
    {
      if sites[i].address == addr {
        return Some(i);
      }
    }
    r := None;
  }

  class Target {
    const process: Process

    constructor (process: Process)
      ensures this.process == process
    {
      this.process := process;
    }

    /** The entry point is mapped; what is mapped never changes. */
    ghost predicate EntryMapped(entry: U64)
      reads this
    {
      Mapped(process.start.own, entry, 8)
    }

    /**
     All that has happened since: the program ran, registers of thread tid alone were loaded, and
     nothing was written but the stack bytes of a call. Overlay, slots and history are intact, and
     if no thread was ever found, all tracked ones still hold the same debug registers.
     */
    twostate predicate Followed(tid: int, all: seq<Setup>)
      reads process, process.kernel
    {
      && process.InKernel() && process.History() && ForCall(old(process.past), process.past, tid, all)
      && (old(process.Fixed()) ==> process.Fixed())
      && (old(process.missed) ==> process.missed) && LogGrown(old(process.kernel.log), process.kernel.log)
    }

    /**
     How a call ends, and why: still blocked only when wait4 has nothing to report, an error only when
     the step-over could not be, the end only of the process. `cannot` says that the call starts on a site
     that cannot be disabled.
     */
    ghost predicate EndsFor(end: CallEnd, cannot: bool)
      reads process, process.kernel
    {
      && (end == NeverEnds ==> process.kernel.Stuck())
      && (end == Error ==> process.missed || cannot)
      && (end == Gone ==> process.missed || process.pid !in process.kernel.running)
      && (Started(end) && end != Error ==> !cannot)
    }

    /** InstallHitHandler. */
    method InstallHitHandler(i: nat, h: Option<bool>)
      requires process.InKernel() && i < |process.sites|
      modifies process`sites
      ensures process.InKernel() && process.sites == old(process.sites)[i := old(process.sites)[i].(onHit := h)]
    {
      ghost var s := process.sites[i].(onHit := h);
      HandlerKeepsTraps(process.own, process.kernel.mem, process.sites, i, h);
      Updated(process.sites, i, s);
      assert process.sites[i] in process.sites;
      if process.covered != {} {
        HandlerKeepsSlots(process.canon, process.sites, process.watchpoints, process.owner, i, h);
      }
      process.sites := process.sites[i := process.sites[i].(onHit := h)];
    }

    // ---------------------------------------------------------------- before the call

    /** A new internal site at the entry point, enabled. */
    method AddReturnSite(entry: U64)
      requires process.SitesOk() && Mapped(process.kernel.mem, entry, 8) && forall s <- process.sites :: s.address != entry
      modifies process`sites, process`nextBreakpointId, process`dregs, process`covered, process`canon, process`owner, process.kernel`mem
      ensures process.SitesOk() && |process.sites| == |old(process.sites)| + 1
      ensures process.dregs == old(process.dregs) && process.covered == old(process.covered)
      ensures process.sites[..|old(process.sites)|] == old(process.sites)
      ensures process.sites[|old(process.sites)|].isEnabled && !process.sites[|old(process.sites)|].isHardware
      ensures process.sites[|old(process.sites)|].address == entry
    {
      var r := process.CreateBreakpointSite(entry, false, true);
      assert r.Some?;
      ghost var created := process.sites;
      var ok := process.EnableSite(r.value);
      assert ok && process.sites[..r.value] == created[..r.value];
    }

    /** The return site: the one at the entry point or a new one, with a handler that stops. */
    method Borrow(entry: U64) returns (i: nat, existed: bool, handler: Option<bool>)
      requires process.SitesOk() && Mapped(process.kernel.mem, entry, 8)
      modifies process`sites, process`nextBreakpointId, process`dregs, process`covered, process`canon, process`owner, process.kernel`mem
      ensures process.SitesOk() && Borrowed(old(process.sites), process.sites, i, existed, handler)
      ensures process.sites[i].address == entry
      ensures process.dregs == old(process.dregs) && process.covered == old(process.covered)
      ensures KeptSlots(old(process.sites), process.sites) && (existed <==> HasSite(old(process.sites), entry))
    {
      ghost var before := process.sites;
      var found := SiteAt(process.sites, entry);
      existed := found.Some?;
      if existed {
        i := found.value;
      } else {
        i := |process.sites|;
        AddReturnSite(entry);
      }
      handler := process.sites[i].onHit;
      ghost var list := process.sites;
      InstallHitHandler(i, Some(false));
      assert existed ==> process.sites[i := process.sites[i].(onHit := handler)] == before;
      assert !existed ==> process.sites[..i] == list[..i];
      assert forall k :: 0 <= k < |before| ==> before[k] == list[..|before|][k];
    }

    /** Borrow at a prompt, which it stays. */
    method BorrowAtPrompt(entry: U64, ghost tid: int, ghost all: seq<Setup>) returns (i: nat, existed: bool, handler: Option<bool>)
      requires process.AtPrompt() && EntryMapped(entry)
      modifies process`sites, process`nextBreakpointId, process`dregs, process`covered, process`canon, process`owner, process.kernel`mem
      ensures process.AtPrompt() && Followed(tid, all)
      ensures Borrowed(old(process.sites), process.sites, i, existed, handler) && process.sites[i].address == entry
      ensures process.Copy() == old(process.Copy()) && process.Current() == old(process.Current())
      ensures KeptSlots(old(process.sites), process.sites) && (existed <==> HasSite(old(process.sites), entry))
    {
      process.SameMapped(entry, 8);
      assert ForCall(process.past, process.past, tid, all);
      assert process.SitesOk() && process.History() && process.currentThread in process.regs;
      hide Overlaid, SlotsOk, TableOk, CacheHolds, ForCall, NoneFound, KeptSlots, Borrowed, Distinct, DistinctWatches, Replays, ReasonsOk, AllStopped, Process.AtPrompt;
      ghost var saved, d := process.Copy(), process.Current();
      i, existed, handler := Borrow(entry);
      assert process.Current() == d && process.Copy() == saved;
      process.StillAtPrompt();
      assert process.Fixed() == old(process.Fixed());
    }

    /** The registers of a thread, in the cache and in the tracee. */
    method LoadRegisters(tid: int, r: Regs)
      requires process.Keyed() && process.History() && tid in process.regs
      modifies process`regs, process`past, process.kernel`regs
      ensures process.Keyed() && process.regs == old(process.regs)[tid := r] && process.kernel.regs == old(process.kernel.regs)[tid := r]
      ensures process.History() && process.past == old(process.past) + [Loaded(tid, r)]
      ensures old(process.Cached()) ==> process.Cached()
    {
      ReplayPush(process.replay, process.start, process.past, Loaded(tid, r));
      process.regs := process.regs[tid := r];
      process.kernel.SetRegs(Binding(process.boundTo, tid), r);
      process.past := process.past + [Loaded(tid, r)];
    }

    /** Bytes on the stack; the program's own memory changes alike. */
    method PushBytes(s: Setup) returns (ok: bool, ghost written: nat)
      requires process.TrapsOk() && process.History() && Clear(process.sites, s)
      modifies process`own, process`past, process.kernel`mem
      ensures process.TrapsOk() && process.History()
      ensures ok <==> WordsMapped(old(process.kernel.mem), s.at, |s.bytes|)
      ensures written <= |s.bytes| && process.own == WriteBytes(old(process.own), s.at, s.bytes[..written])
      ensures (ok <==> written == |s.bytes|) && process.past == old(process.past) + [Wrote(s.at, s.bytes[..written])]
    {
      ghost var before := process.kernel.mem;
      ok, written := process.WriteMemory(s.at, s.bytes);
      ghost var deed := Wrote(s.at, s.bytes[..written]);
      WriteKeepsOverlay(process.own, before, process.sites, s.at, s.bytes[..written]);
      ReplayPush(process.replay, process.start, process.past, deed);
      process.own := WriteBytes(process.own, s.at, s.bytes[..written]);
      process.past := process.past + [deed];
    }

    /** LoadRegisters at a prompt, which it stays. */
    method LoadAtPrompt(r: Regs)
      requires process.AtPrompt()
      modifies process`regs, process`past, process.kernel`regs
      ensures process.AtPrompt() && process.regs[process.currentThread] == r
      ensures process.past == old(process.past) + [Loaded(process.currentThread, r)]
    {
      hide Overlaid, SlotsOk, TableOk;
      LoadRegisters(process.currentThread, r);
    }

    /** PushBytes at a prompt, which it stays. */
    method PushAtPrompt(s: Setup) returns (ok: bool, ghost written: nat)
      requires process.AtPrompt() && Clear(process.sites, s)
      modifies process`own, process`past, process.kernel`mem
      ensures process.AtPrompt() && written <= |s.bytes|
      ensures process.past == old(process.past) + [Wrote(s.at, s.bytes[..written])]
      ensures ok <==> WordsMapped(process.start.own, s.at, |s.bytes|)
      ensures ok ==> BytesAt(process.own, s.at, s.bytes)
    {
      process.SameWords(s.at, |s.bytes|);
      ghost var own0, mem0 := process.own, process.kernel.mem;
      assert own0.Keys == mem0.Keys;
      hide Overlaid, SlotsOk, TableOk, CacheHolds, BytesAt, Clear;
      ok, written := PushBytes(s);
      if ok {
        assert s.bytes[..|s.bytes|] == s.bytes;
        BytesWritten(own0, mem0, s);
      }
    }

    /** The registers of the current thread and the stack bytes; false when the bytes cannot be written. */
    method Prepare(s: Setup, ghost all: seq<Setup>) returns (ok: bool)
      requires process.AtPrompt() && Clear(process.sites, s) && s in all
      modifies process`regs, process`own, process`past, process.kernel`regs, process.kernel`mem
      ensures process.AtPrompt() && process.regs[process.currentThread] == s.regs
      ensures Followed(process.currentThread, all)
      ensures ok <==> WordsMapped(process.start.own, s.at, |s.bytes|)
      ensures ok ==> BytesAt(process.own, s.at, s.bytes)
    {
      hide Overlaid, SlotsOk, TableOk, CacheHolds, BytesAt, WordsMapped, Clear, ForCall, NoneFound;
      ghost var past0, written := process.past, 0;
      LoadAtPrompt(s.regs);
      ok, written := PushAtPrompt(s);
      PreparedFor(past0, process.past, process.currentThread, s, written, all);
    }

    // ---------------------------------------------------------------- the call

    /** Stepping over the site at pc left the debug registers of the thread, and every slot, as they were exactly if the slot was taken back. */
    twostate predicate Retook(tid: int, pc: U64)
      reads process`dregs, process`sites
    {
      Retaking(old(process.sites), pc, old(DebugRegsOf(process.dregs, tid)), DebugRegsOf(process.dregs, tid), process.sites)
    }

    /** The threads that were tracked and held the same debug registers still do, if the current one was among them. */
    twostate predicate StillCovered()
      reads process
    {
      old(process.currentThread in process.covered) ==> old(process.covered) * old(process.threads).Keys <= process.covered
    }

    /** How resuming ends, and why. */
    ghost predicate EndsAs(r: Outcome, cannot: bool)
      reads process, process.kernel
    {
      && (r == Hung ==> process.kernel.Stuck())
      && (r == Failed ==> process.missed || cannot)
      && (r == Done ==> !cannot)
    }

    /** The first half of Resume. */
    method StepCurrentOver() returns (r: Outcome, ghost acts: seq<Action>)
      requires process.AtPrompt()
      modifies process`threads, process`sites, process`dregs, process`covered, process`canon, process`owner, process`own
      modifies process`past, process`missed, process.kernel
      ensures process.SitesOk() && process.History() && StillCovered() && process.threads.Keys == old(process.threads).Keys
      ensures Stepped(old(process.past), process.past, process.currentThread,
                      TrapAddrs(old(process.sites)) - {process.regs[process.currentThread].pc})
      ensures r != Hung ==> SameEnabled(old(process.sites), process.sites) && process.TableAgrees() && process.Keyed()
      ensures r != Hung ==> AllStopped(process.threads)
      ensures old(process.missed) ==> process.missed
      ensures process.kernel.log == old(process.kernel.log) + acts
      ensures EndsAs(r, CannotStep(old(process.sites), process.regs[process.currentThread].pc, true, process.start.own))
      ensures r == Done && !process.missed ==>
        var pc := process.regs[process.currentThread].pc;
        && SteppedOver(acts, process.currentThread, pc, pc, old(process.own), old(process.sites))
        && (pc !in EnabledAddrs(old(process.sites)) ==> process.kernel.PcOf(process.currentThread) == pc && process.own == old(process.own))
      ensures r != Hung ==> Retook(process.currentThread, process.regs[process.currentThread].pc)
      ensures r == Done && !process.missed ==> process.CachedBut(process.currentThread)
    {
      hide Overlaid, SlotsOk, TableOk, SameEnabled, TakesBack, KeptSlots;
      r, acts := process.StepOverBreakpointForThread(process.currentThread);
    }

    /** The second half of Resume. */
    method ContinueCurrent() returns (ok: bool, ghost act: Action)
      requires process.SitesOk() && process.Keyed() && process.TableAgrees()
      requires AllStopped(process.threads) && process.currentThread in process.threads
      modifies process`threads, process`state, process.kernel`running, process.kernel`log
      ensures process.Keyed() && process.TableAgrees() && AllAlive(process.threads) && process.threads.Keys == old(process.threads).Keys
      ensures !process.missed ==> ok
      ensures ok ==> process.kernel.log == old(process.kernel.log) + [act]
      ensures !ok ==> process.kernel.log == old(process.kernel.log)
      ensures act.Cont? && act.tid == process.currentThread && act.pc == old(process.kernel.PcOf(process.currentThread))
      ensures act.mem == Patched(process.own, TrapAddrs(process.sites))
      ensures ok && old(process.CachedBut(process.currentThread)) ==> process.Cached()
    {
      ok, act := process.ContinueThread(process.currentThread);
    }

    /** Resume: the current thread alone, stepped over the site it sits on. */
    method Resume() returns (r: Outcome, ghost acts: seq<Action>, ghost act: Action)
      requires process.AtPrompt()
      modifies process`threads, process`sites, process`dregs, process`covered, process`canon, process`owner, process`own
      modifies process`past, process`missed, process`state, process.kernel
      ensures process.SitesOk() && process.History() && StillCovered() && process.threads.Keys == old(process.threads).Keys
      ensures Stepped(old(process.past), process.past, process.currentThread,
                      TrapAddrs(old(process.sites)) - {process.regs[process.currentThread].pc})
      ensures old(process.missed) ==> process.missed
      ensures process.kernel.log == old(process.kernel.log) + acts + if r == Done then [act] else []
      ensures EndsAs(r, CannotStep(old(process.sites), process.regs[process.currentThread].pc, true, process.start.own))
      ensures r == Done && !process.missed ==>
        var pc := process.regs[process.currentThread].pc;
        && SteppedOver(acts, process.currentThread, pc, pc, old(process.own), old(process.sites))
        && (pc !in EnabledAddrs(old(process.sites)) ==>
              act.Cont? && act.tid == process.currentThread && act.pc == pc && act.mem == Patched(old(process.own), TrapAddrs(old(process.sites))))
      ensures r != Hung ==> SameEnabled(old(process.sites), process.sites) && process.TableAgrees() && process.Keyed()
      ensures r != Hung ==> AllAlive(process.threads)
      ensures r != Hung ==> Retook(process.currentThread, process.regs[process.currentThread].pc)
      ensures r == Done && !process.missed ==> process.Cached()
    {
      hide Overlaid, SlotsOk, TableOk, SameEnabled, TakesBack, KeptSlots, Retaking, Stepped, CannotStep, SteppedOver, Patched, CacheHolds, EnabledAddrs, TrapAddrs;
      ghost var sites0 := process.sites;
      r, acts := StepCurrentOver();
      act := Cont(0, 0, map[], false);
      if r == Done {
        SameEnabledAddrs(sites0, process.sites);
        var ok;
        ok, act := ContinueCurrent();
        r := if ok then Done else Failed;
      }
    }

    /** The same, for a thread that was set up for a call. */
    method ResumeSetup(ghost s: Setup, ghost written: bool) returns (r: Outcome)
      requires process.AtPrompt() && process.regs[process.currentThread].pc == s.regs.pc
      requires Clear(process.sites, s) && (written ==> BytesAt(process.own, s.at, s.bytes))
      modifies process`threads, process`sites, process`dregs, process`covered, process`canon, process`owner, process`own
      modifies process`past, process`missed, process`state, process.kernel
      ensures process.SitesOk() && process.History() && StillCovered() && process.threads.Keys == old(process.threads).Keys
      ensures Stepped(old(process.past), process.past, process.currentThread, TrapAddrs(old(process.sites)) - {s.regs.pc})
      ensures (old(process.missed) ==> process.missed) && LogGrown(old(process.kernel.log), process.kernel.log)
      ensures EndsAs(r, CannotStep(old(process.sites), s.regs.pc, true, process.start.own))
      ensures r == Done && !process.missed ==>
        Called(old(process.kernel.log), process.kernel.log, process.currentThread, s, s.regs.pc in EnabledAddrs(old(process.sites)),
               TrapAddrs(old(process.sites)), written)
      ensures r != Hung ==> SameEnabled(old(process.sites), process.sites) && process.TableAgrees() && process.Keyed()
      ensures r != Hung ==> AllAlive(process.threads)
      ensures r != Hung ==> Retook(process.currentThread, s.regs.pc)
      ensures r == Done && !process.missed ==> process.Cached()
    {
      assert forall t <- process.sites :: Trapped(t) ==> t.address in process.own;
      hide Overlaid, SlotsOk, TableOk, SameEnabled, TakesBack, KeptSlots, Retaking, Stepped, CannotStep, SteppedOver, Called, Clear, BytesAt, Patched, CacheHolds, EnabledAddrs, TrapAddrs;
      ghost var sites0, own0, log0, acts, act := process.sites, process.own, process.kernel.log, [], Cont(0, 0, map[], false);
      r, acts, act := Resume();
      if r == Done && !process.missed {
        RunCalled(log0, acts, act, process.kernel.log, process.currentThread, own0, sites0, s, written);
      }
    }

    /** WaitOnSignal, for a thread that was resumed. */
    method AwaitReturn() returns (end: CallEnd)
      requires process.SitesOk() && process.Keyed() && process.TableAgrees() && process.History() && AllAlive(process.threads)
      requires !process.missed ==> process.Cached()
      modifies process`threads, process`own, process`past, process`state, process`regs, process`currentThread, process.kernel
      ensures process.SitesOk() && process.Keyed() && process.History() && LogGrown(old(process.kernel.log), process.kernel.log)
      ensures Waited(old(process.past), process.past, TrapAddrs(process.sites))
      ensures NoneFound(old(process.past), process.past) ==> process.threads.Keys <= old(process.threads).Keys
      ensures (end == NeverEnds && process.kernel.Stuck()) || end == Back || (end == Gone && (process.missed || process.pid !in process.kernel.running))
      ensures end != NeverEnds ==> process.currentThread == old(process.currentThread) || process.currentThread in process.threads
      ensures end == Back ==> process.Halted() && process.currentThread in process.threads
    {
      hide Overlaid, SlotsOk, TableOk, CacheHolds, MainWait, Waited, NoneFound, LogGrown, Replays;
      var reason, n, last := process.WaitOnSignalFor(None);
      end := if reason.None? then NeverEnds else if reason.value.reason == Stopped then Back else Gone;
    }

    /** Resume the call and wait for it to come back; from `mid` on nothing but waiting happened. */
    method ResumeAndWait(ghost s: Setup, ghost written: bool) returns (end: CallEnd, ghost mid: seq<Deed>)
      requires process.AtPrompt() && process.regs[process.currentThread].pc == s.regs.pc
      requires Clear(process.sites, s) && (written ==> BytesAt(process.own, s.at, s.bytes))
      modifies process`threads, process`sites, process`dregs, process`covered, process`canon, process`owner, process`own
      modifies process`past, process`missed, process`state, process`regs, process`currentThread, process.kernel
      ensures process.SitesOk() && process.History() && StillCovered() && (Started(end) || end == NeverEnds)
      ensures Stepped(old(process.past), mid, old(process.currentThread),
                      TrapAddrs(old(process.sites)) - {old(process.regs[process.currentThread]).pc})
      ensures Waited(mid, process.past, TrapAddrs(old(process.sites)))
      ensures NoneFound(mid, process.past) ==> process.threads.Keys <= old(process.threads).Keys
      ensures (old(process.missed) ==> process.missed) && LogGrown(old(process.kernel.log), process.kernel.log)
      ensures EndsFor(end, CannotStep(old(process.sites), s.regs.pc, true, process.start.own))
      ensures end == Back && !process.missed ==>
        Called(old(process.kernel.log), process.kernel.log, old(process.currentThread), s, s.regs.pc in EnabledAddrs(old(process.sites)),
               TrapAddrs(old(process.sites)), written)
      ensures Started(end) ==> SameEnabled(old(process.sites), process.sites) && process.Keyed()
      ensures Started(end) ==> Retook(old(process.currentThread), old(process.regs[process.currentThread]).pc)
      ensures Started(end) ==> process.currentThread == old(process.currentThread) || process.currentThread in process.threads
      ensures end == Back ==> process.Halted() && process.currentThread in process.threads
    {
      hide Overlaid, SlotsOk, TableOk, SameEnabled, TakesBack, KeptSlots, Retaking, Stepped, CannotStep, Called, Clear, BytesAt, MainWait, ReasonsOk, AllStopped, EnabledAddrs, TrapAddrs, LogGrown, Waited, NoneFound, CacheHolds, Distinct, DistinctWatches, Replays;
      ghost var sites0, log0, tid := process.sites, process.kernel.log, process.currentThread;
      var r := ResumeSetup(s, written);
      mid := process.past;
      WaitedNone(mid, TrapAddrs(sites0));
      end := if r == Hung then NeverEnds else Error;
      if r == Done {
        SameEnabledAddrs(sites0, process.sites);
        ghost var log1 := process.kernel.log;
        end := AwaitReturn();
        LogGrownTrans(log0, log1, process.kernel.log);
        if !process.missed {
          CalledStays(log0, log0, log1, process.kernel.log, tid, s, s.regs.pc in EnabledAddrs(sites0), TrapAddrs(sites0), written);
        }
      }
    }

    /** The same, told as what a call leaves behind. */
    method ResumeCall(ghost s: Setup, ghost written: bool, ghost all: seq<Setup>) returns (end: CallEnd)
      requires process.AtPrompt() && process.regs[process.currentThread].pc == s.regs.pc
      requires Clear(process.sites, s) && (written ==> BytesAt(process.own, s.at, s.bytes))
      modifies process`threads, process`sites, process`dregs, process`covered, process`canon, process`owner, process`own
      modifies process`past, process`missed, process`state, process`regs, process`currentThread, process.kernel
      ensures Followed(old(process.currentThread), all) && (Started(end) || end == NeverEnds)
      ensures EndsFor(end, CannotStep(old(process.sites), s.regs.pc, true, process.start.own))
      ensures end == Back && !process.missed ==>
        Called(old(process.kernel.log), process.kernel.log, old(process.currentThread), s, s.regs.pc in EnabledAddrs(old(process.sites)),
               TrapAddrs(old(process.sites)), written)
      ensures Started(end) ==> SameEnabled(old(process.sites), process.sites) && process.Loose()
      ensures Started(end) && process.currentThread == old(process.currentThread) ==>
        && (process.Current() == old(process.Current()) <==> TakesBack(old(process.sites), s.regs.pc, old(process.Current())))
        && (process.Current() == old(process.Current()) ==> KeptSlots(old(process.sites), process.sites))
      ensures Started(end) ==> process.currentThread == old(process.currentThread) || process.currentThread in process.threads
      ensures end == Back ==> process.Halted() && process.currentThread in process.threads && process.currentThread in process.regs
    {
      hide Overlaid, SlotsOk, TableOk, SameEnabled, TakesBack, KeptSlots, Stepped, Waited, CannotStep, Called, Clear, BytesAt, EnabledAddrs, TrapAddrs;
      ghost var past0, tid, traps, lifted, mid :=
        process.past, process.currentThread, TrapAddrs(process.sites), TrapAddrs(process.sites) - {process.regs[process.currentThread].pc}, [];
      end, mid := ResumeAndWait(s, written);
      CallRan(past0, mid, process.past, tid, lifted, traps, all);
    }

    /** The call itself. A strict call gives up when the stack bytes cannot be written. */
    method Perform(s: Setup, strict: bool, ghost all: seq<Setup>) returns (end: CallEnd)
      requires process.AtPrompt() && Clear(process.sites, s) && s in all
      modifies process`threads, process`sites, process`dregs, process`covered, process`canon, process`owner, process`own
      modifies process`past, process`missed, process`state, process`regs, process`currentThread, process.kernel
      ensures end != Strayed && (end == Refused ==> process.currentThread == old(process.currentThread))
      ensures end == Refused <==> strict && !WordsMapped(process.start.own, s.at, |s.bytes|)
      ensures EndsFor(end, CannotStep(old(process.sites), s.regs.pc, true, process.start.own))
      ensures end == Back && !process.missed ==>
        Called(old(process.kernel.log), process.kernel.log, old(process.currentThread), s, s.regs.pc in EnabledAddrs(old(process.sites)),
               TrapAddrs(old(process.sites)), WordsMapped(process.start.own, s.at, |s.bytes|))
      ensures Followed(old(process.currentThread), all)
      ensures end != NeverEnds ==> SameEnabled(old(process.sites), process.sites) && process.Loose()
      ensures end != NeverEnds ==> process.currentThread == old(process.currentThread) || process.currentThread in process.threads
      ensures end != NeverEnds && process.currentThread == old(process.currentThread) ==>
        && (process.Current() == old(process.Current()) <==> end == Refused || TakesBack(old(process.sites), s.regs.pc, old(process.Current())))
        && (process.Current() == old(process.Current()) ==> KeptSlots(old(process.sites), process.sites))
      ensures end == Back ==> process.Halted() && process.currentThread in process.threads && process.currentThread in process.regs
    {
      assert SameEnabled(process.sites, process.sites) && KeptSlots(process.sites, process.sites);
      hide Distinct, DistinctWatches, Replays, ReasonsOk, AllStopped, Overlaid, SlotsOk, TableOk, SameEnabled, TakesBack, KeptSlots, ForCall, NoneFound, CacheHolds, Clear, BytesAt, WordsMapped, CannotStep, Called, EnabledAddrs, TrapAddrs;
      ghost var past0 := process.past;
      var ok := Prepare(s, all);
      end := Refused;
      if !strict || ok {
        ghost var past1, tid := process.past, process.currentThread;
        end := ResumeCall(s, ok, all);
        ForCallTrans(past0, past1, process.past, tid, all);
      }
    }

    // ---------------------------------------------------------------- after the call

    /** Disable and drop the return site that was added at the end of the list. */
    method DropReturnSite(i: nat)
      requires process.InKernel() && process.History() && |process.sites| == i + 1 && process.sites[i].isEnabled && !process.sites[i].isHardware
      requires EntryMapped(process.sites[i].address)
      modifies process`sites, process.kernel`mem
      ensures process.InKernel() && process.sites == old(process.sites)[..i]
    {
      ghost var now := process.sites;
      process.SameMapped(process.sites[i].address, 8);
      var ok := process.DisableSoftware(i);
      ghost var off := process.sites;
      assert ok;
      DropSite(process.own, process.kernel.mem, off, i);
      if process.covered != {} {
        SlotlessUpdate(process.canon, now, process.watchpoints, process.owner, i, off[i]);
        DropUser(off, i);
        SlotsSameUsers(process.canon, off, Without(off, i), process.watchpoints, process.watchpoints, process.owner);
      }
      assert Without(off, i) == now[..i];
      process.sites := process.sites[..i];
    }

    /** The part of restoreExprState that gives the site back. */
    method GiveBack(i: nat, existed: bool, handler: Option<bool>)
      requires process.InKernel() && process.History() && Lent(process.sites, i, existed) && EntryMapped(process.sites[i].address)
      modifies process`sites, process.kernel`mem
      ensures process.InKernel() && process.sites == GivenBack(old(process.sites), i, existed, handler)
    {
      if existed {
        InstallHitHandler(i, handler);
      } else {
        DropReturnSite(i);
      }
    }

    /** WriteGPRs and WriteFPRs. */
    method WriteBack(saved: Saved)
      requires process.History()
      modifies process`past, process.kernel`regs
      ensures process.History() && process.past == old(process.past) + [Loaded(saved.tid, saved.regs)]
      ensures process.kernel.regs == old(process.kernel.regs)[saved.tid := saved.regs]
    {
      ReplayPush(process.replay, process.start, process.past, Loaded(saved.tid, saved.regs));
      process.kernel.SetRegs(saved.tid, saved.regs);
      process.past := process.past + [Loaded(saved.tid, saved.regs)];
    }

    /** The struct copy, and the registers written out; the debug registers are not. */
    method RollBack(saved: Saved)
      requires process.Loose() && process.History()
      modifies process`regs, process`boundTo, process`staleDregs, process`past, process.kernel`regs
      ensures process.RolledBack(saved) && process.History()
      ensures process.past == old(process.past) + if process.currentThread in process.threads then [Loaded(saved.tid, saved.regs)] else []
      ensures process.currentThread in process.threads ==> (process.staleDregs == map[] <==> process.Current() == saved.dregs)
      ensures process.currentThread == saved.tid && old(process.Halted()) ==> process.Halted()
    {
      hide TableOk;
      var cur := process.currentThread;
      if cur in process.regs {
        process.regs := process.regs[cur := saved.regs];
        process.boundTo := Put(process.boundTo, cur, cur == saved.tid, saved.tid);
        process.staleDregs := Put(process.staleDregs, cur, DebugRegsOf(process.dregs, cur) == saved.dregs, saved.dregs);
        WriteBack(saved);
      }
    }

    /** restoreExprState: the registers, through whichever thread is the current one, then the site. */
    method RestoreExprState(i: nat, existed: bool, handler: Option<bool>, saved: Saved, ghost all: seq<Setup>)
      requires process.InKernel() && process.Loose() && process.History() && Lent(process.sites, i, existed) && EntryMapped(process.sites[i].address)
      modifies process`regs, process`boundTo, process`staleDregs, process`past, process.kernel`regs, process`sites, process.kernel`mem
      ensures process.RolledBack(saved) && Followed(saved.tid, all)
      ensures process.past == old(process.past) + if process.currentThread in process.threads then [Loaded(saved.tid, saved.regs)] else []
      ensures process.currentThread in process.threads ==> (process.staleDregs == map[] <==> process.Current() == saved.dregs)
      ensures process.sites == GivenBack(old(process.sites), i, existed, handler)
      ensures process.currentThread == saved.tid && old(process.Halted()) ==> process.Halted()
    {
      hide Distinct, DistinctWatches, Replays, ReasonsOk, AllStopped, GivenBack, Overlaid, SlotsOk, TableOk, ForCall, NoneFound, CacheHolds;
      ghost var past0 := process.past;
      RollBack(saved);
      LoadedFor(past0, process.past, saved.tid, saved.regs, all);
      GiveBack(i, existed, handler);
    }

    /** The value was in rax when the current thread came back, before its registers were rolled back, n times since. */
    ghost predicate Returned(n: nat, rax: U64)
      reads process
    {
      && |process.past| >= n
      && var back := process.replay(process.past[..|process.past| - n]).regs;
         process.currentThread in back && back[process.currentThread].rax == rax
    }

    /** Perform a call with a borrowed return site, and give everything back unless it never ends; the sites before that are `mid`. */
    method PerformAndRestore(s: Setup, strict: bool, i: nat, existed: bool, handler: Option<bool>, saved: Saved, ghost all: seq<Setup>)
      returns (end: CallEnd, rax: U64, ghost mid: seq<Site>)
      requires process.AtPrompt() && Clear(process.sites, s) && s in all && Lent(process.sites, i, existed) && EntryMapped(process.sites[i].address)
      requires saved.tid == process.currentThread && saved.dregs == process.Current()
      modifies process, process.kernel
      ensures end != Strayed && (end == Refused ==> process.currentThread == saved.tid)
      ensures end == Refused <==> strict && !WordsMapped(process.start.own, s.at, |s.bytes|)
      ensures EndsFor(end, CannotStep(old(process.sites), s.regs.pc, true, process.start.own))
      ensures end == Back && !process.missed ==>
        Called(old(process.kernel.log), process.kernel.log, saved.tid, s, s.regs.pc in EnabledAddrs(old(process.sites)),
               TrapAddrs(old(process.sites)), WordsMapped(process.start.own, s.at, |s.bytes|))
      ensures end == Back && !process.missed ==> Returned(1, rax)
      ensures Followed(saved.tid, all) && (end != NeverEnds ==> process.RolledBack(saved))
      ensures end != NeverEnds ==> process.currentThread == saved.tid || process.currentThread in process.threads
      ensures end != NeverEnds ==> SameEnabled(old(process.sites), mid) && process.sites == GivenBack(mid, i, existed, handler)
      ensures end != NeverEnds && process.currentThread == saved.tid && saved.tid in process.threads ==>
        && (process.staleDregs == map[] <==> end == Refused || TakesBack(old(process.sites), s.regs.pc, saved.dregs))
        && (process.staleDregs == map[] ==> KeptSlots(old(process.sites), mid))
      ensures end == Back ==> process.currentThread in process.threads && (process.currentThread == saved.tid ==> process.Halted())
    {
      hide Overlaid, SlotsOk, TableOk, TakesBack, KeptSlots, ForCall, Clear, WordsMapped, CannotStep, Called, EnabledAddrs, TrapAddrs;
      ghost var lent, past0 := process.sites, process.past;
      end := Perform(s, strict, all);
      mid := process.sites;
      rax := if end == Back then process.regs[process.currentThread].rax else 0;
      if end != NeverEnds {
        LentStays(lent, mid, i, existed);
        ghost var cur, d, past1 := process.currentThread, process.Current(), process.past;
        ghost var world := World(process.own, process.kernel.regs, process.kernel.future);
        RestoreExprState(i, existed, handler, saved, all);
        assert end == Back ==> process.past[..|process.past| - 1] == past1;
        ForCallTrans(past0, past1, process.past, saved.tid, all);
        assert process.currentThread == cur && process.Current() == d;
      }
    }

    /** The same, told in terms of the sites before the return site was borrowed. */
    method CallBorrowed(s: Setup, strict: bool, i: nat, existed: bool, handler: Option<bool>, saved: Saved, ghost before: seq<Site>, ghost all: seq<Setup>)
      returns (end: CallEnd, rax: U64)
      requires process.AtPrompt() && Borrowed(before, process.sites, i, existed, handler) && KeptSlots(before, process.sites)
      requires Clear(process.sites, s) && s in all && EntryMapped(process.sites[i].address)
      requires existed <==> HasSite(before, process.sites[i].address)
      requires saved.tid == process.currentThread && saved.dregs == process.Current()
      modifies process, process.kernel
      ensures end != Strayed && (end == Refused ==> process.currentThread == saved.tid)
      ensures end == Refused <==> strict && !WordsMapped(process.start.own, s.at, |s.bytes|)
      ensures EndsFor(end, CannotStep(before, s.regs.pc, true, process.start.own))
      ensures end == Back && !process.missed ==> Returned(1, rax)
      ensures end == Back && !process.missed ==>
        Called(old(process.kernel.log), process.kernel.log, saved.tid, s, AtSite(before, old(process.sites)[i].address, s.regs.pc),
               TrapAddrs(before), WordsMapped(process.start.own, s.at, |s.bytes|))
      ensures Followed(saved.tid, all) && (end != NeverEnds ==> process.RolledBack(saved) && SameEnabled(before, process.sites))
      ensures end != NeverEnds ==> process.currentThread == saved.tid || process.currentThread in process.threads
      ensures end != NeverEnds && process.currentThread == saved.tid && saved.tid in process.threads ==>
        && (process.staleDregs == map[] <==> end == Refused || TakesBack(before, s.regs.pc, saved.dregs))
        && (process.staleDregs == map[] ==> KeptSlots(before, process.sites))
      ensures end == Back ==> process.currentThread in process.threads && (process.currentThread == saved.tid ==> process.Halted())
    {
      hide Distinct, DistinctWatches, Replays, ReasonsOk, AllStopped, Overlaid, SlotsOk, TableOk, TakesBack, KeptSlots, ForCall, Clear, CacheHolds;
      hide Called, CannotStep, AtSite, EnabledAddrs, TrapAddrs, WordsMapped, HasSite;
      ghost var lent, mid, log0 := process.sites, [], process.kernel.log;
      end, rax, mid := PerformAndRestore(s, strict, i, existed, handler, saved, all);
      if end != NeverEnds {
        PutBackSame(before, lent, mid, i, existed, handler);
      }
      TakesBackBorrowed(before, lent, i, existed, handler, s.regs.pc, saved.dregs);
      BorrowedAddrs(before, lent, i, existed, handler, s.regs.pc, process.start.own);
      if end == Back && !process.missed {
        CalledWith(log0, process.kernel.log, saved.tid, s, s.regs.pc in EnabledAddrs(lent), TrapAddrs(lent), TrapAddrs(before),
                   WordsMapped(process.start.own, s.at, |s.bytes|));
      }
    }

    // ---------------------------------------------------------------- whole calls

    /** How allocating ends, and why: an error also when malloc came back with nothing. */
    ghost predicate SlotFor(end: CallEnd, cannot: bool)
      reads process, process.kernel
    {
      && (end == NeverEnds ==> process.kernel.Stuck())
      && (end == Error ==> process.missed || cannot || Returned(1, 0))
      && (end == Gone ==> process.missed || process.pid !in process.kernel.running)
    }

    /**
     inferiorMalloc: a call of malloc that leaves no trace in the tracee, whichever way it
     ends, and none in the caches exactly if it comes back in the same thread and the
     step-over of a hardware site on malloc takes its slot back.
     */
    method InferiorMalloc(entry: U64, s: Setup, ghost all: seq<Setup>) returns (end: CallEnd, result: U64)
      requires process.AtPrompt() && EntryMapped(entry) && s in all
      requires Clear(process.sites, s) && !(s.at <= entry < s.at + |s.bytes|)
      modifies process, process.kernel
      ensures (Started(end) || end == NeverEnds) && SlotFor(end, CannotStep(old(process.sites), s.regs.pc, true, process.start.own))
      ensures end == Back && !process.missed ==> Returned(1, result)
      ensures end == Back && !process.missed ==>
        Called(old(process.kernel.log), process.kernel.log, old(process.currentThread), s, AtSite(old(process.sites), entry, s.regs.pc),
               TrapAddrs(old(process.sites)), WordsMapped(process.start.own, s.at, |s.bytes|))
      ensures Followed(old(process.currentThread), all)
      ensures Started(end) ==> SameEnabled(old(process.sites), process.sites) && process.RolledBack(old(process.Copy()))
      ensures Started(end) ==> process.currentThread == old(process.currentThread) || process.currentThread in process.threads
      ensures Started(end) && process.currentThread == old(process.currentThread) && process.currentThread in process.threads ==>
        && (process.staleDregs == map[] <==> TakesBack(old(process.sites), s.regs.pc, old(process.Current())))
        && (process.staleDregs == map[] ==> KeptSlots(old(process.sites), process.sites))
      ensures end == Back ==> result != 0 && process.currentThread in process.threads
      ensures end == Back && process.currentThread == old(process.currentThread) ==> process.Halted()
    {
      hide Overlaid, SlotsOk, TableOk, TakesBack, KeptSlots, ForCall, Clear, CacheHolds;
      hide Called, CannotStep, AtSite, EnabledAddrs, TrapAddrs, WordsMapped, HasSite;
      ghost var before, past0 := process.sites, process.past;
      var saved := process.Copy();
      var i, existed, handler := BorrowAtPrompt(entry, process.currentThread, all);
      ghost var past1 := process.past;
      ClearBorrowed(before, process.sites, i, existed, handler, s);
      end, result := CallBorrowed(s, false, i, existed, handler, saved, before, all);
      ForCallTrans(past0, past1, process.past, saved.tid, all);
      if end == Back && result == 0 {
        end := Error;
      }
    }

    /** The call of malloc for a value returned in memory, from a prompt. */
    method AllocateSlot(entry: U64, s: Setup, ghost i: nat, ghost all: seq<Setup>) returns (end: CallEnd)
      requires process.AtPrompt() && EntryMapped(entry) && i < |process.sites| && process.sites[i].address == entry
      requires Clear(process.sites, s) && s in all
      modifies process, process.kernel
      ensures end != Refused
      ensures SlotFor(end, CannotStep(old(process.sites), s.regs.pc, true, process.start.own))
      ensures end == Back && !process.missed ==>
        Called(old(process.kernel.log), process.kernel.log, old(process.currentThread), s, AtSite(old(process.sites), entry, s.regs.pc),
               TrapAddrs(old(process.sites)), WordsMapped(process.start.own, s.at, |s.bytes|))
      ensures Followed(old(process.currentThread), all)
      ensures end != NeverEnds ==> SameEnabled(old(process.sites), process.sites)
      ensures end != NeverEnds && end != Back ==> process.RolledBack(old(process.Copy())) && process.Loose()
      ensures end != NeverEnds ==> process.currentThread == old(process.currentThread) || process.currentThread in process.threads
      ensures end == Back ==> process.AtPrompt() && process.currentThread == old(process.currentThread)
      ensures end == Back ==> process.Current() == old(process.Current()) && KeptSlots(old(process.sites), process.sites)
      ensures end == Back ==> TakesBack(old(process.sites), s.regs.pc, old(process.Current()))
      ensures end == Strayed && process.currentThread == old(process.currentThread) ==>
        !TakesBack(old(process.sites), s.regs.pc, old(process.Current()))
    {
      assert process.sites[i] in process.sites && Clear(process.sites, s);
      hide Distinct, DistinctWatches, Replays, ReasonsOk, Overlaid, SlotsOk, TableOk, TakesBack, KeptSlots, ForCall, SameEnabled;
      hide Called, CannotStep, AtSite, EnabledAddrs, TrapAddrs, WordsMapped, HasSite;
      assert process.currentThread in process.regs && process.currentThread in process.threads;
      hide Process.RolledBack, Process.AtPrompt, Process.Halted;
      var result;
      end, result := InferiorMalloc(entry, s, all);
      if end != NeverEnds {
        process.RolledBackMeans(old(process.Copy()));
      }
      if end == Back && (process.boundTo != map[] || process.staleDregs != map[]) {
        end := Strayed;
      } else if end == Back {
        process.PromptAgain();
      }
    }

    /**
     The malloc call for the return value, with the return site already borrowed. The code
     goes on as if nothing had happened to the caches; the model only does if nothing has.
     */
    method AllocateReturnSlot(entry: U64, s: Option<Setup>, ghost i: nat, ghost all: seq<Setup>) returns (end: CallEnd)
      requires process.AtPrompt() && EntryMapped(entry) && i < |process.sites| && process.sites[i].address == entry
      requires s.Some? ==> Clear(process.sites, s.value) && s.value in all
      modifies process, process.kernel
      ensures end != Refused && (s.None? ==> end == Back)
      ensures s.Some? ==> SlotFor(end, CannotStep(old(process.sites), s.value.regs.pc, true, process.start.own))
      ensures s.Some? && end == Back && !process.missed ==>
        Called(old(process.kernel.log), process.kernel.log, old(process.currentThread), s.value, AtSite(old(process.sites), entry, s.value.regs.pc),
               TrapAddrs(old(process.sites)), WordsMapped(process.start.own, s.value.at, |s.value.bytes|))
      ensures Followed(old(process.currentThread), all)
      ensures end != NeverEnds ==> SameEnabled(old(process.sites), process.sites)
      ensures end != NeverEnds && end != Back ==> process.RolledBack(old(process.Copy())) && process.Loose()
      ensures end != NeverEnds ==> process.currentThread == old(process.currentThread) || process.currentThread in process.threads
      ensures end == Back ==> process.AtPrompt() && process.currentThread == old(process.currentThread)
      ensures end == Back ==> process.Current() == old(process.Current()) && KeptSlots(old(process.sites), process.sites)
      ensures s.Some? && end == Back ==> TakesBack(old(process.sites), s.value.regs.pc, old(process.Current()))
      ensures end == Strayed && process.currentThread == old(process.currentThread) ==>
        !TakesBack(old(process.sites), s.value.regs.pc, old(process.Current()))
    {
      if s.None? {
        end := Back;
      } else {
        hide Distinct, DistinctWatches, Replays, ReasonsOk, Overlaid, SlotsOk, TableOk, TakesBack, KeptSlots, ForCall, SameEnabled;
        hide Called, CannotStep, AtSite, EnabledAddrs, TrapAddrs, WordsMapped, HasSite, Process.RolledBack, Process.AtPrompt;
        end := AllocateSlot(entry, s.value, i, all);
      }
    }

    /** How the malloc call ended, if there was one, and that it was made if it came back; registers were rolled back n times since. */
    ghost predicate SlotTold(n: nat, slot: CallEnd, malloc: Option<Setup>, tid: int, before: seq<Site>, entry: U64, log: seq<Action>)
      reads process, process.kernel
    {
      && slot != Refused && (malloc.None? ==> slot == Back)
      && (slot == Error ==>
            || process.missed || CannotStep(before, malloc.value.regs.pc, true, process.start.own)
            || (process.currentThread in process.threads ==> Returned(n, 0)))
      && (slot == Gone ==> process.missed || process.pid !in process.kernel.running)
      && (slot == Back && !process.missed ==> MallocCalled(log, process.kernel.log, tid, malloc, before, entry, process.start.own))
    }

    /** The same, with the return site still borrowed from `before` afterwards. */
    method AllocateBorrowed(entry: U64, s: Option<Setup>, ghost i: nat, ghost existed: bool, ghost handler: Option<bool>, ghost saved: Saved,
                            ghost before: seq<Site>, ghost all: seq<Setup>) returns (end: CallEnd)
      requires process.AtPrompt() && EntryMapped(entry) && saved == process.Copy()
      requires Borrowed(before, process.sites, i, existed, handler) && process.sites[i].address == entry && KeptSlots(before, process.sites)
      requires existed <==> HasSite(before, entry)
      requires s.Some? ==> Clear(process.sites, s.value) && s.value in all
      modifies process, process.kernel
      ensures end != Refused && (s.None? ==> end == Back) && Followed(saved.tid, all)
      ensures SlotTold(1, end, s, saved.tid, before, entry, old(process.kernel.log)) && (end == NeverEnds ==> process.kernel.Stuck())
      ensures Started(end) ==> Borrowed(before, process.sites, i, existed, handler) && process.sites[i].address == entry
      ensures (end == Strayed ==> process.RolledBack(saved)) && (end == Error || end == Gone ==> process.Loose())
      ensures end != NeverEnds ==> process.currentThread == saved.tid || process.currentThread in process.threads
      ensures end == Back ==> process.AtPrompt() && process.currentThread == saved.tid && process.Current() == saved.dregs && KeptSlots(before, process.sites)
      ensures end == Back && s.Some? ==> TakesBack(before, s.value.regs.pc, saved.dregs)
      ensures end == Strayed && process.currentThread == saved.tid ==> !TakesBack(before, s.value.regs.pc, saved.dregs)
    {
      hide Overlaid, SlotsOk, TableOk, TakesBack, KeptSlots, ForCall, Clear, CacheHolds;
      hide Called, CannotStep, AtSite, EnabledAddrs, TrapAddrs, WordsMapped, HasSite;
      ghost var lent, log0 := process.sites, process.kernel.log;
      if s.Some? {
        BorrowedAddrs(before, lent, i, existed, handler, s.value.regs.pc, process.start.own);
        AtBorrowed(before, lent, i, existed, handler, entry, s.value.regs.pc);
        TakesBackBorrowed(before, lent, i, existed, handler, s.value.regs.pc, saved.dregs);
      }
      end := AllocateReturnSlot(entry, s, i, all);
      if end != NeverEnds {
        BorrowedStays(before, lent, process.sites, i, existed, handler);
        HasSiteStays(lent, process.sites, i);
      }
      if s.Some? && end == Back && !process.missed {
        CalledWith(log0, process.kernel.log, saved.tid, s.value, AtSite(lent, entry, s.value.regs.pc), TrapAddrs(lent), TrapAddrs(before),
                   WordsMapped(process.start.own, s.value.at, |s.value.bytes|));
      }
      if end == Back {
        KeptTrans(before, lent, process.sites, i, existed, handler);
      }
    }

    /** What follows the malloc call, by how that ended: the call, or giving everything back without it. */
    method Conclude(slot: CallEnd, ghost malloc: Option<Setup>, ghost log0: seq<Action>, entry: U64, call: Setup, i: nat, existed: bool, handler: Option<bool>, saved: Saved, ghost before: seq<Site>,
                    ghost all: seq<Setup>) returns (end: CallEnd)
      requires Started(slot) && process.InKernel() && process.History() && EntryMapped(entry) && call in all
      requires Borrowed(before, process.sites, i, existed, handler) && process.sites[i].address == entry
      requires existed <==> HasSite(before, entry)
      requires SlotTold(1, slot, malloc, saved.tid, before, entry, log0) && LogGrown(log0, process.kernel.log)
      requires process.currentThread == saved.tid || process.currentThread in process.threads
      requires slot != Back ==> process.Loose()
      requires slot == Back ==> process.AtPrompt() && process.currentThread == saved.tid && process.Current() == saved.dregs && KeptSlots(before, process.sites)
      requires Clear(before, call) && !(call.at <= entry < call.at + |call.bytes|)
      modifies process, process.kernel
      ensures end != Strayed && Followed(saved.tid, all) && (Started(end) ==> slot == Back)
      ensures SlotTold(2, slot, malloc, saved.tid, before, entry, log0)
      ensures end == Refused <==> slot != Back || !WordsMapped(process.start.own, call.at, |call.bytes|)
      ensures end != Refused ==> EndsFor(end, CannotStep(before, call.regs.pc, true, process.start.own))
      ensures end == Back && !process.missed ==>
        Called(log0, process.kernel.log, saved.tid, call, AtSite(before, entry, call.regs.pc), TrapAddrs(before), true)
      ensures end != NeverEnds ==> process.RolledBack(saved) && SameEnabled(before, process.sites)
      ensures end != NeverEnds ==> process.currentThread == saved.tid || process.currentThread in process.threads
      ensures Started(end) && process.currentThread == saved.tid && saved.tid in process.threads ==>
        (process.staleDregs == map[] <==> TakesBack(before, call.regs.pc, saved.dregs))
      ensures end == Back ==> process.currentThread in process.threads && (process.currentThread == saved.tid ==> process.Halted())
    {
      hide Distinct, DistinctWatches, Replays, ReasonsOk, AllStopped, Overlaid, SlotsOk, TableOk, TakesBack, KeptSlots, ForCall, Clear, CacheHolds;
      hide Called, CannotStep, AtSite, EnabledAddrs, TrapAddrs, WordsMapped, HasSite, MallocCalled, Process.RolledBack, Process.Halted;
      ghost var log1, was := process.kernel.log, process.missed;
      if slot == Back {
        ClearBorrowed(before, process.sites, i, existed, handler, call);
        var rax;
        end, rax := CallBorrowed(call, true, i, existed, handler, saved, before, all);
        if !process.missed {
          SlotStays(log0, log1, process.kernel.log, saved.tid, malloc, before, entry, process.start.own);
          if end == Back {
            CalledStays(log0, log1, process.kernel.log, process.kernel.log, saved.tid, call, AtSite(before, entry, call.regs.pc), TrapAddrs(before),
                        WordsMapped(process.start.own, call.at, |call.bytes|));
          }
        }
      } else {
        ghost var past0 := process.past;
        RestoreExprState(i, existed, handler, saved, all);
        assert |past0| >= 1 && process.currentThread in process.threads ==> process.past[..|process.past| - 2] == past0[..|past0| - 1];
        end := Refused;
      }
    }

    /** The rest of EvaluateExpression, once the return site has been borrowed. */
    method CallWithSlot(entry: U64, malloc: Option<Setup>, call: Setup, i: nat, existed: bool, handler: Option<bool>, saved: Saved,
                        ghost before: seq<Site>, ghost all: seq<Setup>) returns (end: CallEnd, ghost slot: CallEnd)
      requires process.AtPrompt() && EntryMapped(entry) && saved == process.Copy() && call in all
      requires Borrowed(before, process.sites, i, existed, handler) && process.sites[i].address == entry && KeptSlots(before, process.sites)
      requires Clear(before, call) && !(call.at <= entry < call.at + |call.bytes|)
      requires existed <==> HasSite(before, entry)
      requires malloc.Some? ==> Clear(process.sites, malloc.value) && malloc.value in all
      modifies process, process.kernel
      ensures SlotTold(2, slot, malloc, saved.tid, before, entry, old(process.kernel.log))
      ensures slot == NeverEnds || slot == Strayed ==> end == slot
      ensures end == Refused <==> slot == Error || slot == Gone || (slot == Back && !WordsMapped(process.start.own, call.at, |call.bytes|))
      ensures Started(end) || (end == NeverEnds && slot == Back) ==> EndsFor(end, CannotStep(before, call.regs.pc, true, process.start.own))
      ensures end == Back && !process.missed ==>
        Called(old(process.kernel.log), process.kernel.log, saved.tid, call, AtSite(before, entry, call.regs.pc), TrapAddrs(before), true)
      ensures end == NeverEnds ==> process.kernel.Stuck()
      ensures Followed(saved.tid, all) && (end != NeverEnds ==> process.RolledBack(saved))
      ensures end != NeverEnds ==> process.currentThread == saved.tid || process.currentThread in process.threads
      ensures end != NeverEnds && end != Strayed ==> SameEnabled(before, process.sites)
      ensures Started(end) && process.currentThread == saved.tid && saved.tid in process.threads ==>
        (process.staleDregs == map[] <==> TakesBack(before, call.regs.pc, saved.dregs))
      ensures Started(end) && malloc.Some? ==> TakesBack(before, malloc.value.regs.pc, saved.dregs)
      ensures end == Strayed && process.currentThread == saved.tid ==> malloc.Some? && !TakesBack(before, malloc.value.regs.pc, saved.dregs)
      ensures end == Back ==> process.currentThread in process.threads && (process.currentThread == saved.tid ==> process.Halted())
    {
      hide Overlaid, SlotsOk, TableOk, TakesBack, KeptSlots, ForCall, Clear, CacheHolds;
      hide Distinct, DistinctWatches, Replays, ReasonsOk, AllStopped, Borrowed, SameEnabled, MallocCalled;
      hide Called, CannotStep, AtSite, EnabledAddrs, TrapAddrs, WordsMapped, HasSite;
      ghost var past0, log0 := process.past, process.kernel.log;
      end := AllocateBorrowed(entry, malloc, i, existed, handler, saved, before, all);
      slot := end;
      if Started(end) {
        ghost var past1 := process.past;
        end := Conclude(end, malloc, log0, entry, call, i, existed, handler, saved, before, all);
        ForCallTrans(past0, past1, process.past, saved.tid, all);
      }
    }

    /** The setups of an expression: that of malloc if there is one, and that of the call. */
    function Setups(malloc: Option<Setup>, call: Setup): seq<Setup> {
      if malloc.Some? then [malloc.value, call] else [call]
    }

    /**
     EvaluateExpression from the saving of the registers on. Whichever way it ends, with or
     without a nested malloc, the thread that was current has its registers back in the tracee,
     the sites have their handlers and traps back, every slot is what the sites say, and memory and
     the other threads are what the events and the stack bytes of the calls have made of them. But
     what is put back into the cache is a copy of that thread's, debug registers included: the
     cache is bound to the right thread if and only if the current thread is the same, and
     knows the slots if and only if the step-over at the start of the call took its slot back.
     */
    method EvaluateExpression(entry: U64, malloc: Option<Setup>, call: Setup) returns (end: CallEnd, ghost slot: CallEnd)
      requires process.AtPrompt() && Mapped(process.kernel.mem, entry, 8)
      requires Clear(process.sites, call) && !(call.at <= entry < call.at + |call.bytes|)
      requires malloc.Some? ==>
        Clear(process.sites, malloc.value) && !(malloc.value.at <= entry < malloc.value.at + |malloc.value.bytes|)
      modifies process, process.kernel
      ensures Followed(old(process.currentThread), Setups(malloc, call))
      ensures SlotTold(2, slot, malloc, old(process.currentThread), old(process.sites), entry, old(process.kernel.log))
      ensures slot == NeverEnds || slot == Strayed ==> end == slot
      ensures end == Refused <==> slot == Error || slot == Gone || (slot == Back && !WordsMapped(old(process.kernel.mem), call.at, |call.bytes|))
      ensures end == NeverEnds ==> process.kernel.Stuck()
      ensures Started(end) ==> EndsFor(end, CannotStep(old(process.sites), call.regs.pc, true, process.start.own))
      ensures end == Back && !process.missed ==>
        Called(old(process.kernel.log), process.kernel.log, old(process.currentThread), call, AtSite(old(process.sites), entry, call.regs.pc),
               TrapAddrs(old(process.sites)), true)
      ensures end != NeverEnds ==> process.RolledBack(old(process.Copy()))
      ensures end != NeverEnds && old(process.currentThread) in process.threads ==> HasRegisters(old(process.currentThread), old(process.Copy()).regs)
      ensures end != NeverEnds ==> (process.Keyed() <==> process.currentThread == old(process.currentThread))
      ensures end != NeverEnds && end != Strayed ==> SameEnabled(old(process.sites), process.sites)
      ensures Started(end) && process.currentThread == old(process.currentThread) && process.currentThread in process.threads ==>
        (process.staleDregs == map[] <==> TakesBack(old(process.sites), call.regs.pc, old(process.Current())))
      ensures end == Strayed && process.currentThread == old(process.currentThread) ==>
        malloc.Some? && !TakesBack(old(process.sites), malloc.value.regs.pc, old(process.Current()))
      ensures Started(end) && malloc.Some? ==> TakesBack(old(process.sites), malloc.value.regs.pc, old(process.Current()))
      ensures end == Back && process.currentThread == old(process.currentThread) ==> process.Halted()
      ensures end == Back ==> process.currentThread in process.threads
    {
      hide Overlaid, SlotsOk, TableOk, TakesBack, KeptSlots, ForCall, Clear, CacheHolds;
      hide Called, CannotStep, AtSite, EnabledAddrs, TrapAddrs, WordsMapped, HasSite, MallocCalled;
      ghost var before, past0, all := process.sites, process.past, Setups(malloc, call);
      process.SameMapped(entry, 8);
      process.SameWords(call.at, |call.bytes|);
      var saved := process.Copy();
      var i, existed, handler := BorrowAtPrompt(entry, process.currentThread, all);
      ghost var past1 := process.past;
      if malloc.Some? {
        ClearBorrowed(before, process.sites, i, existed, handler, malloc.value);
      }
      end, slot := CallWithSlot(entry, malloc, call, i, existed, handler, saved, before, all);
      ForCallTrans(past0, past1, process.past, saved.tid, all);
      if end != NeverEnds {
        process.RolledBackMeans(saved);
      }
    }

    /** The same from the user's side: the debugger is back at a prompt, every invariant intact, if and only if both conditions hold. */
    method EvaluateCommand(entry: U64, malloc: Option<Setup>, call: Setup) returns (end: CallEnd)
      requires process.AtPrompt() && Mapped(process.kernel.mem, entry, 8)
      requires Clear(process.sites, call) && !(call.at <= entry < call.at + |call.bytes|)
      requires malloc.Some? ==>
        Clear(process.sites, malloc.value) && !(malloc.value.at <= entry < malloc.value.at + |malloc.value.bytes|)
      modifies process, process.kernel
      ensures end == Back ==>
        (process.AtPrompt() <==>
         process.currentThread == old(process.currentThread) && TakesBack(old(process.sites), call.regs.pc, old(process.Current())))
    {
      hide Overlaid, SlotsOk, TableOk, TakesBack, ForCall, Clear, CacheHolds;
      ghost var slot;
      end, slot := EvaluateExpression(entry, malloc, call);
    }

    /** The registers of a thread in the tracee. */
    ghost predicate HasRegisters(tid: int, r: Regs)
      reads process.kernel`regs
    {
      tid in process.kernel.regs && process.kernel.regs[tid] == r
    }
  }

  /** The borrowed site is clear of the setup if the entry point is. */
  lemma ClearBorrowed(before: seq<Site>, now: seq<Site>, i: nat, existed: bool, handler: Option<bool>, s: Setup)
    requires Borrowed(before, now, i, existed, handler) && Clear(before, s) && !(s.at <= now[i].address < s.at + |s.bytes|)
    ensures Clear(now, s)
  {
    forall t <- now
      ensures !(s.at <= t.address < s.at + |s.bytes|)
    {
      var k :| 0 <= k < |now| && now[k] == t;
      if k != i {
        assert SameSite(before[k], if existed then now[i := now[i].(onHit := handler)][k] else now[..i][k]);
        assert before[k] in before;
      }
    }
  }
}
