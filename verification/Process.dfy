/**
 The debugger's handle on a traced process: breakpoint sites kept as an int3
 overlay on the program's memory, hardware stoppoints kept in the debug
 registers of the threads, and the all-stop protocol over the threads.
 */
module Debugger {
  import Bits
  import opened Bytes
  import opened Memory
  import opened Tracee
  import opened DebugRegisters
  import opened Traps
  import opened Protocol
  import opened Stoppoints

  class Process {
    const pid: int
    const kernel: Kernel
    var state: RunState
    var threads: map<int, ThreadState>
    var regs: map<int, Regs>                // register cache of every tracked thread
    var dregs: map<int, DebugRegs>          // debug registers; those of a thread without an entry are zero
    // What the struct copy of an inferior call can leave behind: cache entries bound to the
    // pid of another thread, and cached debug registers that are not those of the tracee.
    var boundTo: map<int, int>
    var staleDregs: map<int, DebugRegs>
    var currentThread: int
    var sites: seq<Site>
    var watchpoints: seq<Watchpoint>
    var nextBreakpointId: int
    var nextWatchpointId: int
    var policy: CatchPolicy

    // What the program's memory would be without the debugger.
    ghost var own: Mem
    // What the debugger found at the start, and what has happened since.
    ghost const start: World
    ghost const replay: seq<Deed> -> World
    ghost var past: seq<Deed>
    // The threads whose debug registers the debugger has kept equal to `canon`,
    // and whom each slot in `canon` was programmed for.
    ghost var covered: set<int>
    ghost var canon: DebugRegs
    ghost var owner: map<int, Owner>
    // Set once an event whose content the code does not look at was not the one it takes it for.
    ghost var missed: bool

    // ---------------------------------------------------------------- invariants

    ghost predicate TrapsOk()
      reads this`sites, this`own, kernel`mem
    {
      Distinct(sites) && Overlaid(own, kernel.mem, sites)
    }

    /** The program's own memory and the registers are what the events, and nothing else, have made of them. */
    ghost predicate History()
      reads this`own, this`past, kernel`regs, kernel`future
    {
      Replays(replay, start) && World(own, kernel.regs, kernel.future) == replay(past)
    }

    /** The slot allocation, as long as it was only ever changed from a covered thread. */
    ghost predicate HardwareOk()
      reads this`sites, this`watchpoints, this`dregs, this`staleDregs, this`covered, this`canon, this`owner
    {
      && DistinctWatches(watchpoints)
      && (forall s <- sites :: UsesSlot(s) ==> 0 <= s.slot < 4)
      && (forall w <- watchpoints :: SupportedSize(w.size) && (w.isEnabled ==> 0 <= w.slot < 4))
      && Replicated()
      && (covered != {} ==> SlotsOk(canon, sites, watchpoints, owner))
    }

    /**
     The table of threads agrees with the kernel, unless an event was
     misunderstood, which takes a kernel that reports what is not to be expected.
     Dead threads always name themselves as the reason.
     */
    ghost predicate TableAgrees()
      reads this`threads, this`missed, kernel`running, kernel`queued
    {
      && ReasonsOk(threads)
      && (!missed ==> TableOk(threads, kernel.running, kernel.queued, {}))
      && (kernel.honest ==> !missed)
    }

    /** The register cache of every stopped thread is what the kernel holds. */
    ghost predicate Cached()
      reads this`threads, this`regs, kernel`regs
    {
      CacheHolds(threads, regs, kernel.regs, {})
    }

    // ---------------------------------------------------------------- construction

    /** A process just launched or attached to: every thread stopped, nothing planted. */
    constructor (pid: int, mem: Mem, regs: map<int, Regs>, future: seq<Event>, honest: bool)
      requires pid in regs
      ensures AtPrompt() && Cached() && !missed && kernel.honest == honest && fresh(kernel)
      ensures own == mem && sites == [] && watchpoints == [] && threads.Keys == regs.Keys && covered == threads.Keys
      ensures currentThread == pid && kernel.future == future && start == World(mem, regs, future) && past == []
    {
      this.pid := pid;
      kernel := new Kernel(mem, regs.Keys, regs, future, honest);
      state, currentThread := Stopped, pid;
      threads := map t | t in regs :: ThreadState(Stopped, StopReason(Stopped, 0, t, None, None), false, false);
      this.regs := regs;
      dregs := map[];
      boundTo, staleDregs := map[], map[];
      sites, watchpoints := [], [];
      nextBreakpointId, nextWatchpointId := 1, 1;
      policy := CatchNone;
      missed := false;
      start, past := World(mem, regs, future), [];
      replay := (deeds: seq<Deed>) => Replay(World(mem, regs, future), deeds);
      ReplayReplays(World(mem, regs, future));
      own, covered, canon, owner := mem, regs.Keys, DebugRegs([0, 0, 0, 0], 0), map[];
      NoneEnabled();
      assert Patched(mem, {}) == mem;
    }

    // ---------------------------------------------------------------- memory

    /** The read-modify-write of a part of a word. */
    method PatchWord(aligned: U64, byteOff: nat, chunk: seq<Byte>) returns (ok: bool)
      requires 0 < |chunk| && byteOff + |chunk| <= 8
      modifies kernel`mem
      ensures ok <==> Mapped(old(kernel.mem), aligned, 8)
      ensures kernel.mem == if ok then WriteBytes(old(kernel.mem), aligned + byteOff, chunk) else old(kernel.mem)
    {
      var existing := kernel.PeekData(aligned);
      if existing.None? {
        return false;
      }
      var word := ToLE(existing.value, 8);
      PatchWordValue(kernel.mem, aligned, byteOff, chunk);
      ok := kernel.PokeData(aligned, FromLE(word[..byteOff] + chunk + word[byteOff + |chunk|..]));
    }

    /**
     One round of WriteMemory: a chunk that lies within one aligned word. A whole
     aligned word is poked directly; anything less is read, patched and poked back.
     */
    method WriteChunk(addr: U64, chunk: seq<Byte>) returns (ok: bool)
      requires 0 < |chunk| && addr - AlignDown(addr) + |chunk| <= 8
      modifies kernel`mem
      ensures ok <==> WordMapped(old(kernel.mem), addr)
      ensures kernel.mem == if ok then WriteBytes(old(kernel.mem), addr, chunk) else old(kernel.mem)
    {
      var aligned := AlignDown(addr);
      if addr != aligned || |chunk| < 8 {
        ok := PatchWord(aligned, addr - aligned, chunk);
      } else {
        WordBound(chunk);
        ToLEFromLE(chunk);
        ok := kernel.PokeData(addr, FromLE(chunk));
      }
    }

    /** The chunk at an offset: up to the end of its word, or of the data. */
    method WriteNext(addr: U64, data: seq<Byte>, offset: nat, ghost before: Mem) returns (poked: bool, n: nat)
      requires offset < |data| && addr + offset < TWO64
      requires WordsMapped(before, addr, offset) && kernel.mem == WriteBytes(before, addr, data[..offset])
      modifies kernel`mem
      ensures 0 < n && offset + n <= |data|
      ensures poked <==> WordMapped(before, addr + offset)
      ensures poked ==> addr + offset + n <= USER_TOP && WordsMapped(before, addr, offset + n)
      ensures kernel.mem == WriteBytes(before, addr, data[..if poked then offset + n else offset])
    {
      var curAddr := addr + offset;
      var room := 8 - curAddr % 8;
      n := if room > |data| - offset then |data| - offset else room;
      MappedAfterWrite(before, addr, data[..offset], AlignDown(curAddr));
      poked := WriteChunk(curAddr, data[offset..offset + n]);
      if poked {
        WriteBytesStep(before, addr, data, offset, n);
        WordsMappedExtend(before, addr, offset, n, AlignDown(curAddr));
      }
    }

    /**
     WriteMemory: whole-word pokes, with a read-modify-write of the first and
     last partial words. It is a byte-wise update of [addr, addr + |data|), and
     fails exactly when an aligned word it touches is unmapped; a failed write has
     written the bytes before that word and nothing else.
     */
    method WriteMemory(addr: U64, data: seq<Byte>) returns (ok: bool, ghost written: nat)
      modifies kernel`mem
      ensures ok <==> WordsMapped(old(kernel.mem), addr, |data|)
      ensures written <= |data| && (ok <==> written == |data|)
      ensures kernel.mem == WriteBytes(old(kernel.mem), addr, data[..written])
      ensures !ok ==> !WordMapped(old(kernel.mem), addr + written)
    {
      ghost var before := kernel.mem;
      var remaining, offset := |data|, 0;
      while remaining > 0
        invariant 0 <= remaining && offset + remaining == |data|
        invariant offset > 0 ==> addr + offset <= USER_TOP
        invariant WordsMapped(before, addr, offset)
        invariant kernel.mem == WriteBytes(before, addr, data[..offset])
      {
        var poked, n := WriteNext(addr, data, offset, before);
        if !poked {
          return false, offset;
        }
        offset := offset + n;
        remaining := remaining - n;
      }
      assert data[..offset] == data;
      ok, written := true, offset;
    }

    /** ReadMemoryWithoutTraps: the program's own bytes, whatever traps are planted in the region. */
    method ReadMemoryWithoutTraps(addr: U64, amount: nat) returns (r: Option<seq<Byte>>)
      requires TrapsOk() && amount > 0
      ensures r.None? <==> addr >= USER_TOP || addr !in own
      ensures r.Some? ==>
        var n := |r.value|;
        && 0 < n <= amount && Mapped(own, addr, n) && r.value == ReadBytes(own, addr, n)
        && (n < amount ==> addr + n >= USER_TOP || addr + n !in own)
    {
      var raw := kernel.ReadMemory(addr, amount);
      if raw.None? {
        return None;
      }
      var data := StripTraps(sites, addr, raw.value, own, kernel.mem);
      r := Some(data);
    }

    // ---------------------------------------------------------------- debug registers

    /** All threads whose registers the debugger has kept equal hold `canon`, and the caches know it. */
    ghost predicate Replicated()
      reads this`dregs, this`covered, this`canon, this`staleDregs
    {
      staleDregs == map[] && forall t <- covered :: DebugRegsOf(dregs, t) == canon
    }

    /** The tracked threads among `kept` are covered, if the current one was. */
    ghost predicate Kept(kept: set<int>)
      reads this`covered, this`threads, this`currentThread
    {
      currentThread in threads && currentThread in kept ==> kept * threads.Keys <= covered
    }

    /** The cached debug registers of a thread, which decide what is free. */
    function CachedDregs(tid: int): DebugRegs
      reads this`dregs, this`staleDregs
    {
      if tid in staleDregs then staleDregs[tid] else DebugRegsOf(dregs, tid)
    }

    /** Write one address register and DR7 on every tracked thread, current thread first. */
    method Replicate(current: int, index: nat, addr: U64, control: U64)
      requires index < 4 && current in threads
      modifies this`dregs
      ensures Written(old(dregs), index, addr, control)
    {
      ghost var before := dregs;
      var tracked := threads.Keys;
      dregs := dregs[current := WithSlot(DebugRegsOf(dregs, current), index, addr, control)];
      var todo := tracked - {current};
      while todo != {}
        invariant todo <= tracked
        invariant forall t <- todo :: DebugRegsOf(dregs, t) == DebugRegsOf(before, t)
        invariant forall t <- tracked - todo :: DebugRegsOf(dregs, t) == WithSlot(DebugRegsOf(before, t), index, addr, control)
        decreases |todo|
      {
        Inhabited(todo);
        var t :| t in todo;
        dregs := dregs[t := WithSlot(DebugRegsOf(dregs, t), index, addr, control)];
        todo := todo - {t};
      }
    }

    /** Every tracked thread had one address register and DR7 written. */
    ghost predicate Written(before: map<int, DebugRegs>, index: nat, addr: U64, control: U64)
      requires index < 4
      reads this`dregs, this`threads
    {
      forall t <- threads :: DebugRegsOf(dregs, t) == WithSlot(DebugRegsOf(before, t), index, addr, control)
    }

    /** The debug registers of the current thread. */
    ghost function Current(): DebugRegs
      reads this`dregs, this`currentThread
    {
      DebugRegsOf(dregs, currentThread)
    }

    ghost predicate SetFails(size: int)
      reads this`threads, this`dregs, this`currentThread
    {
      || currentThread !in threads || !SupportedSize(size)
      || forall i :: 0 <= i < 4 ==> Enabled(Current().control, i)
    }

    /**
     setHardwareStoppoint: program the lowest free slot of the current thread and
     replicate it to every tracked thread. It fails exactly when there are no
     registers, the size is not 1, 2, 4 or 8, or all four slots are taken.
     */
    method SetHardwareStoppoint(addr: U64, mode: Mode, size: int) returns (r: Option<int>)
      requires Replicated()
      modifies this`dregs, this`covered, this`canon
      ensures Replicated()
      ensures r.None? ==> dregs == old(dregs) && covered == old(covered) && canon == old(canon)
      ensures r.None? <==> old(SetFails(size))
      ensures r.Some? ==> 0 <= r.value < 4 && IsLowestFree(old(Current()), r.value)
      ensures r.Some? ==> Current() == Arm(old(Current()), r.value, Watch(addr, mode, size))
      ensures r.Some? ==> Written(old(dregs), r.value, addr, Current().control)
      ensures r.Some? && old(SlotsAgree(Current(), canon)) ==>
        covered == old(covered) * threads.Keys && canon == SetFrom(old(Current()), old(canon), r.value, Watch(addr, mode, size))
      ensures r.Some? && !old(SlotsAgree(Current(), canon)) ==> covered == {} && canon == old(canon)
    {
      var cur := currentThread;
      if cur !in threads {
        return None;
      }
      ghost var d := DebugRegsOf(dregs, cur);
      var control := CachedDregs(cur).control;
      var free := FindFree(control);
      var sizeEnc := EncodeSize(size);
      if free.None? || sizeEnc.None? {
        assert SetFails(size);
        return None;
      }
      assert !SetFails(size) by {
        assert !Enabled(d.control, free.value) && Current() == d;
      }
      r := free;
      Replicate(cur, free.value, addr, SetSlot(control, free.value, 1, EncodeMode(mode) + 4 * sizeEnc.value));
      assert cur == currentThread;
      assert DebugRegsOf(dregs, cur) == Arm(d, free.value, Watch(addr, mode, size));
      if SlotsAgree(d, canon) {
        forall t <- covered * threads.Keys
          ensures DebugRegsOf(dregs, t) == SetFrom(d, canon, free.value, Watch(addr, mode, size))
        {
          assert DebugRegsOf(old(dregs), t) == canon;
        }
        canon := SetFrom(d, canon, free.value, Watch(addr, mode, size));
        covered := covered * threads.Keys;
      } else {
        covered := {};
      }
    }

    /** ClearHardwareStoppoint: empty one slot on every thread; an index outside 0..3 is an error. */
    method ClearHardwareStoppoint(index: int) returns (ok: bool)
      requires Replicated()
      modifies this`dregs, this`covered, this`canon
      ensures Replicated()
      ensures ok <==> 0 <= index < 4 && currentThread in threads
      ensures !ok ==> dregs == old(dregs) && covered == old(covered) && canon == old(canon)
      ensures ok ==> Current() == Disarm(old(Current()), index)
      ensures ok ==> Written(old(dregs), index, 0, Current().control)
      ensures ok && SlotsAgree(Disarm(old(Current()), index), Disarm(old(canon), index)) ==>
        covered == old(covered) * threads.Keys && canon == Disarm(WithControl(old(canon), old(Current())), index)
      ensures ok && !SlotsAgree(Disarm(old(Current()), index), Disarm(old(canon), index)) ==> covered == {} && canon == old(canon)
    {
      var cur := currentThread;
      if index < 0 || index > 3 || cur !in threads {
        return false;
      }
      ghost var d := DebugRegsOf(dregs, cur);
      Replicate(cur, index, 0, SetSlot(CachedDregs(cur).control, index, 0, 0));
      assert cur == currentThread;
      assert DebugRegsOf(dregs, cur) == Disarm(d, index);
      if SlotsAgree(Disarm(d, index), Disarm(canon, index)) {
        canon := Disarm(WithControl(canon, d), index);
        covered := covered * threads.Keys;
      } else {
        covered := {};
      }
      ok := true;
    }

    // ---------------------------------------------------------------- breakpoint sites

    /** Replace the byte at addr by a peek and a poke of the word there; the old byte on success. */
    method ExchangeByte(addr: U64, b: Byte) returns (previous: Option<Byte>)
      modifies kernel`mem
      ensures previous.Some? == Mapped(old(kernel.mem), addr, 8)
      ensures previous.None? ==> kernel.mem == old(kernel.mem)
      ensures previous.Some? ==>
        addr in old(kernel.mem) && previous.value == old(kernel.mem)[addr] && kernel.mem == old(kernel.mem)[addr := b]
    {
      var data := kernel.PeekData(addr);
      if data.None? {
        return None;
      }
      PatchLowByte(kernel.mem, addr, b);
      var _ := kernel.PokeData(addr, data.value - data.value % 256 + b);
      previous := Some(data.value % 256);
    }

    /** BreakpointSite.Enable on a software site; it does not look at isEnabled. */
    method EnableSoftware(i: nat) returns (ok: bool)
      requires i < |sites| && !sites[i].isHardware && TrapsOk()
      modifies this`sites, kernel`mem
      ensures ok <==> Mapped(old(kernel.mem), old(sites)[i].address, 8)
      ensures !ok ==> sites == old(sites) && kernel.mem == old(kernel.mem)
      ensures ok ==>
        var s := old(sites)[i];
        && s.address in old(kernel.mem) && s.address in own
        && kernel.mem == old(kernel.mem)[s.address := INT3]
        && sites == old(sites)[i := s.(isEnabled := true, savedData := old(kernel.mem)[s.address])]
        && (TrapsOk() <==> !s.isEnabled || own[s.address] == INT3)
    {
      var s := sites[i];
      ghost var before := kernel.mem;
      var previous := ExchangeByte(s.address, INT3);
      ok := previous.Some?;
      if ok {
        PlantTrap(own, before, sites, i);
        sites := sites[i := s.(isEnabled := true, savedData := previous.value)];
      }
    }

    /** BreakpointSite.Disable on a software site; it does not look at isEnabled. */
    method DisableSoftware(i: nat) returns (ok: bool)
      requires i < |sites| && !sites[i].isHardware && TrapsOk()
      modifies this`sites, kernel`mem
      ensures ok <==> Mapped(old(kernel.mem), old(sites)[i].address, 8)
      ensures !ok ==> sites == old(sites) && kernel.mem == old(kernel.mem)
      ensures ok ==>
        var s := old(sites)[i];
        && s.address in own
        && kernel.mem == old(kernel.mem)[s.address := s.savedData]
        && sites == old(sites)[i := s.(isEnabled := false)]
        && (TrapsOk() <==> s.savedData == own[s.address])
        && (s.isEnabled ==> TrapsOk())
    {
      var s := sites[i];
      ghost var before := kernel.mem;
      var previous := ExchangeByte(s.address, s.savedData);
      ok := previous.Some?;
      if ok {
        LiftTrap(own, before, sites, i);
        sites := sites[i := s.(isEnabled := false)];
      }
    }

    /** setHardwareStoppoint, with the slot allocation of before told in terms of the current thread's DR7. */
    method TakeSlot(addr: U64, mode: Mode, size: int) returns (r: Option<int>, ghost canon0: DebugRegs)
      requires HardwareOk()
      modifies this`dregs, this`covered, this`canon
      ensures r.None? <==> old(SetFails(size))
      ensures r.None? ==> HardwareOk() && dregs == old(dregs)
      ensures r.Some? ==> 0 <= r.value < 4 && IsLowestFree(old(Current()), r.value)
      ensures r.Some? ==> Current() == Arm(old(Current()), r.value, Watch(addr, mode, size))
      ensures r.Some? ==> HardwareWas(canon0)
      ensures r.Some? && covered != {} ==> !Enabled(canon0.control, r.value) && canon == Arm(canon0, r.value, Watch(addr, mode, size))
      ensures Kept(old(covered))
    {
      var cur := currentThread;
      r := SetHardwareStoppoint(addr, mode, size);
      assert cur == currentThread;
      canon0 := WithControl(old(canon), old(Current()));
      if r.Some? && covered != {} {
        AgreeingControl(old(Current()), old(canon), sites, watchpoints, owner);
      }
    }

    /** BreakpointSite.Enable on a disabled hardware site. */
    method EnableHardware(i: nat) returns (ok: bool)
      requires i < |sites| && sites[i].isHardware && !sites[i].isEnabled && TrapsOk() && HardwareOk()
      modifies this`sites, this`dregs, this`covered, this`canon, this`owner
      ensures ok <==> !old(SetFails(1))
      ensures TrapsOk() && HardwareOk()
      ensures !ok ==> sites == old(sites)
      ensures |sites| == old(|sites|)
      ensures ok ==> 0 <= sites[i].slot < 4 && sites == old(sites)[i := old(sites)[i].(isEnabled := true, slot := sites[i].slot)]
      ensures ok ==> IsLowestFree(old(Current()), sites[i].slot) && Current() == Arm(old(Current()), sites[i].slot, SiteWatch(sites[i]))
      ensures Kept(old(covered))
    {
      var s, cur := sites[i], currentThread;
      ghost var canon0;
      var slot;
      slot, canon0 := TakeSlot(s.address, Execute, 1);
      assert cur == currentThread;
      ok := slot.Some?;
      if ok {
        MarkEnabled(i, slot.value, canon0);
      }
    }

    /** Record a hardware site whose slot has just been programmed. */
    method MarkEnabled(i: nat, slot: nat, ghost canon0: DebugRegs)
      requires i < |sites| && sites[i].isHardware && !sites[i].isEnabled && slot < 4 && TrapsOk() && HardwareWas(canon0)
      requires covered != {} ==> !Enabled(canon0.control, slot) && canon == Arm(canon0, slot, SiteWatch(sites[i]))
      modifies this`sites, this`owner
      ensures TrapsOk() && HardwareOk() && sites == old(sites)[i := old(sites)[i].(isEnabled := true, slot := slot)]
    {
      var s := sites[i].(isEnabled := true, slot := slot);
      UntrappedUpdate(own, kernel.mem, sites, i, s);
      Updated(sites, i, s);
      if covered != {} {
        ArmSite(canon0, sites, watchpoints, owner, slot, i);
      }
      sites := sites[i := s];
      owner := owner[slot := SiteOwner(s.address)];
    }

    /** BreakpointSite.Disable on an enabled hardware site. */
    method DisableHardware(i: nat) returns (ok: bool)
      requires i < |sites| && UsesSlot(sites[i]) && TrapsOk() && HardwareOk()
      modifies this`sites, this`dregs, this`covered, this`canon, this`owner
      ensures ok <==> currentThread in threads
      ensures TrapsOk() && HardwareOk()
      ensures !ok ==> sites == old(sites) && dregs == old(dregs) && covered == old(covered)
      ensures ok ==> sites == old(sites)[i := old(sites)[i].(isEnabled := false)]
      ensures ok ==> !SetFails(1) && Current() == Disarm(old(Current()), old(sites)[i].slot)
      ensures Kept(old(covered))
    {
      var s, cur := sites[i], currentThread;
      ok := ClearHardwareStoppoint(s.slot);
      assert cur == currentThread;
      if ok {
        DisarmHolds(old(Current()), s.slot, s.slot, SiteWatch(s));
        UntrappedUpdate(own, kernel.mem, sites, i, s.(isEnabled := false));
        if covered != {} {
          DisarmSite(old(canon), sites, watchpoints, owner, i);
          AgreeingControl(Disarm(old(Current()), s.slot), Disarm(old(canon), s.slot),
                          sites[i := s.(isEnabled := false)], watchpoints, owner - {s.slot});
        }
        sites := sites[i := s.(isEnabled := false)];
        owner := owner - {s.slot};
      }
    }

    /** The debugger's state but for the sites: nothing that enabling or disabling one may change. */
    ghost predicate SitesOk()
      reads this`sites, this`own, kernel`mem, this`watchpoints, this`dregs, this`staleDregs, this`covered, this`canon, this`owner
    {
      TrapsOk() && HardwareOk()
    }

    /** Enable on a disabled site of either kind keeps the overlay and the slot allocation. */
    method EnableSite(i: nat) returns (ok: bool)
      requires i < |sites| && !sites[i].isEnabled && SitesOk()
      modifies this`sites, this`dregs, this`covered, this`canon, this`owner, kernel`mem
      ensures SitesOk() && |sites| == old(|sites|)
      ensures ok <==> if old(sites)[i].isHardware then !old(SetFails(1)) else Mapped(old(kernel.mem), old(sites)[i].address, 8)
      ensures !ok ==> sites == old(sites)
      ensures ok ==> sites == old(sites)[i := sites[i]] && sites[i].isEnabled && SameSite(sites[i], old(sites)[i])
      ensures !old(sites)[i].isHardware ==> dregs == old(dregs) && covered == old(covered)
      ensures ok && old(sites)[i].isHardware ==> 0 <= sites[i].slot < 4 && IsLowestFree(old(Current()), sites[i].slot)
      ensures ok && old(sites)[i].isHardware ==> Current() == Arm(old(Current()), sites[i].slot, SiteWatch(sites[i]))
      ensures kernel.mem.Keys == old(kernel.mem).Keys
      ensures Kept(old(covered))
    {
      ghost var before := sites;
      if sites[i].isHardware {
        ok := EnableHardware(i);
      } else {
        ok := EnableSoftware(i);
        if ok && covered != {} {
          SlotlessUpdate(canon, before, watchpoints, owner, i, sites[i]);
        }
      }
    }

    /** Disable on an enabled site of either kind keeps the overlay and the slot allocation. */
    method DisableSite(i: nat) returns (ok: bool)
      requires i < |sites| && sites[i].isEnabled && SitesOk()
      modifies this`sites, this`dregs, this`covered, this`canon, this`owner, kernel`mem
      ensures SitesOk() && |sites| == old(|sites|)
      ensures ok <==>
        if old(sites)[i].isHardware then currentThread in threads else Mapped(old(kernel.mem), old(sites)[i].address, 8)
      ensures !ok ==> sites == old(sites) && dregs == old(dregs) && covered == old(covered)
      ensures ok ==> sites == old(sites)[i := old(sites)[i].(isEnabled := false)]
      ensures ok && sites[i].isHardware ==> !SetFails(1)
      ensures !old(sites)[i].isHardware ==> dregs == old(dregs) && covered == old(covered)
      ensures ok && old(sites)[i].isHardware ==> 0 <= old(sites)[i].slot < 4 && Current() == Disarm(old(Current()), old(sites)[i].slot)
      ensures kernel.mem.Keys == old(kernel.mem).Keys
      ensures Kept(old(covered))
    {
      ghost var before := sites;
      if sites[i].isHardware {
        ok := DisableHardware(i);
      } else {
        ok := DisableSoftware(i);
        if ok && covered != {} {
          SlotlessUpdate(canon, before, watchpoints, owner, i, sites[i]);
        }
      }
    }

    /** CreateBreakpointSite: a disabled site, rejected when the address already has one. */
    method CreateBreakpointSite(addr: U64, hardware: bool, internal: bool) returns (r: Option<int>)
      requires SitesOk()
      modifies this`sites, this`nextBreakpointId
      ensures SitesOk()
      ensures r.None? <==> exists s <- old(sites) :: s.address == addr
      ensures r.None? ==> sites == old(sites)
      ensures r.Some? ==>
        && r.value == |old(sites)|
        && sites == old(sites) + [Site(if internal then -1 else old(nextBreakpointId), addr, hardware, internal, false, 0, -1, None)]
    {
      for i := 0 to |sites|
        invariant forall j :: 0 <= j < i ==> sites[j].address != addr
      {
        if sites[i].address == addr {
          return None;
        }
      }
      var id := nextBreakpointId;
      nextBreakpointId := nextBreakpointId + 1;
      var site := Site(if internal then -1 else id, addr, hardware, internal, false, 0, -1, None);
      PushSite(own, kernel.mem, sites, site);
      if covered != {} {
        SlotsSameUsers(canon, sites, sites + [site], watchpoints, watchpoints, owner);
      }
      r := Some(|sites|);
      sites := sites + [site];
    }

    /** Drop a disabled site from the list. */
    method DropAt(i: nat)
      requires SitesOk() && i < |sites| && !sites[i].isEnabled
      modifies this`sites
      ensures SitesOk() && sites == Without(old(sites), i)
    {
      DropSite(own, kernel.mem, sites, i);
      if covered != {} {
        DropUser(sites, i);
        SlotsSameUsers(canon, sites, Without(sites, i), watchpoints, watchpoints, owner);
      }
      sites := sites[..i] + sites[i + 1..];
    }

    /** Disabling site i would not fail. */
    ghost predicate Removable(i: nat)
      requires i < |sites|
      reads this`sites, this`threads, this`currentThread, kernel`mem
    {
      sites[i].isEnabled ==>
        if sites[i].isHardware then currentThread in threads else Mapped(kernel.mem, sites[i].address, 8)
    }

    /** Disable a site if it is enabled, then drop it from the list. */
    method RemoveAt(i: nat) returns (ok: bool)
      requires SitesOk() && i < |sites|
      modifies this`sites, this`dregs, this`covered, this`canon, this`owner, kernel`mem
      ensures SitesOk() && Kept(old(covered))
      ensures ok <==> old(Removable(i))
      ensures sites == if ok then Without(old(sites), i) else old(sites)
      ensures kernel.mem.Keys == old(kernel.mem).Keys && (!old(sites)[i].isHardware ==> dregs == old(dregs))
    {
      ghost var before := sites;
      ok := true;
      if sites[i].isEnabled {
        ok := DisableSite(i);
      }
      if ok {
        DropAt(i);
        assert sites == Without(before, i);
      }
    }

    /** RemoveBreakpointSite: remove the first site with the ID; an error exactly without one or when it cannot be disabled. */
    method RemoveBreakpointSite(id: int) returns (ok: bool)
      requires SitesOk()
      modifies this`sites, this`dregs, this`covered, this`canon, this`owner, kernel`mem
      ensures SitesOk() && Kept(old(covered))
      ensures ok <==> exists i: nat :: IsFirstWithId(old(sites), i, id) && old(Removable(i))
      ensures !ok ==> sites == old(sites)
      ensures ok ==> exists i :: IsFirstWithId(old(sites), i, id) && sites == Without(old(sites), i)
    {
      var found := IndexById(sites, id);
      if found.None? {
        return false;
      }
      assert IsFirstWithId(sites, found.value, id);
      ok := RemoveAt(found.value);
    }

    // ---------------------------------------------------------------- watchpoints

    /** A new watchpoint at an address that has none, enabled at once. */
    method AddWatchpoint(addr: U64, mode: Mode, size: int) returns (ok: bool)
      requires SitesOk() && !Watched(addr)
      modifies this`watchpoints, this`nextWatchpointId, this`dregs, this`covered, this`canon, this`owner
      ensures SitesOk()
      ensures ok <==> !old(SetFails(size))
      ensures !ok ==> watchpoints == old(watchpoints) && dregs == old(dregs)
      ensures ok ==> Appended(old(watchpoints), watchpoints, old(nextWatchpointId), Watch(addr, mode, size))
      ensures Kept(old(covered))
    {
      hide Overlaid, SlotsOk;
      ghost var canon0;
      var slot;
      slot, canon0 := TakeSlot(addr, mode, size);
      ok := slot.Some?;
      if ok {
        var w := Watchpoint(nextWatchpointId, addr, mode, size, true, slot.value);
        ListWatchpoint(w, canon0);
        nextWatchpointId := nextWatchpointId + 1;
      }
    }

    /** HardwareOk but for the slot allocation, which held for `canon0`. */
    ghost predicate HardwareWas(canon0: DebugRegs)
      reads this`sites, this`watchpoints, this`dregs, this`staleDregs, this`covered, this`canon, this`owner
    {
      && DistinctWatches(watchpoints)
      && (forall s <- sites :: UsesSlot(s) ==> 0 <= s.slot < 4)
      && (forall w <- watchpoints :: SupportedSize(w.size) && (w.isEnabled ==> 0 <= w.slot < 4))
      && Replicated()
      && (covered != {} ==> SlotsOk(canon0, sites, watchpoints, owner))
    }

    /** Append a watchpoint whose slot has just been programmed. */
    method ListWatchpoint(w: Watchpoint, ghost canon0: DebugRegs)
      requires HardwareWas(canon0) && w.isEnabled && 0 <= w.slot < 4 && SupportedSize(w.size) && !Watched(w.address)
      requires covered != {} ==> !Enabled(canon0.control, w.slot) && canon == Arm(canon0, w.slot, PointWatch(w))
      modifies this`watchpoints, this`owner
      ensures HardwareOk() && watchpoints == old(watchpoints) + [w]
    {
      if covered != {} {
        ArmNewWatch(canon0, sites, watchpoints, owner, w.slot, w);
      }
      watchpoints := watchpoints + [w];
      owner := owner[w.slot := WatchOwner(w.address)];
    }

    /** Mark a watchpoint enabled whose slot has just been programmed. */
    method RelistWatchpoint(k: nat, slot: nat, ghost canon0: DebugRegs)
      requires HardwareWas(canon0) && k < |watchpoints| && !watchpoints[k].isEnabled && slot < 4
      requires covered != {} ==> !Enabled(canon0.control, slot) && canon == Arm(canon0, slot, PointWatch(watchpoints[k]))
      modifies this`watchpoints, this`owner
      ensures HardwareOk() && watchpoints == old(watchpoints)[k := old(watchpoints)[k].(isEnabled := true, slot := slot)]
    {
      var w := watchpoints[k];
      WatchUpdate(watchpoints, k, w.(isEnabled := true, slot := slot));
      if covered != {} {
        ArmWatch(canon0, sites, watchpoints, owner, slot, k);
      }
      watchpoints := watchpoints[k := w.(isEnabled := true, slot := slot)];
      owner := owner[slot := WatchOwner(w.address)];
    }

    /** Mark a watchpoint disabled whose slot has just been emptied. */
    method UnlistWatchpoint(k: nat, ghost canon0: DebugRegs, ghost cur0: DebugRegs)
      requires HardwareWas(canon0) && k < |watchpoints| && watchpoints[k].isEnabled
      requires covered != {} ==>
        var i := watchpoints[k].slot;
        SlotsAgree(Disarm(cur0, i), Disarm(canon0, i)) && canon == Disarm(WithControl(canon0, cur0), i)
      modifies this`watchpoints, this`owner
      ensures HardwareOk() && watchpoints == old(watchpoints)[k := old(watchpoints)[k].(isEnabled := false)]
    {
      var w := watchpoints[k];
      WatchUpdate(watchpoints, k, w.(isEnabled := false));
      if covered != {} {
        DisarmWatch(canon0, sites, watchpoints, owner, k);
        AgreeingControl(Disarm(cur0, w.slot), Disarm(canon0, w.slot),
                        sites, watchpoints[k := w.(isEnabled := false)], owner - {w.slot});
      }
      watchpoints := watchpoints[k := w.(isEnabled := false)];
      owner := owner - {w.slot};
    }

    /** CreateWatchpoint: the address must be aligned to the size and not yet watched. */
    method CreateWatchpoint(addr: U64, mode: Mode, size: int) returns (ok: bool)
      requires SitesOk()
      modifies this`watchpoints, this`nextWatchpointId, this`dregs, this`covered, this`canon, this`owner
      ensures SitesOk()
      ensures ok <==> mode != Execute && !old(SetFails(size)) && addr % size == 0 && !old(Watched(addr))
      ensures !ok ==> watchpoints == old(watchpoints) && dregs == old(dregs)
      ensures ok ==> Appended(old(watchpoints), watchpoints, old(nextWatchpointId), Watch(addr, mode, size))
      ensures Kept(old(covered))
    {
      if SupportedSize(size) && addr % size != 0 {
        return false;
      }
      var taken := IsWatched(addr);
      if taken || mode == Execute {
        return false;
      }
      ok := AddWatchpoint(addr, mode, size);
    }

    method IsWatched(addr: U64) returns (found: bool)
      ensures found == Watched(addr)
    {
      for i := 0 to |watchpoints|
        invariant forall j :: 0 <= j < i ==> watchpoints[j].address != addr
      {
        if watchpoints[i].address == addr {
          return true;
        }
      }
      found := false;
    }

    ghost predicate Watched(addr: U64)
      reads this`watchpoints
    {
      exists w <- watchpoints :: w.address == addr
    }

    /** Watchpoint.Enable on a disabled watchpoint. */
    method EnableWatchpoint(k: nat) returns (ok: bool)
      requires k < |watchpoints| && !watchpoints[k].isEnabled && SitesOk()
      modifies this`watchpoints, this`dregs, this`covered, this`canon, this`owner
      ensures SitesOk() && |watchpoints| == |old(watchpoints)|
      ensures ok <==> old(watchpoints)[k].mode != Execute && !old(SetFails(watchpoints[k].size))
      ensures !ok ==> watchpoints == old(watchpoints) && dregs == old(dregs)
      ensures ok ==>
        var w := old(watchpoints)[k].(isEnabled := true, slot := watchpoints[k].slot);
        watchpoints == old(watchpoints)[k := w]
      ensures Kept(old(covered))
    {
      hide Overlaid, SlotsOk;
      var w := watchpoints[k];
      if w.mode == Execute {
        return false;
      }
      ghost var canon0;
      var slot;
      slot, canon0 := TakeSlot(w.address, w.mode, w.size);
      ok := slot.Some?;
      if ok {
        RelistWatchpoint(k, slot.value, canon0);
      }
    }

    /** Watchpoint.Disable on an enabled watchpoint. */
    method DisableWatchpoint(k: nat) returns (ok: bool)
      requires k < |watchpoints| && watchpoints[k].isEnabled && SitesOk()
      modifies this`watchpoints, this`dregs, this`covered, this`canon, this`owner
      ensures SitesOk()
      ensures ok <==> currentThread in threads
      ensures !ok ==> watchpoints == old(watchpoints) && dregs == old(dregs)
      ensures ok ==> watchpoints == old(watchpoints)[k := old(watchpoints)[k].(isEnabled := false)]
      ensures Kept(old(covered))
    {
      var w, cur := watchpoints[k], currentThread;
      assert w in watchpoints && 0 <= w.slot < 4;
      ok := ClearHardwareStoppoint(w.slot);
      assert cur == currentThread;
      if ok {
        UnlistWatchpoint(k, old(canon), old(Current()));
      }
    }

    /** RemoveWatchpoint: remove the first watchpoint with the ID; an error exactly without one or when it cannot be disabled. */
    method RemoveWatchpoint(id: int) returns (ok: bool)
      requires SitesOk()
      modifies this`watchpoints, this`dregs, this`covered, this`canon, this`owner
      ensures SitesOk() && Kept(old(covered))
      ensures ok <==> exists k :: IsFirstWatch(old(watchpoints), k, id) && (old(watchpoints)[k].isEnabled ==> currentThread in threads)
      ensures !ok ==> watchpoints == old(watchpoints)
      ensures ok ==> exists k :: IsFirstWatch(old(watchpoints), k, id) && watchpoints == old(watchpoints)[..k] + old(watchpoints)[k + 1..]
    {
      ghost var before := watchpoints;
      var k := WatchById(watchpoints, id);
      if k.None? {
        return false;
      }
      assert IsFirstWatch(watchpoints, k.value, id);
      ok := true;
      if watchpoints[k.value].isEnabled {
        ok := DisableWatchpoint(k.value);
      }
      if ok {
        DropWatchpoint(k.value);
        assert watchpoints == before[..k.value] + before[k.value + 1..];
      }
    }

    /** Drop a disabled watchpoint from the list. */
    method DropWatchpoint(k: nat)
      requires SitesOk() && k < |watchpoints| && !watchpoints[k].isEnabled
      modifies this`watchpoints
      ensures SitesOk() && watchpoints == old(watchpoints)[..k] + old(watchpoints)[k + 1..]
    {
      DropWatch(watchpoints, k);
      if covered != {} {
        SlotsSameUsers(canon, sites, sites, watchpoints, watchpoints[..k] + watchpoints[k + 1..], owner);
      }
      watchpoints := watchpoints[..k] + watchpoints[k + 1..];
    }

    // ---------------------------------------------------------------- waiting

    /** wait4, with the program's stores since the last report added to its own memory. */
    method Await(toAwait: Option<int>) returns (r: Option<Event>)
      requires TrapsOk() && History()
      modifies this`own, this`past, kernel`future, kernel`running, kernel`queued, kernel`regs, kernel`mem
      ensures TrapsOk() && History() && kernel.mem.Keys == old(kernel.mem).Keys
      ensures r.None? <==> old(kernel.Blocks(toAwait))
      ensures r.None? ==> kernel.Blocks(toAwait)
      ensures past == old(past) + if r.Some? then [Took(r.value.tid, TrapAddrs(sites))] else []
      ensures r.None? ==> kernel.future == old(kernel.future) && kernel.regs == old(kernel.regs) && own == old(own)
      ensures r.Some? ==> |old(kernel.future)| > 0 && kernel.future == old(kernel.future)[1..]
      ensures r.Some? ==> r.value == Reported(old(kernel.future)[0], toAwait)
      ensures r.Some? ==> own == Stored(old(own), Landing(old(kernel.mem), r.value.stores))
      ensures r.Some? && r.value.stores == map[] ==> own == old(own)
      ensures r.Some? && kernel.honest ==> Obliging(r.value, toAwait, LastAction(kernel.log, r.value.tid), old(kernel.regs))
      ensures r.Some? ==> kernel.running == RunningAfter(old(kernel.running), r.value)
      ensures r.Some? ==> kernel.queued == QueuedAfter(old(kernel.queued), r.value)
      ensures r.Some? ==>
        kernel.regs == if r.value.status.IsStop() then old(kernel.regs)[r.value.tid := r.value.regs] else old(kernel.regs)
    {
      ghost var before := kernel.mem;
      var landed;
      r, landed := kernel.Wait(toAwait);
      StoresKeepOverlay(own, before, sites, landed);
      own := Stored(own, landed);
      if r.Some? {
        ReplayPush(replay, start, past, Took(r.value.tid, TrapAddrs(sites)));
        past := past + [Took(r.value.tid, TrapAddrs(sites))];
      }
    }

    /** sendContinue. */
    method SendContinue(tid: int) returns (ok: bool)
      modifies this`threads, this`state, kernel`running, kernel`log
      ensures ok == old(kernel.StoppedInKernel(tid))
      ensures kernel.running == if ok then old(kernel.running)[tid := true] else old(kernel.running)
      ensures kernel.log ==
        if ok then old(kernel.log) + [Cont(tid, kernel.PcOf(tid), kernel.mem, tid in kernel.queued)] else old(kernel.log)
      ensures threads ==
        if ok && tid in old(threads) then old(threads)[tid := old(threads)[tid].(state := Running)] else old(threads)
    {
      ok := kernel.Continue(tid);
      if ok {
        if tid in threads {
          threads := threads[tid := threads[tid].(state := Running)];
        }
        state := Running;
      }
    }

    /** The register caches are those of the tracked threads, each bound to its own. */
    ghost predicate Keyed()
      reads this`threads, this`regs, this`boundTo
    {
      regs.Keys == threads.Keys && boundTo == map[]
    }

    /** setPCForThread with the address of the trap that was hit. */
    method MoveBack(tid: int)
      requires tid in threads && tid in kernel.regs && Keyed() && History()
      requires regs[tid] == kernel.regs[tid] && Wrap64(regs[tid].pc - 1) in TrapAddrs(sites)
      modifies this`regs, this`past, kernel`regs
      ensures Keyed() && History() && past == old(past) + [Moved(tid, TrapAddrs(sites))]
      ensures
        var back := old(kernel.regs)[tid].(pc := Wrap64(old(kernel.regs)[tid].pc - 1));
        regs == old(regs)[tid := back] && kernel.regs == old(kernel.regs)[tid := back]
    {
      ReplayPush(replay, start, past, Moved(tid, TrapAddrs(sites)));
      regs := regs[tid := regs[tid].(pc := Wrap64(regs[tid].pc - 1))];
      kernel.SetRegs(Binding(boundTo, tid), regs[tid]);
      past := past + [Moved(tid, TrapAddrs(sites))];
    }

    /** The entry of a thread seen for the first time, with an empty register cache. */
    method AddThread(tid: int)
      requires tid !in threads && Keyed() && History()
      modifies this`threads, this`regs, this`past
      ensures Keyed() && History() && past == old(past) + [Found(tid)]
      ensures threads == old(threads)[tid := Fresh(tid)] && tid in regs && SameBut(old(regs), regs, tid)
    {
      ReplayPush(replay, start, past, Found(tid));
      threads := threads[tid := Fresh(tid)];
      regs := regs[tid := Regs(0, 0, 0, 0, [], [])];
      past := past + [Found(tid)];
    }

    /**
     The second half of handleSignal, for a stop of a tracked thread: refresh the
     register cache, refine the reason, move the PC back onto a software trap that
     was hit, and ask the hit handler and the syscall filter.
     */
    method InspectStop(reason: StopReason, e: Event, isMainStop: bool) returns (r: Option<StopReason>, ghost why: Verdict)
      requires reason.tid in threads && reason.tid in kernel.regs && Keyed() && History()
      modifies this`threads, this`regs, this`past, kernel`regs
      ensures Keyed() && History()
      ensures
        var tid := reason.tid;
        var refined := Refined(reason, e, old(threads)[tid].expectingSyscallExit);
        var was := old(kernel.regs)[tid];
        && threads == old(threads)[tid := old(threads)[tid].(expectingSyscallExit := Expects(reason, e, old(threads)[tid].expectingSyscallExit))]
        && kernel.regs == old(kernel.regs)[tid := Corrected(sites, refined, was)]
        && regs == old(regs)[tid := Corrected(sites, refined, was)]
        && past == old(past) + (if Hit(sites, refined, was).Some? then [Moved(tid, TrapAddrs(sites))] else [])
        && (why == HandlerResumes <==> isMainStop && HandlerAsks(sites, refined, was))
        && (why == FilteredSyscall <==> isMainStop && Filtered(policy, refined))
        && r == if why == Report then Some(refined) else None
      ensures why == Report || why == HandlerResumes || why == FilteredSyscall
    {
      var tid := reason.tid;
      var bound := Binding(boundTo, tid);
      regs := regs[tid := kernel.regs[bound]];
      var (refined, expecting) := Augment(reason, e.siCode, e.sysno, threads[tid].expectingSyscallExit);
      threads := threads[tid := threads[tid].(expectingSyscallExit := expecting)];
      if refined.trap == Some(SoftwareBreak) {
        var pc := Wrap64(regs[tid].pc - 1);
        var hit := FirstTrapped(sites, pc);
        if hit.Some? {
          MoveBack(tid);
          if hit.value.onHit == Some(true) && isMainStop {
            return None, HandlerResumes;
          }
        }
      } else if refined.trap == Some(SyscallTrap) && isMainStop && ShouldResume(policy, refined) {
        return None, FilteredSyscall;
      }
      return Some(refined), Report;
    }

    /** The stops that are not looked into: the first one of a new thread, and the debugger's own SIGSTOP. */
    method Sift(reason: StopReason, isMainStop: bool) returns (why: Verdict)
      requires Keyed() && History()
      modifies this`threads, this`regs, this`past
      ensures Keyed() && History()
      ensures why == NewThread <==> reason.tid !in old(threads) && isMainStop
      ensures why == OwnSigstop <==>
        reason.tid in old(threads) && old(threads)[reason.tid].pendingSigstop && reason.info == SIGSTOP
      ensures why == Report || why == NewThread || why == OwnSigstop
      ensures past == old(past) + if reason.tid in old(threads) then [] else [Found(reason.tid)]
      ensures SameBut(old(regs), regs, reason.tid) && threads == old(threads)[reason.tid :=
        if reason.tid !in old(threads) then Fresh(reason.tid)
        else old(threads)[reason.tid].(pendingSigstop := old(threads)[reason.tid].pendingSigstop && why != OwnSigstop)]
    {
      var tid := reason.tid;
      if tid !in threads {
        AddThread(tid);
        if isMainStop {
          return NewThread;
        }
      }
      if threads[tid].pendingSigstop && reason.info == SIGSTOP {
        threads := threads[tid := threads[tid].(pendingSigstop := false)];
        return OwnSigstop;
      }
      return Report;
    }

    /**
     handleSignal: None means the thread is to be resumed, and `why` says on which
     ground, for each exactly when. For a stop of another thread during stop-all the
     only ground is that it is the debugger's own SIGSTOP. The registers change only
     where a stop is looked into, and then only the PC that follows a trap.
     */
    method HandleSignal(reason: StopReason, e: Event, isMainStop: bool) returns (r: Option<StopReason>, ghost why: Verdict)
      requires reason.reason == Stopped ==> reason.tid in kernel.regs
      requires Keyed() && History()
      modifies this`threads, this`regs, this`past, kernel`regs
      ensures Keyed() && History()
      ensures r.None? <==> why != Report
      ensures why == CloneEvent <==> reason.trap == Some(CloneTrap) && isMainStop
      ensures why == NewThread <==>
        why != CloneEvent && reason.reason == Stopped && reason.tid !in old(threads) && isMainStop
      ensures why == OwnSigstop <==>
        && why != CloneEvent && reason.reason == Stopped && reason.info == SIGSTOP
        && reason.tid in old(threads) && old(threads)[reason.tid].pendingSigstop
      ensures
        var looked := Inspected(old(threads), reason, isMainStop);
        var refined := Refined(reason, e, Expecting(old(threads), reason.tid));
        && (looked ==>
              && kernel.regs == old(kernel.regs)[reason.tid := Corrected(sites, refined, old(kernel.regs)[reason.tid])]
              && reason.tid in regs && regs[reason.tid] == kernel.regs[reason.tid])
        && (!looked ==> kernel.regs == old(kernel.regs))
        && past == old(past) + Noted(old(threads), reason, why == CloneEvent, looked && Hit(sites, refined, old(kernel.regs)[reason.tid]).Some?, TrapAddrs(sites))
        && (why == HandlerResumes <==> looked && isMainStop && HandlerAsks(sites, refined, old(kernel.regs)[reason.tid]))
        && (why == FilteredSyscall <==> looked && isMainStop && Filtered(policy, refined))
        && (r.Some? ==> r.value == if looked then refined else reason)
      ensures reason.tid in threads <==>
        reason.tid in old(threads) || (why != CloneEvent && reason.reason == Stopped)
      ensures SameBut(old(threads), threads, reason.tid)
      ensures reason.tid in old(threads) ==>
        threads[reason.tid] == old(threads)[reason.tid]
          .(pendingSigstop := old(threads)[reason.tid].pendingSigstop && why != OwnSigstop,
            expectingSyscallExit := ExpectsNext(old(threads), reason, e, isMainStop))
      ensures reason.tid in threads && reason.tid !in old(threads) ==>
        threads[reason.tid] == Fresh(reason.tid).(expectingSyscallExit := ExpectsNext(old(threads), reason, e, isMainStop))
      ensures SameBut(old(regs), regs, reason.tid)
    {
      if reason.trap == Some(CloneTrap) && isMainStop {
        return None, CloneEvent;
      }
      if reason.reason != Stopped {
        return Some(reason), Report;
      }
      var sifted := Sift(reason, isMainStop);
      if sifted != Report {
        return None, sifted;
      }
      r, why := InspectStop(reason, e, isMainStop);
    }

    /** Wait for one running thread, whose entry is open meanwhile. */
    method AwaitOne(tid: int) returns (e: Option<Event>)
      requires TrapsOk() && History() && tid in threads
      requires !missed ==> TableOk(threads, kernel.running, kernel.queued, {tid})
      modifies this`own, this`past, kernel`future, kernel`running, kernel`queued, kernel`regs, kernel`mem
      ensures TrapsOk() && History() && past == old(past) + (if e.Some? then [Took(tid, TrapAddrs(sites))] else [])
      ensures e.None? ==> kernel.Blocks(Some(tid))
      ensures |kernel.future| <= |old(kernel.future)|
      ensures SameBut(old(kernel.regs), kernel.regs, tid)
      ensures e.Some? ==> e.value.tid == tid && (e.value.status.IsStop() ==> tid in kernel.regs)
      ensures e.Some? && !missed ==> TableOk(threads, kernel.running, kernel.queued, {tid})
      ensures e.Some? ==> if e.value.status.IsStop()
        then tid in kernel.running && !kernel.running[tid] && (tid in kernel.queued <==> tid in old(kernel.queued) && e.value.status != Stop(SIGSTOP))
        else tid !in kernel.running && tid !in kernel.queued
    {
      e := Await(Some(tid));
    }

    /**
     The first half of a round of stopRunningThreads: send a SIGSTOP unless one is
     already queued, wait for the thread, and record whether the SIGSTOP is still
     to come.
     */
    method ForceStop(tid: int) returns (e: Option<Event>)
      requires tid in threads && threads[tid].state == Running
      requires TrapsOk() && TableAgrees() && History()
      modifies this`threads, this`own, this`past, kernel`future, kernel`running, kernel`queued, kernel`regs, kernel`mem
      ensures TrapsOk() && History() && past == old(past) + (if e.Some? then [Took(tid, TrapAddrs(sites))] else [])
      ensures e.None? ==> kernel.Blocks(Some(tid))
      ensures |kernel.future| <= |old(kernel.future)|
      ensures SameBut(old(kernel.regs), kernel.regs, tid)
      ensures tid in threads
      ensures threads == old(threads)[tid := old(threads)[tid].(pendingSigstop := threads[tid].pendingSigstop)]
      ensures e.Some? ==> e.value.tid == tid && (e.value.status.IsStop() ==> tid in kernel.regs)
      ensures e.Some? && e.value.status == Stop(SIGSTOP) ==> !threads[tid].pendingSigstop
      ensures e.Some? && !missed ==>
        && TableOk(threads, kernel.running, kernel.queued, {tid})
        && (e.value.status.IsStop() ==>
              tid in kernel.running && !kernel.running[tid] && (threads[tid].pendingSigstop <==> tid in kernel.queued))
        && (!e.value.status.IsStop() ==> tid !in kernel.running && tid !in kernel.queued)
    {
      if !threads[tid].pendingSigstop {
        kernel.SendSigstop(tid);
      }
      e := AwaitOne(tid);
      if e.Some? && e.value.status.IsStop() {
        threads := threads[tid := threads[tid].(pendingSigstop := NewStopReason(e.value).info != SIGSTOP)];
      }
    }

    /** What handleSignal makes of a forced stop, and its entry in the table. handleSignal never asks for the thread to be resumed here. */
    method NoteStop(tid: int, e: Event)
      requires tid in threads && e.tid == tid && Keyed() && (e.status.IsStop() ==> tid in kernel.regs)
      requires e.status == Stop(SIGSTOP) ==> !threads[tid].pendingSigstop
      requires !missed ==>
        && TableOk(threads, kernel.running, kernel.queued, {tid})
        && (e.status.IsStop() ==>
              tid in kernel.running && !kernel.running[tid] && (threads[tid].pendingSigstop <==> tid in kernel.queued))
        && (!e.status.IsStop() ==> tid !in kernel.running && tid !in kernel.queued)
      requires History() && ReasonsOk(threads) && (kernel.honest ==> !missed)
      modifies this`threads, this`regs, this`past, kernel`regs
      ensures Keyed() && TableAgrees() && History() && (past == old(past) || past == old(past) + [Moved(tid, TrapAddrs(sites))])
      ensures tid in threads && SameBut(old(threads), threads, tid) && threads[tid].state == NewStopReason(e).reason
      ensures SameBut(old(regs), regs, tid)
      ensures if e.status.IsStop()
        then
          var refined := Refined(NewStopReason(e), e, Expecting(old(threads), tid));
          && kernel.regs == old(kernel.regs)[tid := Corrected(sites, refined, old(kernel.regs)[tid])]
          && tid in regs && regs[tid] == kernel.regs[tid]
        else kernel.regs == old(kernel.regs)
    {
      var reason := NewStopReason(e);
      ghost var noted := threads;
      var augmented, why := HandleSignal(reason, e, false);
      assert why == Report;
      var final := if augmented.Some? then augmented.value else reason;
      threads := threads[tid := threads[tid].(reason := final, state := final.reason)];
      if !missed {
        TableSet(noted, threads, kernel.running, kernel.queued, tid);
      }
    }

    /** One round of stopRunningThreads. */
    method StopThread(tid: int) returns (blocked: bool)
      requires tid in threads && threads[tid].state == Running
      requires TrapsOk() && Keyed() && TableAgrees() && History()
      modifies this`threads, this`regs, this`own, this`past
      modifies kernel`future, kernel`running, kernel`queued, kernel`regs, kernel`mem
      ensures TrapsOk() && Keyed() && History()
      ensures Waited(old(past), past, TrapAddrs(sites))
      ensures blocked ==> kernel.Blocks(Some(tid))
      ensures |kernel.future| <= |old(kernel.future)|
      ensures tid in threads && SameBut(old(threads), threads, tid)
      ensures SameBut(old(regs), regs, tid) && SameBut(old(kernel.regs), kernel.regs, tid)
      ensures !blocked ==> TableAgrees() && threads[tid].state != Running
      ensures !blocked && threads[tid].state == Stopped ==> tid in kernel.regs && regs[tid] == kernel.regs[tid]
    {
      ghost var past0 := past;
      var e := ForceStop(tid);
      if e.None? {
        return true;
      }
      ghost var past1 := past;
      NoteStop(tid, e.value);
      TookThen(past0, past1, past, tid, TrapAddrs(sites));
      blocked := false;
    }

    /** A round of stopRunningThreads, as far as the others are concerned. */
    method StopOne(tid: int) returns (blocked: bool)
      requires tid in threads && threads[tid].state == Running
      requires TrapsOk() && Keyed() && TableAgrees() && History()
      modifies this`threads, this`regs, this`own, this`past
      modifies kernel`future, kernel`running, kernel`queued, kernel`regs, kernel`mem
      ensures TrapsOk() && Keyed() && History() && Waited(old(past), past, TrapAddrs(sites))
      ensures blocked ==> kernel.Blocks(Some(tid))
      ensures |kernel.future| <= |old(kernel.future)|
      ensures tid in threads && SameBut(old(threads), threads, tid)
      ensures !blocked ==> TableAgrees() && threads[tid].state != Running && (old(Cached()) ==> Cached())
    {
      blocked := StopThread(tid);
    }

    /** stopRunningThreads: afterwards no thread but the excluded one is recorded as running. */
    method StopRunningThreads(exclude: int) returns (blocked: bool)
      requires TrapsOk() && Keyed() && TableAgrees() && History()
      requires exclude in threads && threads[exclude].state == Stopped
      modifies this`threads, this`regs, this`own, this`past
      modifies kernel`future, kernel`running, kernel`queued, kernel`regs, kernel`mem
      ensures TrapsOk() && Keyed() && History() && threads.Keys == old(threads).Keys
      ensures Waited(old(past), past, TrapAddrs(sites))
      ensures blocked ==> kernel.Stuck()
      ensures |kernel.future| <= |old(kernel.future)|
      ensures exclude in threads && threads[exclude] == old(threads)[exclude]
      ensures !blocked ==> TableAgrees() && forall t <- threads :: threads[t].state != Running
      ensures !blocked && old(Cached()) ==> Cached()
    {
      assert Waited(past, past, TrapAddrs(sites));
      hide Overlaid, TableOk, Waited;
      ghost var before, keys, past0, traps := threads, threads.Keys, past, TrapAddrs(sites);
      ghost var wasCached := Cached();
      var todo := threads.Keys;
      while todo != {}
        invariant TrapsOk() && Keyed() && TableAgrees() && History() && Waited(past0, past, traps)
        invariant |kernel.future| <= |old(kernel.future)|
        invariant (forall t :: t in threads <==> t in keys) && todo <= keys && threads[exclude] == before[exclude]
        invariant forall t <- threads :: t !in todo ==> threads[t].state != Running
        invariant wasCached ==> Cached()
        decreases |todo|
      {
        Inhabited(todo);
        var tid :| tid in todo;
        todo := todo - {tid};
        if tid == exclude || threads[tid].state != Running {
          continue;
        }
        ghost var past1 := past;
        blocked := StopOne(tid);
        WaitedTrans(past0, past1, past, traps);
        if blocked {
          SameKeys(threads, before);
          return;
        }
      }
      blocked := false;
      SameKeys(threads, before);
    }

    /** cleanupExitedThreads: forget the threads that died; the reason if the main thread is among them. */
    method CleanupExitedThreads(exclude: int) returns (mainExit: Option<StopReason>)
      requires Keyed() && TableAgrees()
      modifies this`threads, this`regs
      ensures Keyed() && TableAgrees()
      ensures threads == old(threads) - DeadBut(old(threads), exclude)
      ensures mainExit == if pid in DeadBut(old(threads), exclude) then Some(old(threads)[pid].reason) else None
      ensures old(Cached()) ==> Cached()
    {
      var toRemove := DeadBut(threads, exclude);
      mainExit := if pid in toRemove then Some(threads[pid].reason) else None;
      if !missed {
        TableDrop(threads, kernel.running, kernel.queued, {}, toRemove);
      }
      threads := threads - toRemove;
      regs := regs - toRemove;
    }

    /** As TableAgrees, with the entry of the thread that an event was just taken for still open. */
    ghost predicate OpenAgrees(e: Event)
      reads this`threads, this`missed, kernel`running, kernel`queued
    {
      && (!missed ==> OpenTable(threads, kernel.running, kernel.queued, e))
      && (kernel.honest ==> !missed)
    }

    /** handleSignal on an event just taken while the table agreed with the kernel. */
    method HandleMainStop(e: Event, ghost running: map<int, bool>, ghost queued: set<int>) returns (r: Option<StopReason>, ghost why: Verdict)
      requires Keyed() && History() && AllAlive(threads) && (e.status.IsStop() ==> e.tid in kernel.regs && kernel.regs[e.tid] == e.regs)
      requires !missed ==>
        && TableOk(threads, running, queued, {})
        && kernel.running == RunningAfter(running, e) && kernel.queued == QueuedAfter(queued, e)
      requires kernel.honest ==> !missed
      modifies this`threads, this`regs, this`past, kernel`regs
      ensures Keyed() && History() && AllAlive(threads)
      ensures NotedAt(old(past), past, e.tid, TrapAddrs(sites)) && SameBut(old(threads), threads, e.tid)
      ensures e.tid in threads && e.tid !in old(threads) ==> past == old(past) + [Found(e.tid)]
      ensures OpenAgrees(e)
      ensures r.None? ==> e.status.IsStop()
      ensures r.None? <==> why != Report
      ensures r.None? <==> e.status.IsStop() && Swallowed(old(threads), sites, policy, e)
      ensures r.Some? ==> r.value == ReportOf(old(threads), e) && r.value.tid == e.tid && r.value.reason == NewStopReason(e).reason
      ensures threads == if e.status.IsStop() then TableHandled(old(threads), e) else old(threads)
      ensures r.Some? && r.value.reason == Stopped ==>
        e.tid in threads && e.tid in regs && e.tid in kernel.regs && regs[e.tid] == kernel.regs[e.tid]
      ensures
        var refined := Refined(NewStopReason(e), e, Expecting(old(threads), e.tid));
        why == HandlerResumes <==>
          Inspected(old(threads), NewStopReason(e), true) && HandlerAsks(sites, refined, old(kernel.regs)[e.tid])
      ensures why == HandlerResumes ==> kernel.PcOf(e.tid) in TrapAddrs(sites)
      ensures old(CachedBut(e.tid)) ==> CachedBut(e.tid)
    {
      hide TableOk, OpenTable;
      ghost var threads0, past0 := threads, past;
      r, why := HandleSignal(NewStopReason(e), e, true);
      SameButIs(threads0, threads, e.tid);
      assert e.tid in threads && e.tid !in threads0 ==> past == past0 + [Found(e.tid)];
      if !missed {
        OpenAfter(threads0, threads, running, queued, e);
      }
    }

    /** The register cache of every stopped thread but one is what the kernel holds. */
    ghost predicate CachedBut(tid: int)
      reads this`threads, this`regs, kernel`regs
    {
      CacheHolds(threads, regs, kernel.regs, {tid})
    }

    /** Record a stop that is to be reported. */
    method RecordStop(e: Event, reason: StopReason)
      requires AllAlive(threads) && e.status.IsStop() && e.tid in threads && reason.reason == Stopped
      requires OpenAgrees(e)
      modifies this`threads
      ensures threads == old(threads)[e.tid := old(threads)[e.tid].(reason := reason, state := Stopped)]
      ensures TableAgrees() && AllAlive(threads)
    {
      ghost var before := threads;
      threads := threads[e.tid := threads[e.tid].(reason := reason, state := Stopped)];
      if !missed {
        TableSet(before, threads, kernel.running, kernel.queued, e.tid);
      }
    }

    /** Record the exit of the main thread, which stays in the table. */
    method RecordMainExit(e: Event, reason: StopReason)
      requires AllAlive(threads) && !e.status.IsStop() && reason.tid == e.tid
      requires reason.reason == Exited || reason.reason == Terminated
      requires OpenAgrees(e)
      modifies this`threads, this`state
      ensures TableAgrees() && threads.Keys == old(threads).Keys && state == reason.reason
    {
      ghost var before := threads;
      if e.tid in threads {
        threads := threads[e.tid := threads[e.tid].(reason := reason, state := reason.reason)];
        if !missed {
          TableSet(before, threads, kernel.running, kernel.queued, e.tid);
        }
      } else if !missed {
        TableClose(threads, kernel.running, kernel.queued, e.tid);
      }
      state := reason.reason;
    }

    /** Forget a thread other than the main one that exited. */
    method ForgetThread(e: Event)
      requires Keyed() && AllAlive(threads) && !e.status.IsStop()
      requires OpenAgrees(e)
      modifies this`threads, this`regs
      ensures Keyed() && TableAgrees() && AllAlive(threads)
      ensures threads == old(threads) - {e.tid} && (old(CachedBut(e.tid)) ==> Cached())
    {
      if !missed {
        TableDrop(threads, kernel.running, kernel.queued, {e.tid}, {e.tid});
      }
      threads := threads - {e.tid};
      regs := regs - {e.tid};
    }

    /** Resume the thread of an event that is not to be reported. */
    method ResumeQuietly(e: Event)
      requires AllAlive(threads) && e.status.IsStop() && kernel.StoppedInKernel(e.tid)
      requires OpenAgrees(e)
      modifies this`threads, this`state, kernel`running, kernel`log
      ensures TableAgrees() && AllAlive(threads) && threads.Keys == old(threads).Keys
      ensures threads == if e.tid in old(threads) then old(threads)[e.tid := old(threads)[e.tid].(state := Running)] else old(threads)
      ensures old(CachedBut(e.tid)) && !missed ==> Cached()
      ensures kernel.log == old(kernel.log) + [Cont(e.tid, kernel.PcOf(e.tid), kernel.mem, e.tid in kernel.queued)]
    {
      ghost var before, running0 := threads, kernel.running;
      var ok := SendContinue(e.tid);
      if !missed {
        TableReopen(before, threads, kernel.running, kernel.queued, e.tid);
        if e.tid in threads {
          TableSet(before, threads, kernel.running, kernel.queued, e.tid);
        } else {
          TableClose(threads, kernel.running, kernel.queued, e.tid);
        }
      }
    }

    /** What follows handleSignal: resume the thread, record its stop, or forget it. */
    method Settle(e: Event, final: Option<StopReason>, toAwait: Option<int>) returns (r: Turn)
      requires TrapsOk() && Keyed() && AllAlive(threads)
      requires OpenAgrees(e) && (e.status.IsStop() ==> kernel.StoppedInKernel(e.tid))
      requires final.None? ==> e.status.IsStop()
      requires final.Some? ==> final.value.tid == e.tid && final.value.reason == NewStopReason(e).reason
      requires final.Some? && final.value.reason == Stopped ==>
        e.tid in threads && e.tid in regs && e.tid in kernel.regs && regs[e.tid] == kernel.regs[e.tid]
      modifies this`threads, this`regs, this`state, kernel`running, kernel`log
      ensures Keyed() && r != Blocked && TableAgrees() && threads.Keys <= old(threads).Keys
      ensures r == SettledAs(final, e, pid, toAwait)
      ensures Recorded(final, old(threads), threads, e, pid)
      ensures r.MainExit? && !missed ==> pid !in kernel.running
      ensures r.Again? ==> AllAlive(threads) && (old(CachedBut(e.tid)) && !missed ==> Cached())
      ensures r.MainExit? ==> state == r.reason.reason && r.reason.tid == pid && Ended(r.reason)
      ensures r.StopAt? ==> AllAlive(threads) && r.reason.reason == Stopped && r.reason.tid == e.tid && e.tid in threads
      ensures r.StopAt? ==> threads[e.tid].state == Stopped && (old(CachedBut(e.tid)) ==> Cached())
      ensures kernel.log == old(kernel.log) +
        if final.None? then [Cont(e.tid, kernel.PcOf(e.tid), kernel.mem, e.tid in kernel.queued)] else []
      ensures final.None? && old(kernel.PcOf(e.tid)) in TrapAddrs(sites) ==> TrappedCont(kernel.log, old(kernel.log), sites)
    {
      assert AllPlanted(kernel.mem, TrapAddrs(sites));
      if final.None? {
        ResumeQuietly(e);
        r := Again(toAwait);
      } else if final.value.reason == Stopped {
        RecordStop(e, final.value);
        r := StopAt(final.value);
      } else if e.tid == pid {
        RecordMainExit(e, final.value);
        r := MainExit(final.value);
      } else {
        ForgetThread(e);
        r := Again(None);
      }
    }

    /** handleSignal on an event just taken, and what follows it. */
    method ProcessReport(e: Event, toAwait: Option<int>, ghost running: map<int, bool>, ghost queued: set<int>) returns (r: Turn, ghost why: Verdict)
      requires TrapsOk() && Keyed() && History() && AllAlive(threads)
      requires e.status.IsStop() ==> e.tid in kernel.regs && kernel.regs[e.tid] == e.regs && kernel.StoppedInKernel(e.tid)
      requires !missed ==>
        && TableOk(threads, running, queued, {})
        && kernel.running == RunningAfter(running, e) && kernel.queued == QueuedAfter(queued, e)
      requires kernel.honest ==> !missed
      modifies this`threads, this`regs, this`past, this`state, kernel`regs, kernel`running, kernel`log
      ensures Keyed() && History() && r != Blocked && TableAgrees()
      ensures NotedAt(old(past), past, e.tid, TrapAddrs(sites)) && (past != old(past) + [Found(e.tid)] ==> threads.Keys <= old(threads).Keys)
      ensures TurnIs(r, old(threads), threads, sites, policy, pid, e, toAwait)
      ensures r.MainExit? && !missed ==> pid !in kernel.running
      ensures LogGrown(old(kernel.log), kernel.log)
      ensures r.Again? ==> AllAlive(threads) && (old(CachedBut(e.tid)) && !missed ==> Cached())
      ensures r.MainExit? ==> state == r.reason.reason && r.reason.tid == pid && Ended(r.reason)
      ensures r.StopAt? ==> AllAlive(threads) && r.reason.reason == Stopped && r.reason.tid == e.tid && e.tid in threads
      ensures r.StopAt? ==> threads[e.tid].state == Stopped && (old(CachedBut(e.tid)) ==> Cached())
      ensures why == HandlerResumes <==> AsksToResume(old(threads), sites, e)
      ensures why == HandlerResumes ==> TrappedCont(kernel.log, old(kernel.log), sites)
    {
      hide Overlaid, TableOk, OpenTable, Swallowed, HandlerAsks, TurnIs, EntryAfter, TableHandled, TableAfter, ReportOf, RefinedStop, CacheHolds;
      var final;
      ghost var threads0 := threads;
      final, why := HandleMainStop(e, running, queued);
      ghost var threads1 := threads;
      KeysWithin(threads0, threads1, e.tid);
      r := Settle(e, final, toAwait);
      TurnSettled(final, threads0, threads1, threads, sites, policy, pid, e, toAwait);
    }

    /** Await, with what is known of the thread that reported. */
    method NextReport(toAwait: Option<int>) returns (r: Option<Event>)
      requires TrapsOk() && History()
      modifies this`own, this`past, kernel`future, kernel`running, kernel`queued, kernel`regs, kernel`mem
      ensures TrapsOk() && History() && past == old(past) + (if r.Some? then [Took(r.value.tid, TrapAddrs(sites))] else [])
      ensures r.None? ==> kernel.Blocks(toAwait) && kernel.future == old(kernel.future)
      ensures r.Some? ==> old(kernel.future) != [] && kernel.future == old(kernel.future)[1..] && r.value == Reported(old(kernel.future)[0], toAwait)
      ensures r.Some? ==> kernel.running == RunningAfter(old(kernel.running), r.value) && kernel.queued == QueuedAfter(old(kernel.queued), r.value)
      ensures r.Some? && r.value.status.IsStop() ==>
        var e := r.value;
        e.tid in kernel.regs && kernel.regs[e.tid] == e.regs && kernel.StoppedInKernel(e.tid)
      ensures r.Some? && old(Cached()) ==> CachedBut(r.value.tid)
    {
      r := Await(toAwait);
    }

    /**
     One turn of waitOnSignalFor, up to stopping the other threads: take an event,
     resume the thread if handleSignal asks for it, forget a thread that died. When it
     is a hit handler that asks, and only then, the thread is continued with its pc on
     an enabled trap.
     */
    method TakeEvent(toAwait: Option<int>) returns (r: Turn, ghost why: Verdict)
      requires TrapsOk() && Keyed() && TableAgrees() && History() && AllAlive(threads)
      modifies this`threads, this`regs, this`state, this`own, this`past, kernel
      ensures TrapsOk() && Keyed() && History()
      ensures Waited(old(past), past, TrapAddrs(sites)) && (NoneFound(old(past), past) ==> threads.Keys <= old(threads).Keys)
      ensures r == Blocked ==> kernel.Blocks(toAwait) && kernel.future == old(kernel.future)
      ensures r != Blocked ==> old(kernel.future) != [] && kernel.future == old(kernel.future)[1..]
      ensures r != Blocked ==>
        TurnIs(r, old(threads), threads, sites, policy, pid, Reported(old(kernel.future)[0], toAwait), toAwait)
      ensures r.MainExit? && !missed ==> pid !in kernel.running
      ensures LogGrown(old(kernel.log), kernel.log)
      ensures r != Blocked ==> TableAgrees()
      ensures r.Again? ==> AllAlive(threads) && (old(Cached()) && !missed ==> Cached())
      ensures r.MainExit? ==> state == r.reason.reason && r.reason.tid == pid && Ended(r.reason)
      ensures r.StopAt? ==> AllAlive(threads) && r.reason.reason == Stopped && r.reason.tid in threads
      ensures r.StopAt? ==> threads[r.reason.tid].state == Stopped
      ensures r.StopAt? && old(Cached()) ==> Cached()
      ensures why == HandlerResumes <==>
        r != Blocked && AsksToResume(old(threads), sites, Reported(old(kernel.future)[0], toAwait))
      ensures why == HandlerResumes ==> TrappedCont(kernel.log, old(kernel.log), sites)
    {
      hide Overlaid, TableOk, Swallowed, HandlerAsks, CacheHolds;
      ghost var running0, queued0 := kernel.running, kernel.queued;
      ghost var past0 := past;
      var next := NextReport(toAwait);
      if next.None? {
        return Blocked, Report;
      }
      ghost var past1 := past;
      r, why := ProcessReport(next.value, toAwait, running0, queued0);
      TookThen(past0, past1, past, next.value.tid, TrapAddrs(sites));
    }

    /** The end of waitOnSignalFor: stop the other threads, forget the dead ones, and make the reported thread the current one. */
    method StopTheOthers(reason: StopReason) returns (r: Option<StopReason>)
      requires TrapsOk() && Keyed() && TableAgrees() && History() && AllAlive(threads)
      requires reason.reason == Stopped && reason.tid in threads && threads[reason.tid].state == Stopped
      modifies this`threads, this`regs, this`state, this`currentThread, this`own, this`past
      modifies kernel`future, kernel`running, kernel`queued, kernel`regs, kernel`mem
      ensures TrapsOk() && Keyed() && History() && Waited(old(past), past, TrapAddrs(sites)) && threads.Keys <= old(threads).Keys
      ensures r.None? ==> kernel.Stuck()
      ensures r.Some? ==> currentThread == reason.tid && currentThread in threads
      ensures r.Some? && Ended(r.value) && !missed ==> pid !in kernel.running
      ensures r.Some? ==> threads[currentThread] == old(threads)[reason.tid]
      ensures r.Some? ==> TableAgrees() && state == r.value.reason
      ensures r.Some? && r.value.reason == Stopped ==> r.value == reason && AllStopped(threads)
      ensures r.Some? && old(Cached()) ==> Cached()
      ensures r.Some? && r.value.reason != Stopped ==> r.value.tid == pid && Ended(r.value)
    {
      var blocked := StopRunningThreads(reason.tid);
      if blocked {
        return None;
      }
      var final := MakeCurrent(reason);
      r := Some(final);
    }

    /** Forget the dead threads, and make the reported thread the current one. */
    method MakeCurrent(reason: StopReason) returns (final: StopReason)
      requires Keyed() && TableAgrees() && forall t <- threads :: threads[t].state != Running
      requires reason.reason == Stopped && reason.tid in threads && threads[reason.tid].state == Stopped
      modifies this`threads, this`regs, this`state, this`currentThread
      ensures Keyed() && TableAgrees() && threads.Keys <= old(threads).Keys
      ensures Ended(final) && !missed ==> pid !in kernel.running
      ensures reason.tid in threads && threads[reason.tid] == old(threads)[reason.tid]
      ensures state == final.reason && currentThread == reason.tid && currentThread in threads
      ensures final.reason == Stopped ==> final == reason && AllStopped(threads)
      ensures final.reason != Stopped ==> final.tid == pid && Ended(final)
      ensures old(Cached()) ==> Cached()
    {
      var tid := reason.tid;
      var mainExit := CleanupExitedThreads(tid);
      final := if mainExit.Some? then mainExit.value else reason;
      state := final.reason;
      currentThread := tid;
    }

    /**
     waitOnSignalFor: None only while it is blocked in wait4. Of the events to come it takes n by
     its own wait: it passes over exactly those that are not to be reported, and `last` is the report of
     the first other one, in full. The stop that is reported is that one, unless the main
     thread is found dead when the others are stopped. A reported stop leaves no tracked thread running or dead, and
     the current thread is the reported one; a reported exit is that of the main thread.
     */
    method WaitOnSignalFor(toAwait: Option<int>) returns (r: Option<StopReason>, ghost n: nat, ghost last: Option<StopReason>)
      requires TrapsOk() && Keyed() && TableAgrees() && History() && AllAlive(threads)
      modifies this`threads, this`regs, this`state, this`currentThread, this`own, this`past, kernel
      ensures TrapsOk() && Keyed() && History()
      ensures Waited(old(past), past, TrapAddrs(sites)) && (NoneFound(old(past), past) ==> threads.Keys <= old(threads).Keys)
      ensures MainWait(old(threads), sites, policy, pid, old(kernel.future), toAwait, n, last)
      ensures n <= |old(kernel.future)| && (last.None? ==> kernel.future == old(kernel.future)[n..])
      ensures r.None? ==> kernel.Stuck()
      ensures r.Some? ==> last.Some? && (r == last || (last.value.reason == Stopped && Ended(r.value)))
      ensures r.Some? && Ended(r.value) && !missed ==> pid !in kernel.running
      ensures LogGrown(old(kernel.log), kernel.log)
      ensures r.Some? ==> TableAgrees() && state == r.value.reason
      ensures r.Some? ==> currentThread == old(currentThread) || currentThread in threads
      ensures r.Some? && r.value.reason == Stopped ==> currentThread == r.value.tid && currentThread in threads && AllStopped(threads)
      ensures r.Some? && r.value.reason == Stopped ==> threads[currentThread].reason == r.value
      ensures r.Some? && r.value.reason == Stopped && !missed && old(Cached()) ==> Cached()
      ensures r.Some? && r.value.reason != Stopped ==> r.value.tid == pid && Ended(r.value)
      decreases |kernel.future|
    {
      hide Overlaid, TableOk, CacheHolds, Passes, TableAfter, EntryAfter, RefinedStop, MainWait, Waited, NoneFound, LogGrown, AllStopped, TurnIs, ReportOf, Reported, AsksToResume, TrappedCont, Replays;
      ghost var past0, traps, threads0, future0, log0 := past, TrapAddrs(sites), threads, kernel.future, kernel.log;
      var turn, _ := TakeEvent(toAwait);
      ghost var past1, log1 := past, kernel.log;
      if turn != Blocked {
        TurnTold(turn, threads0, threads, sites, policy, pid, Reported(future0[0], toAwait), toAwait);
      }
      match turn {
        case Blocked =>
          MainWaitNone(threads0, sites, policy, pid, future0, toAwait);
          r, n, last := None, 0, None;
        case Again(next) =>
          ghost var taken;
          r, taken, last := WaitOnSignalFor(next);
          MainWaitMore(threads0, sites, policy, pid, future0, toAwait, taken, last);
          n := taken + 1;
          WaitedOn(past0, past1, past, traps);
          LogGrownTrans(log0, log1, kernel.log);
        case MainExit(reason) =>
          MainWaitLast(threads0, sites, policy, pid, future0, toAwait);
          r, n, last := Some(reason), 1, Some(reason);
        case StopAt(reason) =>
          MainWaitLast(threads0, sites, policy, pid, future0, toAwait);
          n, last := 1, Some(reason);
          r := StopTheOthers(reason);
          WaitedOn(past0, past1, past, traps);
      }
    }

    // ---------------------------------------------------------------- stepping and resuming

    /** Continue a thread for its queued SIGSTOP; the table does not learn of it. */
    method Bounce(tid: int) returns (ghost acts: seq<Action>)
      modifies kernel`running, kernel`log
      ensures acts == if old(kernel.StoppedInKernel(tid)) then [Cont(tid, kernel.PcOf(tid), kernel.mem, tid in kernel.queued)] else []
      ensures kernel.log == old(kernel.log) + acts && (acts != [] ==> LastAction(kernel.log, tid) == Some(acts[0]))
      ensures kernel.running == if acts != [] then old(kernel.running)[tid := true] else old(kernel.running)
    {
      ghost var log0 := kernel.log;
      var ok := kernel.Continue(tid);
      acts := if ok then [Cont(tid, kernel.PcOf(tid), kernel.mem, tid in kernel.queued)] else [];
      LastOf(log0, acts, tid);
    }

    /** Take the report for a thread that was continued, and clear its pending SIGSTOP whatever it is. */
    method TakeBounced(tid: int) returns (took: Option<Event>)
      requires TrapsOk() && History() && ReasonsOk(threads) && (kernel.honest ==> !missed)
      requires tid in threads && threads[tid].state == Stopped && threads[tid].pendingSigstop
      requires !missed ==> TableOk(threads, kernel.running, kernel.queued, {tid}) && tid in kernel.queued
      requires !missed ==> LastAction(kernel.log, tid) == Some(Cont(tid, kernel.PcOf(tid), kernel.mem, true))
      modifies this`threads, this`own, this`past, this`missed
      modifies kernel`future, kernel`running, kernel`queued, kernel`regs, kernel`mem
      ensures TrapsOk() && History() && kernel.mem.Keys == old(kernel.mem).Keys
      ensures past == old(past) + if took.Some? then [Took(tid, TrapAddrs(sites))] else []
      ensures took.None? ==> kernel.Blocks(Some(tid))
      ensures tid in threads && (kernel.honest ==> !missed)
      ensures took.Some? ==> old(kernel.future) != [] && took.value == Reported(old(kernel.future)[0], Some(tid))
      ensures missed <==> old(missed) || (took.Some? && !Quiet(took.value, old(kernel.regs)))
      ensures took.Some? && !old(missed) ==>
        (ThreadOk(threads[tid], tid, kernel.running, kernel.queued) <==> took.value.status == Stop(SIGSTOP))
      ensures threads == if took.Some? then old(threads)[tid := old(threads)[tid].(pendingSigstop := false)] else old(threads)
      ensures took.Some? ==> TableAgrees()
      ensures took.Some? && !missed ==>
        kernel.running == old(kernel.running)[tid := false] && kernel.regs == old(kernel.regs) && own == old(own)
    {
      ghost var regs0 := kernel.regs;
      var e := Await(Some(tid));
      if e.Some? {
        threads := threads[tid := threads[tid].(pendingSigstop := false)];
        missed := missed || !Quiet(e.value, regs0);
      }
      took := e;
    }

    /**
     swallowPendingSigstop: continue the thread so that its queued SIGSTOP comes
     out, and take whatever is reported for it. The content of the event is not
     looked at: the entry is right afterwards exactly when it was that SIGSTOP.
     `missed` is set exactly when the report was not a SIGSTOP of a thread that has
     executed nothing.
     */
    method SwallowPendingSigstop(tid: int) returns (blocked: bool, ghost took: Option<Event>, ghost acts: seq<Action>)
      requires TrapsOk() && TableAgrees() && History() && tid in threads && threads[tid].state == Stopped
      modifies this`threads, this`own, this`past, this`missed, kernel
      ensures TrapsOk() && History() && kernel.mem.Keys == old(kernel.mem).Keys
      ensures past == old(past) + if took.Some? then [Took(tid, TrapAddrs(sites))] else []
      ensures blocked ==> kernel.Blocks(Some(tid))
      ensures tid in threads && (blocked ==> threads == old(threads)) && (kernel.honest ==> !missed)
      ensures !blocked ==> (took.Some? <==> old(threads)[tid].pendingSigstop)
      ensures took.Some? ==> old(kernel.future) != [] && took.value == Reported(old(kernel.future)[0], Some(tid))
      ensures missed <==> old(missed) || (took.Some? && !Quiet(took.value, old(kernel.regs)))
      ensures took.Some? && !old(missed) ==>
        (ThreadOk(threads[tid], tid, kernel.running, kernel.queued) <==> took.value.status == Stop(SIGSTOP))
      ensures !blocked ==> TableAgrees() && threads == old(threads)[tid := old(threads)[tid].(pendingSigstop := false)]
      ensures !blocked && !missed ==> kernel.running == old(kernel.running) && kernel.regs == old(kernel.regs) && own == old(own)
      ensures kernel.log == old(kernel.log) + acts
      ensures acts == [] || acts == [Cont(tid, old(kernel.PcOf(tid)), old(kernel.mem), tid in old(kernel.queued))]
      ensures !old(missed) ==> forall a <- acts :: a.bounced
      ensures !blocked && !missed ==> (took.None? <==> acts == [])
    {
      acts := [];
      if !threads[tid].pendingSigstop {
        return false, None, [];
      }
      acts := Bounce(tid);
      var e := TakeBounced(tid);
      blocked, took := e.None?, e;
    }

    /**
     Run one instruction of a thread without a queued SIGSTOP, and take the stop that
     follows. `missed` is set exactly when the report was not a stop.
     */
    method StepThread(tid: int) returns (r: Outcome, ghost acts: seq<Action>)
      requires TrapsOk() && TableAgrees() && History() && tid in threads && threads[tid].state == Stopped && !threads[tid].pendingSigstop
      modifies this`own, this`past, this`missed, kernel
      ensures TrapsOk() && History() && kernel.mem.Keys == old(kernel.mem).Keys && (kernel.honest ==> !missed)
      ensures past == old(past) + if r == Done then [Took(tid, TrapAddrs(sites))] else []
      ensures r == Done ==> old(kernel.future) != []
      ensures missed <==> old(missed) || (r == Done && !old(kernel.future)[0].status.IsStop())
      ensures r == Failed ==> missed
      ensures r == Hung ==> kernel.Blocks(Some(tid))
      ensures r != Hung ==> TableAgrees()
      ensures kernel.log == old(kernel.log) + acts
      ensures acts == if r == Failed then [] else [Step(tid, old(kernel.PcOf(tid)), old(kernel.mem))]
      ensures r == Done && !missed ==> SameBut(old(kernel.regs), kernel.regs, tid)
    {
      acts := [];
      ghost var log0 := kernel.log;
      var ok := kernel.SingleStep(tid);
      if !ok {
        return Failed, [];
      }
      acts := [Step(tid, kernel.PcOf(tid), kernel.mem)];
      LastOf(log0, acts, tid);
      var e := Await(Some(tid));
      if e.None? {
        return Hung, acts;
      }
      missed := missed || !e.value.status.IsStop();
      r := Done;
    }

    /** swallowPendingSigstop, as far as the step that follows is concerned: as long as nothing is missed, nothing has run. */
    method SwallowFirst(tid: int) returns (blocked: bool, ghost acts: seq<Action>)
      requires TrapsOk() && TableAgrees() && History() && tid in threads && threads[tid].state == Stopped
      modifies this`threads, this`own, this`past, this`missed, kernel
      ensures TrapsOk() && History() && kernel.mem.Keys == old(kernel.mem).Keys && (kernel.honest ==> !missed)
      ensures past == old(past) || past == old(past) + [Took(tid, TrapAddrs(sites))]
      ensures old(missed) ==> missed
      ensures blocked ==> kernel.Blocks(Some(tid))
      ensures threads == if blocked then old(threads) else old(threads)[tid := old(threads)[tid].(pendingSigstop := false)]
      ensures !blocked ==> TableAgrees() && (!missed ==> kernel.regs == old(kernel.regs) && own == old(own))
      ensures kernel.log == old(kernel.log) + acts
      ensures !missed ==> acts == [] || (|acts| == 1 && acts[0].Cont? && acts[0].tid == tid && acts[0].bounced)
    {
      ghost var took;
      blocked, took, acts := SwallowPendingSigstop(tid);
    }

    /** Deliver a queued SIGSTOP, run one instruction, take the stop that follows. */
    method StepOnce(tid: int) returns (r: Outcome, ghost acts: seq<Action>)
      requires TrapsOk() && TableAgrees() && History() && tid in threads && threads[tid].state == Stopped
      modifies this`threads, this`own, this`past, this`missed, kernel
      ensures TrapsOk() && History() && kernel.mem.Keys == old(kernel.mem).Keys && (kernel.honest ==> !missed)
      ensures Stepped(old(past), past, tid, TrapAddrs(sites)) && threads.Keys == old(threads).Keys
      ensures old(missed) ==> missed
      ensures r != Hung ==> TableAgrees() && threads == old(threads)[tid := old(threads)[tid].(pendingSigstop := false)]
      ensures (r == Failed ==> missed) && (r == Hung ==> kernel.Blocks(Some(tid)))
      ensures kernel.log == old(kernel.log) + acts
      ensures !missed ==> Executed(r == Done, acts, tid, old(kernel.PcOf(tid)), old(own), TrapAddrs(sites), old(kernel.regs), kernel.regs)
    {
      ghost var log0, step := kernel.log, [];
      var blocked;
      ghost var past0, traps := past, TrapAddrs(sites);
      blocked, acts := SwallowFirst(tid);
      ghost var past1 := past;
      if blocked {
        return Hung, acts;
      }
      r, step := StepThread(tid);
      SteppedBoth(past0, past1, past, tid, traps);
      assert log0 + acts + step == log0 + (acts + step);
      acts := acts + step;
    }

    /** Enabling the disabled site i cannot fail. */
    ghost predicate CanEnable(i: nat)
      requires i < |sites|
      reads this`sites, this`threads, this`dregs, this`currentThread, kernel`mem
    {
      if sites[i].isHardware then !SetFails(1) else Mapped(kernel.mem, sites[i].address, 8)
    }

    /** Enable a site that was just disabled. */
    method Reenable(i: nat, ghost before: seq<Site>)
      requires i < |before| && before[i].isEnabled && sites == before[i := before[i].(isEnabled := false)]
      requires SitesOk() && CanEnable(i)
      modifies this`sites, this`dregs, this`covered, this`canon, this`owner, kernel`mem
      ensures SitesOk() && SameEnabled(before, sites) && sites == before[i := sites[i]]
      ensures if before[i].isHardware then Retaken(old(Current()), before[i], Current(), sites[i].slot) else dregs == old(dregs) && covered == old(covered)
      ensures Kept(old(covered))
    {
      var ok := EnableSite(i);
      assert ok;
    }

    /** Disable a site in a way that can be undone. */
    method Lift(i: nat) returns (ok: bool)
      requires i < |sites| && sites[i].isEnabled && SitesOk()
      modifies this`sites, this`dregs, this`covered, this`canon, this`owner, kernel`mem
      ensures SitesOk()
      ensures !ok ==> sites == old(sites)
      ensures ok ==> sites == old(sites)[i := old(sites)[i].(isEnabled := false)] && CanEnable(i)
      ensures ok ==> TrapAddrs(sites) == TrapAddrs(old(sites)) - {old(sites)[i].address}
      ensures ok && old(sites)[i].isHardware ==> 0 <= old(sites)[i].slot < 4 && Current() == Disarm(old(Current()), old(sites)[i].slot)
      ensures !ok || !old(sites)[i].isHardware ==> dregs == old(dregs) && covered == old(covered)
      ensures ok <==> old(Removable(i))
      ensures Kept(old(covered))
    {
      ghost var before, mem0 := sites, kernel.mem;
      ok := DisableSite(i);
      assert kernel.mem.Keys == mem0.Keys;
      TrapAddrsUpdate(before, i, before[i].(isEnabled := false));
    }

    /** StepOnce keeps the sites and leaves it possible to enable site i again. */
    method StepLifted(i: nat, tid: int) returns (r: Outcome, ghost acts: seq<Action>)
      requires i < |sites| && SitesOk() && CanEnable(i)
      requires TableAgrees() && History() && tid in threads && threads[tid].state == Stopped
      modifies this`threads, this`own, this`past, this`missed, kernel
      ensures SitesOk() && History() && CanEnable(i) && (kernel.honest ==> !missed)
      ensures Stepped(old(past), past, tid, TrapAddrs(sites)) && threads.Keys == old(threads).Keys
      ensures old(missed) ==> missed
      ensures r != Hung ==> TableAgrees() && threads == old(threads)[tid := old(threads)[tid].(pendingSigstop := false)]
      ensures (r == Failed ==> missed) && (r == Hung ==> kernel.Blocks(Some(tid)))
      ensures kernel.log == old(kernel.log) + acts
      ensures !missed ==> Executed(r == Done, acts, tid, old(kernel.PcOf(tid)), old(own), TrapAddrs(sites), old(kernel.regs), kernel.regs)
    {
      ghost var cur, d, keys, mem0 := currentThread, Current(), threads.Keys, kernel.mem;
      r, acts := StepOnce(tid);
      assert currentThread == cur && Current() == d;
      assert kernel.mem.Keys == mem0.Keys;
      assert threads.Keys == keys;
    }

    /** Run one instruction of a thread while site i is disabled, and enable the site again whatever happened. */
    method StepAndReenable(i: nat, tid: int, ghost before: seq<Site>, ghost traps: set<int>) returns (r: Outcome, ghost acts: seq<Action>)
      requires i < |before| && before[i].isEnabled && sites == before[i := before[i].(isEnabled := false)]
      requires SitesOk() && CanEnable(i) && traps == TrapAddrs(sites)
      requires TableAgrees() && History() && tid in threads && threads[tid].state == Stopped
      modifies this`threads, this`sites, this`dregs, this`covered, this`canon, this`owner, this`own, this`past, this`missed, kernel
      ensures SitesOk() && History() && (kernel.honest ==> !missed)
      ensures Stepped(old(past), past, tid, traps) && threads.Keys == old(threads).Keys
      ensures old(missed) ==> missed
      ensures (r == Failed ==> missed) && (r == Hung ==> kernel.Blocks(Some(tid)))
      ensures r != Hung ==> SameEnabled(before, sites) && sites == before[i := sites[i]]
      ensures r != Hung && before[i].isHardware ==> Retaken(old(Current()), before[i], Current(), sites[i].slot)
      ensures !before[i].isHardware ==> dregs == old(dregs) && covered == old(covered)
      ensures Kept(old(covered))
      ensures r != Hung ==> TableAgrees() && AtMostDelivered(old(threads), threads, tid)
      ensures kernel.log == old(kernel.log) + acts
      ensures !missed ==> Executed(r == Done, acts, tid, old(kernel.PcOf(tid)), old(own), traps, old(kernel.regs), kernel.regs)
    {
      hide Overlaid, SlotsOk;
      r, acts := StepLifted(i, tid);
      if r != Hung {
        Reenable(i, before);
      }
    }

    /** Step a thread over the enabled site i. */
    method StepOverSite(i: nat, tid: int) returns (r: Outcome, ghost acts: seq<Action>)
      requires i < |sites| && sites[i].isEnabled && SitesOk()
      requires TableAgrees() && History() && tid in threads && threads[tid].state == Stopped
      modifies this`threads, this`sites, this`dregs, this`covered, this`canon, this`owner, this`own, this`past, this`missed, kernel
      ensures SitesOk() && History() && (kernel.honest ==> !missed)
      ensures Stepped(old(past), past, tid, TrapAddrs(old(sites)) - {old(sites)[i].address}) && threads.Keys == old(threads).Keys
      ensures old(missed) ==> missed
      ensures !old(Removable(i)) ==> r == Failed && acts == []
      ensures (r == Failed && old(Removable(i)) ==> missed) && (r == Hung ==> kernel.Blocks(Some(tid)))
      ensures r != Hung ==> SameEnabled(old(sites), sites) && sites == old(sites)[i := sites[i]]
      ensures r != Hung && currentThread in threads ==> ClearedAndSet(old(sites)[i], old(Current()), Current(), sites[i].slot)
      ensures !old(sites)[i].isHardware ==> dregs == old(dregs) && covered == old(covered)
      ensures Kept(old(covered))
      ensures r != Hung ==> TableAgrees() && AtMostDelivered(old(threads), threads, tid)
      ensures kernel.log == old(kernel.log) + acts
      ensures !missed ==>
        Executed(r == Done, acts, tid, old(kernel.PcOf(tid)), old(own), TrapAddrs(old(sites)) - {old(sites)[i].address}, old(kernel.regs), kernel.regs)
    {
      hide Overlaid, SlotsOk;
      ghost var before := sites;
      ghost var lifted := TrapAddrs(before) - {before[i].address};
      var ok := Lift(i);
      if !ok {
        return Failed, [];
      }
      r, acts := StepAndReenable(i, tid, before, lifted);
    }

    /**
     stepOverBreakpointForThread: if the thread sits on an enabled site, run one
     instruction of it with that site disabled and nothing else lifted. The same
     sites are enabled afterwards whether or not the step worked.
     */
    method StepOverBreakpointForThread(tid: int) returns (r: Outcome, ghost acts: seq<Action>)
      requires SitesOk() && TableAgrees() && History() && tid in threads && tid in regs && threads[tid].state == Stopped
      modifies this`threads, this`sites, this`dregs, this`covered, this`canon, this`owner, this`own, this`past, this`missed, kernel
      ensures SitesOk() && History() && (kernel.honest ==> !missed)
      ensures Stepped(old(past), past, tid, TrapAddrs(old(sites)) - {old(regs)[tid].pc}) && threads.Keys == old(threads).Keys
      ensures old(missed) ==> missed
      ensures CannotStep(old(sites), old(regs)[tid].pc, currentThread in threads, start.own) ==> r == Failed && acts == []
      ensures r == Failed && !CannotStep(old(sites), old(regs)[tid].pc, currentThread in threads, start.own) ==> missed
      ensures r == Hung ==> kernel.Blocks(Some(tid))
      ensures r != Hung ==> SameEnabled(old(sites), sites)
      ensures r != Hung ==> TableAgrees() && AtMostDelivered(old(threads), threads, tid)
      ensures r != Hung && currentThread in threads ==> Retaking(old(sites), old(regs)[tid].pc, old(Current()), Current(), sites)
      ensures old(regs)[tid].pc !in SlotAddrs(old(sites)) ==> dregs == old(dregs) && covered == old(covered)
      ensures Kept(old(covered))
      ensures kernel.log == old(kernel.log) + acts
      ensures !missed ==> PartlyOver(acts, tid, old(regs)[tid].pc, old(kernel.PcOf(tid)), old(own), old(sites))
      ensures r == Done && !missed ==> SteppedOver(acts, tid, old(regs)[tid].pc, old(kernel.PcOf(tid)), old(own), old(sites))
      ensures old(regs)[tid].pc !in EnabledAddrs(old(sites)) ==> own == old(own) && kernel.regs == old(kernel.regs)
      ensures r == Done && !missed ==> SameBut(old(kernel.regs), kernel.regs, tid)
    {
      var pc := regs[tid].pc;
      var found := EnabledAt(sites, pc);
      if found.None? {
        NoSlotAt(sites, pc);
        assert !CannotStep(sites, pc, currentThread in threads, start.own);
        return Done, [];
      }
      var i := found.value;
      ghost var before, d := sites, Current();
      assert before[i] in before;
      SameMapped(pc, 8);
      CannotStepIs(before, i, currentThread in threads, start.own);
      r, acts := StepOverSite(i, tid);
      SlotAddrAt(before, i);
      if r != Hung && currentThread in threads {
        TakesBackIs(before, sites, i, d, Current());
      }
    }

    /** No thread sits on an enabled hardware site. */
    ghost predicate OffSlots(before: seq<Site>)
      reads this`threads, this`regs
    {
      forall t <- threads :: t in regs ==> regs[t].pc !in SlotAddrs(before)
    }

    /** What holds between two rounds of the first pass. */
    ghost predicate PassOneInv(trace: seq<Action>, threads0: map<int, ThreadState>, sites0: seq<Site>, todo: set<int>)
      reads this`threads, this`regs, this`sites, this`missed, kernel`regs
    {
      && SameEnabled(sites0, sites)
      && SameStates(threads0, threads)
      && threads0.Keys <= regs.Keys && todo <= threads0.Keys
      && (!missed ==> PassOneAt(trace, threads0, regs, sites0, todo) && CacheHolds(threads, regs, kernel.regs, threads0.Keys - todo))
    }

    /** The same in terms of the sites at the start of the pass, of which the same are still enabled. */
    method StepOverAgain(tid: int, ghost sites0: seq<Site>) returns (r: Outcome, ghost acts: seq<Action>)
      requires SitesOk() && TableAgrees() && History() && tid in threads && tid in regs && threads[tid].state == Stopped
      requires SameEnabled(sites0, sites)
      modifies this`threads, this`sites, this`dregs, this`covered, this`canon, this`owner, this`own, this`past, this`missed, kernel
      ensures SitesOk() && History() && (kernel.honest ==> !missed) && threads.Keys == old(threads).Keys && Kept(old(covered))
      ensures Stepped(old(past), past, tid, TrapAddrs(sites0) - {regs[tid].pc})
      ensures regs[tid].pc !in SlotAddrs(sites0) ==> dregs == old(dregs) && covered == old(covered)
      ensures old(missed) ==> missed
      ensures CannotStep(sites0, regs[tid].pc, currentThread in threads, start.own) ==> r == Failed
      ensures r == Failed ==> missed || CannotStep(sites0, regs[tid].pc, currentThread in threads, start.own)
      ensures r == Hung ==> kernel.Stuck()
      ensures r != Hung ==> TableAgrees() && SameEnabled(sites0, sites) && AtMostDelivered(old(threads), threads, tid)
      ensures kernel.log == old(kernel.log) + acts
      ensures !missed ==> PartlyOver(acts, tid, regs[tid].pc, old(kernel.PcOf(tid)), old(own), old(sites))
      ensures r == Done && !missed ==> SteppedOver(acts, tid, regs[tid].pc, old(kernel.PcOf(tid)), old(own), old(sites))
      ensures r == Done && !missed ==> SameBut(old(kernel.regs), kernel.regs, tid)
    {
      hide Overlaid, SlotsOk, TableOk, SameEnabled, SteppedOver, PartlyOver, CannotStep, SameBut, AtMostDelivered;
      ghost var sites1 := sites;
      SameEnabledAddrs(sites0, sites);
      SameSlotAddrs(sites0, sites);
      CannotStepSame(sites0, sites, regs[tid].pc, currentThread in threads, start.own);
      r, acts := StepOverBreakpointForThread(tid);
      if r != Hung {
        SameEnabledTrans(sites0, sites1, sites);
      }
    }

    /** One round of the first pass for a stopped thread. */
    method StepStopped(tid: int, ghost done: seq<Action>, ghost threads0: map<int, ThreadState>, ghost sites0: seq<Site>, ghost todo: set<int>)
      returns (r: Outcome, ghost acts: seq<Action>)
      requires SitesOk() && TableAgrees() && History() && PassOneInv(done, threads0, sites0, todo) && tid in todo
      requires threads[tid].state == Stopped
      modifies this`threads, this`sites, this`dregs, this`covered, this`canon, this`owner, this`own, this`past, this`missed, kernel
      ensures SitesOk() && History() && (kernel.honest ==> !missed) && threads.Keys == old(threads).Keys && Kept(old(covered))
      ensures Stepped(old(past), past, tid, TrapAddrs(sites0) - {regs[tid].pc})
      ensures regs[tid].pc !in SlotAddrs(sites0) ==> dregs == old(dregs) && covered == old(covered)
      ensures old(missed) ==> missed
      ensures CannotStep(sites0, regs[tid].pc, currentThread in threads, start.own) ==> r == Failed
      ensures r == Failed ==> missed || CannotStep(sites0, regs[tid].pc, currentThread in threads, start.own)
      ensures r == Hung ==> kernel.Stuck()
      ensures r != Hung ==> TableAgrees() && SameEnabled(sites0, sites) && SameStates(threads0, threads)
      ensures kernel.log == old(kernel.log) + acts
      ensures !missed ==> SteppingOnly(done + acts, regs, sites0)
      ensures r == Done ==> PassOneInv(done + acts, threads0, sites0, todo - {tid})
    {
      assert (forall s <- sites :: Trapped(s) ==> s.address in own) && (kernel.honest ==> !missed);
      hide Overlaid, SlotsOk, TableOk, SteppingOnly, PassOneAt, SameEnabled, SteppedOver, PartlyOver, CannotStep;
      ghost var own0, sites1, cache, threads1, regs1 := own, sites, regs, threads, kernel.regs;
      r, acts := StepOverAgain(tid, sites0);
      if !missed {
        PassOneRound(done, acts, threads0, threads1, threads, cache, regs1, kernel.regs, own0, sites0, sites1, sites, todo, tid, r == Done);
      }
      if r != Hung {
        SameStatesStepped(threads0, threads1, threads, tid);
      }
    }

    /** One round of the first pass. */
    method StepNextOver(tid: int, ghost done: seq<Action>, ghost threads0: map<int, ThreadState>, ghost sites0: seq<Site>, ghost todo: set<int>)
      returns (r: Outcome, ghost acts: seq<Action>)
      requires SitesOk() && TableAgrees() && History() && PassOneInv(done, threads0, sites0, todo) && tid in todo
      modifies this`threads, this`sites, this`dregs, this`covered, this`canon, this`owner, this`own, this`past, this`missed, kernel
      ensures SitesOk() && History() && (kernel.honest ==> !missed) && threads.Keys == old(threads).Keys && Kept(old(covered))
      ensures Stepped(old(past), past, tid, TrapAddrs(sites0) - {regs[tid].pc})
      ensures regs[tid].pc !in SlotAddrs(sites0) ==> dregs == old(dregs) && covered == old(covered)
      ensures old(missed) ==> missed
      ensures threads0[tid].state == Stopped && CannotStep(sites0, regs[tid].pc, currentThread in threads, start.own) ==> r == Failed
      ensures r == Failed ==> missed || (threads0[tid].state == Stopped && CannotStep(sites0, regs[tid].pc, currentThread in threads, start.own))
      ensures r == Hung ==> kernel.Stuck()
      ensures r != Hung ==> TableAgrees() && SameEnabled(sites0, sites) && SameStates(threads0, threads)
      ensures kernel.log == old(kernel.log) + acts
      ensures !missed ==> SteppingOnly(done + acts, regs, sites0)
      ensures r == Done ==> PassOneInv(done + acts, threads0, sites0, todo - {tid})
    {
      assert kernel.honest ==> !missed;
      hide Overlaid, SlotsOk, TableOk, SteppingOnly, PassOneAt, SameEnabled, CannotStep;
      if threads[tid].state == Stopped {
        r, acts := StepStopped(tid, done, threads0, sites0, todo);
      } else {
        r, acts := Done, [];
        assert done + acts == done && kernel.log + acts == kernel.log;
        if !missed {
          PassOneSkip(done, threads0, regs, sites0, todo, tid);
        }
      }
    }

    /** What the first pass has done so far to everything but the table, from the state `b` on. */
    ghost predicate SoFar(b: Snapshot, trace: seq<Action>)
      reads this, kernel
    {
      && History() && (kernel.honest ==> !missed) && threads.Keys == b.keys
      && kernel.log == b.log + trace && (!missed ==> SteppingOnly(trace, regs, b.sites))
      && SteppedAll(b.past, past, regs, TrapAddrs(b.sites))
      && Kept(b.covered) && (OffSlots(b.sites) ==> dregs == b.dregs && covered == b.covered)
    }

    /** None of the threads no longer in `todo` sits on a site that cannot be disabled. */
    ghost predicate Visited(threads0: map<int, ThreadState>, sites0: seq<Site>, todo: set<int>)
      reads this`regs, this`currentThread, this`threads
    {
      forall t <- threads0 :: t !in todo && threads0[t].state == Stopped && t in regs ==>
        !CannotStep(sites0, regs[t].pc, currentThread in threads, start.own)
    }

    ghost function Shot(): Snapshot
      reads this, kernel
    {
      Snapshot(threads.Keys, sites, kernel.log, past, covered, dregs)
    }

    /** One round, and what has been done with it. */
    method StepRound(tid: int, ghost b: Snapshot, ghost trace: seq<Action>, ghost threads0: map<int, ThreadState>, ghost todo: set<int>)
      returns (r: Outcome, ghost acts: seq<Action>)
      requires SitesOk() && TableAgrees() && PassOneInv(trace, threads0, b.sites, todo) && SoFar(b, trace) && Visited(threads0, b.sites, todo) && tid in todo
      modifies this`threads, this`sites, this`dregs, this`covered, this`canon, this`owner, this`own, this`past, this`missed, kernel
      ensures SitesOk() && SoFar(b, trace + acts)
      ensures old(missed) ==> missed
      ensures r == Done ==> Visited(threads0, b.sites, todo - {tid})
      ensures r == Failed ==> missed || SomeCannotStep(threads0, regs, b.sites, currentThread in threads, start.own)
      ensures r == Hung ==> kernel.Stuck()
      ensures r != Hung ==> TableAgrees() && SameEnabled(b.sites, sites) && SameStates(threads0, threads)
      ensures r == Done ==> PassOneInv(trace + acts, threads0, b.sites, todo - {tid})
    {
      hide Overlaid, SlotsOk, TableOk, SteppingOnly, PassOneAt, CacheHolds, SameEnabled, SteppedAll, CannotStep;
      ghost var past1, covered1 := past, covered;
      r, acts := StepNextOver(tid, trace, threads0, b.sites, todo);
      SteppedMore(b.past, past1, past, regs, TrapAddrs(b.sites), tid);
      assert b.log + trace + acts == b.log + (trace + acts);
    }

    /** The rounds of the first pass. */
    method StepRounds() returns (r: Outcome, ghost trace: seq<Action>)
      requires SitesOk() && Keyed() && TableAgrees() && History() && (!missed ==> Cached())
      modifies this`threads, this`sites, this`dregs, this`covered, this`canon, this`owner, this`own, this`past, this`missed, kernel
      ensures SitesOk() && SoFar(old(Shot()), trace)
      ensures old(missed) ==> missed
      ensures r == Hung ==> kernel.Stuck()
      ensures r == Done ==> Visited(old(threads), old(sites), {})
      ensures r == Failed ==> missed || SomeCannotStep(old(threads), regs, old(sites), currentThread in threads, start.own)
      ensures r != Hung ==> SameEnabled(old(sites), sites) && TableAgrees() && SameStates(old(threads), threads)
      ensures r == Done ==> PassOneInv(trace, old(threads), old(sites), {})
    {
      ghost var b, threads0 := Shot(), threads;
      var todo := threads.Keys;
      trace := [];
      assert kernel.log + [] == kernel.log;
      assert PassOneInv(trace, threads0, b.sites, todo) && SoFar(b, trace) && Visited(threads0, b.sites, todo);
      hide SoFar, Overlaid, SlotsOk, TableOk, PassOneAt, CacheHolds, CannotStep, SomeCannotStep, Visited;
      while todo != {}
        invariant SitesOk() && TableAgrees() && PassOneInv(trace, threads0, b.sites, todo) && SoFar(b, trace) && Visited(threads0, b.sites, todo)
        invariant old(missed) ==> missed
        decreases |todo|
      {
        Inhabited(todo);
        var tid :| tid in todo;
        ghost var acts;
        r, acts := StepRound(tid, b, trace, threads0, todo);
        trace := trace + acts;
        if r != Done {
          return;
        }
        todo := todo - {tid};
      }
      r := Done;
    }

    /** The first pass of ResumeAllThreads: step every stopped thread over the site it sits on. */
    method StepAllOver() returns (r: Outcome, ghost trace: seq<Action>)
      requires SitesOk() && Keyed() && TableAgrees() && History() && (!missed ==> Cached())
      modifies this`threads, this`sites, this`dregs, this`covered, this`canon, this`owner, this`own, this`past, this`missed, kernel
      ensures SitesOk() && History() && (kernel.honest ==> !missed) && threads.Keys == old(threads).Keys && Kept(old(covered))
      ensures SteppedAll(old(past), past, regs, TrapAddrs(old(sites)))
      ensures OffSlots(old(sites)) ==> dregs == old(dregs) && covered == old(covered)
      ensures old(missed) ==> missed
      ensures r == Hung ==> kernel.Stuck()
      ensures r == Done ==> !SomeCannotStep(old(threads), regs, old(sites), currentThread in threads, start.own)
      ensures r == Failed ==> missed || SomeCannotStep(old(threads), regs, old(sites), currentThread in threads, start.own)
      ensures r != Hung ==> SameEnabled(old(sites), sites) && TableAgrees() && SameStates(old(threads), threads)
      ensures kernel.log == old(kernel.log) + trace && (!missed ==> SteppingOnly(trace, regs, old(sites)))
      ensures r == Done ==> old(threads).Keys <= regs.Keys
      ensures r == Done && !missed ==> PassOneAt(trace, old(threads), regs, old(sites), {})
    {
      hide SitesOk;
      r, trace := StepRounds();
    }

    /** sendContinue on a stopped thread keeps the table, and its trace shows every trap in place. */
    method ContinueThread(tid: int) returns (ok: bool, ghost act: Action)
      requires TrapsOk() && TableAgrees() && tid in threads && threads[tid].state == Stopped
      modifies this`threads, this`state, kernel`running, kernel`log
      ensures TableAgrees()
      ensures !missed ==> ok
      ensures ok ==> threads == old(threads)[tid := old(threads)[tid].(state := Running)]
      ensures !ok ==> threads == old(threads) && kernel.log == old(kernel.log)
      ensures ok ==> kernel.log == old(kernel.log) + [act]
      ensures act == Cont(tid, old(kernel.PcOf(tid)), kernel.mem, tid in kernel.queued)
      ensures AllPlanted(act.mem, TrapAddrs(sites))
    {
      act := Cont(tid, kernel.PcOf(tid), kernel.mem, tid in kernel.queued);
      ghost var before := threads;
      assert AllPlanted(kernel.mem, TrapAddrs(sites));
      ok := SendContinue(tid);
      if !missed {
        TableReopen(before, threads, kernel.running, kernel.queued, tid);
        TableSet(before, threads, kernel.running, kernel.queued, tid);
      }
    }

    /** The second pass of ResumeAllThreads: continue every stopped thread. */
    method ContinueAll() returns (ok: bool, ghost trace: seq<Action>)
      requires TrapsOk() && TableAgrees()
      modifies this`threads, this`state, kernel`running, kernel`log
      ensures TableAgrees()
      ensures !missed ==> ok
      ensures kernel.log == old(kernel.log) + trace && ContinuingOnly(trace, sites)
      ensures forall t :: t in threads <==> t in old(threads)
      ensures ok ==> PassTwoAt(trace, old(threads), sites, {})
      ensures ok ==> forall t <- threads ::
        threads[t] == if old(threads)[t].state == Stopped then old(threads)[t].(state := Running) else old(threads)[t]
    {
      ghost var threads0, log0 := threads, kernel.log;
      trace := [];
      var todo := threads.Keys;
      while todo != {}
        invariant TableAgrees() && todo <= threads0.Keys
        invariant forall t :: t in threads <==> t in threads0
        invariant forall t <- threads ::
          threads[t] == if t !in todo && threads0[t].state == Stopped then threads0[t].(state := Running) else threads0[t]
        invariant kernel.log == log0 + trace
        invariant PassTwoAt(trace, threads0, sites, todo)
        decreases |todo|
      {
        Inhabited(todo);
        var tid :| tid in todo;
        if threads[tid].state == Stopped {
          ghost var act;
          ok, act := ContinueThread(tid);
          if !ok {
            return;
          }
          PassTwoStep(trace, act, threads0, sites, todo);
          assert log0 + trace + [act] == log0 + (trace + [act]);
          trace := trace + [act];
        }
        todo := todo - {tid};
      }
      ok := true;
    }

    /**
     ResumeAllThreads. Whatever the order in which the threads are visited: first
     every thread that sits on an enabled site executes exactly one instruction,
     with that site alone disabled; only then is anything continued, each stopped
     thread once, with the trap of every site that was enabled at the call in
     place. The same sites are enabled afterwards even if a step failed. `steps`
     and `conts` are what the two passes let the program execute.
     */
    method ResumeAllThreads() returns (r: Outcome, ghost steps: seq<Action>, ghost conts: seq<Action>)
      requires SitesOk() && Keyed() && TableAgrees() && History() && (!missed ==> Cached())
      modifies this`threads, this`sites, this`dregs, this`covered, this`canon, this`owner, this`own, this`past, this`missed, this`state, kernel
      ensures SitesOk() && History() && (kernel.honest ==> !missed) && threads.Keys == old(threads).Keys
      ensures SteppedAll(old(past), past, regs, TrapAddrs(old(sites)))
      ensures Kept(old(covered)) && (OffSlots(old(sites)) ==> dregs == old(dregs) && covered == old(covered))
      ensures old(missed) ==> missed
      ensures r == Hung ==> kernel.Stuck()
      ensures r == Done ==> !SomeCannotStep(old(threads), regs, old(sites), currentThread in threads, start.own)
      ensures r == Failed ==> missed || SomeCannotStep(old(threads), regs, old(sites), currentThread in threads, start.own)
      ensures r != Hung ==> SameEnabled(old(sites), sites) && TableAgrees() && Keyed()
      ensures kernel.log == old(kernel.log) + steps + conts
      ensures !missed ==> SteppingOnly(steps, regs, old(sites))
      ensures ContinuingOnly(conts, old(sites))
      ensures conts != [] ==> r != Hung && old(threads).Keys <= regs.Keys
      ensures conts != [] && !missed ==>
        forall t <- old(threads) :: Steps(steps, t) == StepsDue(old(threads)[t], regs[t], old(sites))
      ensures r == Done && old(AllAlive(threads)) ==> AllAlive(threads)
      ensures r == Done ==> forall t <- threads :: threads[t].state != Stopped
      ensures r == Done && !missed ==>
        && old(threads).Keys <= regs.Keys
        && (forall t <- old(threads) :: Steps(steps, t) == StepsDue(old(threads)[t], regs[t], old(sites)))
        && (forall t <- old(threads) :: Conts(conts, t) == if old(threads)[t].state == Stopped then 1 else 0)
    {
      hide Overlaid, SlotsOk, TableOk, SameEnabled, SteppedAll, SteppingOnly, Steps, Conts, StepsDue, SomeCannotStep;
      hide Distinct, DistinctWatches, Replays, ReasonsOk;
      ghost var sites0, threads0 := sites, threads;
      conts := [];
      r, steps := StepAllOver();
      if r == Done {
        SameKeys(threads, threads0);
        ghost var threads1 := threads;
        SameEnabledAddrs(sites0, sites);
        var ok;
        ok, conts := ContinueAll();
        SameKeys(threads, threads1);
        r := if ok then Done else Failed;
      }
    }

    // ---------------------------------------------------------------- copies of the cache

    /** SitesOk, whatever the caches say of the debug registers. */
    ghost predicate InKernel()
      reads this`sites, this`own, kernel`mem, this`watchpoints, this`dregs, this`covered, this`canon, this`owner
    {
      && TrapsOk()
      && DistinctWatches(watchpoints)
      && (forall s <- sites :: UsesSlot(s) ==> 0 <= s.slot < 4)
      && (forall w <- watchpoints :: SupportedSize(w.size) && (w.isEnabled ==> 0 <= w.slot < 4))
      && (forall t <- covered :: DebugRegsOf(dregs, t) == canon)
      && (covered != {} ==> SlotsOk(canon, sites, watchpoints, owner))
    }

    /** The caches differ from the tracee at most for the current thread. */
    ghost predicate Loose()
      reads this
    {
      && regs.Keys == threads.Keys
      && boundTo.Keys <= {currentThread} * threads.Keys
      && staleDregs.Keys <= {currentThread} * threads.Keys
    }

    /**
     What the struct copy of restoreExprState leaves. The tracee has the registers again that
     the thread had; the cache of the current thread is a copy of what was saved, bound to that
     thread whichever thread is the current one, and with the debug registers of then.
     */
    ghost predicate RolledBack(saved: Saved)
      reads this, kernel`regs
    {
      var cur := currentThread;
      && regs.Keys == threads.Keys
      && (cur in threads ==>
            regs[cur] == saved.regs && saved.tid in kernel.regs && kernel.regs[saved.tid] == saved.regs)
      && boundTo == (if cur in threads && cur != saved.tid then map[cur := saved.tid] else map[])
      && staleDregs == (if cur in threads && Current() != saved.dregs then map[cur := saved.dregs] else map[])
    }

    /** What is mapped never changes. */
    lemma SameMapped(addr: int, n: nat)
      requires TrapsOk() && History()
      ensures Mapped(kernel.mem, addr, n) <==> Mapped(start.own, addr, n)
    {
      ReplayIs(replay, start, past);
      assert kernel.mem.Keys == own.Keys == Replay(start, past).own.Keys == start.own.Keys;
    }

    lemma SameWords(addr: int, n: nat)
      requires TrapsOk() && History()
      ensures WordsMapped(kernel.mem, addr, n) <==> WordsMapped(start.own, addr, n)
    {
      ReplayIs(replay, start, past);
      assert kernel.mem.Keys == own.Keys == Replay(start, past).own.Keys == start.own.Keys;
      forall a | addr <= a < addr + n
        ensures WordMapped(kernel.mem, a) <==> WordMapped(start.own, a)
      {
      }
    }

    /** The caches are right again exactly if the thread is the same, and its debug registers are. */
    lemma RolledBackMeans(saved: Saved)
      requires RolledBack(saved)
      ensures Loose()
      ensures currentThread in threads ==> (staleDregs == map[] <==> Current() == saved.dregs)
      ensures currentThread in threads ==> (boundTo == map[] <==> currentThread == saved.tid)
      ensures currentThread !in threads ==> staleDregs == map[] && boundTo == map[]
    {
      assert currentThread in threads && currentThread != saved.tid ==> currentThread in boundTo;
      assert currentThread in threads && Current() != saved.dregs ==> currentThread in staleDregs;
    }

    /** What `savedRegs := *regs` copies. */
    function Copy(): Saved
      requires currentThread in regs
      reads this
    {
      Saved(Binding(boundTo, currentThread), regs[currentThread], CachedDregs(currentThread))
    }

    // ---------------------------------------------------------------- whole runs

    /**
     The debugger between two commands: every invariant holds, every tracked thread
     is stopped, and one of them is the current one.
     */
    ghost predicate AtPrompt()
      reads this, kernel
    {
      SitesOk() && Keyed() && Halted() && History() && currentThread in threads
    }

    /** What makes a prompt of what a call has left. */
    lemma PromptAgain()
      requires SitesOk() && History() && Loose() && Halted() && boundTo == map[] && staleDregs == map[] && currentThread in threads
      ensures AtPrompt()
    {
      hide SitesOk, History, Halted;
    }

    /** Sites and memory may have changed. */
    twostate lemma StillAtPrompt()
      requires old(AtPrompt()) && SitesOk() && History()
      requires unchanged(this`threads, this`regs, this`boundTo, this`staleDregs, this`currentThread, this`missed)
      requires unchanged(kernel`running, kernel`queued, kernel`regs)
      ensures AtPrompt()
    {
      hide SitesOk, History, TableAgrees, Cached, AllStopped;
    }

    /** Every tracked thread is stopped, in the table and, unless an event was misunderstood, in the kernel, and its registers are known. */
    ghost predicate Halted()
      reads this, kernel
    {
      TableAgrees() && AllStopped(threads) && (!missed ==> Cached())
    }

    /** As long as no thread was ever found while the process ran, all tracked threads hold the same debug registers. */
    ghost predicate Fixed()
      reads this`past, this`threads, this`covered
    {
      NoneFound([], past) ==> threads.Keys <= covered
    }

    /**
     The continue command: resume all threads and wait for the next stop. Up to `mid` threads
     were stepped over their traps, from then on the debugger waited with all traps planted.
     */
    method ContinueCommand() returns (stopped: bool, ghost mid: seq<Deed>)
      requires AtPrompt()
      modifies this`threads, this`sites, this`dregs, this`covered, this`canon, this`owner, this`own, this`past, this`missed, this`state
      modifies this`regs, this`currentThread, kernel
      ensures SitesOk() && History() && (kernel.honest ==> !missed)
      ensures SteppedAll(old(past), mid, old(regs), TrapAddrs(old(sites))) && Waited(mid, past, TrapAddrs(old(sites)))
      ensures NoneFound(mid, past) ==> threads.Keys <= old(threads).Keys
      ensures old(currentThread in covered) ==> old(covered) * old(threads).Keys <= covered
      ensures old(OffSlots(sites)) ==> dregs == old(dregs) && covered == old(covered)
      ensures stopped ==> AtPrompt() && SameEnabled(old(sites), sites)
      ensures stopped ==> state == Stopped && currentThread in threads
      ensures old(missed) ==> missed
      ensures stopped ==> !SomeCannotStep(old(threads), old(regs), old(sites), true, start.own)
      ensures !stopped ==>
        || missed || kernel.Stuck()
        || SomeCannotStep(old(threads), old(regs), old(sites), true, start.own)
        || (state != Stopped && state != Running && pid !in kernel.running)
    {
      hide Overlaid, SlotsOk, TableOk, SameEnabled, SteppedAll, SteppingOnly, ContinuingOnly, Steps, Conts, StepsDue, SomeCannotStep, MainWait;
      hide Distinct, DistinctWatches, Replays, ReasonsOk;
      ghost var sites0 := sites;
      var r, steps, conts := ResumeAllThreads();
      mid := past;
      stopped := false;
      if r == Done {
        SameEnabledAddrs(sites0, sites);
        var reason, n, last := WaitOnSignalFor(None);
        stopped := reason.Some? && reason.value.reason == Stopped;
      }
    }

    /** break: a site at the address, enabled at once. */
    method BreakCommand(addr: U64, hardware: bool)
      requires SitesOk()
      modifies this`sites, this`nextBreakpointId, this`dregs, this`covered, this`canon, this`owner, kernel`mem
      ensures SitesOk() && Kept(old(covered))
    {
      var i := CreateBreakpointSite(addr, hardware, false);
      if i.Some? {
        var _ := EnableSite(i.value);
      }
    }

    /** One command about sites. Enable and disable are refused when they would repeat themselves. */
    method SiteCommand(c: Command)
      requires SitesOk()
      modifies this`sites, this`nextBreakpointId, this`dregs, this`covered, this`canon, this`owner, kernel`mem
      ensures SitesOk() && Kept(old(covered))
    {
      match c {
        case Break(addr, hardware) =>
          BreakCommand(addr, hardware);
        case Enable(i) =>
          if 0 <= i < |sites| && !sites[i].isEnabled {
            var _ := EnableSite(i);
          }
        case Disable(i) =>
          if 0 <= i < |sites| && sites[i].isEnabled {
            var _ := DisableSite(i);
          }
        case Delete(id) =>
          var _ := RemoveBreakpointSite(id);
        case _ =>
      }
    }

    /** One command about watchpoints. */
    method WatchCommand(c: Command)
      requires SitesOk()
      modifies this`watchpoints, this`nextWatchpointId, this`dregs, this`covered, this`canon, this`owner
      ensures SitesOk() && Kept(old(covered))
    {
      match c {
        case WatchAt(addr, mode, size) =>
          var _ := CreateWatchpoint(addr, mode, size);
        case WatchOn(k) =>
          if 0 <= k < |watchpoints| && !watchpoints[k].isEnabled {
            var _ := EnableWatchpoint(k);
          }
        case WatchOff(k) =>
          if 0 <= k < |watchpoints| && watchpoints[k].isEnabled {
            var _ := DisableWatchpoint(k);
          }
        case WatchDelete(id) =>
          var _ := RemoveWatchpoint(id);
        case _ =>
      }
    }

    /** One command that changes sites, watchpoints or the current thread. */
    method EditCommand(c: Command)
      requires AtPrompt()
      modifies this`sites, this`nextBreakpointId, this`watchpoints, this`nextWatchpointId, this`currentThread
      modifies this`dregs, this`covered, this`canon, this`owner, kernel`mem
      ensures AtPrompt() && (old(currentThread in covered) ==> old(covered) * threads.Keys <= covered)
    {
      hide Overlaid, SlotsOk, TableOk, CacheHolds;
      SiteCommand(c);
      WatchCommand(c);
      if c.Select? && c.tid in threads {
        currentThread := c.tid;
      }
    }

    /**
     Any run: from a prompt, any list of commands over any list of events ends at
     a prompt with every invariant intact, or in a continue that did not come back
     with a stop. With a kernel that reports only what is to be expected nothing
     is ever missed, and the table says what the threads do.
     */
    method Session(commands: seq<Command>) returns (prompt: bool)
      requires AtPrompt()
      modifies this, kernel
      ensures prompt ==> AtPrompt() && (kernel.honest ==> !missed) && (old(Fixed()) ==> Fixed())
      ensures SitesOk() && History() && Ran(old(past), past)
      ensures prompt ==> forall t <- threads :: !missed ==> kernel.StoppedInKernel(t)
      ensures prompt ==> forall t <- threads :: !missed ==> (threads[t].pendingSigstop <==> t in kernel.queued)
    {
      hide SitesOk;
      for i := 0 to |commands|
        invariant AtPrompt() && Ran(old(past), past) && (old(Fixed()) ==> Fixed())
      {
        if commands[i] == Continue {
          ghost var mid, past1, regs1, traps := [], past, regs, TrapAddrs(sites);
          var stopped;
          stopped, mid := ContinueCommand();
          RanOn(old(past), past1, mid, past, regs1, traps);
          if !stopped {
            return false;
          }
        } else {
          EditCommand(commands[i]);
        }
      }
      prompt := true;
    }
  }

  /** A copy of a thread's cached registers: the thread it is bound to comes along, and so do the debug registers. */
  datatype Saved = Saved(tid: int, regs: Regs, dregs: DebugRegs)

  /** What the first pass of a resume starts from. */
  datatype Snapshot = Snapshot(keys: set<int>, sites: seq<Site>, log: seq<Action>, past: seq<Deed>, covered: set<int>, dregs: map<int, DebugRegs>)

  /** One enabled watchpoint more. */
  predicate Appended(before: seq<Watchpoint>, after: seq<Watchpoint>, id: int, v: Watch) {
    |after| > 0 && after == before + [Watchpoint(id, v.address, v.mode, v.size, true, after[|after| - 1].slot)]
  }

  /** What the user can ask for at the prompt, as far as it changes state. */
  datatype Command =
    | Break(addr: U64, hardware: bool)
    | Enable(i: int)
    | Disable(i: int)
    | Delete(id: int)
    | WatchAt(address: U64, mode: Mode, size: int)
    | WatchOn(k: int)
    | WatchOff(k: int)
    | WatchDelete(id: int)
    | Select(tid: int)
    | Continue

  /** Nothing changed in the table, or the thread's SIGSTOP is no longer pending. */
  ghost predicate AtMostDelivered(before: map<int, ThreadState>, after: map<int, ThreadState>, tid: int) {
    tid in before && (after == before || after == before[tid := before[tid].(pendingSigstop := false)])
  }

  /** The site s was programmed into slot j, the lowest that was free in d. */
  ghost predicate Retaken(d: DebugRegs, s: Site, after: DebugRegs, j: int) {
    0 <= j < 4 && IsLowestFree(d, j) && after == Arm(d, j, SiteWatch(s))
  }

  /** What disabling the site s and enabling it again, in slot j, makes of the debug registers. */
  ghost predicate ClearedAndSet(s: Site, d: DebugRegs, after: DebugRegs, j: int) {
    if s.isHardware then 0 <= s.slot < 4 && Retaken(Disarm(d, s.slot), s, after, j) else after == d
  }

  /** A hardware site at pc would get its slot back: it is the one it has, and every lower one is taken. */
  ghost predicate TakesBack(sites: seq<Site>, pc: U64, d: DebugRegs) {
    forall s <- sites :: UsesSlot(s) && s.address == pc ==> InLowestSlot(s, d)
  }

  ghost predicate InLowestSlot(s: Site, d: DebugRegs) {
    Holds(d, s.slot, SiteWatch(s)) && forall j :: 0 <= j < s.slot ==> Enabled(d.control, j)
  }

  /** Stepping over the site at pc left the debug registers, and every slot, as they were exactly if its slot was taken back. */
  ghost predicate Retaking(sites: seq<Site>, pc: U64, d: DebugRegs, after: DebugRegs, sites': seq<Site>) {
    && (after == d <==> TakesBack(sites, pc, d))
    && (after == d ==> KeptSlots(sites, sites'))
  }

  lemma SameSlotAddrs(sites: seq<Site>, sites': seq<Site>)
    requires SameEnabled(sites, sites')
    ensures SlotAddrs(sites) == SlotAddrs(sites')
  {
    forall k | 0 <= k < |sites|
      ensures sites[k].address == sites'[k].address && UsesSlot(sites[k]) == UsesSlot(sites'[k])
    {
      assert SameSite(sites[k], sites'[k]);
    }
    forall a
      ensures a in SlotAddrs(sites) <==> a in SlotAddrs(sites')
    {
      if a in SlotAddrs(sites) {
        var s :| s in sites && UsesSlot(s) && s.address == a;
        var k :| 0 <= k < |sites| && sites[k] == s;
        assert sites'[k] in sites';
      }
      if a in SlotAddrs(sites') {
        var s :| s in sites' && UsesSlot(s) && s.address == a;
        var k :| 0 <= k < |sites'| && sites'[k] == s;
        assert sites[k] in sites;
      }
    }
  }

  /** The site a thread sits on cannot be disabled: a hardware one without registers, a software one at the edge of what is mapped. */
  ghost predicate CannotStep(sites: seq<Site>, pc: U64, tracked: bool, own: Mem) {
    exists s <- sites :: s.isEnabled && s.address == pc && if s.isHardware then !tracked else !Mapped(own, pc, 8)
  }

  lemma CannotStepIs(sites: seq<Site>, i: nat, tracked: bool, own: Mem)
    requires Distinct(sites) && i < |sites| && sites[i].isEnabled
    ensures CannotStep(sites, sites[i].address, tracked, own) <==>
            if sites[i].isHardware then !tracked else !Mapped(own, sites[i].address, 8)
  {
    assert sites[i] in sites;
    forall s <- sites | s.address == sites[i].address
      ensures s == sites[i]
    {
      var k :| 0 <= k < |sites| && sites[k] == s;
    }
  }

  lemma CannotStepSame(sites: seq<Site>, sites': seq<Site>, pc: U64, tracked: bool, own: Mem)
    requires SameEnabled(sites, sites')
    ensures CannotStep(sites, pc, tracked, own) <==> CannotStep(sites', pc, tracked, own)
  {
    if CannotStep(sites, pc, tracked, own) {
      var s :| s in sites && s.isEnabled && s.address == pc && if s.isHardware then !tracked else !Mapped(own, pc, 8);
      var k :| 0 <= k < |sites| && sites[k] == s;
      assert SameSite(sites[k], sites'[k]) && sites'[k] in sites';
    }
    if CannotStep(sites', pc, tracked, own) {
      var s :| s in sites' && s.isEnabled && s.address == pc && if s.isHardware then !tracked else !Mapped(own, pc, 8);
      var k :| 0 <= k < |sites'| && sites'[k] == s;
      assert SameSite(sites[k], sites'[k]) && sites[k] in sites;
    }
  }

  /** Some stopped thread sits on a site that cannot be disabled. */
  ghost predicate SomeCannotStep(threads: map<int, ThreadState>, regs: map<int, Regs>, sites: seq<Site>, tracked: bool, own: Mem) {
    exists t <- threads :: threads[t].state == Stopped && t in regs && CannotStep(sites, regs[t].pc, tracked, own)
  }

  /** Without an enabled site at pc there is nothing to take back. */
  lemma NoSlotAt(sites: seq<Site>, pc: U64)
    requires forall s <- sites :: s.address == pc ==> !s.isEnabled
    ensures pc !in SlotAddrs(sites) && forall d, sites' :: KeptSlots(sites, sites') ==> Retaking(sites, pc, d, d, sites')
  {
  }

  /** The enabled hardware sites are in the slots they were in. */
  ghost predicate KeptSlots(before: seq<Site>, after: seq<Site>) {
    |before| <= |after| && forall k :: 0 <= k < |before| && UsesSlot(before[k]) ==> after[k].slot == before[k].slot
  }

  /** Stepping over site i leaves the debug registers, and the slots, as they were exactly when its slot is taken back. */
  lemma TakesBackIs(sites: seq<Site>, later: seq<Site>, i: nat, d: DebugRegs, after: DebugRegs)
    requires Distinct(sites) && i < |sites| && sites[i].isEnabled && |later| == |sites| && later == sites[i := later[i]]
    requires ClearedAndSet(sites[i], d, after, later[i].slot)
    ensures Retaking(sites, sites[i].address, d, after, later)
  {
    forall s <- sites | s.address == sites[i].address
      ensures s == sites[i]
    {
      var k :| 0 <= k < |sites| && sites[k] == s;
    }
    assert sites[i] in sites;
    if sites[i].isHardware {
      RetakeSame(d, sites[i].slot, SiteWatch(sites[i]), later[i].slot);
    }
  }

  /** The thread that a cache entry reads and writes. */
  function Binding(boundTo: map<int, int>, tid: int): int {
    if tid in boundTo then boundTo[tid] else tid
  }

  /** The event is a hit of a software site whose handler asks for the thread to be resumed. */
  predicate AsksToResume(threads: map<int, ThreadState>, sites: seq<Site>, e: Event) {
    && Inspected(threads, NewStopReason(e), true)
    && HandlerAsks(sites, Refined(NewStopReason(e), e, Expecting(threads, e.tid)), e.regs)
  }

  /** One thread was continued, with its pc on an enabled trap that is in memory. */
  ghost predicate TrappedCont(log: seq<Action>, before: seq<Action>, sites: seq<Site>) {
    && |log| == |before| + 1 && log[..|before|] == before
    && log[|before|].Cont? && log[|before|].pc in TrapAddrs(sites) && AllPlanted(log[|before|].mem, TrapAddrs(sites))
  }

  /** The last action of a thread after it was asked to run. */
  lemma LastOf(log: seq<Action>, acts: seq<Action>, tid: int)
    requires |acts| == 1 ==> acts[0].tid == tid
    ensures |acts| == 1 ==> LastAction(log + acts, tid) == Some(acts[0])
  {
  }

  /** How a step-over or a resume ends; Hung while still blocked in wait4. */
  datatype Outcome = Done | Failed | Hung

  predicate Ended(r: StopReason) {
    r.reason == Exited || r.reason == Terminated
  }

  /** What follows from the result of handleSignal. */
  function SettledAs(final: Option<StopReason>, e: Event, pid: int, toAwait: Option<int>): Turn {
    if final.None? then Again(toAwait)
    else if final.value.reason == Stopped then StopAt(final.value)
    else if e.tid == pid then MainExit(final.value)
    else Again(None)
  }

  /** What becomes of the table then; that of an exiting main thread is left open. */
  ghost predicate Recorded(final: Option<StopReason>, before: map<int, ThreadState>, after: map<int, ThreadState>, e: Event, pid: int) {
    && (final.None? ==> after == if e.tid in before then before[e.tid := before[e.tid].(state := Running)] else before)
    && (final.Some? && final.value.reason == Stopped ==>
          e.tid in before && after == before[e.tid := before[e.tid].(reason := final.value, state := Stopped)])
    && (final.Some? && final.value.reason != Stopped && e.tid != pid ==> after == before - {e.tid})
  }

  /** What a turn tells of its event. */
  lemma TurnTold(r: Turn, before: map<int, ThreadState>, after: map<int, ThreadState>, sites: seq<Site>, policy: CatchPolicy, pid: int,
                 e: Event, toAwait: Option<int>)
    requires TurnIs(r, before, after, sites, policy, pid, e, toAwait)
    ensures r.Again? <==> Passes(before, sites, policy, pid, e)
    ensures r.Again? ==> r.next == AwaitAfter(e, toAwait) && after == TableAfter(before, e)
    ensures r.MainExit? ==> r.reason == ReportOf(before, e)
    ensures r.StopAt? ==> r.reason == ReportOf(before, e) && e.tid in after && after[e.tid].reason == r.reason && r.reason.tid == e.tid
  {
  }

  /** handleSignal and what follows make a turn. */
  lemma TurnSettled(final: Option<StopReason>, before: map<int, ThreadState>, handled: map<int, ThreadState>, after: map<int, ThreadState>,
                    sites: seq<Site>, policy: CatchPolicy, pid: int, e: Event, toAwait: Option<int>)
    requires final.None? <==> e.status.IsStop() && Swallowed(before, sites, policy, e)
    requires final.Some? ==> final.value == ReportOf(before, e) && final.value.reason == NewStopReason(e).reason
    requires handled == if e.status.IsStop() then TableHandled(before, e) else before
    requires Recorded(final, handled, after, e, pid)
    ensures TurnIs(SettledAs(final, e, pid, toAwait), before, after, sites, policy, pid, e, toAwait)
  {
  }

  /**
   One turn of waitOnSignalFor: it waits on exactly after an event that is to be passed over, and
   then no thread is recorded as stopped that was not so before; every other event is reported,
   with its whole reason.
   */
  ghost predicate TurnIs(r: Turn, before: map<int, ThreadState>, after: map<int, ThreadState>, sites: seq<Site>, policy: CatchPolicy, pid: int,
                         e: Event, toAwait: Option<int>)
  {
    if Passes(before, sites, policy, pid, e) then
      r == Again(AwaitAfter(e, toAwait)) && after == TableAfter(before, e)
    else if e.status.IsStop() then
      && r == StopAt(RefinedStop(before, e))
      && after == before[e.tid := EntryAfter(before, e).(reason := RefinedStop(before, e), state := Stopped)]
    else r == MainExit(NewStopReason(e))
  }

  /** How one turn of waitOnSignalFor ends. */
  datatype Turn = Blocked | Again(next: Option<int>) | MainExit(reason: StopReason) | StopAt(reason: StopReason)

  /** The dead threads of the table other than `exclude`. */
  function DeadBut(threads: map<int, ThreadState>, exclude: int): set<int> {
    set t | t in threads && t != exclude && Dead(threads[t])
  }

  function Without(sites: seq<Site>, i: nat): seq<Site>
    requires i < |sites|
  {
    sites[..i] + sites[i + 1..]
  }

  ghost predicate IsFirstWithId(sites: seq<Site>, i: int, id: int) {
    0 <= i < |sites| && sites[i].id == id && forall j :: 0 <= j < i ==> sites[j].id != id
  }

  ghost predicate IsFirstWatch(wps: seq<Watchpoint>, k: int, id: int) {
    0 <= k < |wps| && wps[k].id == id && forall j :: 0 <= j < k ==> wps[j].id != id
  }

  method WatchById(wps: seq<Watchpoint>, id: int) returns (r: Option<int>)
    ensures r.Some? ==> IsFirstWatch(wps, r.value, id)
    ensures r.None? ==> forall w <- wps :: w.id != id
  {
    for k := 0 to |wps|
      invariant forall j :: 0 <= j < k ==> wps[j].id != id
    {
      if wps[k].id == id {
        return Some(k);
      }
    }
    r := None;
  }

  lemma DropWatch(wps: seq<Watchpoint>, k: nat)
    requires DistinctWatches(wps) && k < |wps| && !wps[k].isEnabled
    ensures DistinctWatches(wps[..k] + wps[k + 1..])
    ensures forall w :: w in wps[..k] + wps[k + 1..] ==> w in wps
    ensures forall w :: w in wps && w.isEnabled ==> w in wps[..k] + wps[k + 1..]
  {
    var rest := wps[..k] + wps[k + 1..];
    forall w | w in wps && w.isEnabled
      ensures w in rest
    {
      var j :| 0 <= j < |wps| && wps[j] == w;
      assert rest[if j < k then j else j - 1] == w;
    }
    assert forall j :: 0 <= j < |rest| ==> rest[j] == wps[if j < k then j else j + 1];
  }

  lemma DropUser(sites: seq<Site>, i: nat)
    requires i < |sites| && !UsesSlot(sites[i])
    ensures forall s :: UsesSlot(s) ==> (s in sites <==> s in sites[..i] + sites[i + 1..])
  {
    var rest := sites[..i] + sites[i + 1..];
    forall s | UsesSlot(s)
      ensures s in sites <==> s in rest
    {
      if s in sites {
        var k :| 0 <= k < |sites| && sites[k] == s;
        assert rest[if k < i then k else k - 1] == s;
      }
    }
  }

  /** The debug registers of a thread; all zero until the debugger has written them. */
  function DebugRegsOf(dregs: map<int, DebugRegs>, tid: int): DebugRegs {
    if tid in dregs then dregs[tid] else DebugRegs([0, 0, 0, 0], 0)
  }

  /** One address register and DR7 replaced. */
  function WithSlot(d: DebugRegs, index: nat, addr: U64, control: U64): DebugRegs
    requires index < 4
  {
    DebugRegs(d.addr[index := addr], control)
  }

  lemma NoneEnabled()
    ensures forall i :: 0 <= i < 4 ==> !Enabled(0, i)
  {
    forall i | 0 <= i < 4
      ensures !Enabled(0, i)
    {
      Bits.BitOfZero(2 * i);
    }
  }

  lemma MappedAfterWrite(m: Mem, addr: int, s: seq<Byte>, a: int)
    ensures Mapped(WriteBytes(m, addr, s), a, 8) <==> Mapped(m, a, 8)
  {
    assert WriteBytes(m, addr, s).Keys == m.Keys;
  }

  lemma WordsMappedExtend(m: Mem, addr: int, offset: nat, n: nat, aligned: int)
    requires WordsMapped(m, addr, offset) && Mapped(m, aligned, 8)
    requires aligned % 8 == 0 && aligned <= addr + offset && addr + offset + n <= aligned + 8
    ensures WordsMapped(m, addr, offset + n)
  {
    forall a | addr + offset <= a < addr + offset + n
      ensures WordMapped(m, a)
    {
      assert AlignDown(a) == aligned;
    }
  }
}
