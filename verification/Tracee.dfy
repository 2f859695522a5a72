/**
 The kernel's side of a traced process: memory, threads, queued SIGSTOPs and
 the finite list of events that wait4 will still report. Every ptrace request
 of the debugger is a method here. A wait on an empty list never returns; the
 methods report that as `None`.
 */
module Tracee {
  import opened Bytes
  import opened Memory

  datatype Option<+T> = None | Some(value: T)

  const SIGTRAP: int := 5
  const SIGSTOP: int := 19

  /** The part of a wait status that the debugger looks at. */
  datatype Status =
    | Exit(code: int)
    | Kill(sig: int)
    | Stop(sig: int)
    | CloneStop
  {
    predicate IsStop() {
      Stop? || CloneStop?
    }
  }

  /** The registers of one thread, general and floating point. */
  datatype Regs = Regs(pc: U64, rsp: U64, rdi: U64, rax: U64, others: seq<U64>, fprs: seq<Byte>)

  /**
   One report of wait4: who, what, the registers found at the stop, the si_code
   and system call number, and the bytes the program stored since the last report.
   */
  datatype Event = Event(tid: int, status: Status, regs: Regs, siCode: int, sysno: int, stores: map<int, Byte>)

  /**
   What the kernel was asked to run: one instruction, or freely. A thread that
   is continued with a SIGSTOP still queued for it reports that signal before
   it executes anything; `bounced` marks that case.
   */
  datatype Action =
    | Step(tid: int, pc: U64, mem: Mem)
    | Cont(tid: int, pc: U64, mem: Mem, bounced: bool)

  const INT3: Byte := 0xCC

  /** The stores of an event that take effect: mapped addresses, and never on top of an int3. */
  function Landing(m: Mem, stores: map<int, Byte>): (landed: map<int, Byte>)
    ensures forall a <- landed :: a in m && m[a] != INT3
  {
    map a | a in stores && a in m && m[a] != INT3 :: stores[a]
  }

  function Stored(m: Mem, stores: map<int, Byte>): (m': Mem)
    requires forall a <- stores :: a in m
    ensures m'.Keys == m.Keys
    ensures forall a <- m :: m'[a] == if a in stores then stores[a] else m[a]
  {
    map a | a in m :: if a in stores then stores[a] else m[a]
  }

  /** The report of wait4 for a request; a wait on one thread reports that thread. */
  function Reported(e: Event, awaited: Option<int>): Event {
    e.(tid := if awaited.None? then e.tid else awaited.value)
  }

  /** The last thing a thread was asked to run. */
  function LastAction(log: seq<Action>, tid: int): Option<Action> {
    if log == [] then None
    else if log[|log| - 1].tid == tid then Some(log[|log| - 1])
    else LastAction(log[..|log| - 1], tid)
  }

  /** The report of a queued SIGSTOP by a thread that has executed nothing. */
  predicate Quiet(e: Event, regs: map<int, Regs>) {
    e.status == Stop(SIGSTOP) && e.stores == map[] && e.tid in regs && e.regs == regs[e.tid]
  }

  /**
   What is to be expected of the report that wait4 on one thread returns: a thread that was
   continued with a SIGSTOP queued reports that before it executes anything, and a thread
   that was single-stepped stops. `last` is what the thread was asked to run.
   */
  predicate Obliging(e: Event, awaited: Option<int>, last: Option<Action>, regs: map<int, Regs>) {
    awaited.Some? && last.Some? ==>
      match last.value
      case Step(_, _, _) => e.status.IsStop()
      case Cont(_, _, _, bounced) => bounced ==> Quiet(e, regs)
  }

  class Kernel {
    var mem: Mem
    var running: map<int, bool>     // live threads; false means stopped
    var queued: set<int>            // threads with a SIGSTOP of ours still undelivered
    var regs: map<int, Regs>
    var future: seq<Event>          // what wait4 will still report
    var log: seq<Action>            // everything the program was allowed to execute
    const honest: bool              // reports nothing that is not to be expected

    constructor (mem: Mem, tids: set<int>, regs: map<int, Regs>, future: seq<Event>, honest: bool)
      ensures this.mem == mem && this.running == map t | t in tids :: false
      ensures this.queued == {} && this.regs == regs && this.future == future && this.log == [] && this.honest == honest
    {
      this.mem := mem;
      this.running := map t | t in tids :: false;
      this.queued := {};
      this.regs := regs;
      this.future := future;
      this.log := [];
      this.honest := honest;
    }

    /** PTRACE_PEEKDATA: the word at addr, or an error unless all eight bytes are mapped. */
    method PeekData(addr: U64) returns (r: Option<U64>)
      ensures r.Some? <==> Mapped(mem, addr, 8)
      ensures r.Some? ==> r.value == FromLE(ReadBytes(mem, addr, 8))
    {
      if addr > USER_TOP {
        return None;
      }
      var i := 0;
      var word: seq<Byte> := [];
      while i < 8
        invariant 0 <= i <= 8 && Mapped(mem, addr, i) && word == ReadBytes(mem, addr, i)
      {
        if addr + i >= USER_TOP || addr + i !in mem {
          return None;
        }
        ReadBytesExtend(mem, addr, i);
        word := word + [mem[addr + i]];
        i := i + 1;
      }
      WordBound(word);
      r := Some(FromLE(word));
    }

    /** PTRACE_POKEDATA: store a word at addr, or fail unless all eight bytes are mapped. */
    method PokeData(addr: U64, value: U64) returns (ok: bool)
      modifies this`mem
      ensures ok <==> Mapped(old(mem), addr, 8)
      ensures mem == if ok then WriteBytes(old(mem), addr, ToLE(value, 8)) else old(mem)
    {
      var probe := PeekData(addr);
      ok := probe.Some?;
      if ok {
        mem := WriteBytes(mem, addr, ToLE(value, 8));
      }
    }

    /** process_vm_readv: the longest mapped prefix of the region, an error when that is empty. */
    method ReadMemory(addr: U64, amount: nat) returns (data: Option<seq<Byte>>)
      requires amount > 0
      ensures data.None? <==> addr >= USER_TOP || addr !in mem
      ensures data.Some? ==>
        var n := |data.value|;
        && 0 < n <= amount && Mapped(mem, addr, n) && data.value == ReadBytes(mem, addr, n)
        && (n < amount ==> addr + n >= USER_TOP || addr + n !in mem)
    {
      if addr > USER_TOP {
        return None;
      }
      var buf: seq<Byte> := [];
      while |buf| < amount && addr + |buf| < USER_TOP && addr + |buf| in mem
        invariant |buf| <= amount && Mapped(mem, addr, |buf|) && buf == ReadBytes(mem, addr, |buf|)
      {
        ReadBytesExtend(mem, addr, |buf|);
        buf := buf + [mem[addr + |buf|]];
      }
      if |buf| == 0 {
        return None;
      }
      data := Some(buf);
    }

    ghost predicate StoppedInKernel(tid: int)
      reads this`running
    {
      tid in running && !running[tid]
    }

    function PcOf(tid: int): U64
      reads this`regs
    {
      if tid in regs then regs[tid].pc else 0
    }

    /** PTRACE_CONT (or PTRACE_SYSCALL): only a stopped thread can be continued. */
    method Continue(tid: int) returns (ok: bool)
      modifies this`running, this`log
      ensures ok == old(StoppedInKernel(tid))
      ensures running == if ok then old(running)[tid := true] else old(running)
      ensures log == if ok then old(log) + [Cont(tid, PcOf(tid), mem, tid in queued)] else old(log)
    {
      ok := tid in running && !running[tid];
      if ok {
        running := running[tid := true];
        log := log + [Cont(tid, PcOf(tid), mem, tid in queued)];
      }
    }

    /** PTRACE_SINGLESTEP: only a stopped thread can be stepped. */
    method SingleStep(tid: int) returns (ok: bool)
      modifies this`running, this`log
      ensures ok == old(StoppedInKernel(tid))
      ensures running == if ok then old(running)[tid := true] else old(running)
      ensures log == if ok then old(log) + [Step(tid, PcOf(tid), mem)] else old(log)
    {
      ok := tid in running && !running[tid];
      if ok {
        running := running[tid := true];
        log := log + [Step(tid, PcOf(tid), mem)];
      }
    }

    /** tgkill with SIGSTOP: queued for a live thread, once however often it is sent. */
    method SendSigstop(tid: int)
      modifies this`queued
      ensures queued == if tid in running then old(queued) + {tid} else old(queued)
    {
      if tid in running {
        queued := queued + {tid};
      }
    }

    /** Write-through of a register cache. */
    method SetRegs(tid: int, r: Regs)
      modifies this`regs
      ensures regs == old(regs)[tid := r]
    {
      regs := regs[tid := r];
    }

    /** The next event is one that is to be expected. */
    predicate ToBeExpected(toAwait: Option<int>)
      requires future != []
      reads this`future, this`log, this`regs
    {
      var e := Reported(future[0], toAwait);
      Obliging(e, toAwait, LastAction(log, e.tid), regs)
    }

    /** wait4 does not return. */
    predicate Blocks(toAwait: Option<int>)
      reads this`future, this`log, this`regs
    {
      future == [] || (honest && !ToBeExpected(toAwait))
    }

    /** Some wait4 does not return. */
    ghost predicate Stuck()
      reads this`future, this`log, this`regs
    {
      exists a :: Blocks(a)
    }

    /**
     wait4 on one thread, or on any when `toAwait` is None (-1 in the call). The reported thread is
     stopped or gone afterwards, a reported SIGSTOP is no longer queued, and the
     program's stores are in memory. It blocks when there is nothing to report, and
     an honest kernel rather blocks than reports what is not to be expected.
     */
    method Wait(toAwait: Option<int>) returns (r: Option<Event>, landed: map<int, Byte>)
      modifies this`future, this`running, this`queued, this`regs, this`mem
      ensures r.None? <==> old(Blocks(toAwait))
      ensures r.Some? && honest ==> Obliging(r.value, toAwait, LastAction(log, r.value.tid), old(regs))
      ensures r.None? ==> future == old(future) && running == old(running) && queued == old(queued)
      ensures r.None? ==> regs == old(regs) && mem == old(mem) && landed == map[]
      ensures r.Some? ==> future == old(future)[1..]
      ensures r.Some? ==> r.value == Reported(old(future)[0], toAwait)
      ensures r.Some? ==>
        running == if r.value.status.IsStop() then old(running)[r.value.tid := false] else old(running) - {r.value.tid}
      ensures r.Some? ==>
        queued == if r.value.status.IsStop() && r.value.status != Stop(SIGSTOP) then old(queued) else old(queued) - {r.value.tid}
      ensures r.Some? ==>
        regs == if r.value.status.IsStop() then old(regs)[r.value.tid := r.value.regs] else old(regs)
      ensures landed == if r.Some? then Landing(old(mem), r.value.stores) else map[]
      ensures mem == Stored(old(mem), landed)
    {
      if Blocks(toAwait) {
        r, landed := None, map[];
        return;
      }
      var e := Reported(future[0], toAwait);
      future := future[1..];
      if e.status.IsStop() {
        running := running[e.tid := false];
        regs := regs[e.tid := e.regs];
        if e.status == Stop(SIGSTOP) {
          queued := queued - {e.tid};
        }
      } else {
        running := running - {e.tid};
        queued := queued - {e.tid};
      }
      landed := Landing(mem, e.stores);
      mem := Stored(mem, landed);
      r := Some(e);
    }
  }
}
