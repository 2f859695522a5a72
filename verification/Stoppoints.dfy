/**
 Hardware breakpoints and watchpoints sharing the four debug-register slots.
 */
module Stoppoints {
  import opened Bytes
  import opened Bits
  import opened Memory
  import opened Tracee
  import opened DebugRegisters
  import opened Traps

  datatype Watchpoint = Watchpoint(id: int, address: U64, mode: Mode, size: int, isEnabled: bool, slot: int)

  /** Who a slot was programmed for; sites and watchpoints are named by their address. */
  datatype Owner = SiteOwner(address: U64) | WatchOwner(address: U64)

  predicate UsesSlot(s: Site) {
    s.isEnabled && s.isHardware
  }

  /** The addresses of the enabled hardware sites. */
  function SlotAddrs(sites: seq<Site>): set<int> {
    set s | s in sites && UsesSlot(s) :: s.address
  }

  lemma SlotAddrAt(sites: seq<Site>, i: nat)
    requires Distinct(sites) && i < |sites|
    ensures sites[i].address in SlotAddrs(sites) <==> UsesSlot(sites[i])
  {
    assert sites[i] in sites;
    if sites[i].address in SlotAddrs(sites) {
      var s :| s in sites && UsesSlot(s) && s.address == sites[i].address;
      var k :| 0 <= k < |sites| && sites[k] == s;
    }
  }

  predicate DistinctWatches(wps: seq<Watchpoint>) {
    forall i, j :: 0 <= i < j < |wps| ==> wps[i].address != wps[j].address
  }

  function SiteWatch(s: Site): Watch {
    Watch(s.address, Execute, 1)
  }

  function PointWatch(w: Watchpoint): Watch {
    Watch(w.address, w.mode, w.size)
  }

  /** The owner of a slot is an enabled stoppoint that points back at the slot. */
  ghost predicate Claimed(o: Owner, i: int, sites: seq<Site>, wps: seq<Watchpoint>) {
    match o
    case SiteOwner(a) => exists s <- sites :: UsesSlot(s) && s.slot == i && s.address == a
    case WatchOwner(a) => exists w <- wps :: w.isEnabled && w.slot == i && w.address == a
  }

  /**
   The enabled hardware stoppoints are in bijection with the occupied slots, and
   each slot is programmed for its owner.
   */
  ghost predicate SlotsOk(d: DebugRegs, sites: seq<Site>, wps: seq<Watchpoint>, owner: map<int, Owner>) {
    && (forall i <- owner :: 0 <= i < 4)
    && (forall i :: 0 <= i < 4 ==> (Enabled(d.control, i) <==> i in owner))
    && (forall i <- owner :: Claimed(owner[i], i, sites, wps))
    && (forall s <- sites :: UsesSlot(s) ==>
          s.slot in owner && owner[s.slot] == SiteOwner(s.address) && Holds(d, s.slot, SiteWatch(s)))
    && (forall w <- wps :: w.isEnabled ==>
          w.slot in owner && owner[w.slot] == WatchOwner(w.address) && Holds(d, w.slot, PointWatch(w)))
  }

  /** A claim stays as long as the stoppoints of its slot do. */
  lemma ClaimedStays(o: Owner, i: int, sites: seq<Site>, wps: seq<Watchpoint>, sites': seq<Site>, wps': seq<Watchpoint>)
    requires Claimed(o, i, sites, wps)
    requires forall s <- sites :: UsesSlot(s) && s.slot == i ==> s in sites'
    requires forall w <- wps :: w.isEnabled && w.slot == i ==> w in wps'
    ensures Claimed(o, i, sites', wps')
  {
  }

  /** What is in a sequence after one element is replaced. */
  lemma Updated<T>(s: seq<T>, k: nat, x: T)
    requires k < |s|
    ensures x in s[k := x]
    ensures forall y :: y in s[k := x] ==> y == x || y in s
    ensures forall y <- s :: y == s[k] || y in s[k := x]
  {
    var t := s[k := x];
    assert t[k] == x;
    forall y <- s
      ensures y == s[k] || y in t
    {
      var m :| 0 <= m < |s| && s[m] == y;
      assert t[m] == if m == k then x else y;
    }
    forall y <- t
      ensures y == x || y in s
    {
      var m :| 0 <= m < |t| && t[m] == y;
      assert t[m] == if m == k then x else s[m];
    }
  }

  /** Replacing a watchpoint at the same address. */
  lemma WatchUpdate(wps: seq<Watchpoint>, k: nat, w: Watchpoint)
    requires DistinctWatches(wps) && k < |wps| && w.address == wps[k].address
    ensures DistinctWatches(wps[k := w])
    ensures forall v <- wps[k := w] :: v == w || v in wps
  {
    Updated(wps, k, w);
  }

  /** Arming a free slot leaves the claims and the contents of all the others alone. */
  lemma ArmFree(d: DebugRegs, sites: seq<Site>, wps: seq<Watchpoint>, owner: map<int, Owner>, i: nat, v: Watch)
    requires SlotsOk(d, sites, wps, owner) && i < 4 && !Enabled(d.control, i) && SupportedSize(v.size)
    ensures Holds(Arm(d, i, v), i, v)
    ensures forall j :: 0 <= j < 4 && j != i ==> Enabled(Arm(d, i, v).control, j) == Enabled(d.control, j)
    ensures forall s <- sites :: UsesSlot(s) ==> s.slot != i && Holds(Arm(d, i, v), s.slot, SiteWatch(s))
    ensures forall w <- wps :: w.isEnabled ==> w.slot != i && Holds(Arm(d, i, v), w.slot, PointWatch(w))
  {
    ArmHolds(d, i, v, i, v);
    forall j | 0 <= j < 4 && j != i
      ensures Enabled(Arm(d, i, v).control, j) == Enabled(d.control, j)
    {
      ArmHolds(d, i, v, j, v);
    }
    forall s <- sites | UsesSlot(s)
      ensures s.slot != i && Holds(Arm(d, i, v), s.slot, SiteWatch(s))
    {
      ArmHolds(d, i, v, s.slot, SiteWatch(s));
    }
    forall w <- wps | w.isEnabled
      ensures w.slot != i && Holds(Arm(d, i, v), w.slot, PointWatch(w))
    {
      ArmHolds(d, i, v, w.slot, PointWatch(w));
    }
  }

  /** Enabling a disabled hardware site in a free slot keeps the bijection. */
  lemma ArmSite(d: DebugRegs, sites: seq<Site>, wps: seq<Watchpoint>, owner: map<int, Owner>, i: nat, k: nat)
    requires SlotsOk(d, sites, wps, owner) && i < 4 && !Enabled(d.control, i)
    requires k < |sites| && sites[k].isHardware && !sites[k].isEnabled
    ensures SlotsOk(Arm(d, i, SiteWatch(sites[k])), sites[k := sites[k].(isEnabled := true, slot := i)], wps,
                    owner[i := SiteOwner(sites[k].address)])
  {
    var s' := sites[k].(isEnabled := true, slot := i);
    var sites', owner' := sites[k := s'], owner[i := SiteOwner(s'.address)];
    ArmFree(d, sites, wps, owner, i, SiteWatch(sites[k]));
    Updated(sites, k, s');
    forall j <- owner'
      ensures Claimed(owner'[j], j, sites', wps)
    {
      if j != i {
        ClaimedStays(owner[j], j, sites, wps, sites', wps);
      }
    }
  }

  /** The claims once w has taken slot i. */
  lemma ClaimedWith(sites: seq<Site>, wps: seq<Watchpoint>, owner: map<int, Owner>, i: nat, wps': seq<Watchpoint>, w: Watchpoint,
                    owner': map<int, Owner>)
    requires owner' == owner[i := WatchOwner(w.address)]
    requires forall j <- owner :: Claimed(owner[j], j, sites, wps)
    requires w in wps' && w.isEnabled && w.slot == i
    requires forall v <- wps :: v.isEnabled ==> v in wps'
    ensures forall j <- owner' :: Claimed(owner'[j], j, sites, wps')
  {
    forall j <- owner'
      ensures Claimed(owner'[j], j, sites, wps')
    {
      if j != i {
        ClaimedStays(owner[j], j, sites, wps, sites, wps');
      }
    }
  }

  /** Adding an enabled watchpoint to the users, in a free slot. */
  lemma ArmUser(d: DebugRegs, sites: seq<Site>, wps: seq<Watchpoint>, owner: map<int, Owner>, i: nat, wps': seq<Watchpoint>, w: Watchpoint)
    requires SlotsOk(d, sites, wps, owner) && i < 4 && !Enabled(d.control, i)
    requires w in wps' && w.isEnabled && w.slot == i && SupportedSize(w.size)
    requires forall v <- wps :: v.isEnabled ==> v in wps'
    requires forall v <- wps' :: v == w || v in wps
    ensures SlotsOk(Arm(d, i, PointWatch(w)), sites, wps', owner[i := WatchOwner(w.address)])
  {
    ArmFree(d, sites, wps, owner, i, PointWatch(w));
    ClaimedWith(sites, wps, owner, i, wps', w, owner[i := WatchOwner(w.address)]);
  }

  /** Enabling a watchpoint that is not yet in the list, in a free slot. */
  lemma ArmNewWatch(d: DebugRegs, sites: seq<Site>, wps: seq<Watchpoint>, owner: map<int, Owner>, i: nat, w: Watchpoint)
    requires SlotsOk(d, sites, wps, owner) && i < 4 && !Enabled(d.control, i)
    requires w.isEnabled && w.slot == i && SupportedSize(w.size)
    ensures SlotsOk(Arm(d, i, PointWatch(w)), sites, wps + [w], owner[i := WatchOwner(w.address)])
  {
    ArmUser(d, sites, wps, owner, i, wps + [w], w);
  }

  /** Enabling a disabled watchpoint of the list in a free slot. */
  lemma ArmWatch(d: DebugRegs, sites: seq<Site>, wps: seq<Watchpoint>, owner: map<int, Owner>, i: nat, k: nat)
    requires SlotsOk(d, sites, wps, owner) && i < 4 && !Enabled(d.control, i)
    requires k < |wps| && !wps[k].isEnabled && SupportedSize(wps[k].size)
    ensures SlotsOk(Arm(d, i, PointWatch(wps[k])), sites, wps[k := wps[k].(isEnabled := true, slot := i)],
                    owner[i := WatchOwner(wps[k].address)])
  {
    var w := wps[k].(isEnabled := true, slot := i);
    Updated(wps, k, w);
    ArmUser(d, sites, wps, owner, i, wps[k := w], w);
  }

  /** Disarming a taken slot leaves every stoppoint outside it alone. */
  lemma DisarmOne(d: DebugRegs, sites: seq<Site>, wps: seq<Watchpoint>, owner: map<int, Owner>, i: nat)
    requires SlotsOk(d, sites, wps, owner) && i in owner
    ensures !Enabled(Disarm(d, i).control, i)
    ensures forall j :: 0 <= j < 4 && j != i ==> Enabled(Disarm(d, i).control, j) == Enabled(d.control, j)
    ensures forall s <- sites :: UsesSlot(s) && s.slot != i ==> Holds(Disarm(d, i), s.slot, SiteWatch(s))
    ensures forall w <- wps :: w.isEnabled && w.slot != i ==> Holds(Disarm(d, i), w.slot, PointWatch(w))
  {
    DisarmHolds(d, i, i, Watch(0, Execute, 1));
    forall j | 0 <= j < 4 && j != i
      ensures Enabled(Disarm(d, i).control, j) == Enabled(d.control, j)
    {
      DisarmHolds(d, i, j, Watch(0, Execute, 1));
    }
    forall s <- sites | UsesSlot(s) && s.slot != i
      ensures Holds(Disarm(d, i), s.slot, SiteWatch(s))
    {
      DisarmHolds(d, i, s.slot, SiteWatch(s));
    }
    forall w <- wps | w.isEnabled && w.slot != i
      ensures Holds(Disarm(d, i), w.slot, PointWatch(w))
    {
      DisarmHolds(d, i, w.slot, PointWatch(w));
    }
  }

  /** With distinct addresses, a disabled site is gone from the list of users. */
  lemma SiteLeft(sites: seq<Site>, k: nat)
    requires Distinct(sites) && k < |sites|
    ensures forall s <- sites[k := sites[k].(isEnabled := false)] :: s.isEnabled ==> s in sites && s.address != sites[k].address
  {
    var sites' := sites[k := sites[k].(isEnabled := false)];
    forall s <- sites' | s.isEnabled
      ensures s in sites && s.address != sites[k].address
    {
      var m :| 0 <= m < |sites'| && sites'[m] == s;
      assert m != k && sites[m] == s;
    }
  }

  lemma WatchLeft(wps: seq<Watchpoint>, k: nat)
    requires DistinctWatches(wps) && k < |wps|
    ensures forall w <- wps[k := wps[k].(isEnabled := false)] :: w.isEnabled ==> w in wps && w.address != wps[k].address
  {
    var wps' := wps[k := wps[k].(isEnabled := false)];
    forall w <- wps' | w.isEnabled
      ensures w in wps && w.address != wps[k].address
    {
      var m :| 0 <= m < |wps'| && wps'[m] == w;
      assert m != k && wps[m] == w;
    }
  }

  /** Disabling an enabled hardware site empties exactly its slot. */
  lemma DisarmSite(d: DebugRegs, sites: seq<Site>, wps: seq<Watchpoint>, owner: map<int, Owner>, k: nat)
    requires SlotsOk(d, sites, wps, owner) && Distinct(sites)
    requires k < |sites| && UsesSlot(sites[k])
    ensures SlotsOk(Disarm(d, sites[k].slot), sites[k := sites[k].(isEnabled := false)], wps, owner - {sites[k].slot})
  {
    var i := sites[k].slot;
    var s' := sites[k].(isEnabled := false);
    var sites', owner' := sites[k := s'], owner - {i};
    DisarmOne(d, sites, wps, owner, i);
    SiteLeft(sites, k);
    Updated(sites, k, s');
    forall j <- owner'
      ensures Claimed(owner'[j], j, sites', wps)
    {
      ClaimedStays(owner[j], j, sites, wps, sites', wps);
    }
  }

  /** Disabling an enabled watchpoint empties exactly its slot. */
  lemma DisarmWatch(d: DebugRegs, sites: seq<Site>, wps: seq<Watchpoint>, owner: map<int, Owner>, k: nat)
    requires SlotsOk(d, sites, wps, owner) && DistinctWatches(wps)
    requires k < |wps| && wps[k].isEnabled
    ensures SlotsOk(Disarm(d, wps[k].slot), sites, wps[k := wps[k].(isEnabled := false)], owner - {wps[k].slot})
  {
    var i := wps[k].slot;
    var w' := wps[k].(isEnabled := false);
    var wps', owner' := wps[k := w'], owner - {i};
    DisarmOne(d, sites, wps, owner, i);
    WatchLeft(wps, k);
    Updated(wps, k, w');
    forall j <- owner'
      ensures Claimed(owner'[j], j, sites, wps')
    {
      ClaimedStays(owner[j], j, sites, wps, sites, wps');
    }
  }

  /** Changing a site that uses no slot before or after. */
  lemma SlotlessUpdate(d: DebugRegs, sites: seq<Site>, wps: seq<Watchpoint>, owner: map<int, Owner>, k: nat, s: Site)
    requires SlotsOk(d, sites, wps, owner) && k < |sites| && !UsesSlot(sites[k]) && !UsesSlot(s)
    ensures SlotsOk(d, sites[k := s], wps, owner)
  {
    var sites' := sites[k := s];
    forall t | UsesSlot(t)
      ensures t in sites <==> t in sites'
    {
      if t in sites {
        var m :| 0 <= m < |sites| && sites[m] == t;
        assert sites'[m] == t;
      }
      if t in sites' {
        var m :| 0 <= m < |sites'| && sites'[m] == t;
        assert sites[m] == t;
      }
    }
    SlotsSameUsers(d, sites, sites', wps, wps, owner);
  }

  /** The bijection depends only on which enabled stoppoints there are. */
  lemma SlotsSameUsers(d: DebugRegs, sites: seq<Site>, sites': seq<Site>, wps: seq<Watchpoint>, wps': seq<Watchpoint>, owner: map<int, Owner>)
    requires SlotsOk(d, sites, wps, owner)
    requires forall s :: UsesSlot(s) ==> (s in sites <==> s in sites')
    requires forall w :: w in wps && w.isEnabled <==> w in wps' && w.isEnabled
    ensures SlotsOk(d, sites', wps', owner)
  {
    forall i <- owner
      ensures Claimed(owner[i], i, sites', wps')
    {
      assert Claimed(owner[i], i, sites, wps);
    }
  }

  /**
   Enabling a hardware site a second time takes a second slot and forgets the
   first: no assignment of owners describes the registers any more.
   */
  lemma DoubleEnableLeaks(d: DebugRegs, sites: seq<Site>, wps: seq<Watchpoint>, owner: map<int, Owner>, i: nat, k: nat,
                          owner': map<int, Owner>)
    requires SlotsOk(d, sites, wps, owner) && Distinct(sites) && i < 4 && !Enabled(d.control, i)
    requires k < |sites| && UsesSlot(sites[k])
    ensures !SlotsOk(Arm(d, i, SiteWatch(sites[k])), sites[k := sites[k].(slot := i)], wps, owner')
  {
    var lost := sites[k].slot;
    var d', sites' := Arm(d, i, SiteWatch(sites[k])), sites[k := sites[k].(slot := i)];
    ArmHolds(d, i, SiteWatch(sites[k]), lost, SiteWatch(sites[k]));
    forall s <- sites' | UsesSlot(s)
      ensures s.slot != lost
    {
      var m :| 0 <= m < |sites'| && sites'[m] == s;
      if m != k {
        assert sites[m] == s && s.address != sites[k].address;
      }
    }
    assert forall o: Owner :: !Claimed(o, lost, sites', wps);
    assert Enabled(d'.control, lost);
  }

  // ---------------------------------------------------------------- stoppoints set from a thread that holds something else

  /** The same slots are taken in both, and for the same mode and size; the addresses do not matter. */
  predicate SlotsAgree(b: DebugRegs, d: DebugRegs) {
    forall j :: 0 <= j < 4 ==>
      (Enabled(b.control, j) <==> Enabled(d.control, j)) && (Enabled(d.control, j) ==> Field(b.control, j) == Field(d.control, j))
  }

  /** d with the DR7 of b. */
  function WithControl(d: DebugRegs, b: DebugRegs): DebugRegs {
    DebugRegs(d.addr, b.control)
  }

  /** What a thread that held d holds after slot i was programmed from a thread that held b: that address, and the whole DR7. */
  function SetFrom(b: DebugRegs, d: DebugRegs, i: nat, v: Watch): DebugRegs
    requires i < 4 && SupportedSize(v.size)
  {
    Arm(WithControl(d, b), i, v)
  }

  /** If the slots agree, the addresses of one and the DR7 of the other go together. */
  lemma AgreeingControl(b: DebugRegs, d: DebugRegs, sites: seq<Site>, wps: seq<Watchpoint>, owner: map<int, Owner>)
    requires SlotsAgree(b, d) && SlotsOk(d, sites, wps, owner)
    ensures SlotsOk(WithControl(d, b), sites, wps, owner)
  {
  }

  /** Some assignment of owners describes the registers. */
  ghost predicate Describable(d: DebugRegs, sites: seq<Site>, wps: seq<Watchpoint>) {
    exists owner :: SlotsOk(d, sites, wps, owner)
  }

  /** With another DR7 the same stoppoints are described if and only if the slots agree. */
  lemma ControlDescribed(b: DebugRegs, d: DebugRegs, sites: seq<Site>, wps: seq<Watchpoint>, owner: map<int, Owner>)
    requires SlotsOk(d, sites, wps, owner)
    ensures Describable(WithControl(d, b), sites, wps) <==> SlotsAgree(b, d)
  {
    if SlotsAgree(b, d) {
      AgreeingControl(b, d, sites, wps, owner);
    }
    if Describable(WithControl(d, b), sites, wps) {
      var owner' :| SlotsOk(WithControl(d, b), sites, wps, owner');
      forall j | 0 <= j < 4
        ensures (Enabled(b.control, j) <==> Enabled(d.control, j)) && (Enabled(d.control, j) ==> Field(b.control, j) == Field(d.control, j))
      {
        SameSlot(WithControl(d, b), d, sites, wps, owner', owner, j);
        SameSlot(d, WithControl(d, b), sites, wps, owner, owner', j);
      }
    }
  }

  lemma SameSlot(d: DebugRegs, d': DebugRegs, sites: seq<Site>, wps: seq<Watchpoint>, owner: map<int, Owner>, owner': map<int, Owner>, j: int)
    requires SlotsOk(d, sites, wps, owner) && SlotsOk(d', sites, wps, owner')
    ensures j in owner ==> j in owner' && Enabled(d'.control, j) && Field(d.control, j) == Field(d'.control, j)
  {
    if j in owner {
      assert Claimed(owner[j], j, sites, wps);
    }
  }

  /** The users of slots are those of before and `mine`, in slot i and watching v. */
  ghost predicate OneMore(sites: seq<Site>, wps: seq<Watchpoint>, sites': seq<Site>, wps': seq<Watchpoint>, mine: Owner, i: int, v: Watch) {
    && (forall s <- sites :: UsesSlot(s) ==> s in sites' && mine != SiteOwner(s.address))
    && (forall w <- wps :: w.isEnabled ==> w in wps' && mine != WatchOwner(w.address))
    && (forall s <- sites' :: UsesSlot(s) ==> s in sites || (mine == SiteOwner(s.address) && s.slot == i && SiteWatch(s) == v))
    && (forall w <- wps' :: w.isEnabled ==> w in wps || (mine == WatchOwner(w.address) && w.slot == i && PointWatch(w) == v))
    && Claimed(mine, i, sites', wps')
  }

  /** Whoever claimed a slot before still does. */
  lemma OldClaim(sites: seq<Site>, wps: seq<Watchpoint>, sites': seq<Site>, wps': seq<Watchpoint>, mine: Owner, i: int, v: Watch, o: Owner, j: int)
    requires OneMore(sites, wps, sites', wps', mine, i, v) && Claimed(o, j, sites, wps)
    ensures o != mine && Claimed(o, j, sites', wps')
  {
  }

  /** A slot is owned by who claims it, and holds what that one watches. */
  lemma ClaimHolds(d: DebugRegs, sites: seq<Site>, wps: seq<Watchpoint>, owner: map<int, Owner>, o: Owner, j: int)
    requires SlotsOk(d, sites, wps, owner) && Claimed(o, j, sites, wps)
    ensures j in owner && owner[j] == o
  {
  }

  /** A slot that both describe, for an old user, is taken in both and for the same thing. */
  lemma BothHold(d: DebugRegs, d': DebugRegs, sites: seq<Site>, wps: seq<Watchpoint>, sites': seq<Site>, wps': seq<Watchpoint>,
                 owner: map<int, Owner>, owner': map<int, Owner>, mine: Owner, i: int, v: Watch, j: int)
    requires OneMore(sites, wps, sites', wps', mine, i, v) && SlotsOk(d, sites, wps, owner) && SlotsOk(d', sites', wps', owner')
    requires j in owner
    ensures j != i && Enabled(d'.control, j) && Field(d'.control, j) == Field(d.control, j)
  {
    var o := owner[j];
    assert Claimed(o, j, sites, wps);
    OldClaim(sites, wps, sites', wps', mine, i, v, o, j);
    ClaimHolds(d', sites', wps', owner', o, j);
    ClaimHolds(d', sites', wps', owner', mine, i);
    match o
    case SiteOwner(a) =>
      var s :| s in sites && UsesSlot(s) && s.slot == j && s.address == a;
      assert s in sites' && Holds(d, j, SiteWatch(s)) && Holds(d', j, SiteWatch(s));
    case WatchOwner(a) =>
      var w :| w in wps && w.isEnabled && w.slot == j && w.address == a;
      assert w in wps' && Holds(d, j, PointWatch(w)) && Holds(d', j, PointWatch(w));
  }

  /** A slot other than the new one is described by an old user. */
  lemma OldOwner(d: DebugRegs, d': DebugRegs, sites: seq<Site>, wps: seq<Watchpoint>, sites': seq<Site>, wps': seq<Watchpoint>,
                 owner: map<int, Owner>, owner': map<int, Owner>, mine: Owner, i: int, v: Watch, j: int)
    requires OneMore(sites, wps, sites', wps', mine, i, v) && SlotsOk(d, sites, wps, owner) && SlotsOk(d', sites', wps', owner')
    requires j in owner' && j != i
    ensures j in owner
  {
    assert Claimed(owner'[j], j, sites', wps');
    match owner'[j]
    case SiteOwner(a) =>
      var s :| s in sites' && UsesSlot(s) && s.slot == j && s.address == a;
      assert s in sites;
    case WatchOwner(a) =>
      var w :| w in wps' && w.isEnabled && w.slot == j && w.address == a;
      assert w in wps;
  }

  /** If the slots agree, the newcomer fits in. */
  lemma FitsIn(b: DebugRegs, d: DebugRegs, i: nat, v: Watch, sites: seq<Site>, wps: seq<Watchpoint>, owner: map<int, Owner>,
               sites': seq<Site>, wps': seq<Watchpoint>, mine: Owner)
    requires SlotsOk(d, sites, wps, owner) && OneMore(sites, wps, sites', wps', mine, i, v)
    requires i < 4 && !Enabled(b.control, i) && SupportedSize(v.size) && SlotsAgree(b, d)
    ensures SlotsOk(SetFrom(b, d, i, v), sites', wps', owner[i := mine])
  {
    AgreeingControl(b, d, sites, wps, owner);
    ArmFree(WithControl(d, b), sites, wps, owner, i, v);
    var owner' := owner[i := mine];
    forall j <- owner'
      ensures Claimed(owner'[j], j, sites', wps')
    {
      if j != i {
        OldClaim(sites, wps, sites', wps', mine, i, v, owner[j], j);
      }
    }
  }

  /**
   A stoppoint set from a thread that holds b, into the lowest slot that is free there: on a
   thread that held d, and was described by the stoppoints, registers and stoppoints still
   match if and only if the two threads had the same slots taken for the same kind of thing.
   */
  lemma SetDescribed(b: DebugRegs, d: DebugRegs, i: nat, v: Watch, sites: seq<Site>, wps: seq<Watchpoint>, owner: map<int, Owner>,
                     sites': seq<Site>, wps': seq<Watchpoint>, mine: Owner)
    requires SlotsOk(d, sites, wps, owner) && OneMore(sites, wps, sites', wps', mine, i, v)
    requires i < 4 && IsLowestFree(b, i) && SupportedSize(v.size)
    ensures Describable(SetFrom(b, d, i, v), sites', wps') <==> SlotsAgree(b, d)
  {
    var after := SetFrom(b, d, i, v);
    if SlotsAgree(b, d) {
      FitsIn(b, d, i, v, sites, wps, owner, sites', wps', mine);
    }
    if Describable(after, sites', wps') {
      var owner' :| SlotsOk(after, sites', wps', owner');
      forall j | 0 <= j < 4
        ensures (Enabled(b.control, j) <==> Enabled(d.control, j)) && (Enabled(d.control, j) ==> Field(b.control, j) == Field(d.control, j))
      {
        SetSlotFields(b.control, i, 1, EncodeWatch(v.mode, v.size), j);
        if j in owner {
          BothHold(d, after, sites, wps, sites', wps', owner, owner', mine, i, v, j);
        } else if j != i && j in owner' {
          OldOwner(d, after, sites, wps, sites', wps', owner, owner', mine, i, v, j);
        }
      }
    }
  }

  /** A site that was disabled is one user more. */
  lemma SiteIsMore(sites: seq<Site>, wps: seq<Watchpoint>, k: nat, i: int)
    requires Distinct(sites) && k < |sites| && sites[k].isHardware && !sites[k].isEnabled
    ensures
      var s := sites[k].(isEnabled := true, slot := i);
      OneMore(sites, wps, sites[k := s], wps, SiteOwner(s.address), i, SiteWatch(s))
  {
    var s := sites[k].(isEnabled := true, slot := i);
    Updated(sites, k, s);
    forall t <- sites | UsesSlot(t)
      ensures t.address != s.address
    {
      var m :| 0 <= m < |sites| && sites[m] == t;
    }
    assert Claimed(SiteOwner(s.address), i, sites[k := s], wps);
  }

  /** Enabling a hardware site from a thread that holds b: the exact condition for the threads that hold d. */
  lemma SiteFromThread(b: DebugRegs, d: DebugRegs, sites: seq<Site>, wps: seq<Watchpoint>, owner: map<int, Owner>, k: nat, i: nat)
    requires SlotsOk(d, sites, wps, owner) && Distinct(sites) && i < 4 && IsLowestFree(b, i)
    requires k < |sites| && sites[k].isHardware && !sites[k].isEnabled
    ensures Describable(SetFrom(b, d, i, SiteWatch(sites[k])), sites[k := sites[k].(isEnabled := true, slot := i)], wps) <==> SlotsAgree(b, d)
  {
    var s := sites[k].(isEnabled := true, slot := i);
    SiteIsMore(sites, wps, k, i);
    SetDescribed(b, d, i, SiteWatch(s), sites, wps, owner, sites[k := s], wps, SiteOwner(s.address));
  }

  /** The same for a watchpoint that is new or was disabled. */
  lemma WatchFromThread(b: DebugRegs, d: DebugRegs, sites: seq<Site>, wps: seq<Watchpoint>, owner: map<int, Owner>, wps': seq<Watchpoint>, w: Watchpoint, i: nat)
    requires SlotsOk(d, sites, wps, owner) && i < 4 && IsLowestFree(b, i) && SupportedSize(w.size) && w.isEnabled && w.slot == i
    requires forall u <- wps :: u.isEnabled ==> u.address != w.address && u in wps'
    requires w in wps' && forall u <- wps' :: u == w || u in wps
    ensures Describable(SetFrom(b, d, i, PointWatch(w)), sites, wps') <==> SlotsAgree(b, d)
  {
    assert Claimed(WatchOwner(w.address), i, sites, wps');
    SetDescribed(b, d, i, PointWatch(w), sites, wps, owner, sites, wps', WatchOwner(w.address));
  }

  /** A thread that was discovered while the process ran has all slots free; the others agree with it if and only if they do too. */
  lemma BlankAgrees(b: DebugRegs, d: DebugRegs, sites: seq<Site>, wps: seq<Watchpoint>, owner: map<int, Owner>)
    requires SlotsOk(d, sites, wps, owner) && forall j :: 0 <= j < 4 ==> !Enabled(b.control, j)
    ensures SlotsAgree(b, d) <==> owner == map[]
  {
    if owner != map[] {
      Inhabited(owner.Keys);
      var i :| i in owner.Keys;
      assert Enabled(d.control, i);
    }
  }
}
