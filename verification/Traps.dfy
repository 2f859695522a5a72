/**
 Breakpoint sites, and the software ones among them as an int3 overlay on the
 program's memory.
 */
module Traps {
  import opened Bytes
  import opened Memory
  import opened Tracee

  /** A breakpoint site. `slot` is its debug-register index, -1 when it never had one. */
  datatype Site = Site(
    id: int,
    address: U64,
    isHardware: bool,
    isInternal: bool,
    isEnabled: bool,
    savedData: Byte,
    slot: int,
    onHit: Option<bool>)

  /** An enabled software site: its int3 is in memory. */
  predicate Trapped(s: Site) {
    s.isEnabled && !s.isHardware
  }

  predicate Distinct(sites: seq<Site>) {
    forall i, j :: 0 <= i < j < |sites| ==> sites[i].address != sites[j].address
  }

  function TrapAddrs(sites: seq<Site>): set<int> {
    set s | s in sites && Trapped(s) :: s.address
  }

  /** The memory `own` as the tracee sees it with int3 planted at `traps`. */
  function Patched(own: Mem, traps: set<int>): (m: Mem)
    ensures m.Keys == own.Keys
    ensures forall a <- own :: m[a] == if a in traps then INT3 else own[a]
  {
    map a | a in own :: if a in traps then INT3 else own[a]
  }

  /**
   Tracee memory is the program's own memory overlaid with int3 at exactly the
   enabled software sites, and each such site holds the byte it hides.
   */
  ghost predicate Overlaid(own: Mem, mem: Mem, sites: seq<Site>) {
    && mem == Patched(own, TrapAddrs(sites))
    && forall s <- sites :: Trapped(s) ==> s.address in own && s.savedData == own[s.address]
  }

  /** Replacing one site changes the trap set at that site's address only. */
  lemma TrapAddrsUpdate(sites: seq<Site>, i: nat, s: Site)
    requires i < |sites| && Distinct(sites) && s.address == sites[i].address
    ensures Distinct(sites[i := s])
    ensures TrapAddrs(sites[i := s]) ==
            if Trapped(s) then TrapAddrs(sites) + {s.address} else TrapAddrs(sites) - {s.address}
  {
    var sites' := sites[i := s];
    forall a
      ensures a in TrapAddrs(sites') <==>
              if a == s.address then Trapped(s) else a in TrapAddrs(sites)
    {
      if a == s.address {
        assert s in sites' by { assert sites'[i] == s; }
      } else {
        if a in TrapAddrs(sites) {
          var k :| 0 <= k < |sites| && sites[k].address == a && Trapped(sites[k]);
          assert sites'[k] == sites[k];
        }
        if a in TrapAddrs(sites') {
          var k :| 0 <= k < |sites'| && sites'[k].address == a && Trapped(sites'[k]);
          assert sites'[k] == sites[k];
        }
      }
    }
  }

  lemma SavedUpdate(own: Mem, sites: seq<Site>, i: nat, s: Site)
    requires i < |sites|
    requires forall t <- sites :: Trapped(t) ==> t.address in own && t.savedData == own[t.address]
    ensures (forall t <- sites[i := s] :: Trapped(t) ==> t.address in own && t.savedData == own[t.address])
            <==> (Trapped(s) ==> s.address in own && s.savedData == own[s.address])
  {
    var sites' := sites[i := s];
    assert sites'[i] == s;
    forall t <- sites' | t != s
      ensures t in sites
    {
      var k :| 0 <= k < |sites'| && sites'[k] == t;
      assert sites[k] == t;
    }
  }

  /**
   Enable on a software site: the byte at the address is saved and replaced by
   int3. The overlay survives exactly when the site was disabled before or the
   program's own byte there is an int3.
   */
  lemma PlantTrap(own: Mem, mem: Mem, sites: seq<Site>, i: nat)
    requires i < |sites| && Distinct(sites) && Overlaid(own, mem, sites)
    requires !sites[i].isHardware && sites[i].address in mem
    ensures
      var a := sites[i].address;
      var sites' := sites[i := sites[i].(isEnabled := true, savedData := mem[a])];
      && Distinct(sites') && TrapAddrs(sites') == TrapAddrs(sites) + {a}
      && (Overlaid(own, mem[a := INT3], sites') <==> !sites[i].isEnabled || own[a] == INT3)
  {
    var a := sites[i].address;
    var s' := sites[i].(isEnabled := true, savedData := mem[a]);
    TrapAddrsUpdate(sites, i, s');
    SavedUpdate(own, sites, i, s');
    assert mem[a := INT3] == Patched(own, TrapAddrs(sites) + {a});
    if sites[i].isEnabled {
      assert a in TrapAddrs(sites);
    } else {
      assert a !in TrapAddrs(sites);
    }
  }

  /**
   Disable on a software site: the saved byte is written back. The overlay
   survives exactly when the site was enabled before or its saved byte happens to
   be the program's own.
   */
  lemma LiftTrap(own: Mem, mem: Mem, sites: seq<Site>, i: nat)
    requires i < |sites| && Distinct(sites) && Overlaid(own, mem, sites)
    requires !sites[i].isHardware && sites[i].address in mem
    ensures
      var a := sites[i].address;
      var sites' := sites[i := sites[i].(isEnabled := false)];
      && Distinct(sites') && TrapAddrs(sites') == TrapAddrs(sites) - {a}
      && (Overlaid(own, mem[a := sites[i].savedData], sites') <==> sites[i].savedData == own[a])
      && (sites[i].isEnabled ==> sites[i].savedData == own[a])
  {
    var a := sites[i].address;
    var s' := sites[i].(isEnabled := false);
    TrapAddrsUpdate(sites, i, s');
    SavedUpdate(own, sites, i, s');
    if sites[i].savedData == own[a] {
      assert mem[a := sites[i].savedData] == Patched(own, TrapAddrs(sites) - {a});
    }
  }

  /** A site that has no int3 before and after a change does not matter to the overlay. */
  lemma UntrappedUpdate(own: Mem, mem: Mem, sites: seq<Site>, i: nat, s: Site)
    requires i < |sites| && Distinct(sites) && Overlaid(own, mem, sites)
    requires s.address == sites[i].address && !Trapped(s) && !Trapped(sites[i])
    ensures Distinct(sites[i := s]) && Overlaid(own, mem, sites[i := s])
  {
    TrapAddrsUpdate(sites, i, s);
    SavedUpdate(own, sites, i, s);
    assert s.address !in TrapAddrs(sites);
    assert TrapAddrs(sites) - {s.address} == TrapAddrs(sites);
  }

  /** Adding a disabled site at a new address. */
  lemma PushSite(own: Mem, mem: Mem, sites: seq<Site>, s: Site)
    requires Distinct(sites) && Overlaid(own, mem, sites)
    requires !s.isEnabled && forall t <- sites :: t.address != s.address
    ensures Distinct(sites + [s]) && Overlaid(own, mem, sites + [s])
  {
    assert TrapAddrs(sites + [s]) == TrapAddrs(sites);
  }

  /** Dropping a site that is not trapped. */
  lemma DropSite(own: Mem, mem: Mem, sites: seq<Site>, i: nat)
    requires i < |sites| && Distinct(sites) && Overlaid(own, mem, sites) && !Trapped(sites[i])
    ensures Distinct(sites[..i] + sites[i + 1..]) && Overlaid(own, mem, sites[..i] + sites[i + 1..])
  {
    var sites' := sites[..i] + sites[i + 1..];
    forall s | s in sites && Trapped(s)
      ensures s in sites'
    {
      var k :| 0 <= k < |sites| && sites[k] == s;
      assert sites'[if k < i then k else k - 1] == s;
    }
    assert TrapAddrs(sites') == TrapAddrs(sites);
  }

  /** Stores of the running program change its own memory and nothing else about the overlay. */
  lemma StoresKeepOverlay(own: Mem, mem: Mem, sites: seq<Site>, landed: map<int, Byte>)
    requires Overlaid(own, mem, sites)
    requires forall a <- landed :: a in mem && mem[a] != INT3
    ensures Overlaid(Stored(own, landed), Stored(mem, landed), sites)
  {
    forall s | s in sites && Trapped(s)
      ensures s.address !in landed
    {
      assert s.address in TrapAddrs(sites);
    }
    assert Stored(mem, landed) == Patched(Stored(own, landed), TrapAddrs(sites));
  }

  /**
   Writing data over the region [addr, addr + |data|) changes the program's own
   memory alike. The overlay survives exactly when every trap inside the region is
   overwritten with an int3 that the site already hid.
   */
  lemma WriteKeepsOverlay(own: Mem, mem: Mem, sites: seq<Site>, addr: int, data: seq<Byte>)
    requires Overlaid(own, mem, sites)
    ensures Overlaid(WriteBytes(own, addr, data), WriteBytes(mem, addr, data), sites) <==>
            forall s <- sites :: Trapped(s) && addr <= s.address < addr + |data| ==>
              data[s.address - addr] == INT3 && s.savedData == INT3
  {
    var own', mem' := WriteBytes(own, addr, data), WriteBytes(mem, addr, data);
    forall s | s in sites && Trapped(s) && addr <= s.address < addr + |data|
      ensures mem'[s.address] == own'[s.address] == data[s.address - addr]
      ensures s.address in TrapAddrs(sites)
    {
    }
    if Overlaid(own', mem', sites) {
      forall s | s in sites && Trapped(s) && addr <= s.address < addr + |data|
        ensures data[s.address - addr] == INT3 && s.savedData == INT3
      {
        assert mem'[s.address] == INT3;
      }
    }
    if forall s <- sites :: Trapped(s) && addr <= s.address < addr + |data| ==>
         data[s.address - addr] == INT3 && s.savedData == INT3 {
      assert mem' == Patched(own', TrapAddrs(sites));
    }
  }

  /** enabledSoftwareAtAddress: the first enabled software site at an address. */
  function FirstTrapped(sites: seq<Site>, addr: int): (r: Option<Site>)
    ensures r.Some? ==> r.value in sites && Trapped(r.value) && r.value.address == addr
    ensures r.None? ==> forall s <- sites :: !(Trapped(s) && s.address == addr)
  {
    if sites == [] then None
    else if Trapped(sites[0]) && sites[0].address == addr then Some(sites[0])
    else FirstTrapped(sites[1..], addr)
  }

  /** enabledAtAddress: the index of the first enabled site at an address, or None. */
  method EnabledAt(sites: seq<Site>, addr: int) returns (r: Option<int>)
    ensures r.Some? ==> 0 <= r.value < |sites| && sites[r.value].address == addr && sites[r.value].isEnabled
    ensures r.None? ==> forall s <- sites :: s.address == addr ==> !s.isEnabled
  {
    for i := 0 to |sites|
      invariant forall j :: 0 <= j < i ==> sites[j].address == addr ==> !sites[j].isEnabled
    {
      if sites[i].address == addr && sites[i].isEnabled {
        return Some(i);
      }
    }
    r := None;
  }

  /** getByID: the first site with the ID. */
  method IndexById(sites: seq<Site>, id: int) returns (r: Option<int>)
    ensures r.Some? ==> 0 <= r.value < |sites| && sites[r.value].id == id
    ensures r.Some? ==> forall j :: 0 <= j < r.value ==> sites[j].id != id
    ensures r.None? ==> forall s <- sites :: s.id != id
  {
    for i := 0 to |sites|
      invariant forall j :: 0 <= j < i ==> sites[j].id != id
    {
      if sites[i].id == id {
        return Some(i);
      }
    }
    r := None;
  }

  /**
   Patching a read region: every trap byte is replaced by the byte its site hides,
   for the sites found in the region, one after the other.
   */
  method StripTraps(sites: seq<Site>, addr: int, raw: seq<Byte>, ghost own: Mem, ghost mem: Mem) returns (data: seq<Byte>)
    requires Distinct(sites) && Overlaid(own, mem, sites)
    requires Mapped(mem, addr, |raw|) && raw == ReadBytes(mem, addr, |raw|)
    ensures Mapped(own, addr, |raw|) && data == ReadBytes(own, addr, |raw|)
  {
    data := raw;
    for i := 0 to |sites|
      invariant |data| == |raw|
      invariant forall k :: 0 <= k < |data| ==>
        addr + k in own && data[k] == if addr + k in TrapAddrs(sites[i..]) then INT3 else own[addr + k]
    {
      var s := sites[i];
      TrapAddrsTail(sites, i);
      if s.isEnabled && !s.isHardware && addr <= s.address < addr + |data| {
        data := data[s.address - addr := s.savedData];
      }
    }
  }

  lemma TrapAddrsTail(sites: seq<Site>, i: nat)
    requires i < |sites| && Distinct(sites)
    ensures TrapAddrs(sites[i..]) == TrapAddrs(sites[i + 1..]) + if Trapped(sites[i]) then {sites[i].address} else {}
    ensures sites[i].address !in TrapAddrs(sites[i + 1..])
  {
    assert sites[i..] == [sites[i]] + sites[i + 1..];
  }
}
