/**
 The machine, the frame allocator and the live address spaces together: every
 operation on these objects is a step of the paging system.
 */
module Processes {
  import opened Words
  import opened BitMaps
  import opened Translation
  import opened AddrSpaces
  import opened Paging

  /** A new space `child` with the parent's bytes has joined the others. */
  ghost predicate Forked(v: Vm, parent: nat, child: nat, v': Vm) {
    && parent in v.spaces && child in v'.spaces && v'.spaces == v.spaces[child := v'.spaces[child]]
    && Copies(v.bits, v.mem, v.spaces[parent], v'.spaces[child], v'.bits, v'.mem)
  }

  /** A new space `id` with a program's flat image has joined the others. */
  ghost predicate Joined(v: Vm, id: nat, h: NoffHeader, file: seq<byte>, v': Vm) {
    && id in v'.spaces && v'.spaces == v.spaces[id := v'.spaces[id]]
    && Loads(v.bits, v.mem, h, file, v'.spaces[id], v'.bits, v'.mem)
  }

  class System {
    const machine: Machine
    const mm: MemoryManager
    var spaces: map<nat, AddrSpace>

    /** Boots with all memory free and no process. */
    constructor ()
      ensures fresh(machine) && fresh(machine.mainMemory) && fresh(mm) && fresh(mm.bitmap) && fresh(mm.bitmap.words)
      ensures Valid() && VmInv(View()) && View().spaces == map[] && Tables() == {}
    {
      machine := new Machine();
      mm := new MemoryManager();
      spaces := map[];
    }

    ghost function Tables(): set<object>
      reads this, spaces.Values
    {
      set id | id in spaces :: spaces[id].pageTable as object
    }

    /** The page tables are separate objects, and separate from the free map. */
    ghost predicate SpacesOk()
      reads this, spaces.Values
    {
      && (forall id :: id in spaces ==>
            spaces[id].numPages == spaces[id].pageTable.Length && mm.Apart(spaces[id].pageTable))
      && (forall i, j :: i in spaces && j in spaces && i != j ==> spaces[i].pageTable != spaces[j].pageTable)
    }

    ghost predicate Valid()
      reads this, machine, mm, mm.bitmap, spaces.Values
    {
      && mm.Valid() && machine.mainMemory.Length == MemorySize && machine.tlb == null && mm.Apart(machine.mainMemory)
      && SpacesOk()
    }

    ghost function PageTables(): map<nat, Table>
      reads this, spaces.Values, Tables()
    {
      map id | id in spaces :: spaces[id].pageTable[..]
    }

    ghost function View(): Vm
      requires Valid()
      reads this, machine, machine.mainMemory, mm, mm.bitmap, mm.bitmap.words, spaces.Values, Tables()
    {
      Vm(machine.mainMemory[..], mm.Bits(), PageTables())
    }

    lemma LiveSpace(id: nat)
      requires Valid() && id in spaces
      ensures id in View().spaces && View().spaces[id] == spaces[id].pageTable[..] && mm.Apart(spaces[id].pageTable)
      ensures spaces[id].numPages == spaces[id].pageTable.Length
      ensures Owned(mm.Bits(), spaces[id].pageTable[..]) ==> spaces[id].Ready()
    {
    }

    /** Adds a space with a page table of its own. */
    method Adopt(id: nat, space: AddrSpace)
      requires SpacesOk() && id !in spaces && space.numPages == space.pageTable.Length
      requires mm.Apart(space.pageTable) && space.pageTable !in Tables()
      modifies this
      ensures SpacesOk() && PageTables() == old(PageTables())[id := space.pageTable[..]]
      ensures Tables() <= old(Tables()) + {space.pageTable}
    {
      ghost var was := spaces;
      spaces := spaces[id := space];
      forall o | o in Tables() ensures o in old(Tables()) + {space.pageTable} {
        var i :| i in spaces && o == spaces[i].pageTable;
        assert i != id ==> i in was && was[i] == spaces[i];
      }
    }

    method Disown(id: nat)
      requires SpacesOk() && id in spaces
      modifies this
      ensures SpacesOk() && PageTables() == old(PageTables()) - {id} && Tables() <= old(Tables())
    {
      spaces := spaces - {id};
    }

    method Load(id: nat, file: seq<byte>, residue: seq<byte>) returns (ok: bool)
      requires Valid() && VmInv(View()) && Paging.Allowed(View(), Op.Load(id, file, residue))
      modifies this, machine.mainMemory, mm.bitmap.words
      ensures Valid() && Step(old(View()), Op.Load(id, file, residue), View())
      ensures ok == old(Loadable(View(), file, residue))
      ensures fresh(Tables() - old(Tables()))
    {
      assert id !in spaces;
      hide VmInv, Loads, SegmentsFit, SpacesOk, PageTables;
      ok := LoadSpace(id, file, residue);
    }

    method LoadSpace(id: nat, file: seq<byte>, residue: seq<byte>) returns (ok: bool)
      requires Valid() && id !in spaces && |residue| == NoffSize
      requires HeaderOf(file, residue).magic == NoffMagic ==> SegmentsFit(HeaderOf(file, residue))
      modifies this, machine.mainMemory, mm.bitmap.words
      ensures Valid() && ok == Loadable(old(View()), file, residue)
      ensures fresh(Tables() - old(Tables()))
      ensures !ok ==> View() == old(View())
      ensures ok ==> Joined(old(View()), id, HeaderOf(file, residue), file, View())
    {
      hide Loads, SegmentsFit, SpacesOk, PageTables, HeaderOf, AddrSpace.Ready;
      var space := LoadedSpace(file, residue);
      ok := space.valid;
      if ok {
        Adopt(id, space);
      }
    }

    /** A loaded space that has not joined the others yet. */
    method LoadedSpace(file: seq<byte>, residue: seq<byte>) returns (space: AddrSpace)
      requires Valid() && |residue| == NoffSize
      requires HeaderOf(file, residue).magic == NoffMagic ==> SegmentsFit(HeaderOf(file, residue))
      modifies machine.mainMemory, mm.bitmap.words
      ensures Valid() && PageTables() == old(PageTables()) && Tables() == old(Tables())
      ensures fresh(space) && fresh(space.pageTable) && mm.Apart(space.pageTable)
      ensures space.valid == Loadable(old(View()), file, residue)
      ensures !space.valid ==> View() == old(View())
      ensures space.valid ==> space.numPages == space.pageTable.Length
      ensures space.valid ==> Loads(old(View()).bits, old(View()).mem, HeaderOf(file, residue), file,
                                    space.pageTable[..], View().bits, View().mem)
    {
      hide Loads, SegmentsFit, HeaderOf;
      space := new AddrSpace.Load(file, residue, machine.mainMemory, mm);
      assert PageTables() == old(PageTables());
      hide PageTables, SpacesOk;
    }

    method Fork(parent: nat, child: nat) returns (ok: bool)
      requires Valid() && VmInv(View()) && Paging.Allowed(View(), Op.Fork(parent, child))
      modifies this, machine.mainMemory, mm.bitmap.words
      ensures Valid() && Step(old(View()), Op.Fork(parent, child), View())
      ensures ok == (|old(View()).spaces[parent]| <= |ClearSet(old(View()).bits)|)
      ensures fresh(Tables() - old(Tables()))
    {
      hide VmInv, Copies, Owned, Sound, SpacesOk;
      LiveOwned(View(), parent);
      ok := CopySpace(parent, child);
    }

    method CopySpace(parent: nat, child: nat) returns (ok: bool)
      requires Valid() && parent in spaces && child !in spaces && Owned(mm.Bits(), spaces[parent].pageTable[..])
      modifies this, machine.mainMemory, mm.bitmap.words
      ensures Valid() && ok == (|old(View()).spaces[parent]| <= |ClearSet(old(View()).bits)|)
      ensures fresh(Tables() - old(Tables()))
      ensures !ok ==> View() == old(View())
      ensures ok ==> Forked(old(View()), parent, child, View())
    {
      hide Forked, Owned, SpacesOk, PageTables;
      LiveSpace(parent);
      var free := mm.GetFreePageCount();
      ok := spaces[parent].numPages <= free;
      if ok {
        Clone(parent, child);
      }
    }

    /** The part of a fork that copies, once there are frames enough. */
    method Clone(parent: nat, child: nat)
      requires Valid() && parent in spaces && child !in spaces && Owned(mm.Bits(), spaces[parent].pageTable[..])
      requires spaces[parent].numPages <= |ClearSet(mm.Bits())|
      modifies this, machine.mainMemory, mm.bitmap.words
      ensures Valid() && fresh(Tables() - old(Tables())) && Forked(old(View()), parent, child, View())
    {
      hide Copies, Owned, Sound, SpacesOk, PageTables;
      LiveSpace(parent);
      var space := CopiedSpace(parent);
      Adopt(child, space);
    }

    /** A copied space that has not joined the others yet. */
    method CopiedSpace(parent: nat) returns (space: AddrSpace)
      requires Valid() && parent in spaces && Owned(mm.Bits(), spaces[parent].pageTable[..])
      requires spaces[parent].numPages <= |ClearSet(mm.Bits())|
      modifies machine.mainMemory, mm.bitmap.words
      ensures Valid() && PageTables() == old(PageTables()) && Tables() == old(Tables())
      ensures fresh(space) && fresh(space.pageTable) && mm.Apart(space.pageTable)
      ensures space.numPages == space.pageTable.Length
      ensures Copies(old(View()).bits, old(View()).mem, spaces[parent].pageTable[..],
                     space.pageTable[..], View().bits, View().mem)
    {
      hide Copies, Owned, Sound;
      LiveSpace(parent);
      space := new AddrSpace.Copy(spaces[parent], machine.mainMemory, mm);
      assert PageTables() == old(PageTables());
      hide PageTables, SpacesOk;
    }

    method Destroy(id: nat)
      requires Valid() && VmInv(View()) && Paging.Allowed(View(), Op.Destroy(id))
      modifies this, mm.bitmap.words
      ensures Valid() && Step(old(View()), Op.Destroy(id), View()) && Tables() <= old(Tables())
    {
      hide VmInv, Owned, Sound, Releases;
      LiveOwned(View(), id);
      RemoveSpace(id);
    }

    method RemoveSpace(id: nat)
      requires Valid() && id in spaces && Owned(mm.Bits(), spaces[id].pageTable[..])
      modifies this, mm.bitmap.words
      ensures Valid() && View().mem == old(View()).mem && View().spaces == old(View()).spaces - {id}
      ensures Tables() <= old(Tables())
      ensures Releases(old(View()).bits, Frames(old(View()).spaces[id]), View().bits)
    {
      ghost var v := View();
      hide Owned, Sound, Releases, PageTables, SpacesOk;
      LiveSpace(id);
      spaces[id].Destroy(mm);
      assert PageTables() == v.spaces;
      Disown(id);
    }

    /** Only the running program's table, the machine and its memory may change. */
    method Store(id: nat, va: int32, size: int, value: int32) returns (r: Result)
      requires Valid() && VmInv(View()) && Paging.Allowed(View(), Op.Store(id, va, size, value))
      modifies machine, machine.mainMemory, spaces[id].pageTable
      ensures Valid() && Step(old(View()), Op.Store(id, va, size, value), View())
      ensures r == Walk(old(View()).spaces[id], va, size, true)
    {
      ghost var v := View();
      WalkServes(v.spaces[id], va, size, true);
      hide VmInv, Walk, SpacesOk, PageTables;
      r := StoreWord(id, va, size, value);
    }

    method StoreWord(id: nat, va: int32, size: int, value: int32) returns (r: Result)
      requires Valid() && id in spaces && Width(size)
      modifies machine, machine.mainMemory, spaces[id].pageTable
      ensures Valid() && r == Walk(old(View()).spaces[id], va, size, true)
      ensures r.Ok? ==> 0 <= r.physAddr && r.physAddr + size <= MemorySize && Vpn(va) < |old(View()).spaces[id]|
      ensures View() == var v := old(View());
                        if r.Ok? then
                          v.(mem := Patch(v.mem, r.physAddr, LowBytes(value, size)),
                             spaces := Touch(v.spaces, id, va, true))
                        else v
    {
      ghost var v := View();
      WalkServes(v.spaces[id], va, size, true);
      hide Walk, Patch;
      r := WriteThrough(id, va, size, value);
      assert PageTables() == if r.Ok? then Touch(v.spaces, id, va, true) else v.spaces;
      hide SpacesOk, PageTables;
    }

    /** The store itself, through the table of the process that runs. */
    method WriteThrough(id: nat, va: int32, size: int, value: int32) returns (r: Result)
      requires Valid() && id in spaces && Width(size)
      modifies machine, machine.mainMemory, spaces[id].pageTable
      ensures machine.tlb == null && r == Walk(old(spaces[id].pageTable[..]), va, size, true)
      ensures r.Ok? ==> 0 <= r.physAddr && r.physAddr + size <= MemorySize && Vpn(va) < spaces[id].pageTable.Length
      ensures machine.mainMemory[..] == var mem := old(machine.mainMemory[..]);
                                        if r.Ok? then Patch(mem, r.physAddr, LowBytes(value, size)) else mem
      ensures spaces[id].pageTable[..] == var t := old(spaces[id].pageTable[..]);
                                          if r.Ok? then t[Vpn(va) := Touched(t[Vpn(va)], true)] else t
    {
      WalkServes(spaces[id].pageTable[..], va, size, true);
      LiveSpace(id);
      hide Walk, Patch, SpacesOk;
      spaces[id].RestoreState(machine);
      r := machine.WriteMem(va, size, value);
    }

    method Fetch(id: nat, va: int32, size: int) returns (r: Result, value: int32)
      requires Valid() && VmInv(View()) && Paging.Allowed(View(), Op.Fetch(id, va, size))
      modifies machine, spaces[id].pageTable
      ensures Valid() && Step(old(View()), Op.Fetch(id, va, size), View())
      ensures r == Walk(old(View()).spaces[id], va, size, false)
      ensures r.Ok? ==> ToWord(va) + size <= |old(Images(View()))[id]|
      ensures r.Ok? ==> value == Loaded(old(Images(View()))[id][ToWord(va)..ToWord(va) + size])
    {
      ghost var v := View();
      hide VmInv, Walk, SpacesOk, Images;
      WalkServes(v.spaces[id], va, size, false);
      if Walk(v.spaces[id], va, size, false).Ok? {
        FetchedBytes(v, id, va, size);
      }
      assert id in spaces;
      hide PageTables;
      r, value := FetchWord(id, va, size);
    }

    /** Any operation its callers may ask for. */
    method Perform(op: Op)
      requires Valid() && VmInv(View()) && Paging.Allowed(View(), op)
      modifies this, machine, machine.mainMemory, mm.bitmap.words, Tables()
      ensures Valid() && Step(old(View()), op, View()) && fresh(Tables() - old(Tables()))
    {
      hide VmInv, Step;
      match op
      case Load(id, file, residue) =>
        var ok := Load(id, file, residue);
      case Fork(parent, child) =>
        var ok := Fork(parent, child);
      case Destroy(id) => Destroy(id);
      case Store(id, va, size, value) =>
        var r := Store(id, va, size, value);
      case Fetch(id, va, size) =>
        var r, value := Fetch(id, va, size);
    }

    method FetchWord(id: nat, va: int32, size: int) returns (r: Result, value: int32)
      requires Valid() && id in spaces && Width(size)
      modifies machine, spaces[id].pageTable
      ensures Valid() && r == Walk(old(View()).spaces[id], va, size, false)
      ensures r.Ok? ==> 0 <= r.physAddr && r.physAddr + size <= MemorySize && Vpn(va) < |old(View()).spaces[id]|
      ensures r.Ok? ==> value == Loaded(old(View()).mem[r.physAddr..r.physAddr + size])
      ensures View() == var v := old(View()); if r.Ok? then v.(spaces := Touch(v.spaces, id, va, false)) else v
    {
      ghost var v := View();
      WalkServes(v.spaces[id], va, size, false);
      hide Walk;
      r, value := ReadThrough(id, va, size);
      assert PageTables() == if r.Ok? then Touch(v.spaces, id, va, false) else v.spaces;
      hide SpacesOk, PageTables;
    }

    /** The load itself, through the table of the process that runs. */
    method ReadThrough(id: nat, va: int32, size: int) returns (r: Result, value: int32)
      requires Valid() && id in spaces && Width(size)
      modifies machine, spaces[id].pageTable
      ensures machine.tlb == null && r == Walk(old(spaces[id].pageTable[..]), va, size, false)
      ensures r.Ok? ==> 0 <= r.physAddr && r.physAddr + size <= MemorySize && Vpn(va) < spaces[id].pageTable.Length
      ensures r.Ok? ==> value == Loaded(machine.mainMemory[..][r.physAddr..r.physAddr + size])
      ensures spaces[id].pageTable[..] == var t := old(spaces[id].pageTable[..]);
                                          if r.Ok? then t[Vpn(va) := Touched(t[Vpn(va)], false)] else t
    {
      WalkServes(spaces[id].pageTable[..], va, size, false);
      LiveSpace(id);
      hide Walk, SpacesOk;
      spaces[id].RestoreState(machine);
      r, value := machine.ReadMem(va, size);
      if r.Ok? {
        assert machine.mainMemory[..][r.physAddr..r.physAddr + size]
               == machine.mainMemory[r.physAddr..r.physAddr + size];
      }
    }
  }

  lemma LiveOwned(v: Vm, id: nat)
    requires VmInv(v) && id in v.spaces
    ensures Owned(v.bits, v.spaces[id]) && Sound(v.spaces[id])
  {
  }

  lemma WalkServes(table: Table, va: int32, size: int, writing: bool)
    requires Width(size)
    ensures Walk(table, va, size, writing).Ok? ==> Vpn(va) < |table|
  {
  }

  // ---- whole runs ----

  /** Every operation of the sequence may be asked for, by the simple model's account of what came before. */
  ghost predicate LegalOps(ops: seq<Op>) {
    forall i :: 0 <= i < |ops| ==> AllowedIn(Replay(map[], ops[..i]).Keys, ops[i])
  }

  /** What the objects have done, seen through their views, is this run of the paging system. */
  ghost predicate Performed(v: Vm, vs: seq<Vm>, ops: seq<Op>) {
    && IsRun(vs, ops) && vs[0].spaces == map[] && vs[|ops|] == v
    && VmInv(v) && Images(v) == Replay(map[], ops)
  }

  /** Boots a machine and performs any legal sequence of operations: each program ends up with its image. */
  method Run(ops: seq<Op>) returns (sys: System, ghost vs: seq<Vm>)
    requires LegalOps(ops)
    ensures fresh(sys) && sys.Valid() && Performed(sys.View(), vs, ops)
    ensures |ClearSet(sys.View().bits)| + Pages(Replay(map[], ops)) == NumPhysPages
  {
    sys := new System();
    vs := [sys.View()];
    assert Images(sys.View()) == map[];
    assert Performed(sys.View(), vs, ops[..0]);
    hide Performed, System.Valid, System.View, LegalOps;
    for i := 0 to |ops|
      invariant fresh(sys) && fresh(sys.machine) && fresh(sys.machine.mainMemory) && fresh(sys.mm.bitmap.words)
      invariant sys.Valid() && fresh(sys.Tables()) && Performed(sys.View(), vs, ops[..i])
    {
      ghost var v := sys.View();
      MayPerform(v, vs, ops, i);
      sys.Perform(ops[i]);
      PerformedMore(v, vs, ops, i, sys.View());
      vs := vs + [sys.View()];
    }
    assert ops[..|ops|] == ops;
    Conserved(sys.View(), vs, ops);
  }

  lemma MayPerform(v: Vm, vs: seq<Vm>, ops: seq<Op>, i: nat)
    requires LegalOps(ops) && i < |ops| && Performed(v, vs, ops[..i])
    ensures VmInv(v) && Paging.Allowed(v, ops[i])
  {
    ImageKeys(v);
  }

  lemma PerformedMore(v: Vm, vs: seq<Vm>, ops: seq<Op>, i: nat, v': Vm)
    requires i < |ops| && Performed(v, vs, ops[..i]) && VmInv(v) && Paging.Allowed(v, ops[i]) && Step(v, ops[i], v')
    ensures Performed(v', vs + [v'], ops[..i + 1])
  {
    StepRefines(v, ops[i], v');
    RunExtends(vs, ops, i, v');
    hide VmInv, Step, IsRun, Images, Next;
  }

  lemma Conserved(v: Vm, vs: seq<Vm>, ops: seq<Op>)
    requires Performed(v, vs, ops)
    ensures |ClearSet(v.bits)| + Pages(Replay(map[], ops)) == NumPhysPages
  {
    FramesConserved(v);
  }

  lemma ImageKeys(v: Vm)
    requires VmInv(v)
    ensures Images(v).Keys == v.spaces.Keys
  {
  }

  lemma RunExtends(vs: seq<Vm>, ops: seq<Op>, i: nat, v: Vm)
    requires i < |ops| && IsRun(vs, ops[..i]) && Leads(vs[i], ops[i], v)
    ensures IsRun(vs + [v], ops[..i + 1])
    ensures ops[..i + 1][..i] == ops[..i]
  {
    hide Leads;
  }
}
