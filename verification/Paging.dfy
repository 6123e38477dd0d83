/**
 Runs of the paging system: any sequence of loads, forks, exits, loads from and
 stores to memory.  The simple model is a map from address spaces to flat byte
 sequences; frames, page tables and the allocator refine it.
 */
module Paging {
  import opened Words
  import opened BitMaps
  import opened Sequences
  import opened Translation
  import opened AddrSpaces

  datatype Vm = Vm(mem: seq<byte>, bits: seq<bool>, spaces: map<nat, Table>)

  datatype Op =
    | Load(id: nat, file: seq<byte>, residue: seq<byte>)
    | Fork(parent: nat, child: nat)
    | Destroy(id: nat)
    | Store(id: nat, va: int32, size: int, value: int32)
    | Fetch(id: nat, va: int32, size: int)

  // ---- frames ----

  ghost predicate Disjoint(a: Table, b: Table) {
    forall f :: f in Frames(a) ==> f !in Frames(b)
  }

  /** Live spaces own disjoint frames, and a frame is marked exactly when some space owns it. */
  ghost predicate VmInv(v: Vm) {
    && |v.mem| == MemorySize && |v.bits| == NumPhysPages
    && (forall id :: id in v.spaces ==> Owned(v.bits, v.spaces[id]))
    && (forall i, j :: i in v.spaces && j in v.spaces && i != j ==> Disjoint(v.spaces[i], v.spaces[j]))
    && (forall f :: 0 <= f < NumPhysPages && v.bits[f] ==> exists id :: id in v.spaces && f in Frames(v.spaces[id]))
  }

  /** What each program sees. */
  ghost function Images(v: Vm): map<nat, seq<byte>>
    requires VmInv(v)
  {
    map id | id in v.spaces :: Image(v.mem, v.spaces[id])
  }

  // ---- steps, as the methods' contracts describe them ----

  ghost predicate Loadable(v: Vm, file: seq<byte>, residue: seq<byte>)
    requires |residue| == NoffSize
  {
    var h := HeaderOf(file, residue);
    h.magic == NoffMagic && PagesFor(h) <= |ClearSet(v.bits)|
  }

  /** What the source leaves to the callers, given the processes there are. */
  predicate AllowedIn(ids: set<nat>, op: Op) {
    match op
    case Load(id, file, residue) =>
      && id !in ids && |residue| == NoffSize
      && (HeaderOf(file, residue).magic == NoffMagic ==> SegmentsFit(HeaderOf(file, residue)))
    case Fork(parent, child) => parent in ids && child !in ids
    case Destroy(id) => id in ids
    case Store(id, _, size, _) => id in ids && Width(size)
    case Fetch(id, _, size) => id in ids && Width(size)
  }

  predicate Allowed(v: Vm, op: Op) {
    AllowedIn(v.spaces.Keys, op)
  }

  ghost predicate Step(v: Vm, op: Op, v': Vm)
    requires VmInv(v) && Allowed(v, op)
  {
    match op
    case Load(id, file, residue) =>
      if Loadable(v, file, residue) then
        && id in v'.spaces && v'.spaces == v.spaces[id := v'.spaces[id]]
        && Loads(v.bits, v.mem, HeaderOf(file, residue), file, v'.spaces[id], v'.bits, v'.mem)
      else v' == v
    case Fork(parent, child) =>
      if |v.spaces[parent]| <= |ClearSet(v.bits)| then
        && child in v'.spaces && v'.spaces == v.spaces[child := v'.spaces[child]]
        && Copies(v.bits, v.mem, v.spaces[parent], v'.spaces[child], v'.bits, v'.mem)
      else v' == v
    case Destroy(id) =>
      v'.mem == v.mem && v'.spaces == v.spaces - {id} && Releases(v.bits, Frames(v.spaces[id]), v'.bits)
    case Store(id, va, size, value) =>
      var r := Walk(v.spaces[id], va, size, true);
      if r.Ok? then
        && 0 <= r.physAddr && r.physAddr + size <= |v.mem|
        && v' == v.(mem := Patch(v.mem, r.physAddr, LowBytes(value, size)), spaces := Touch(v.spaces, id, va, true))
      else v' == v
    case Fetch(id, va, size) =>
      v' == if Walk(v.spaces[id], va, size, false).Ok? then v.(spaces := Touch(v.spaces, id, va, false)) else v
  }

  /** The use and dirty bits that a successful access sets. */
  function Touch(spaces: map<nat, Table>, id: nat, va: int32, writing: bool): map<nat, Table>
    requires id in spaces && Vpn(va) < |spaces[id]|
  {
    spaces[id := spaces[id][Vpn(va) := Touched(spaces[id][Vpn(va)], writing)]]
  }

  // ---- the simple model ----

  /** The pages of all the images together. */
  ghost function Pages(m: map<nat, seq<byte>>): int
    decreases |m|
  {
    if m == map[] then 0
    else
      var id :| id in m;
      |m[id]| / PageSize + Pages(m - {id})
  }

  /** An image after a store to it, if the store is aligned and inside. */
  function StoreTo(image: seq<byte>, op: Op): (r: seq<byte>)
    requires op.Store?
    ensures |r| == |image|
  {
    if Width(op.size) && !Misaligned(op.va, op.size) && ToWord(op.va) + op.size <= |image|
    then Patch(image, ToWord(op.va), LowBytes(op.value, op.size))
    else image
  }

  ghost function Next(m: map<nat, seq<byte>>, op: Op): map<nat, seq<byte>> {
    match op
    case Load(id, file, residue) =>
      if |residue| == NoffSize && HeaderOf(file, residue).magic == NoffMagic
         && PagesFor(HeaderOf(file, residue)) <= NumPhysPages - Pages(m)
      then m[id := Flat(HeaderOf(file, residue), file)]
      else m
    case Fork(parent, child) =>
      if parent in m && |m[parent]| / PageSize <= NumPhysPages - Pages(m) then m[child := m[parent]] else m
    case Destroy(id) => m - {id}
    case Store(id, _, _, _) => if id in m then m[id := StoreTo(m[id], op)] else m
    case Fetch(_, _, _) => m
  }

  // ---- conservation of frames ----

  ghost function FrameSet(table: Table): set<nat> {
    set f: nat | f in Frames(table)
  }

  ghost predicate DistinctFrames(s: seq<int>) {
    Distinct(s) && forall i :: 0 <= i < |s| ==> s[i] >= 0
  }

  lemma {:induction false} DistinctSize(s: seq<int>)
    requires DistinctFrames(s)
    ensures |(set f: nat | f in s)| == |s|
  {
    if s != [] {
      var t, x := s[..|s| - 1], s[|s| - 1];
      DistinctSize(t);
      assert s == t + [x] && x !in t;
      hide DistinctFrames;
      assert (set f: nat | f in s) == (set f: nat | f in t) + {x};
    }
  }

  ghost function UsedBy(spaces: map<nat, Table>): set<nat> {
    set id, f: nat | id in spaces && f in Frames(spaces[id]) :: f
  }

  ghost predicate Countable(spaces: map<nat, Table>, m: map<nat, seq<byte>>) {
    && m.Keys == spaces.Keys
    && (forall id :: id in spaces ==> DistinctFrames(Frames(spaces[id])) && |m[id]| == |spaces[id]| * PageSize)
    && (forall i, j :: i in spaces && j in spaces && i != j ==> Disjoint(spaces[i], spaces[j]))
  }

  lemma OneSpaceLess(spaces: map<nat, Table>, id: nat)
    requires id in spaces && DistinctFrames(Frames(spaces[id]))
    requires forall j :: j in spaces && id != j ==> Disjoint(spaces[id], spaces[j])
    ensures |UsedBy(spaces)| == |UsedBy(spaces - {id})| + |spaces[id]|
  {
    var rest := spaces - {id};
    DistinctSize(Frames(spaces[id]));
    hide DistinctFrames, Frames, UsedBy, Disjoint;
    forall f: nat ensures f in UsedBy(spaces) <==> f in UsedBy(rest) || f in FrameSet(spaces[id]) {
      UsedSplit(spaces, id, f);
    }
    forall f: nat | f in UsedBy(rest) ensures f !in FrameSet(spaces[id]) {
      UsedApart(spaces, id, f);
    }
    assert UsedBy(spaces) == UsedBy(rest) + FrameSet(spaces[id]);
  }

  lemma UsedSplit(spaces: map<nat, Table>, id: nat, f: nat)
    requires id in spaces
    ensures f in UsedBy(spaces) <==> f in UsedBy(spaces - {id}) || f in FrameSet(spaces[id])
  {
    hide Frames;
    var rest := spaces - {id};
    if j :| j in spaces && f in Frames(spaces[j]) {
      assert j != id ==> j in rest && f in Frames(rest[j]);
    }
  }

  lemma UsedApart(spaces: map<nat, Table>, id: nat, f: nat)
    requires id in spaces && f in UsedBy(spaces - {id})
    requires forall j :: j in spaces && id != j ==> Disjoint(spaces[id], spaces[j])
    ensures f !in FrameSet(spaces[id])
  {
    hide Frames;
    var j :| j in spaces - {id} && f in Frames(spaces[j]);
    assert Disjoint(spaces[id], spaces[j]);
  }

  lemma {:induction false} PagesCount(spaces: map<nat, Table>, m: map<nat, seq<byte>>)
    requires Countable(spaces, m)
    ensures |UsedBy(spaces)| == Pages(m)
    decreases |m|
  {
    if m == map[] {
      assert UsedBy(spaces) == {};
    } else {
      var id :| id in m && Pages(m) == |m[id]| / PageSize + Pages(m - {id});
      PagesCount(spaces - {id}, m - {id});
      OneSpaceLess(spaces, id);
    }
  }

  /** Free frames plus the pages of all live spaces is always the whole memory. */
  lemma FramesConserved(v: Vm)
    requires VmInv(v)
    ensures |ClearSet(v.bits)| + Pages(Images(v)) == NumPhysPages
  {
    PagesCount(v.spaces, Images(v));
    MarkedPlusClear(v.bits);
    assert MarkedSet(v.bits) == UsedBy(v.spaces);
  }

  // ---- new and released frames ----

  /** A space with newly claimed frames joins the others and leaves their images alone. */
  lemma AddSpace(v: Vm, v': Vm, id: nat)
    requires VmInv(v) && id !in v.spaces && id in v'.spaces && v'.spaces == v.spaces[id := v'.spaces[id]]
    requires |v'.mem| == MemorySize && Sound(v'.spaces[id]) && Claims(v.bits, v'.spaces[id], v'.bits)
    requires OnlyFrames(v.mem, v'.mem, Frames(v'.spaces[id]))
    ensures VmInv(v') && Images(v') == Images(v)[id := Image(v'.mem, v'.spaces[id])]
  {
    var table := v'.spaces[id];
    forall j | j in v.spaces
      ensures Disjoint(v.spaces[j], table) && Disjoint(table, v.spaces[j]) && Owned(v'.bits, v.spaces[j])
      ensures Image(v'.mem, v.spaces[j]) == Image(v.mem, v.spaces[j])
    {
      assert Owned(v.bits, v.spaces[j]);
      hide VmInv, Owned, Image;
      OldSpace(v.bits, v.mem, v.spaces[j], table, v'.bits, v'.mem);
    }
    assert Owned(v'.bits, table);
    forall f | 0 <= f < NumPhysPages && v'.bits[f] ensures exists k :: k in v'.spaces && f in Frames(v'.spaces[k]) {
      MarkedOwner(v, v', id, f);
    }
  }

  /** A space that owned its frames before is not touched by the taking and filling of others. */
  lemma OldSpace(bits: seq<bool>, mem: seq<byte>, mine: Table, table: Table, bits': seq<bool>, mem': seq<byte>)
    requires Owned(bits, mine) && Claims(bits, table, bits') && |mem| == |mem'| == MemorySize
    requires OnlyFrames(mem, mem', Frames(table))
    ensures Disjoint(mine, table) && Disjoint(table, mine) && Owned(bits', mine)
    ensures Image(mem', mine) == Image(mem, mine)
  {
    assert Disjoint(mine, table);
    ImageFrame(mem, mem', mine);
  }

  lemma MarkedOwner(v: Vm, v': Vm, id: nat, f: int)
    requires VmInv(v) && id !in v.spaces && id in v'.spaces && v'.spaces == v.spaces[id := v'.spaces[id]]
    requires Claims(v.bits, v'.spaces[id], v'.bits) && 0 <= f < NumPhysPages && v'.bits[f]
    ensures exists k :: k in v'.spaces && f in Frames(v'.spaces[k])
  {
    if v.bits[f] {
      var k :| k in v.spaces && f in Frames(v.spaces[k]);
      assert k in v'.spaces && f in Frames(v'.spaces[k]);
    } else {
      assert f in Frames(v'.spaces[id]);
    }
  }

  lemma DropSpace(v: Vm, v': Vm, id: nat)
    requires VmInv(v) && id in v.spaces && Step(v, Destroy(id), v')
    ensures VmInv(v') && Images(v') == Images(v) - {id}
  {
    var table := v.spaces[id];
    forall j | j in v'.spaces ensures Owned(v'.bits, v.spaces[j]) {
      assert Disjoint(v.spaces[j], table);
    }
    forall f | 0 <= f < NumPhysPages && v'.bits[f] ensures exists k :: k in v'.spaces && f in Frames(v'.spaces[k]) {
      var k :| k in v.spaces && f in Frames(v.spaces[k]);
      assert k in v'.spaces && f in Frames(v'.spaces[k]);
    }
  }

  // ---- accesses ----

  /** An access succeeds exactly when it is aligned and inside the image, and then goes where the image says. */
  lemma WalkInImage(table: Table, va: int32, size: int, writing: bool)
    requires Sound(table) && Width(size)
    ensures Walk(table, va, size, writing).Ok? <==> !Misaligned(va, size) && ToWord(va) + size <= |table| * PageSize
    ensures Walk(table, va, size, writing).Ok? ==>
              Walk(table, va, size, writing).physAddr == Phys(table, ToWord(va)) && Offset(va) + size <= PageSize
  {
    if !Misaligned(va, size) {
      OffsetAligned(ToWord(va), size);
      if Vpn(va) < |table| {
        AccessInOneFrame(table[Vpn(va)], va, size, writing);
      }
    }
  }

  /** A store inside one page patches the image at the virtual address. */
  lemma StoreInImage(mem: seq<byte>, table: Table, at: nat, bs: seq<byte>)
    requires |mem| == MemorySize && Sound(table)
    requires at + |bs| <= |table| * PageSize && |bs| > 0 && at % PageSize + |bs| <= PageSize
    ensures 0 <= Phys(table, at) && Phys(table, at) + |bs| <= MemorySize
    ensures Image(Patch(mem, Phys(table, at), bs), table) == Patch(Image(mem, table), at, bs)
  {
    PhysBounds(table, at);
    var pa := Phys(table, at);
    var mem' := Patch(mem, pa, bs);
    forall k | 0 <= k < |table| * PageSize ensures Image(mem', table)[k] == Patch(Image(mem, table), at, bs)[k] {
      PhysBounds(table, k);
      PatchedByte(table, at, |bs|, k);
    }
  }

  /** Exactly the bytes of the access lie in the patched part of memory. */
  lemma PatchedByte(table: Table, at: nat, n: nat, k: nat)
    requires Sound(table) && at + n <= |table| * PageSize && n > 0 && at % PageSize + n <= PageSize
             && k < |table| * PageSize
    ensures at <= k < at + n <==> Phys(table, at) <= Phys(table, k) < Phys(table, at) + n
    ensures at <= k < at + n ==> Phys(table, k) - Phys(table, at) == k - at
  {
    var i, j := at / PageSize, k / PageSize;
    PhysBounds(table, at);
    PhysBounds(table, k);
    if i == j {
      assert Phys(table, k) - Phys(table, at) == k - at;
    } else {
      assert Frames(table)[i] != Frames(table)[j];
    }
  }

  /** Use and dirty bits are not part of what a program sees. */
  lemma TouchedImage(mem: seq<byte>, table: Table, i: nat, writing: bool)
    requires |mem| == MemorySize && Sound(table) && i < |table|
    ensures var table' := table[i := Touched(table[i], writing)];
            Frames(table') == Frames(table) && Sound(table') && Image(mem, table') == Image(mem, table)
  {
    var table' := table[i := Touched(table[i], writing)];
    assert Frames(table') == Frames(table);
    forall k | 0 <= k < |table| * PageSize ensures Image(mem, table')[k] == Image(mem, table)[k] {
      PhysBounds(table, k);
      PhysBounds(table', k);
    }
  }

  lemma TouchSpaces(v: Vm, id: nat, va: int32, writing: bool)
    requires VmInv(v) && id in v.spaces && Vpn(va) < |v.spaces[id]|
    ensures var v' := v.(spaces := Touch(v.spaces, id, va, writing)); VmInv(v') && Images(v') == Images(v)
  {
    var v' := v.(spaces := Touch(v.spaces, id, va, writing));
    TouchedImage(v.mem, v.spaces[id], Vpn(va), writing);
    forall j | j in v.spaces
      ensures Frames(v'.spaces[j]) == Frames(v.spaces[j]) && Owned(v'.bits, v'.spaces[j])
      ensures Image(v'.mem, v'.spaces[j]) == Image(v.mem, v.spaces[j])
    {
      assert Owned(v.bits, v.spaces[j]);
    }
    forall f | 0 <= f < NumPhysPages && v'.bits[f] ensures exists k :: k in v'.spaces && f in Frames(v'.spaces[k]) {
      var k :| k in v.spaces && f in Frames(v.spaces[k]);
      assert k in v'.spaces && f in Frames(v'.spaces[k]);
    }
  }

  /** A store through one page table changes no byte of any other image. */
  lemma StoreIsolated(v: Vm, id: nat, at: nat, bs: seq<byte>)
    requires VmInv(v) && id in v.spaces
    requires at + |bs| <= |v.spaces[id]| * PageSize && |bs| > 0 && at % PageSize + |bs| <= PageSize
    ensures 0 <= Phys(v.spaces[id], at) && Phys(v.spaces[id], at) + |bs| <= MemorySize
    ensures var v' := v.(mem := Patch(v.mem, Phys(v.spaces[id], at), bs));
            VmInv(v') && Images(v') == Images(v)[id := Patch(Images(v)[id], at, bs)]
  {
    var table := v.spaces[id];
    StoreInImage(v.mem, table, at, bs);
    PhysBounds(table, at);
    var v' := v.(mem := Patch(v.mem, Phys(table, at), bs));
    forall j | j in v.spaces && j != id ensures Image(v'.mem, v.spaces[j]) == Image(v.mem, v.spaces[j]) {
      assert Disjoint(v.spaces[j], table) && Frames(table)[at / PageSize] in Frames(table);
      ImageFrame(v.mem, v'.mem, v.spaces[j]);
    }
  }

  lemma StoreStep(v: Vm, op: Op, v': Vm)
    requires VmInv(v) && op.Store? && Allowed(v, op) && Step(v, op, v')
    ensures VmInv(v') && Images(v') == Next(Images(v), op)
  {
    var table, w := v.spaces[op.id], ToWord(op.va);
    WalkInImage(table, op.va, op.size, true);
    assert Images(v)[op.id := Images(v)[op.id]] == Images(v);
    if Walk(table, op.va, op.size, true).Ok? {
      var bs := LowBytes(op.value, op.size);
      StoreIsolated(v, op.id, w, bs);
      TouchSpaces(v.(mem := Patch(v.mem, Phys(table, w), bs)), op.id, op.va, true);
    }
  }

  /** A fetch returns the bytes of the image at the virtual address. */
  lemma FetchedBytes(v: Vm, id: nat, va: int32, size: int)
    requires VmInv(v) && id in v.spaces && Width(size) && Walk(v.spaces[id], va, size, false).Ok?
    ensures var pa := Walk(v.spaces[id], va, size, false).physAddr;
            && 0 <= pa && pa + size <= MemorySize && ToWord(va) + size <= |Images(v)[id]|
            && v.mem[pa..pa + size] == Images(v)[id][ToWord(va)..ToWord(va) + size]
  {
    WalkInImage(v.spaces[id], va, size, false);
    SliceInImage(v.mem, v.spaces[id], ToWord(va), size);
  }

  lemma SliceInImage(mem: seq<byte>, table: Table, at: nat, n: nat)
    requires |mem| == MemorySize && Sound(table)
    requires at + n <= |table| * PageSize && n > 0 && at % PageSize + n <= PageSize
    ensures 0 <= Phys(table, at) && Phys(table, at) + n <= MemorySize
    ensures mem[Phys(table, at)..Phys(table, at) + n] == Image(mem, table)[at..at + n]
  {
    PhysBounds(table, at);
    var x, y := mem[Phys(table, at)..Phys(table, at) + n], Image(mem, table)[at..at + n];
    forall k | 0 <= k < n ensures x[k] == y[k] {
      PatchedByte(table, at, n, at + k);
    }
  }

  lemma LoadStep(v: Vm, op: Op, v': Vm)
    requires VmInv(v) && op.Load? && Allowed(v, op) && Step(v, op, v')
    ensures VmInv(v') && Images(v') == Next(Images(v), op)
  {
    FramesConserved(v);
    hide VmInv, Images;
    if Loadable(v, op.file, op.residue) {
      AddSpace(v, v', op.id);
    }
  }

  lemma ForkStep(v: Vm, op: Op, v': Vm)
    requires VmInv(v) && op.Fork? && Allowed(v, op) && Step(v, op, v')
    ensures VmInv(v') && Images(v') == Next(Images(v), op)
  {
    FramesConserved(v);
    assert op.parent in Images(v) && |Images(v)[op.parent]| / PageSize == |v.spaces[op.parent]|;
    assert Images(v)[op.parent] == Image(v.mem, v.spaces[op.parent]);
    hide VmInv, Images, Image;
    if |v.spaces[op.parent]| <= |ClearSet(v.bits)| {
      AddSpace(v, v', op.child);
    }
  }

  /** Every operation refines the simple model and keeps the frames in order. */
  lemma StepRefines(v: Vm, op: Op, v': Vm)
    requires VmInv(v) && Allowed(v, op) && Step(v, op, v')
    ensures VmInv(v') && Images(v') == Next(Images(v), op)
  {
    match op
    case Load(_, _, _) => LoadStep(v, op, v');
    case Fork(_, _) => ForkStep(v, op, v');
    case Destroy(id) => DropSpace(v, v', id);
    case Store(_, _, _, _) => StoreStep(v, op, v');
    case Fetch(id, va, size) => if Walk(v.spaces[id], va, size, false).Ok? { TouchSpaces(v, id, va, false); }
  }

  // ---- runs ----

  /** From a state in order, the operation is one its caller may ask for, and `v'` is what it leads to. */
  ghost predicate Leads(v: Vm, op: Op, v': Vm) {
    VmInv(v) ==> Allowed(v, op) && Step(v, op, v')
  }

  ghost predicate IsRun(vs: seq<Vm>, ops: seq<Op>) {
    |vs| == |ops| + 1 && forall i :: 0 <= i < |ops| ==> Leads(vs[i], ops[i], vs[i + 1])
  }

  ghost function Replay(m: map<nat, seq<byte>>, ops: seq<Op>): map<nat, seq<byte>> {
    if ops == [] then m else Next(Replay(m, ops[..|ops| - 1]), ops[|ops| - 1])
  }

  /** After any run, each program sees what the simple model says, and no frame is lost or shared. */
  lemma {:induction false} RunRefines(vs: seq<Vm>, ops: seq<Op>)
    requires IsRun(vs, ops) && VmInv(vs[0])
    ensures VmInv(vs[|ops|]) && Images(vs[|ops|]) == Replay(Images(vs[0]), ops)
    ensures |ClearSet(vs[|ops|].bits)| + Pages(Replay(Images(vs[0]), ops)) == NumPhysPages
    decreases |ops|
  {
    if ops != [] {
      var n := |ops| - 1;
      assert Leads(vs[n], ops[n], vs[n + 1]);
      hide Leads, Step;
      forall i | 0 <= i < n ensures Leads(vs[..n + 1][i], ops[..n][i], vs[..n + 1][i + 1]) {
        assert Leads(vs[i], ops[i], vs[i + 1]);
      }
      RunRefines(vs[..n + 1], ops[..n]);
      StepRefines(vs[n], ops[n], vs[n + 1]);
    }
    FramesConserved(vs[|ops|]);
  }

  // ---- isolation over runs ----

  /** The operation gives `id` a new image, ends it, or stores to it. */
  predicate Touches(op: Op, id: nat) {
    match op
    case Load(i, _, _) => i == id
    case Fork(_, child) => child == id
    case Destroy(i) => i == id
    case Store(i, _, _, _) => i == id
    case Fetch(_, _, _) => false
  }

  /** An image after the stores to it, and to it alone, in a sequence of operations. */
  function OwnStores(image: seq<byte>, ops: seq<Op>, id: nat): (r: seq<byte>)
    ensures |r| == |image|
  {
    if ops == [] then image
    else
      var before, op := OwnStores(image, ops[..|ops| - 1], id), ops[|ops| - 1];
      if op.Store? && op.id == id then StoreTo(before, op) else before
  }

  /** Over any run in which a process is not replaced or ended, it sees its own stores and nothing else. */
  lemma {:induction false} ReplayIsolated(m: map<nat, seq<byte>>, ops: seq<Op>, id: nat)
    requires id in m && forall i :: 0 <= i < |ops| && Touches(ops[i], id) ==> ops[i].Store?
    ensures id in Replay(m, ops) && Replay(m, ops)[id] == OwnStores(m[id], ops, id)
  {
    if ops != [] {
      ReplayIsolated(m, ops[..|ops| - 1], id);
      assert !Touches(ops[|ops| - 1], id) || ops[|ops| - 1].Store?;
    }
  }

  lemma {:induction false} NoOwnStores(image: seq<byte>, ops: seq<Op>, id: nat)
    requires forall i :: 0 <= i < |ops| ==> !Touches(ops[i], id)
    ensures OwnStores(image, ops, id) == image
  {
    if ops != [] {
      NoOwnStores(image, ops[..|ops| - 1], id);
      assert !Touches(ops[|ops| - 1], id);
    }
  }

  /**
   After a fork, whatever operations follow, in whatever order, parent and child
   each see the image of the fork with their own stores; one that is not stored
   to sees it unchanged.
   */
  lemma ForkThenRun(vs: seq<Vm>, parent: nat, child: nat, ops: seq<Op>, id: nat)
    requires IsRun(vs, [Fork(parent, child)] + ops) && VmInv(vs[0]) && (id == parent || id == child)
    requires parent in vs[0].spaces && |vs[0].spaces[parent]| <= |ClearSet(vs[0].bits)|
    requires forall i :: 0 <= i < |ops| && Touches(ops[i], id) ==> ops[i].Store?
    ensures var v, v' := vs[0], vs[|ops| + 1];
            && VmInv(v') && id in v'.spaces && Images(v')[id] == OwnStores(Images(v)[parent], ops, id)
            && ((forall i :: 0 <= i < |ops| ==> !Touches(ops[i], id)) ==> Images(v')[id] == Images(v)[parent])
  {
    var fork := Fork(parent, child);
    var all := [fork] + ops;
    assert all[0] == fork && Leads(vs[0], fork, vs[1]);
    StepRefines(vs[0], fork, vs[1]);
    FramesConserved(vs[0]);
    assert Images(vs[1])[id] == Images(vs[0])[parent];
    hide Step, Leads;
    forall i | 0 <= i < |ops| ensures Leads(vs[1..][i], ops[i], vs[1..][i + 1]) {
      assert all[i + 1] == ops[i] && Leads(vs[i + 1], all[i + 1], vs[i + 2]);
    }
    RunRefines(vs[1..], ops);
    ReplayIsolated(Images(vs[1]), ops, id);
    if forall i :: 0 <= i < |ops| ==> !Touches(ops[i], id) {
      NoOwnStores(Images(vs[0])[parent], ops, id);
    }
  }
}
