/** The legacy driver's engine references and coherent buffers: every ioctl as one step over all open files. */
module LegacyEngine {
  import opened Words

  const MAX_ALLOC := 0x400_0000
  const PAGE := 4096

  /** A coherent allocation, named by its DMA address. */
  datatype Buffer = Buffer(handle: nat, size: nat, dma: nat)

  /** struct ve_info, one for each open file. */
  datatype Info = Info(engineRefs: nat, locked: bool, buffers: seq<Buffer>, nextHandle: u32)

  /** How memory was given back: after a failed copy to the client, by FREE_COHERENT of a file that held an engine
      reference or not, or on close. */
  datatype How = CopyFailed | ByIoctl(held: bool) | ByClose

  /** Memory given back, and whether the VE was in reset then. */
  datatype Freed = Freed(buffer: Buffer, how: How, inReset: bool)

  datatype Device = Device(
    refCount: int, clkStatus: bool, clocks: nat, inReset: bool,
    files: seq<Info>, global: seq<Buffer>, freed: seq<Freed>)

  // Lists.

  function Refs(files: seq<Info>): (n: nat) {
    if files == [] then 0 else Refs(files[..|files| - 1]) + files[|files| - 1].engineRefs
  }

  /** All buffers of all files. */
  ghost function Owned(files: seq<Info>): multiset<Buffer> {
    if files == [] then multiset{} else Owned(files[..|files| - 1]) + multiset(files[|files| - 1].buffers)
  }

  /** list_del() */
  function Without(list: seq<Buffer>, b: Buffer): seq<Buffer> {
    if list == [] then []
    else if list[0] == b then list[1..]
    else [list[0]] + Without(list[1..], b)
  }

  lemma {:induction false} WithoutIs(list: seq<Buffer>, b: Buffer)
    ensures multiset(Without(list, b)) == multiset(list) - multiset{b}
  {
    if list != [] {
      assert list == [list[0]] + list[1..];
      WithoutIs(list[1..], b);
    }
  }

  function WithoutAll(list: seq<Buffer>, bs: seq<Buffer>): seq<Buffer> {
    if bs == [] then list else Without(WithoutAll(list, bs[..|bs| - 1]), bs[|bs| - 1])
  }

  lemma {:induction false} WithoutAllIs(list: seq<Buffer>, bs: seq<Buffer>)
    ensures multiset(WithoutAll(list, bs)) == multiset(list) - multiset(bs)
  {
    if bs != [] {
      assert bs == bs[..|bs| - 1] + [bs[|bs| - 1]];
      WithoutAllIs(list, bs[..|bs| - 1]);
      WithoutIs(WithoutAll(list, bs[..|bs| - 1]), bs[|bs| - 1]);
    }
  }

  lemma {:induction false} UpdatedRefs(files: seq<Info>, i: nat, x: Info)
    requires i < |files|
    ensures Refs(files[i := x]) == Refs(files) - files[i].engineRefs + x.engineRefs
    ensures files[i].engineRefs <= Refs(files)
  {
    var n := |files| - 1;
    if i == n {
      assert files[i := x][..n] == files[..n];
    } else {
      assert files[i := x][..n] == files[..n][i := x];
      UpdatedRefs(files[..n], i, x);
    }
  }

  lemma {:induction false} UpdatedOwned(files: seq<Info>, i: nat, x: Info)
    requires i < |files|
    ensures multiset(files[i].buffers) <= Owned(files)
    ensures Owned(files[i := x]) == Owned(files) - multiset(files[i].buffers) + multiset(x.buffers)
  {
    var n := |files| - 1;
    if i == n {
      assert files[i := x][..n] == files[..n];
    } else {
      assert files[i := x][..n] == files[..n][i := x];
      UpdatedOwned(files[..n], i, x);
    }
  }

  function Removed(files: seq<Info>, i: nat): seq<Info>
    requires i < |files|
  {
    files[..i] + files[i + 1..]
  }

  lemma {:induction false} RemovedRefs(files: seq<Info>, i: nat)
    requires i < |files|
    ensures Refs(Removed(files, i)) == Refs(files) - files[i].engineRefs
  {
    var n := |files| - 1;
    if i == n {
      assert Removed(files, i) == files[..n];
    } else {
      assert Removed(files, i)[..n - 1] == Removed(files[..n], i);
      RemovedRefs(files[..n], i);
    }
  }

  lemma {:induction false} RemovedOwned(files: seq<Info>, i: nat)
    requires i < |files|
    ensures multiset(files[i].buffers) <= Owned(files)
    ensures Owned(Removed(files, i)) == Owned(files) - multiset(files[i].buffers)
  {
    hide Owned, Removed;
    var n := |files| - 1;
    OwnedFront(files);
    if i == n {
      RemovedLast(files);
      SubtractLast(Owned(files[..n]), multiset(files[n].buffers));
    } else {
      RemovedFront(files, i);
      RemovedOwned(files[..n], i);
      SubtractFirst(Owned(files[..n]), multiset(files[i].buffers), multiset(files[n].buffers));
    }
  }

  lemma OwnedFront(files: seq<Info>)
    requires files != []
    ensures Owned(files) == Owned(files[..|files| - 1]) + multiset(files[|files| - 1].buffers)
  {
  }

  lemma RemovedLast(files: seq<Info>)
    requires files != []
    ensures Removed(files, |files| - 1) == files[..|files| - 1]
  {
  }

  lemma SubtractLast(a: multiset<Buffer>, l: multiset<Buffer>)
    ensures l <= a + l && (a + l) - l == a
  {
  }

  lemma RemovedFront(files: seq<Info>, i: nat)
    requires i < |files| - 1
    ensures Removed(files, i) == Removed(files[..|files| - 1], i) + [files[|files| - 1]]
    ensures Owned(Removed(files, i)) == Owned(Removed(files[..|files| - 1], i)) + multiset(files[|files| - 1].buffers)
  {
    var front := Removed(files[..|files| - 1], i);
    assert Removed(files, i) == front + [files[|files| - 1]];
    assert (front + [files[|files| - 1]])[..|front|] == front;
  }

  lemma SubtractFirst(a: multiset<Buffer>, b: multiset<Buffer>, l: multiset<Buffer>)
    requires b <= a
    ensures b <= a + l && (a - b) + l == (a + l) - b
  {
  }

  // The steps.

  /** Which part of enabling the clocks fails. */
  datatype Fault = ResetFault | ClockFault

  datatype Memory = NoMemory | Memory(dma: nat, copyFails: bool)

  datatype Op =
    | Open
    | Lock(i: nat, on: bool)
    | EngineReq(i: nat, fault: Option<Fault>)
    | EngineRel(i: nat)
    | Alloc(i: nat, size: u32, memory: Memory)
    | Free(i: nat, handle: nat)
    | Release(i: nat)

  function Quiesced(d: Device): Device {
    d.(inReset := true)
  }

  /** enable_cedar_hw_clk: on failure everything switched on is switched off again. */
  function ClocksEnabled(d: Device, fault: Option<Fault>): (Device, bool) {
    if d.clkStatus then (d, true)
    else match fault
      case None => (d.(inReset := false, clocks := d.clocks + 3, clkStatus := true), true)
      case Some(ResetFault) => (d, false)
      case Some(ClockFault) => (d.(inReset := true), false)
  }

  function ClocksDisabled(d: Device): Device {
    if !d.clkStatus then d else Quiesced(d).(clkStatus := false, clocks := if d.clocks >= 3 then d.clocks - 3 else 0)
  }

  function Find(list: seq<Buffer>, handle: nat): Option<Buffer> {
    if list == [] then None
    else if list[0].handle == handle then Some(list[0])
    else Find(list[1..], handle)
  }

  lemma {:induction false} FindIs(list: seq<Buffer>, handle: nat)
    ensures Find(list, handle).Some? ==> Find(list, handle).value in list && Find(list, handle).value.handle == handle
    ensures Find(list, handle).None? ==> forall b | b in list :: b.handle != handle
  {
    if list != [] {
      FindIs(list[1..], handle);
    }
  }

  function AllocStep(d: Device, i: nat, size: u32, memory: Memory): (Device, bool)
    requires i < |d.files|
  {
    var info := d.files[i];
    if size == 0 || size > MAX_ALLOC || memory.NoMemory? || memory.dma >= TWO_32 then (d, false)
    else
      var next := info.(nextHandle := Wrap32(info.nextHandle as int + 1));
      var b := Buffer(info.nextHandle, Align(size, PAGE), memory.dma);
      if b.handle == 0 then (d.(files := d.files[i := next]), false)
      else if memory.copyFails then
        (d.(files := d.files[i := next], freed := d.freed + [Freed(b, CopyFailed, d.inReset)]), false)
      else (d.(files := d.files[i := next.(buffers := next.buffers + [b])], global := d.global + [b]), true)
  }

  function FreeStep(d: Device, i: nat, handle: nat): (Device, bool)
    requires i < |d.files|
  {
    var info := d.files[i];
    match Find(info.buffers, handle)
    case None => (d, false)
    case Some(b) =>
      var q := if info.engineRefs > 0 then Quiesced(d) else d;
      var f := q.(files := q.files[i := info.(buffers := Without(info.buffers, b))], global := Without(q.global, b),
                  freed := q.freed + [Freed(b, ByIoctl(info.engineRefs > 0), q.inReset)]);
      (if info.engineRefs > 0 then f.(inReset := false) else f, true)
  }

  function FreedAll(bs: seq<Buffer>, inReset: bool): seq<Freed> {
    seq(|bs|, k requires 0 <= k < |bs| => Freed(bs[k], ByClose, inReset))
  }

  /** cedardev_release: reset, free, then drop the references that the client leaked. */
  function ReleaseStep(d: Device, i: nat): Device
    requires i < |d.files|
  {
    var info := d.files[i];
    var q := if info.engineRefs > 0 || info.locked || info.buffers != [] then Quiesced(d) else d;
    var f := q.(global := WithoutAll(q.global, info.buffers),
                freed := q.freed + FreedAll(info.buffers, q.inReset));
    var r :=
      if info.engineRefs == 0 then f
      else
        var left := if info.engineRefs > f.refCount then 0 else f.refCount - info.engineRefs;
        var c := f.(refCount := left);
        if left == 0 then ClocksDisabled(c) else c.(inReset := false);
    r.(files := Removed(r.files, i))
  }

  function EngineReqStep(d: Device, i: nat, fault: Option<Fault>): (Device, bool)
    requires i < |d.files|
  {
    if d.refCount < 0 then (d, false)
    else
      var c := d.(refCount := d.refCount + 1);
      var (e, ok) := if c.refCount == 1 then ClocksEnabled(c, fault) else (c, true);
      if !ok then (e.(refCount := e.refCount - 1), false)
      else (e.(files := e.files[i := e.files[i].(engineRefs := e.files[i].engineRefs + 1)]), true)
  }

  function EngineRelStep(d: Device, i: nat): (Device, bool)
    requires i < |d.files|
  {
    if d.files[i].engineRefs == 0 || d.refCount <= 0 then (d, false)
    else
      var info := d.files[i];
      var c := d.(files := d.files[i := info.(engineRefs := info.engineRefs - 1)], refCount := d.refCount - 1);
      (if c.refCount == 0 then ClocksDisabled(c) else c, true)
  }

  predicate Legal(d: Device, op: Op) {
    match op
    case Open => true
    case Alloc(i, _, memory) => i < |d.files| && (memory.Memory? ==> forall b | b in d.global :: b.dma != memory.dma)
    case _ => op.i < |d.files|
  }

  function Next(d: Device, op: Op): Device
    requires Legal(d, op)
  {
    match op
    case Open => d.(files := d.files + [Info(0, false, [], 1)])
    case Lock(i, on) => d.(files := d.files[i := d.files[i].(locked := on)])
    case EngineReq(i, fault) => EngineReqStep(d, i, fault).0
    case EngineRel(i) => EngineRelStep(d, i).0
    case Alloc(i, size, memory) => AllocStep(d, i, size, memory).0
    case Free(i, handle) => FreeStep(d, i, handle).0
    case Release(i) => ReleaseStep(d, i)
  }

  // What every step keeps.

  /** The count is the sum of the files' references, and the clocks run exactly while it is positive. */
  ghost predicate Counted(d: Device) {
    && d.refCount == Refs(d.files)
    && d.clkStatus == (d.refCount > 0) && d.clocks == (if d.refCount > 0 then 3 else 0)
  }

  /** No buffer is listed twice, and no two share memory. */
  ghost predicate Apart(m: multiset<Buffer>) {
    (forall b :: m[b] <= 1) && forall b, c | b in m && c in m && b != c :: b.dma != c.dma
  }

  /** The global list is the disjoint union of the files' lists, and no two buffers share memory. */
  ghost predicate Listed(d: Device) {
    multiset(d.global) == Owned(d.files) && Apart(multiset(d.global))
  }

  /** Memory of a closing file, or of one that holds an engine reference, only goes back while the VE is in reset. */
  predicate FreedSafely(freed: seq<Freed>) {
    forall k | 0 <= k < |freed| && freed[k].how in {ByIoctl(true), ByClose} :: freed[k].inReset
  }

  ghost predicate Inv(d: Device) {
    Counted(d) && Listed(d) && FreedSafely(d.freed)
  }

  lemma ReqCounted(d: Device, i: nat, fault: Option<Fault>)
    requires Counted(d) && i < |d.files|
    ensures Counted(EngineReqStep(d, i, fault).0)
  {
    hide Refs;
    UpdatedRefs(d.files, i, d.files[i].(engineRefs := d.files[i].engineRefs + 1));
  }

  lemma RelCounted(d: Device, i: nat)
    requires Counted(d) && i < |d.files|
    ensures Counted(EngineRelStep(d, i).0)
  {
    hide Refs;
    if d.files[i].engineRefs > 0 { UpdatedRefs(d.files, i, d.files[i].(engineRefs := d.files[i].engineRefs - 1)); }
  }

  lemma AllocCounted(d: Device, i: nat, size: u32, memory: Memory)
    requires Counted(d) && i < |d.files|
    ensures Counted(AllocStep(d, i, size, memory).0)
  {
    hide Refs, Wrap32, Align;
    var info := d.files[i];
    var next := info.(nextHandle := Wrap32(info.nextHandle as int + 1));
    UpdatedRefs(d.files, i, next);
    if memory.Memory? {
      var b := Buffer(info.nextHandle, Align(size, PAGE), memory.dma);
      UpdatedRefs(d.files, i, next.(buffers := next.buffers + [b]));
    }
  }

  lemma FreeCounted(d: Device, i: nat, handle: nat)
    requires Counted(d) && i < |d.files|
    ensures Counted(FreeStep(d, i, handle).0)
  {
    hide Refs, Without, Find;
    var b := Find(d.files[i].buffers, handle);
    if b.Some? { UpdatedRefs(d.files, i, d.files[i].(buffers := Without(d.files[i].buffers, b.value))); }
  }

  lemma ReleaseCounted(d: Device, i: nat)
    requires Counted(d) && i < |d.files|
    ensures Counted(ReleaseStep(d, i))
  {
    hide Refs, Owned, Removed, WithoutAll, FreedAll;
    RemovedRefs(d.files, i);
    UpdatedRefs(d.files, i, d.files[i]);
  }

  lemma CountedKept(d: Device, op: Op)
    requires Counted(d) && Legal(d, op)
    ensures Counted(Next(d, op))
  {
    hide EngineReqStep, EngineRelStep, AllocStep, FreeStep, ReleaseStep;
    match op
    case Open => assert (d.files + [Info(0, false, [], 1)])[..|d.files|] == d.files;
    case Lock(i, on) => UpdatedRefs(d.files, i, d.files[i].(locked := on));
    case EngineReq(i, fault) => ReqCounted(d, i, fault);
    case EngineRel(i) => RelCounted(d, i);
    case Alloc(i, size, memory) => AllocCounted(d, i, size, memory);
    case Free(i, handle) => FreeCounted(d, i, handle);
    case Release(i) => ReleaseCounted(d, i);
  }

  lemma ReqListed(d: Device, i: nat, fault: Option<Fault>)
    requires Listed(d) && i < |d.files|
    ensures Listed(EngineReqStep(d, i, fault).0)
  {
    hide Owned, Apart;
    SameBuffers(d.files, i, d.files[i].(engineRefs := d.files[i].engineRefs + 1));
  }

  lemma RelListed(d: Device, i: nat)
    requires Listed(d) && i < |d.files|
    ensures Listed(EngineRelStep(d, i).0)
  {
    hide Owned, Apart;
    if d.files[i].engineRefs > 0 { SameBuffers(d.files, i, d.files[i].(engineRefs := d.files[i].engineRefs - 1)); }
  }

  lemma ReleaseListed(d: Device, i: nat)
    requires Listed(d) && i < |d.files|
    ensures Listed(ReleaseStep(d, i))
  {
    hide Owned, Refs, Removed, WithoutAll, FreedAll, Apart;
    RemovedOwned(d.files, i);
    WithoutAllIs(d.global, d.files[i].buffers);
    ApartFewer(multiset(d.global), multiset(d.files[i].buffers));
  }

  lemma ListedKept(d: Device, op: Op)
    requires Listed(d) && Legal(d, op)
    ensures Listed(Next(d, op))
  {
    hide EngineReqStep, EngineRelStep, AllocStep, FreeStep, ReleaseStep, Owned, Apart;
    match op
    case Open => OwnedOpen(d.files);
    case Lock(i, on) => SameBuffers(d.files, i, d.files[i].(locked := on));
    case EngineReq(i, fault) => ReqListed(d, i, fault);
    case EngineRel(i) => RelListed(d, i);
    case Alloc(i, size, memory) => AllocListed(d, i, size, memory);
    case Free(i, handle) => FreeListed(d, i, handle);
    case Release(i) => ReleaseListed(d, i);
  }

  lemma OwnedOpen(files: seq<Info>)
    ensures Owned(files + [Info(0, false, [], 1)]) == Owned(files)
  {
    assert (files + [Info(0, false, [], 1)])[..|files|] == files;
  }

  lemma AllocListed(d: Device, i: nat, size: u32, memory: Memory)
    requires Listed(d) && Legal(d, Alloc(i, size, memory))
    ensures Listed(AllocStep(d, i, size, memory).0)
  {
    hide Owned, Wrap32, Align, Apart;
    var info := d.files[i];
    var next := info.(nextHandle := Wrap32(info.nextHandle as int + 1));
    SameBuffers(d.files, i, next);
    if memory.Memory? {
      var b := Buffer(info.nextHandle, Align(size, PAGE), memory.dma);
      MoreBuffers(d.files, i, next, b);
      assert multiset(d.global + [b]) == multiset(d.global) + multiset{b};
      ApartPlus(d.global, b);
    }
  }

  lemma SameBuffers(files: seq<Info>, i: nat, x: Info)
    requires i < |files| && x.buffers == files[i].buffers
    ensures Owned(files[i := x]) == Owned(files)
  {
    hide Owned;
    UpdatedOwned(files, i, x);
  }

  lemma MoreBuffers(files: seq<Info>, i: nat, x: Info, b: Buffer)
    requires i < |files| && x.buffers == files[i].buffers
    ensures Owned(files[i := x.(buffers := x.buffers + [b])]) == Owned(files) + multiset{b}
  {
    hide Owned;
    UpdatedOwned(files, i, x.(buffers := x.buffers + [b]));
    assert multiset(x.buffers + [b]) == multiset(x.buffers) + multiset{b};
  }

  lemma FewerBuffers(files: seq<Info>, i: nat, b: Buffer)
    requires i < |files| && b in files[i].buffers
    ensures Owned(files[i := files[i].(buffers := Without(files[i].buffers, b))]) == Owned(files) - multiset{b}
  {
    hide Owned, Without;
    WithoutIs(files[i].buffers, b);
    UpdatedOwned(files, i, files[i].(buffers := Without(files[i].buffers, b)));
    assert b in multiset(files[i].buffers);
  }

  lemma ApartPlus(list: seq<Buffer>, b: Buffer)
    requires Apart(multiset(list)) && forall x | x in list :: x.dma != b.dma
    ensures Apart(multiset(list) + multiset{b})
  {
    assert b !in multiset(list);
  }

  lemma FreeListed(d: Device, i: nat, handle: nat)
    requires Listed(d) && i < |d.files|
    ensures Listed(FreeStep(d, i, handle).0)
  {
    hide Owned, Find, Without, Apart;
    var found := Find(d.files[i].buffers, handle);
    if found.Some? {
      FindIs(d.files[i].buffers, handle);
      FewerBuffers(d.files, i, found.value);
      WithoutIs(d.global, found.value);
      ApartFewer(multiset(d.global), multiset{found.value});
    }
  }

  lemma ApartFewer(m: multiset<Buffer>, n: multiset<Buffer>)
    requires Apart(m)
    ensures Apart(m - n)
  {
  }

  lemma SafelyKept(d: Device, op: Op)
    requires FreedSafely(d.freed) && Legal(d, op)
    ensures FreedSafely(Next(d, op).freed)
  {
    hide Without, WithoutAll, Find, Removed;
  }

  function Fresh(inReset: bool): Device {
    Device(0, false, 0, inReset, [], [], [])
  }

  /** The state after a run; a step that is not possible is skipped. */
  function Run(ops: seq<Op>, inReset: bool): Device {
    if ops == [] then Fresh(inReset)
    else
      var d := Run(ops[..|ops| - 1], inReset);
      if Legal(d, ops[|ops| - 1]) then Next(d, ops[|ops| - 1]) else d
  }

  /** Every sequence of open, request, release, allocation, free and close steps. */
  lemma {:induction false} RunInv(ops: seq<Op>, inReset: bool)
    ensures Inv(Run(ops, inReset))
  {
    hide Counted, Listed, FreedSafely, Next;
    if ops == [] {
      FreshInv(inReset);
    } else {
      var d, op := Run(ops[..|ops| - 1], inReset), ops[|ops| - 1];
      RunInv(ops[..|ops| - 1], inReset);
      if Legal(d, op) {
        CountedKept(d, op);
        ListedKept(d, op);
        SafelyKept(d, op);
      }
    }
  }

  lemma FreshInv(inReset: bool)
    ensures Inv(Fresh(inReset))
  {
  }

  // When the steps succeed, and what they then do.

  /** An allocation succeeds exactly for 1 byte to 64 MiB, when there is memory that a 32-bit address reaches, the
      handle counter is not 0 and the client can be told.  It then enters both lists, in whole pages; else
      it enters none. */
  lemma AllocIff(d: Device, i: nat, size: u32, memory: Memory)
    requires i < |d.files|
    ensures var (n, ok) := AllocStep(d, i, size, memory);
      && (ok <==> 1 <= size <= 64 * 1024 * 1024 && d.files[i].nextHandle != 0
                  && memory.Memory? && memory.dma < 0x1_0000_0000 && !memory.copyFails)
      && |n.files| == |d.files| && (forall j | 0 <= j < |d.files| && j != i :: n.files[j] == d.files[j])
      && n.files[i].engineRefs == d.files[i].engineRefs && n.refCount == d.refCount && n.clocks == d.clocks
      && (!ok ==> n.global == d.global && n.files[i].buffers == d.files[i].buffers)
      && (ok ==> n.freed == d.freed && |n.global| == |d.global| + 1
                 && var b := n.global[|d.global|];
                    && n.global == d.global + [b] && n.files[i].buffers == d.files[i].buffers + [b]
                    && b.handle == d.files[i].nextHandle && b.dma == memory.dma
                    && b.size % 4096 == 0 && size <= b.size < size + 4096)
  {
    WholePages(size);
    hide Align, Wrap32;
  }

  lemma WholePages(size: nat)
    ensures Align(size, PAGE) % 4096 == 0 && size <= Align(size, PAGE) < size + 4096
  {
  }

  /** A request, while the counts are right, counts one reference of its file, and the first one runs the clocks. */
  lemma EngineReqCounts(d: Device, i: nat, fault: Option<Fault>)
    requires Counted(d) && i < |d.files|
    ensures var (n, ok) := EngineReqStep(d, i, fault);
      && n.global == d.global && n.freed == d.freed && |n.files| == |d.files|
      && (forall j | 0 <= j < |d.files| && j != i :: n.files[j] == d.files[j])
      && (ok ==> n.refCount == d.refCount + 1
                 && n.files[i] == d.files[i].(engineRefs := d.files[i].engineRefs + 1)
                 && (d.refCount == 0 ==> n.clocks == 3 && n.clkStatus && !n.inReset)
                 && (d.refCount > 0 ==> n.clocks == d.clocks && n.clkStatus && n.inReset == d.inReset))
  {
  }

  /** A release succeeds exactly for a file that holds a reference; the last one of all puts the engine in reset and
      stops the clocks. */
  lemma EngineRelIff(d: Device, i: nat)
    requires Counted(d) && i < |d.files|
    ensures var (n, ok) := EngineRelStep(d, i);
      && (ok <==> d.files[i].engineRefs > 0)
      && n.global == d.global && n.freed == d.freed && |n.files| == |d.files|
      && (forall j | 0 <= j < |d.files| && j != i :: n.files[j] == d.files[j])
      && (!ok ==> n == d)
      && (ok ==> n.refCount == d.refCount - 1
                 && n.files[i] == d.files[i].(engineRefs := d.files[i].engineRefs - 1)
                 && (n.refCount == 0 ==> n.clocks == 0 && !n.clkStatus && n.inReset)
                 && (n.refCount > 0 ==> n.clocks == d.clocks && n.clkStatus && n.inReset == d.inReset))
  {
    hide Refs;
    UpdatedRefs(d.files, i, d.files[i]);
  }

  /** A request undoes no release and a release no request but its own: together they change nothing while others hold
      the engine. */
  lemma ReqThenRel(d: Device, i: nat, fault: Option<Fault>)
    requires Counted(d) && i < |d.files| && EngineReqStep(d, i, fault).1
    ensures var n := EngineRelStep(EngineReqStep(d, i, fault).0, i).0;
      && EngineRelStep(EngineReqStep(d, i, fault).0, i).1
      && (d.refCount > 0 ==> n == d)
      && (d.refCount == 0 ==> n == d.(inReset := true))
  {
  }

  /** A free succeeds exactly for a handle of that file.  It gives back one buffer with that handle, once, off both
      lists. */
  lemma FreeIff(d: Device, i: nat, handle: nat)
    requires i < |d.files|
    ensures var (n, ok) := FreeStep(d, i, handle);
      && (ok <==> exists b :: b in d.files[i].buffers && b.handle == handle)
      && (!ok ==> n == d)
      && (ok ==> |n.freed| == |d.freed| + 1
                 && var f := n.freed[|d.freed|];
                    && n.freed == d.freed + [f] && f.buffer in d.files[i].buffers && f.buffer.handle == handle
                    && |n.files| == |d.files|
                    && multiset(n.files[i].buffers) == multiset(d.files[i].buffers) - multiset{f.buffer}
                    && multiset(n.global) == multiset(d.global) - multiset{f.buffer}
                    && (d.files[i].engineRefs > 0 ==> f.inReset && !n.inReset)
                    && (d.files[i].engineRefs == 0 ==> f.inReset == d.inReset == n.inReset))
  {
    hide Find, Without;
    FindIs(d.files[i].buffers, handle);
    var found := Find(d.files[i].buffers, handle);
    if found.Some? {
      WithoutIs(d.files[i].buffers, found.value);
      WithoutIs(d.global, found.value);
    }
  }

  /** Closing the last file leaves no reference, no clock and no buffer behind. */
  lemma LastClose(d: Device)
    requires Inv(d) && |d.files| == 1
    ensures var n := Next(d, Release(0)); n.files == [] && n.refCount == 0 && n.clocks == 0 && n.global == []
  {
    var n := Next(d, Release(0));
    CountedKept(d, Release(0));
    ListedKept(d, Release(0));
    NothingListed(n.global);
  }

  lemma NothingListed(list: seq<Buffer>)
    requires multiset(list) == multiset{}
    ensures list == []
  {
    assert |multiset(list)| == |list|;
  }

  /** Closing a file beside others that hold references leaves the VE in reset exactly when it was in reset and the file
      had nothing to clean up, or the file held no reference of its own but a lock or a buffer. */
  lemma ReleaseLeavesResetIff(d: Device, i: nat)
    requires Inv(d) && i < |d.files| && d.files[i].engineRefs < d.refCount
    ensures Next(d, Release(i)).refCount > 0
    ensures Next(d, Release(i)).inReset <==>
      d.files[i].engineRefs == 0 && (d.inReset || d.files[i].locked || d.files[i].buffers != [])
  {
    hide WithoutAll, Removed;
  }

  /** Client 0 runs the engine, client 1 has only a buffer and goes away. */
  const BYSTANDER := [Op.Open, Op.Open, EngineReq(0, None), Alloc(1, 4096, Memory(4096, false)), Release(1)]

  lemma RunFront(ops: seq<Op>, k: nat, inReset: bool)
    requires k < |ops|
    ensures var d := Run(ops[..k], inReset);
      Run(ops[..k + 1], inReset) == if Legal(d, ops[k]) then Next(d, ops[k]) else d
  {
    assert ops[..k + 1][..k] == ops[..k];
  }

  /** Its close leaves the engine of client 0 in reset. */
  lemma BystanderLeavesReset(inReset: bool)
    ensures Run(BYSTANDER, inReset).refCount == 1 && Run(BYSTANDER, inReset).inReset
  {
    hide Run;
    FreshRun(inReset);
    RunFront(BYSTANDER, 0, inReset);
    RunFront(BYSTANDER, 1, inReset);
    RunFront(BYSTANDER, 2, inReset);
    RunFront(BYSTANDER, 3, inReset);
    RunFront(BYSTANDER, 4, inReset);
    assert BYSTANDER[..0] == [] && BYSTANDER[..5] == BYSTANDER;
    var d2 := Run(BYSTANDER[..2], inReset);
    assert d2 == Fresh(inReset).(files := [Info(0, false, [], 1), Info(0, false, [], 1)]);
    var d3 := Run(BYSTANDER[..3], inReset);
    assert d3.refCount == 1 && d3.files == [Info(1, false, [], 1), Info(0, false, [], 1)] && d3.global == [];
    var d4 := Run(BYSTANDER[..4], inReset);
    assert d4.refCount == 1 && |d4.files| == 2 && d4.files[1].engineRefs == 0 && d4.files[1].buffers != [];
  }

  lemma FreshRun(inReset: bool)
    ensures Run([], inReset) == Fresh(inReset)
  {
  }

  /** A request fails exactly when it is the first and the hardware cannot be switched on; then nothing is counted. */
  lemma EngineReqFailsIff(d: Device, i: nat, fault: Option<Fault>)
    requires Inv(d) && i < |d.files|
    ensures var (n, ok) := EngineReqStep(d, i, fault);
      && (!ok <==> d.refCount == 0 && fault.Some?)
      && (!ok ==> n == d.(inReset := n.inReset))
      && (ok ==> n.files[i].engineRefs == d.files[i].engineRefs + 1 && (d.refCount == 0 ==> !n.inReset))
  {
    UpdatedRefs(d.files, i, d.files[i]);
  }

  /** FREE_COHERENT takes the VE out of the reset that it put it into, and leaves it alone for a file without
      references. */
  lemma FreeRestoresReset(d: Device, i: nat, handle: nat)
    requires i < |d.files|
    ensures FreeStep(d, i, handle).0.inReset <==>
      d.inReset && (d.files[i].engineRefs == 0 || Find(d.files[i].buffers, handle).None?)
  {
  }

  // The driver's object.

  class Driver {
    var refCount: int
    var clkStatus: bool
    /** How many of the three clocks are enabled. */
    var clocks: nat
    var inReset: bool
    var files: seq<Info>
    var global: seq<Buffer>
    ghost var freed: seq<Freed>

    ghost function View(): Device
      reads this
    {
      Device(refCount, clkStatus, clocks, inReset, files, global, freed)
    }

    constructor (inReset: bool)
      ensures View() == Fresh(inReset)
    {
      refCount, clkStatus, clocks, files, global, freed := 0, false, 0, [], [], [];
      this.inReset := inReset;
    }

    /** cedar_quiesce_dma */
    method Quiesce()
      modifies this`inReset
      ensures View() == Quiesced(old(View()))
    {
      inReset := true;
    }

    /** enable_cedar_hw_clk; `good` clocks can be enabled before one fails. */
    method EnableClocks(fault: Option<Fault>, good: nat) returns (ok: bool)
      requires good < 3
      modifies this`clocks, this`inReset, this`clkStatus
      ensures (View(), ok) == ClocksEnabled(old(View()), fault)
    {
      if clkStatus {
        return true;
      }
      if fault == Some(ResetFault) {
        clkStatus := false;
        return false;
      }
      inReset := false;
      if fault == Some(ClockFault) {
        clocks := clocks + good;
        clocks := clocks - good;
        inReset := true;
        clkStatus := false;
        return false;
      }
      clocks := clocks + 3;
      clkStatus := true;
      ok := true;
    }

    /** disable_cedar_hw_clk */
    method DisableClocks()
      requires clkStatus ==> clocks >= 3
      modifies this`clocks, this`inReset, this`clkStatus
      ensures View() == ClocksDisabled(old(View()))
    {
      if clkStatus {
        clkStatus := false;
        Quiesce();
        clocks := clocks - 3;
      }
    }

    /** cedardev_open */
    method Open() returns (i: nat)
      modifies this`files
      ensures View() == Next(old(View()), Op.Open) && i == old(|files|) == |files| - 1
    {
      i := |files|;
      files := files + [Info(0, false, [], 1)];
    }

    /** IOCTL_ENGINE_REQ */
    method EngineReq(i: nat, fault: Option<Fault>, good: nat) returns (ok: bool)
      requires i < |files| && good < 3
      modifies this
      ensures (View(), ok) == EngineReqStep(old(View()), i, fault)
    {
      if refCount < 0 {
        return false;
      }
      refCount := refCount + 1;
      if refCount == 1 {
        var enabled := EnableClocks(fault, good);
        if !enabled {
          refCount := refCount - 1;
          return false;
        }
      }
      files := files[i := files[i].(engineRefs := files[i].engineRefs + 1)];
      ok := true;
    }

    /** IOCTL_ENGINE_REL */
    method EngineRel(i: nat) returns (ok: bool)
      requires i < |files| && (clkStatus ==> clocks >= 3)
      modifies this
      ensures (View(), ok) == EngineRelStep(old(View()), i)
    {
      if files[i].engineRefs == 0 || refCount <= 0 {
        return false;
      }
      files := files[i := files[i].(engineRefs := files[i].engineRefs - 1)];
      refCount := refCount - 1;
      if refCount == 0 {
        DisableClocks();
      }
      ok := true;
    }

    /** IOCTL_ALLOC_COHERENT */
    method AllocCoherent(i: nat, size: u32, memory: Memory) returns (ok: bool)
      requires i < |files|
      modifies this
      ensures (View(), ok) == AllocStep(old(View()), i, size, memory)
    {
      if size == 0 || size > MAX_ALLOC || memory.NoMemory? || memory.dma >= TWO_32 {
        return false;
      }
      var b := Buffer(files[i].nextHandle, Align(size, PAGE), memory.dma);
      files := files[i := files[i].(nextHandle := Wrap32(files[i].nextHandle as int + 1))];
      if b.handle == 0 {
        assert View() == AllocStep(old(View()), i, size, memory).0;
        return false;
      }
      files := files[i := files[i].(buffers := files[i].buffers + [b])];
      global := global + [b];
      assert files == old(files)[i := old(files)[i].(
        nextHandle := Wrap32(old(files)[i].nextHandle as int + 1), buffers := old(files)[i].buffers + [b])];
      if memory.copyFails {
        files := files[i := files[i].(buffers := files[i].buffers[..|files[i].buffers| - 1])];
        global := global[..|global| - 1];
        freed := freed + [Freed(b, CopyFailed, inReset)];
        assert files[i].buffers == old(files)[i].buffers;
        assert files == old(files)[i := old(files)[i].(nextHandle := Wrap32(old(files)[i].nextHandle as int + 1))];
        assert global == old(global);
        assert View() == AllocStep(old(View()), i, size, memory).0;
        return false;
      }
      ok := true;
    }

    /** IOCTL_FREE_COHERENT */
    method FreeCoherent(i: nat, handle: nat) returns (ok: bool)
      requires i < |files|
      modifies this
      ensures (View(), ok) == FreeStep(old(View()), i, handle)
    {
      hide Find, Without;
      var found := Find(files[i].buffers, handle);
      if found.None? {
        return false;
      }
      if files[i].engineRefs > 0 {
        Quiesce();
      }
      files := files[i := files[i].(buffers := Without(files[i].buffers, found.value))];
      global := Without(global, found.value);
      freed := freed + [Freed(found.value, ByIoctl(files[i].engineRefs > 0), inReset)];
      if files[i].engineRefs > 0 {
        inReset := false;
      }
      ok := true;
    }

    /** free_coherent_buffers */
    method FreeCoherentBuffers(i: nat)
      requires i < |files|
      modifies this`global, this`freed, this`files
      ensures files == old(files)[i := old(files[i]).(buffers := [])]
      ensures global == WithoutAll(old(global), old(files[i]).buffers)
      ensures freed == old(freed) + FreedAll(old(files[i]).buffers, inReset)
    {
      var all := files[i].buffers;
      for k := 0 to |all|
        invariant |files| == old(|files|) && files == old(files)[i := old(files[i]).(buffers := all[k..])]
        invariant global == WithoutAll(old(global), all[..k])
        invariant freed == old(freed) + FreedAll(all[..k], inReset)
      {
        assert all[..k + 1][..k] == all[..k];
        files := files[i := files[i].(buffers := files[i].buffers[1..])];
        global := Without(global, all[k]);
        freed := freed + [Freed(all[k], ByClose, inReset)];
        assert FreedAll(all[..k + 1], inReset) == FreedAll(all[..k], inReset) + [Freed(all[k], ByClose, inReset)];
      }
      assert all[..|all|] == all;
    }

    /** cedardev_release */
    method Release(i: nat)
      requires i < |files| && (clkStatus ==> clocks >= 3)
      modifies this
      ensures View() == ReleaseStep(old(View()), i)
    {
      hide WithoutAll, FreedAll;
      if files[i].engineRefs > 0 || files[i].locked || files[i].buffers != [] {
        Quiesce();
      }
      FreeCoherentBuffers(i);
      if files[i].engineRefs > 0 {
        if files[i].engineRefs > refCount {
          refCount := 0;
        } else {
          refCount := refCount - files[i].engineRefs;
        }
        if refCount == 0 {
          DisableClocks();
        } else {
          inReset := false;
        }
      }
      files := files[..i] + files[i + 1..];
    }
  }
}
