/** The userspace memory adapter: its list of mapped buffers against the kernel's list for the file it holds open. */
module MemAdapterBridge {
  import opened Words
  import Kernel = LegacyEngine

  /** struct bridge_buffer */
  datatype Mapping = Mapping(virt: nat, handle: nat, size: nat, dma: nat)
  {
    predicate Covers(v: nat) {
      virt <= v < virt + size
    }

    predicate CoversDma(a: nat) {
      dma <= a < dma + size
    }

    /** The kernel's buffer behind it. */
    function Backing(): Kernel.Buffer {
      Kernel.Buffer(handle, size, dma)
    }
  }

  /** The bridge and the kernel beneath it; the bridge's file, while it is open, is the kernel's only one. */
  datatype State = State(refcount: nat, fdOpen: bool, buffers: seq<Mapping>, kernel: Kernel.Device)
  {
    predicate Valid() {
      && (fdOpen <==> refcount > 0)
      && |kernel.files| == (if fdOpen then 1 else 0)
    }

    /** The kernel's list for the bridge's file. */
    function FileList(): seq<Kernel.Buffer>
      requires Valid()
    {
      if fdOpen then kernel.files[0].buffers else []
    }
  }

  /** The outcomes that the bridge does not control: the kernel's allocation, where mmap puts it, and calloc. */
  datatype Op =
    | Open(fails: bool)
    | Close
    | Palloc(size: int, memory: Kernel.Memory, mmap: Option<nat>, callocFails: bool)
    | Pfree(virt: nat)

  function Backings(list: seq<Mapping>): (bs: seq<Kernel.Buffer>)
    ensures |bs| == |list| && forall i | 0 <= i < |list| :: bs[i] == list[i].Backing()
  {
    seq(|list|, i requires 0 <= i < |list| => list[i].Backing())
  }

  // The operations.

  function Opened(s: State, fails: bool): State {
    if s.refcount > 0 then s.(refcount := s.refcount + 1)
    else if fails then s.(refcount := 0)
    else s.(refcount := 1, fdOpen := true, kernel := Kernel.Next(s.kernel, Kernel.Op.Open))
  }

  /** bridge_free_buffer: unmaps, and frees by handle. */
  function FreedBuffer(s: State, b: Mapping): State
    requires s.fdOpen ==> |s.kernel.files| >= 1
  {
    if s.fdOpen then s.(kernel := Kernel.FreeStep(s.kernel, 0, b.handle).0) else s
  }

  function FreedAll(s: State): State
    requires s.Valid()
    ensures FreedAll(s).Valid() && FreedAll(s).buffers == [] && FreedAll(s).fdOpen == s.fdOpen
    decreases |s.buffers|
  {
    if s.buffers == [] then s else FreedAll(FreedBuffer(s.(buffers := s.buffers[1..]), s.buffers[0]))
  }

  function Closed(s: State): State
    requires s.Valid()
  {
    if s.refcount == 0 then s
    else if s.refcount > 1 then s.(refcount := s.refcount - 1)
    else
      var f := FreedAll(s.(refcount := 1));
      f.(refcount := 0, fdOpen := false, kernel := Kernel.ReleaseStep(f.kernel, 0))
  }

  function Palloced(s: State, size: int, memory: Kernel.Memory, mmap: Option<nat>, callocFails: bool)
    : (State, Option<nat>)
    requires s.Valid()
  {
    if size <= 0 || Align(size, Kernel.PAGE) >= TWO_32 || !s.fdOpen then (s, None)
    else
      var mapped := Align(size, Kernel.PAGE);
      var (k, ok) := Kernel.AllocStep(s.kernel, 0, mapped, memory);
      if !ok then (s.(kernel := k), None)
      else
        var handle := s.kernel.files[0].nextHandle;
        if mmap.None? || callocFails then (s.(kernel := Kernel.FreeStep(k, 0, handle).0), None)
        else (s.(buffers := [Mapping(mmap.value, handle, mapped, memory.dma)] + s.buffers, kernel := k), mmap)
  }

  /** The list without its first mapping at `virt`. */
  function WithoutVirt(list: seq<Mapping>, virt: nat): (seq<Mapping>, Option<Mapping>) {
    if list == [] then ([], None)
    else if list[0].virt == virt then (list[1..], Some(list[0]))
    else
      var (rest, found) := WithoutVirt(list[1..], virt);
      ([list[0]] + rest, found)
  }

  function Pfreed(s: State, virt: nat): State
    requires s.Valid()
  {
    var (rest, found) := WithoutVirt(s.buffers, virt);
    match found
    case None => s
    case Some(b) => FreedBuffer(s.(buffers := rest), b)
  }

  /** What the system guarantees: new memory and new mappings lie apart from the live ones, and a file sees fewer than
      2^32 allocations. */
  predicate Legal(s: State, op: Op)
    requires s.Valid()
  {
    op.Palloc? && s.fdOpen && op.size > 0 && Align(op.size, Kernel.PAGE) < TWO_32 ==>
      && s.kernel.files[0].nextHandle < TWO_32 - 1
      && (op.memory.Memory? ==> ApartDma(s.buffers, op.memory.dma, Align(op.size, Kernel.PAGE)))
      && (op.mmap.Some? ==> ApartVirt(s.buffers, op.mmap.value, Align(op.size, Kernel.PAGE)))
  }

  predicate ApartDma(list: seq<Mapping>, dma: nat, size: nat) {
    forall b | b in list :: dma + size <= b.dma || b.dma + b.size <= dma
  }

  predicate ApartVirt(list: seq<Mapping>, virt: nat, size: nat) {
    forall b | b in list :: virt + size <= b.virt || b.virt + b.size <= virt
  }

  function Next(s: State, op: Op): State
    requires s.Valid()
  {
    match op
    case Open(fails) => Opened(s, fails)
    case Close => Closed(s)
    case Palloc(size, memory, mmap, callocFails) => Palloced(s, size, memory, mmap, callocFails).0
    case Pfree(virt) => Pfreed(s, virt)
  }

  // What every operation keeps.

  /** Both lists hold the same handles, with the same size and DMA address. */
  ghost predicate Agree(s: State) {
    && s.Valid()
    && multiset(s.FileList()) == multiset(Backings(s.buffers))
    && Handles(s)
  }

  /** Handles are handed out in order, so none is used twice. */
  ghost predicate InOrder(list: seq<Kernel.Buffer>, next: nat) {
    && next >= 1
    && (forall b | b in list :: 0 < b.handle < next)
    && (forall b, c | b in list && c in list && b.handle == c.handle :: b == c)
    && forall b :: multiset(list)[b] <= 1
  }

  ghost predicate Handles(s: State)
    requires s.Valid()
  {
    s.fdOpen ==> InOrder(s.FileList(), s.kernel.files[0].nextHandle)
  }

  /** Mappings overlap neither in virtual nor in DMA addresses. */
  ghost predicate Disjoint(list: seq<Mapping>) {
    forall b, c | b in list && c in list && b != c :: Apart(b, c)
  }

  predicate Apart(b: Mapping, c: Mapping) {
    && (b.virt + b.size <= c.virt || c.virt + c.size <= b.virt)
    && (b.dma + b.size <= c.dma || c.dma + c.size <= b.dma)
  }

  lemma {:induction false} WithoutVirtFinds(list: seq<Mapping>, virt: nat)
    ensures var (rest, found) := WithoutVirt(list, virt);
      if found.None? then rest == list && forall b | b in list :: b.virt != virt
      else found.value in list && found.value.virt == virt && forall b | b in rest :: b in list
  {
    if list != [] {
      WithoutVirtFinds(list[1..], virt);
    }
  }

  lemma {:induction false} WithoutVirtBackings(list: seq<Mapping>, virt: nat)
    ensures var (rest, found) := WithoutVirt(list, virt);
      found.Some? ==> multiset(Backings(list)) == multiset(Backings(rest)) + multiset{found.value.Backing()}
  {
    if list != [] {
      BackingsHead(list);
      if list[0].virt != virt {
        WithoutVirtBackings(list[1..], virt);
        var (rest, found) := WithoutVirt(list[1..], virt);
        assert ([list[0]] + rest)[1..] == rest;
        BackingsHead([list[0]] + rest);
      }
    }
  }

  lemma BackingsHead(list: seq<Mapping>)
    requires list != []
    ensures multiset(Backings(list)) == multiset{list[0].Backing()} + multiset(Backings(list[1..]))
  {
    assert Backings(list) == [list[0].Backing()] + Backings(list[1..]);
  }

  /** Freeing by handle takes exactly that buffer off the kernel's list. */
  lemma FreeByHandle(s: State, b: Mapping)
    requires s.Valid() && s.fdOpen && Handles(s) && b.Backing() in s.FileList()
    ensures FreedBuffer(s, b).Valid() && Handles(FreedBuffer(s, b))
    ensures multiset(s.FileList()) == multiset(FreedBuffer(s, b).FileList()) + multiset{b.Backing()}
    ensures FreedBuffer(s, b).buffers == s.buffers && FreedBuffer(s, b).refcount == s.refcount
    ensures FreedBuffer(s, b).fdOpen
  {
    hide Kernel.Without, Kernel.Find;
    var list := s.FileList();
    Kernel.FindIs(list, b.handle);
    Kernel.WithoutIs(list, b.Backing());
    var rest := Kernel.Without(list, b.Backing());
    assert Kernel.Find(list, b.handle) == Some(b.Backing());
    SubList(list, rest);
    assert b.Backing() in multiset(list);
  }

  lemma SubList(list: seq<Kernel.Buffer>, rest: seq<Kernel.Buffer>)
    requires multiset(rest) <= multiset(list)
    ensures forall b | b in rest :: b in list
  {
    forall b | b in rest ensures b in list {
      assert b in multiset(rest);
      assert b in multiset(list);
    }
  }

  lemma BackedInKernel(s: State, b: Mapping)
    requires Agree(s) && b in s.buffers
    ensures s.fdOpen && b.Backing() in s.FileList()
  {
    var i :| 0 <= i < |s.buffers| && s.buffers[i] == b;
    assert Backings(s.buffers)[i] == b.Backing();
    assert b.Backing() in multiset(Backings(s.buffers));
    assert b.Backing() in multiset(s.FileList());
  }

  lemma PfreeKeeps(s: State, virt: nat)
    requires Agree(s) && Disjoint(s.buffers)
    ensures Agree(Pfreed(s, virt)) && Disjoint(Pfreed(s, virt).buffers)
  {
    hide FreedBuffer, Backings, Handles;
    WithoutVirtFinds(s.buffers, virt);
    WithoutVirtBackings(s.buffers, virt);
    var (rest, found) := WithoutVirt(s.buffers, virt);
    if found.Some? {
      BackedInKernel(s, found.value);
      SameKernel(s, rest);
      FreeByHandle(s.(buffers := rest), found.value);
      var freed := FreedBuffer(s.(buffers := rest), found.value);
      Cancel(multiset(freed.FileList()), multiset(Backings(rest)), found.value.Backing());
    }
  }

  lemma Cancel(a: multiset<Kernel.Buffer>, b: multiset<Kernel.Buffer>, x: Kernel.Buffer)
    requires a + multiset{x} == b + multiset{x}
    ensures a == b
  {
    assert a == (a + multiset{x}) - multiset{x};
    assert b == (b + multiset{x}) - multiset{x};
  }

  lemma SameKernel(s: State, rest: seq<Mapping>)
    requires s.Valid()
    ensures s.(buffers := rest).Valid() && s.(buffers := rest).FileList() == s.FileList()
    ensures Handles(s) <==> Handles(s.(buffers := rest))
  {
  }

  lemma {:induction false} FreeAllKeeps(s: State)
    requires Agree(s) && s.fdOpen
    ensures Agree(FreedAll(s)) && FreedAll(s).refcount == s.refcount && FreedAll(s).FileList() == []
    decreases |s.buffers|
  {
    hide FreedBuffer, Handles;
    if s.buffers == [] {
      Kernel.NothingListed(s.FileList());
    } else {
      var b, rest := s.buffers[0], s.buffers[1..];
      BackingsHead(s.buffers);
      BackedInKernel(s, b);
      SameKernel(s, rest);
      FreeByHandle(s.(buffers := rest), b);
      Cancel(multiset(FreedBuffer(s.(buffers := rest), b).FileList()), multiset(Backings(rest)), b.Backing());
      FreeAllKeeps(FreedBuffer(s.(buffers := rest), b));
    }
  }

  /** The last close empties both lists, the kernel's before the file is released; earlier ones only count. */
  lemma CloseKeeps(s: State)
    requires Agree(s) && Disjoint(s.buffers)
    ensures Agree(Closed(s)) && Disjoint(Closed(s).buffers)
    ensures s.refcount == 1 ==> Closed(s).buffers == [] && Closed(s).kernel.files == []
    ensures s.refcount == 1 ==> FreedAll(s).FileList() == []
  {
    hide FreedAll;
    if s.refcount == 1 {
      FreeAllKeeps(s);
    }
  }

  lemma OpenKeeps(s: State, fails: bool)
    requires Agree(s)
    ensures Agree(Opened(s, fails)) && Opened(s, fails).buffers == s.buffers
  {
    if !s.fdOpen { NothingInKernel(s); }
  }

  lemma NothingInKernel(s: State)
    requires Agree(s) && !s.fdOpen
    ensures s.buffers == []
  {
    assert |multiset(Backings(s.buffers))| == |Backings(s.buffers)|;
  }

  /** A successful allocation enters both lists under a new handle; every failure leaves both as they were. */
  lemma PallocKeeps(s: State, size: int, memory: Kernel.Memory, mmap: Option<nat>, callocFails: bool)
    requires Agree(s) && Disjoint(s.buffers) && Legal(s, Palloc(size, memory, mmap, callocFails))
    ensures var (n, virt) := Palloced(s, size, memory, mmap, callocFails);
      && Agree(n) && Disjoint(n.buffers)
      && (virt.None? ==> n.buffers == s.buffers && multiset(n.FileList()) == multiset(s.FileList()))
      && (virt.Some? ==>
            |n.buffers| == |s.buffers| + 1 && n.buffers[0].virt == virt.value && n.buffers[1..] == s.buffers)
  {
    if s.fdOpen && size > 0 && Align(size, Kernel.PAGE) < TWO_32 {
      PallocOpen(s, Align(size, Kernel.PAGE), memory, mmap, callocFails);
    }
  }

  /** A close undoes an open that counted: the last close that follows it closes nothing else. */
  lemma CloseUndoesOpen(s: State, fails: bool)
    requires s.Valid() && s.refcount > 0
    ensures Opened(s, fails).Valid() && Closed(Opened(s, fails)) == s
  {
  }

  /** An allocation succeeds exactly for a positive size whose whole pages fit 64 MiB, while the device is open and the
      kernel, mmap and calloc give what they are asked for; its address is mmap's, its size whole pages. */
  lemma PallocIff(s: State, size: int, memory: Kernel.Memory, mmap: Option<nat>, callocFails: bool)
    requires s.Valid()
    ensures var (n, virt) := Palloced(s, size, memory, mmap, callocFails);
      && (virt.Some? <==>
            && 0 < size <= 64 * 1024 * 1024 && s.refcount > 0 && mmap.Some? && !callocFails
            && s.kernel.files[0].nextHandle != 0
            && memory.Memory? && memory.dma < 0x1_0000_0000 && !memory.copyFails)
      && (virt.Some? ==>
            && virt == mmap && |n.buffers| == |s.buffers| + 1 && n.buffers[1..] == s.buffers
            && var b := n.buffers[0];
               && b.virt == mmap.value && b.handle == s.kernel.files[0].nextHandle && b.dma == memory.dma
               && b.size % 4096 == 0 && size <= b.size < size + 4096)
      && n.refcount == s.refcount && n.fdOpen == s.fdOpen
  {
    hide Kernel.AllocStep, Kernel.FreeStep, Align;
    if size > 0 { Kernel.WholePages(size); }
    if size > 0 && s.fdOpen && Align(size, Kernel.PAGE) < TWO_32 {
      Kernel.AllocIff(s.kernel, 0, Align(size, Kernel.PAGE), memory);
    }
  }

  /** A free takes out the first mapping at its address, and nothing else. */
  lemma {:induction false} PfreeTakes(list: seq<Mapping>, virt: nat, i: nat)
    requires i < |list| && list[i].virt == virt && forall j | 0 <= j < i :: list[j].virt != virt
    ensures WithoutVirt(list, virt) == (list[..i] + list[i + 1..], Some(list[i]))
  {
    if i > 0 {
      PfreeTakes(list[1..], virt, i - 1);
      assert [list[0]] + (list[1..][..i - 1] + list[1..][i..]) == list[..i] + list[i + 1..];
    } else {
      assert list[1..] == list[..0] + list[1..];
    }
  }

  /** The kernel's side of an allocation of whole pages. */
  lemma KernelAlloc(s: State, mapped: u32, memory: Kernel.Memory)
    requires Agree(s) && s.fdOpen && s.kernel.files[0].nextHandle < TWO_32 - 1 && Align(mapped, Kernel.PAGE) == mapped
    ensures var (k, ok) := Kernel.AllocStep(s.kernel, 0, mapped, memory);
      var n := s.(kernel := k);
      && n.Valid() && Handles(n)
      && (!ok ==> n.FileList() == s.FileList())
      && (ok ==>
            && memory.Memory?
            && n.FileList() == s.FileList() + [Kernel.Buffer(s.kernel.files[0].nextHandle, mapped, memory.dma)])
  {
    hide InOrder, Align;
    var next: nat := s.kernel.files[0].nextHandle;
    InOrderNext(s.FileList(), next);
    WordIsWrapped(next + 1);
    if memory.Memory? {
      InOrderPlus(s.FileList(), Kernel.Buffer(next, mapped, memory.dma));
    }
  }

  lemma InOrderNext(list: seq<Kernel.Buffer>, next: nat)
    requires InOrder(list, next)
    ensures InOrder(list, next + 1) && next > 0
  {
  }

  lemma InOrderPlus(list: seq<Kernel.Buffer>, b: Kernel.Buffer)
    requires InOrder(list, b.handle)
    ensures InOrder(list + [b], b.handle + 1)
  {
    assert multiset(list + [b]) == multiset(list) + multiset{b};
    assert b !in list;
  }

  lemma PallocOpen(s: State, mapped: u32, memory: Kernel.Memory, mmap: Option<nat>, callocFails: bool)
    requires Agree(s) && Disjoint(s.buffers) && s.fdOpen && s.kernel.files[0].nextHandle < TWO_32 - 1
    requires Align(mapped, Kernel.PAGE) == mapped
    requires memory.Memory? ==> ApartDma(s.buffers, memory.dma, mapped)
    requires mmap.Some? ==> ApartVirt(s.buffers, mmap.value, mapped)
    ensures var (k, ok) := Kernel.AllocStep(s.kernel, 0, mapped, memory);
      var handle := s.kernel.files[0].nextHandle;
      && (!ok ==> Agree(s.(kernel := k)) && multiset(s.(kernel := k).FileList()) == multiset(s.FileList()))
      && (ok ==>
            var undone := s.(kernel := Kernel.FreeStep(k, 0, handle).0);
            && Agree(undone) && multiset(undone.FileList()) == multiset(s.FileList())
            && (mmap.Some? ==>
                  var n := s.(buffers := [Mapping(mmap.value, handle, mapped, memory.dma)] + s.buffers, kernel := k);
                  Agree(n) && Disjoint(n.buffers)))
  {
    hide Kernel.AllocStep, Kernel.FreeStep, Handles;
    KernelAlloc(s, mapped, memory);
    var (k, ok) := Kernel.AllocStep(s.kernel, 0, mapped, memory);
    if ok {
      var b := Mapping(if mmap.Some? then mmap.value else 0, s.kernel.files[0].nextHandle, mapped, memory.dma);
      var n := s.(kernel := k);
      assert multiset(n.FileList()) == multiset(s.FileList()) + multiset{b.Backing()};
      assert b.Backing() in n.FileList() by { assert n.FileList()[|s.FileList()|] == b.Backing(); }
      FreeByHandle(n, b);
      Cancel(multiset(FreedBuffer(n, b).FileList()), multiset(s.FileList()), b.Backing());
      BackingsHead([b] + s.buffers);
      assert ([b] + s.buffers)[1..] == s.buffers;
      SameKernel(n, [b] + s.buffers);
    }
  }

  function Run(ops: seq<Op>, inReset: bool): (s: State)
    ensures s.Valid()
  {
    if ops == [] then State(0, false, [], Kernel.Fresh(inReset))
    else
      var s := Run(ops[..|ops| - 1], inReset);
      if Legal(s, ops[|ops| - 1]) then NextValid(s, ops[|ops| - 1]); Next(s, ops[|ops| - 1]) else s
  }

  lemma NextValid(s: State, op: Op)
    requires s.Valid()
    ensures Next(s, op).Valid()
  {
  }

  /** After every operation of every run, failed ones included, the two lists agree and no two mappings overlap. */
  lemma {:induction false} RunAgrees(ops: seq<Op>, inReset: bool)
    ensures Agree(Run(ops, inReset)) && Disjoint(Run(ops, inReset).buffers)
  {
    hide Agree, Disjoint, Opened, Closed, Palloced, Pfreed;
    if ops == [] {
      NothingYet(inReset);
    } else {
      var s, op := Run(ops[..|ops| - 1], inReset), ops[|ops| - 1];
      RunAgrees(ops[..|ops| - 1], inReset);
      if Legal(s, op) {
        match op
        case Open(fails) => OpenKeeps(s, fails);
        case Close => CloseKeeps(s);
        case Palloc(size, memory, mmap, callocFails) => PallocKeeps(s, size, memory, mmap, callocFails);
        case Pfree(virt) => PfreeKeeps(s, virt);
      }
    }
  }

  lemma NothingYet(inReset: bool)
    ensures Agree(Run([], inReset)) && Disjoint(Run([], inReset).buffers)
  {
  }

  // Addresses.

  function FindVirt(list: seq<Mapping>, v: nat): Option<Mapping> {
    if list == [] then None else if list[0].Covers(v) then Some(list[0]) else FindVirt(list[1..], v)
  }

  function FindDma(list: seq<Mapping>, a: nat): Option<Mapping> {
    if list == [] then None else if list[0].CoversDma(a) then Some(list[0]) else FindDma(list[1..], a)
  }

  /** 0 stands for the null pointer that both functions answer with when no buffer is live there. */
  function GetPhyaddr(list: seq<Mapping>, v: nat): nat {
    match FindVirt(list, v)
    case None => 0
    case Some(b) => if b.Covers(v) then b.dma + (v - b.virt) else 0
  }

  function GetViraddr(list: seq<Mapping>, a: nat): nat {
    match FindDma(list, a)
    case None => 0
    case Some(b) => if b.CoversDma(a) then b.virt + (a - b.dma) else 0
  }

  lemma {:induction false} FindVirtIs(list: seq<Mapping>, v: nat)
    ensures match FindVirt(list, v)
      case None => (forall b | b in list :: !b.Covers(v))
      case Some(b) => b in list && b.Covers(v)
  {
    if list != [] { FindVirtIs(list[1..], v); }
  }

  lemma {:induction false} FindDmaIs(list: seq<Mapping>, a: nat)
    ensures match FindDma(list, a)
      case None => (forall b | b in list :: !b.CoversDma(a))
      case Some(b) => b in list && b.CoversDma(a)
  {
    if list != [] { FindDmaIs(list[1..], a); }
  }

  /** Every virtual address inside a live buffer comes back from its physical one, and the other way round. */
  lemma AddressesRoundTrip(list: seq<Mapping>, b: Mapping, offset: nat)
    requires Disjoint(list) && b in list && offset < b.size
    ensures GetPhyaddr(list, b.virt + offset) == b.dma + offset && GetViraddr(list, b.dma + offset) == b.virt + offset
    ensures GetViraddr(list, GetPhyaddr(list, b.virt + offset)) == b.virt + offset
    ensures GetPhyaddr(list, GetViraddr(list, b.dma + offset)) == b.dma + offset
  {
    FindVirtIs(list, b.virt + offset);
    FindDmaIs(list, b.dma + offset);
  }

  // The library's state.

  class Bridge {
    var refcount: nat
    var fdOpen: bool
    /** The linked list, newest buffer first. */
    var buffers: seq<Mapping>
    var kernel: Kernel.Device

    function View(): State
      reads this
    {
      State(refcount, fdOpen, buffers, kernel)
    }

    constructor (inReset: bool)
      ensures View() == Run([], inReset)
    {
      refcount, fdOpen, buffers, kernel := 0, false, [], Kernel.Fresh(inReset);
    }

    /** bridge_open */
    method Open(fails: bool) returns (result: int)
      requires View().Valid()
      modifies this
      ensures View() == Opened(old(View()), fails) && (result == 0 <==> View().fdOpen)
    {
      result := 0;
      refcount := refcount + 1;
      if refcount == 1 {
        if fails {
          refcount := 0;
          return -1;
        }
        kernel := Kernel.Next(kernel, Kernel.Op.Open);
        fdOpen := true;
      }
    }

    /** bridge_free_buffer */
    method FreeBuffer(b: Mapping)
      requires fdOpen ==> |kernel.files| >= 1
      modifies this`kernel
      ensures View() == FreedBuffer(old(View()), b)
    {
      if fdOpen {
        kernel := Kernel.FreeStep(kernel, 0, b.handle).0;
      }
    }

    /** bridge_close */
    method Close()
      requires View().Valid()
      modifies this
      ensures View() == Closed(old(View()))
    {
      if refcount == 0 {
        return;
      }
      refcount := refcount - 1;
      if refcount > 0 {
        return;
      }
      ghost var start := View().(refcount := 1);
      while buffers != []
        invariant refcount == 0 && fdOpen && View().(refcount := 1).Valid()
        invariant FreedAll(View().(refcount := 1)) == FreedAll(start)
        decreases |buffers|
      {
        hide Kernel.FreeStep;
        var b := buffers[0];
        buffers := buffers[1..];
        KernelKeepsFile(kernel, b.handle);
        FreeBuffer(b);
      }
      kernel := Kernel.ReleaseStep(kernel, 0);
      fdOpen := false;
    }

    /** bridge_palloc */
    method Palloc(size: int, memory: Kernel.Memory, mmap: Option<nat>, callocFails: bool) returns (virt: Option<nat>)
      requires View().Valid()
      modifies this
      ensures (View(), virt) == Palloced(old(View()), size, memory, mmap, callocFails)
    {
      hide Kernel.AllocStep, Kernel.FreeStep;
      if size <= 0 {
        return None;
      }
      var mapped := Align(size, Kernel.PAGE);
      if mapped >= TWO_32 || !fdOpen {
        return None;
      }
      var handle := kernel.files[0].nextHandle;
      var (k, ok) := Kernel.AllocStep(kernel, 0, mapped, memory);
      AllocKeepsFile(kernel, mapped, memory);
      kernel := k;
      if !ok {
        return None;
      }
      if mmap.None? || callocFails {
        kernel := Kernel.FreeStep(kernel, 0, handle).0;
        return None;
      }
      buffers := [Mapping(mmap.value, handle, mapped, memory.dma)] + buffers;
      virt := mmap;
    }

    /** bridge_pfree: a cursor down the list. */
    method Pfree(virt: nat)
      requires View().Valid()
      modifies this
      ensures View() == Pfreed(old(View()), virt)
    {
      var cursor := 0;
      while cursor < |buffers|
        invariant 0 <= cursor <= |buffers| && View() == old(View())
        invariant forall b | b in buffers[..cursor] :: b.virt != virt
      {
        var b := buffers[cursor];
        if b.virt == virt {
          FirstAt(buffers[..cursor], b, buffers[cursor + 1..], virt);
          assert buffers == buffers[..cursor] + [b] + buffers[cursor + 1..];
          buffers := buffers[..cursor] + buffers[cursor + 1..];
          FreeBuffer(b);
          return;
        }
        cursor := cursor + 1;
      }
      assert buffers[..cursor] == buffers;
      WithoutVirtFinds(buffers, virt);
    }
  }

  lemma {:induction false} FirstAt(before: seq<Mapping>, b: Mapping, after: seq<Mapping>, virt: nat)
    requires b.virt == virt && forall x | x in before :: x.virt != virt
    ensures WithoutVirt(before + [b] + after, virt) == (before + after, Some(b))
  {
    if before == [] {
      assert [] + [b] + after == [b] + after;
      assert [] + after == after;
    } else {
      FirstAt(before[1..], b, after, virt);
      assert (before + [b] + after)[1..] == before[1..] + [b] + after;
      assert [before[0]] + (before[1..] + after) == before + after;
    }
  }

  lemma KernelKeepsFile(d: Kernel.Device, handle: nat)
    requires |d.files| == 1
    ensures |Kernel.FreeStep(d, 0, handle).0.files| == 1
  {
  }

  lemma AllocKeepsFile(d: Kernel.Device, size: u32, memory: Kernel.Memory)
    requires |d.files| == 1
    ensures |Kernel.AllocStep(d, 0, size, memory).0.files| == 1
    ensures Kernel.AllocStep(d, 0, size, memory).1 ==> memory.Memory?
  {
  }
}
