/** The character driver (aesd-char-driver/main.c) as a state machine on values: one step per file operation. */
module Driver {
  import opened Bytes
  import opened CircularBuffer

  type Handle = nat

  /** loff_t */
  type loff = x: int | -0x8000_0000_0000_0000 <= x < 0x8000_0000_0000_0000

  const EFAULT := 14
  const EINVAL := 22
  const ERESTARTSYS := 512

  /** The address `krealloc` answers for a request of zero bytes: not null, but no memory either. */
  const ZERO_SIZE_PTR: nat := 16

  /** The live allocations. */
  type Heap = map<nat, seq<byte>>

  predicate IsBlock(p: nat) {
    p != NULL && p != ZERO_SIZE_PTR
  }

  /** What the allocator does with a request: the choice is the environment's. `fill` is what fresh bytes hold. */
  datatype Alloc = NoMemory | InPlace(fill: byte) | Moved(to: nat, fill: byte)

  datatype Grant = Denied | Block(ptr: nat, heap: Heap) | BadPointer

  function Resized(b: seq<byte>, n: nat, fill: byte): (r: seq<byte>)
    ensures |r| == n
    ensures forall i :: 0 <= i < |b| && i < n ==> r[i] == b[i]
  {
    if n <= |b| then b[..n] else b + seq(n - |b|, _ => fill)
  }

  /** krealloc; an allocator choice that is impossible in this heap answers null. */
  function Krealloc(heap: Heap, p: nat, n: nat, alloc: Alloc): (g: Grant)
    ensures g.Block? && n > 0 ==> g.ptr in g.heap && |g.heap[g.ptr]| == n
  {
    if IsBlock(p) && p !in heap then BadPointer
    else if n == 0 then Block(ZERO_SIZE_PTR, heap - {p})
    else
      match alloc
      case NoMemory => Denied
      case InPlace(fill) =>
        if p in heap then Block(p, heap[p := Resized(heap[p], n, fill)]) else Denied
      case Moved(q, fill) =>
        if IsBlock(q) && q !in heap
        then Block(q, (heap - {p})[q := Resized(if p in heap then heap[p] else [], n, fill)])
        else Denied
  }

  /** kfree: nothing for null or the zero-size address, otherwise the block must be live. */
  function Kfree(heap: Heap, p: nat): Option<Heap> {
    if !IsBlock(p) then Some(heap)
    else if p in heap then Some(heap - {p})
    else None
  }

  /** What an ioctl call turns out to carry: a null argument, an unreadable one, a seek, or another decodable command. */
  datatype Request = NullArg | BadArg | SeekTo(cmd: nat, off: nat) | Other

  /** A file operation with everything its environment decides. An operation whose wait for the lock was interrupted
      is `Interrupted` whatever it was. */
  datatype Op =
    | Interrupted(h: Handle)
    | Read(h: Handle, count: nat, fault: bool)
    | Write(h: Handle, data: seq<byte>, alloc: Alloc, fault: bool)
    | Llseek(h: Handle, off: loff, whence: nat)
    | Ioctl(h: Handle, request: Request)

  /** What the caller sees. `Blocked` waits for a lock nobody will release; `BadMemory` touched memory that is not live. */
  datatype Result = Done(ret: int, data: seq<byte>) | Blocked | BadMemory

  function Fail(errno: int): Result {
    Done(-errno, [])
  }

  /** struct aesd_dev, the allocations behind it, and the position of each open file. A fresh file is at 0. */
  datatype Dev = Dev(ring: Ring, pending: Entry, heap: Heap, locked: bool, pos: map<Handle, nat>) {
    function Pos(h: Handle): nat {
      if h in pos then pos[h] else 0
    }

    function MoveTo(h: Handle, p: nat): Dev {
      this.(pos := pos[h := p])
    }
  }

  type Device = s: Dev | |s.ring.slots| == SLOTS && s.ring.inOffs < SLOTS && s.ring.outOffs < SLOTS
    witness INITIAL

  /** The device after aesd_init_module. */
  const INITIAL := Dev(EMPTY_RING, Entry(NULL, 0), map[], false, map[])

  function ReadStep(s: Device, h: Handle, count: nat, fault: bool): (Device, Result) {
    match Find(s.ring, s.Pos(h))
    case None => (s, Done(0, []))
    case Some((i, off)) =>
      FindLocates(s.ring, s.Pos(h));
      var e := s.ring.slots[i];
      var n := Min(count, e.size - off);
      if n == 0 then (s, Done(0, []))
      else if e.ptr !in s.heap || off + n > |s.heap[e.ptr]| then (s, BadMemory)
      else if fault then (s, Fail(EFAULT))
      else (s.MoveTo(h, s.Pos(h) + n), Done(n, s.heap[e.ptr][off..off + n]))
  }

  /** Moves the finished pending buffer into the ring and frees what it displaced. */
  function Commit(s: Device): Option<Device> {
    var (ring, replaced) := Add(s.ring, s.pending);
    match Kfree(s.heap, replaced)
    case None => None
    case Some(heap) => Some(s.(ring := ring, heap := heap, pending := Entry(NULL, 0)))
  }

  /** The caller's bytes are copied behind the pending ones; a buffer that holds a newline is handed over whole. */
  function Store(s: Device, h: Handle, data: seq<byte>, q: nat, heap: Heap): (Device, Result)
    requires q in heap && s.pending.size <= |heap[q]|
  {
    var bytes := heap[q][..s.pending.size] + data;
    var s1 := s.(heap := heap[q := bytes], pending := Entry(q, |bytes|)).MoveTo(h, s.Pos(h) + |data|);
    if NEWLINE !in bytes then (s1, Done(|data|, []))
    else
      match Commit(s1)
      case None => (s, BadMemory)
      case Some(s2) => (s2, Done(|data|, []))
  }

  function WriteStep(s: Device, h: Handle, data: seq<byte>, alloc: Alloc, fault: bool): (Device, Result) {
    var size := s.pending.size + |data|;
    match Krealloc(s.heap, s.pending.ptr, size, alloc)
    case BadPointer => (s, BadMemory)
    case Denied => (s, Fail(EFAULT))
    case Block(q, heap) =>
      if fault && data != [] then (s.(heap := heap), Fail(EFAULT))
      else if size == 0 then (s.(heap := heap, pending := Entry(q, 0)).MoveTo(h, s.Pos(h)), Done(0, []))
      else Store(s, h, data, q, heap)
  }

  /** The position a seek asks for, in the 64-bit arithmetic of loff_t; none for an unknown `whence`. */
  function SeekTarget(pos: nat, size: nat, off: loff, whence: nat): Option<int> {
    if whence == 0 then Some(off)
    else if whence == 1 then Some(Signed(pos + off, 0x1_0000_0000_0000_0000))
    else if whence == 2 then Some(Signed(size + off, 0x1_0000_0000_0000_0000))
    else None
  }

  /** Both error returns leave the lock taken. */
  function LlseekStep(s: Device, h: Handle, off: loff, whence: nat): (Device, Result) {
    match SeekTarget(s.Pos(h), Sum(s.ring.slots), off, whence)
    case None => (s.(locked := true), Fail(EINVAL))
    case Some(p) =>
      if p < 0 then (s.(locked := true), Fail(EINVAL))
      else (s.MoveTo(h, p), Done(p, []))
  }

  /** A null argument and an invalid seek leave the lock taken. The command number selects a storage slot. */
  function IoctlStep(s: Device, h: Handle, request: Request): (Device, Result) {
    match request
    case NullArg => (s.(locked := true), Fail(EFAULT))
    case BadArg => (s, Fail(EFAULT))
    case Other => (s, Done(0, []))
    case SeekTo(cmd, off) =>
      if cmd > 9 then (s.(locked := true), Fail(EINVAL))
      else if off >= s.ring.slots[cmd].size then (s.(locked := true), Fail(EINVAL))
      else (s.MoveTo(h, Sum(s.ring.slots[..cmd]) + off), Done(0, []))
  }

  function Step(s: Device, op: Op): (Device, Result) {
    if op.Interrupted? then (s, Fail(ERESTARTSYS))
    else if s.locked then (s, Blocked)
    else
      match op
      case Read(h, count, fault) => ReadStep(s, h, count, fault)
      case Write(h, data, alloc, fault) => WriteStep(s, h, data, alloc, fault)
      case Llseek(h, off, whence) => LlseekStep(s, h, off, whence)
      case Ioctl(h, request) => IoctlStep(s, h, request)
  }

  function Run(s: Device, ops: seq<Op>): Device
    decreases |ops|
  {
    if ops == [] then s else Run(Step(s, ops[0]).0, ops[1..])
  }

  function Results(s: Device, ops: seq<Op>): (rs: seq<Result>)
    ensures |rs| == |ops|
    decreases |ops|
  {
    if ops == [] then [] else [Step(s, ops[0]).1] + Results(Step(s, ops[0]).0, ops[1..])
  }

  /** aesd_cleanup_module: frees the slots in storage order. */
  function FreeSlots(heap: Heap, slots: seq<Entry>): Option<Heap> {
    if slots == [] then Some(heap)
    else
      match FreeSlots(heap, slots[..|slots| - 1])
      case None => None
      case Some(rest) => Kfree(rest, slots[|slots| - 1].ptr)
  }
}
