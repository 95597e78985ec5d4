/** Every error a caller of the driver can see, and exactly when; and that dead memory is noticed. */
module Errors {
  import opened Bytes
  import opened CircularBuffer
  import opened Driver
  import opened FileSpec
  import opened Refinement
  import opened Seeking

  /** A copy from or to the caller fails, or there is no memory for what is stored. */
  predicate Faults(a: File, op: Op) {
    match op
    case Read(h, count, fault) => fault && count > 0 && a.Pos(h) < |a.Content()|
    case Write(h, data, alloc, fault) => (alloc.NoMemory? && a.pending + data != []) || (fault && data != [])
    case Ioctl(h, request) => request.NullArg? || request.BadArg?
    case _ => false
  }

  /** A seek to nowhere, or to a byte no slot stores. */
  predicate Invalid(a: File, op: Op) {
    match op
    case Llseek(h, off, whence) => BadSeek(a, h, off, whence)
    case Ioctl(h, SeekTo(cmd, off)) => cmd > 9 || off >= |Slot(a.hist, cmd)|
    case _ => false
  }

  predicate InRange(a: File, op: Op) {
    op.Llseek? && op.whence <= 2 ==> Base(a, op.h, op.whence) + op.off < 0x1_0000_0000_0000_0000
  }

  lemma FileErrors(a: File, op: Op)
    requires InRange(a, op) && !op.Interrupted? && !a.locked
    ensures var r := FileStep(a, op).1;
            if Faults(a, op) then r == Done(-14, [])
            else if Invalid(a, op) then r == Done(-22, [])
            else r.Done? && r.ret >= 0
  {
    match op
    case Read(h, count, fault) =>
      PiecesAreTheRest(a.Commands(), a.Pos(h));
      hide Pieces, Last, Flat;
    case Llseek(h, off, whence) =>
      if whence <= 2 {
        WrapsToNegative(Base(a, h, whence) + off);
      }
    case _ =>
  }

  /** An interrupted call answers -512; a call to a locked driver waits; a fault answers -14 and an invalid request -22,
      and every other call succeeds. */
  lemma ErrorsIff(s: Device, a: File, op: Op)
    requires Refines(s, a) && Possible(s, op) && !LosesPending(s, op) && InRange(a, op)
    ensures var r := Step(s, op).1;
            if op.Interrupted? then r == Done(-512, [])
            else if s.locked then r == Blocked
            else if Faults(a, op) then r == Done(-14, [])
            else if Invalid(a, op) then r == Done(-22, [])
            else r.Done? && r.ret >= 0
  {
    StepRefines(s, a, op);
    SameLock(s, a);
    hide Refines, FileStep, Faults, Invalid;
    if !op.Interrupted? && !s.locked {
      FileErrors(a, op);
      hide Step;
    }
  }

  /** With nothing pending, a write of no bytes is granted the zero-size address, stores nothing and answers 0. */
  lemma EmptyWrite(s: Device, a: File, h: Handle, alloc: Alloc, fault: bool)
    requires Refines(s, a) && !s.locked && a.pending == []
    ensures Step(s, Write(h, [], alloc, fault)) == (s.(pending := Entry(16, 0)).MoveTo(h, s.Pos(h)), Done(0, []))
  {
    assert Holds(s.heap, Entries(s)[10], Stored(a)[10]);
    assert s.heap - {s.pending.ptr} == s.heap;
    hide Refines;
  }

  // ---- dead memory ----

  predicate Dead(heap: Heap, p: nat) {
    IsBlock(p) && p !in heap
  }

  /** In any state whatever: reallocating a dead pending buffer, reading from a slot whose block is dead, and displacing a
      slot whose block is dead each answer `BadMemory`, and change nothing. */
  lemma DeadMemoryIsNoticed(s: Device, h: Handle)
    requires !s.locked
    ensures forall data, alloc, fault :: Dead(s.heap, s.pending.ptr) ==>
              Step(s, Write(h, data, alloc, fault)) == (s, BadMemory)
    ensures forall i, off, count, fault ::
              Find(s.ring, s.Pos(h)) == Some((i, off)) && i < 10 && s.ring.slots[i].ptr !in s.heap && count > 0
              && off < s.ring.slots[i].size ==>
                Step(s, Read(h, count, fault)) == (s, BadMemory)
    ensures forall data, q, fill ::
              Dead(s.heap, s.ring.slots[s.ring.inOffs].ptr) && s.pending == Entry(NULL, 0)
              && NEWLINE in data && IsBlock(q) && q !in s.heap && q != s.ring.slots[s.ring.inOffs].ptr ==>
                Step(s, Write(h, data, Moved(q, fill), false)) == (s, BadMemory)
  {
  }

  /** Freeing a block twice is noticed. */
  lemma SecondFreeFails(heap: Heap, p: nat)
    requires IsBlock(p) && p in heap
    ensures Kfree(heap, p).Some? && Kfree(Kfree(heap, p).value, p) == None
  {
  }
}
