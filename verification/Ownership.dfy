/** Who owns which allocation, over whole runs and at module removal. */
module Ownership {
  import opened Bytes
  import opened CircularBuffer
  import opened Driver
  import opened FileSpec
  import opened Refinement

  /** The blocks the entries own. */
  function Owned(es: seq<Entry>): set<nat> {
    set i | 0 <= i < |es| && es[i].size > 0 :: es[i].ptr
  }

  /** The live allocations are exactly the stored commands and the pending one. */
  ghost predicate Exact(s: Device) {
    s.heap.Keys == Owned(Entries(s))
  }

  /** The live allocations nobody owns. */
  function Strays(s: Device): set<nat> {
    s.heap.Keys - Owned(Entries(s))
  }

  /** While the device stands for a file every owned block is live, so exact ownership means no strays. */
  lemma ExactMeansNoStrays(s: Device, a: File)
    requires Refines(s, a)
    ensures Owned(Entries(s)) <= s.heap.Keys
    ensures Exact(s) <==> Strays(s) == {}
  {
    var es := Entries(s);
    forall p | p in Owned(es)
      ensures p in s.heap
    {
      var i :| 0 <= i < |es| && es[i].size > 0 && es[i].ptr == p;
      assert Holds(s.heap, es[i], Stored(a)[i]);
    }
    hide Refines, Owned, Entries;
    if Strays(s) == {} {
      assert forall p :: p in s.heap.Keys ==> p !in Strays(s);
    }
  }

  lemma OwnedAfterUpdate(es: seq<Entry>, i: nat, e: Entry)
    requires i < |es| && Distinct(es)
    requires e.size > 0 ==> forall j :: 0 <= j < |es| && j != i && es[j].size > 0 ==> es[j].ptr != e.ptr
    ensures Owned(es[i := e]) == Owned(es) - OwnedBy(es[i]) + OwnedBy(e)
    ensures Distinct(es[i := e])
  {
    var es' := es[i := e];
    forall p
      ensures p in Owned(es') <==> p in Owned(es) - OwnedBy(es[i]) + OwnedBy(e)
    {
      if p in Owned(es) - OwnedBy(es[i]) {
        var k :| 0 <= k < |es| && es[k].size > 0 && es[k].ptr == p;
        assert es'[k] == es[k];
      }
      if p in OwnedBy(e) {
        assert es'[i] == e;
      }
      if p in Owned(es') {
        var k :| 0 <= k < |es'| && es'[k].size > 0 && es'[k].ptr == p;
        if k != i {
          assert es[k] == es'[k];
        }
      }
    }
  }

  /** A fresh block, or the pending entry's own, is not the block of any slot. */
  lemma BlockIsUnowned(s: Device, a: File, q: nat)
    requires Refines(s, a)
    requires q !in s.heap || (q == s.pending.ptr && s.pending.size > 0)
    ensures Distinct(Entries(s))
    ensures forall j :: 0 <= j < 10 && Entries(s)[j].size > 0 ==> Entries(s)[j].ptr != q
  {
    var es := Entries(s);
    forall j | 0 <= j < 10 && es[j].size > 0
      ensures es[j].ptr != q
    {
      assert Holds(s.heap, es[j], Stored(a)[j]);
      assert es[10] == s.pending;
    }
  }

  /** Where the entries stand after the bytes are stored. */
  lemma StoreEntries(s: Device, h: Handle, data: seq<byte>, q: nat, heap: Heap)
    requires q in heap && |heap[q]| == s.pending.size + |data|
    requires Store(s, h, data, q, heap).1.Done?
    ensures var s' := Store(s, h, data, q, heap).0;
            var e := Entry(q, |heap[q]|);
            Entries(s') == if NEWLINE in heap[q][..s.pending.size] + data
                           then Entries(s)[10 := Entry(NULL, 0)][s.ring.inOffs := e]
                           else Entries(s)[10 := e]
  {
  }

  /** Handing an entry over from place 10 to slot `i` moves its block and releases the one that was there. */
  lemma HandOver(es: seq<Entry>, i: nat, e: Entry)
    requires |es| == 11 && i < 10 && Distinct(es) && e.size > 0
    requires forall j :: 0 <= j < 10 && es[j].size > 0 ==> es[j].ptr != e.ptr
    ensures Owned(es[10 := Entry(NULL, 0)][i := e]) == Owned(es) - OwnedBy(es[10]) + {e.ptr} - OwnedBy(es[i])
  {
    var es1 := es[10 := Entry(NULL, 0)];
    OwnedAfterUpdate(es, 10, Entry(NULL, 0));
    OwnedAfterUpdate(es1, i, e);
    assert es1[i] == es[i];
  }

  /** A write that stores its bytes moves ownership and allocation alike. */
  lemma StoreStrays(s: Device, a: File, h: Handle, data: seq<byte>, g: Grant)
    requires Refines(s, a) && g.Block? && s.pending.size + |data| > 0
    requires g.ptr in g.heap && |g.heap[g.ptr]| == s.pending.size + |data| && g.heap[g.ptr][..s.pending.size] == a.pending
    requires g.heap.Keys == s.heap.Keys - OwnedBy(s.pending) + {g.ptr}
    requires g.ptr !in s.heap || (g.ptr == s.pending.ptr && s.pending.size > 0)
    requires var (s', r) := Store(s, h, data, g.ptr, g.heap);
             r == Done(|data|, []) &&
             s'.heap.Keys == g.heap.Keys - (if NEWLINE in a.pending + data then OwnedBy(s.ring.slots[s.ring.inOffs]) else {})
    ensures Strays(Store(s, h, data, g.ptr, g.heap).0) == Strays(s)
  {
    hide Refines;
    var es := Entries(s);
    var i := s.ring.inOffs;
    var e := Entry(g.ptr, s.pending.size + |data|);
    assert es[10] == s.pending && es[i] == s.ring.slots[i];
    BlockIsUnowned(s, a, g.ptr);
    ExactMeansNoStrays(s, a);
    OwnedParts(es, 10);
    OwnedParts(es, i);
    StoreEntries(s, h, data, g.ptr, g.heap);
    if NEWLINE in a.pending + data {
      HandOver(es, i, e);
    } else {
      OwnedAfterUpdate(es, 10, e);
    }
    hide Store, Owned, OwnedBy, Entries, Distinct;
  }

  lemma OwnedParts(es: seq<Entry>, i: nat)
    requires i < |es|
    ensures OwnedBy(es[i]) <= Owned(es)
  {
  }

  lemma OnlyWritesTouchMemory(s: Device, op: Op)
    requires !op.Write? || s.locked
    ensures Entries(Step(s, op).0) == Entries(s) && Step(s, op).0.heap == s.heap
    ensures Step(s, op).0.pending == s.pending
  {
  }

  /** The block an operation drops. */
  function Dropped(s: Device, op: Op): set<nat> {
    if Strands(s, op) then {op.alloc.to} else {}
  }

  /** An operation that does not lose the pending command adds to the strays exactly the block it drops. */
  lemma StraysStep(s: Device, a: File, op: Op)
    requires Refines(s, a) && Possible(s, op) && !LosesPending(s, op)
    ensures Strays(Step(s, op).0) == Strays(s) + Dropped(s, op)
  {
    hide Refines;
    if !op.Write? || s.locked {
      OnlyWritesTouchMemory(s, op);
    } else {
      WriteStrays(s, a, op.h, op.data, op.alloc, op.fault);
    }
  }

  lemma WriteStrays(s: Device, a: File, h: Handle, data: seq<byte>, alloc: Alloc, fault: bool)
    requires Refines(s, a) && !s.locked
    requires Possible(s, Write(h, data, alloc, fault)) && !LosesPending(s, Write(h, data, alloc, fault))
    ensures Strays(WriteStep(s, h, data, alloc, fault).0) == Strays(s) + Dropped(s, Write(h, data, alloc, fault))
  {
    hide Refines, Strays;
    PendingSize(s, a);
    if s.pending.size + |data| == 0 {
      EmptyWriteStrays(s, a, h, alloc, fault);
    } else {
      GrantExtends(s, a, data, alloc);
      var g := Krealloc(s.heap, s.pending.ptr, s.pending.size + |data|, alloc);
      WriteBranches(s, a, h, data, alloc, fault, g);
      if !alloc.NoMemory? {
        if fault && data != [] {
          FaultStrays(s, a, g);
        } else {
          CopyRefines(s, a, h, data, g);
          StoreStrays(s, a, h, data, g);
        }
      }
    }
  }

  lemma EmptyWriteStrays(s: Device, a: File, h: Handle, alloc: Alloc, fault: bool)
    requires Refines(s, a) && !s.locked && s.pending.size == 0
    ensures Strays(WriteStep(s, h, [], alloc, fault).0) == Strays(s)
  {
    var s' := WriteStep(s, h, [], alloc, fault).0;
    assert Holds(s.heap, Entries(s)[10], Stored(a)[10]);
    OwnedAfterUpdate(Entries(s), 10, s'.pending);
    assert Entries(s') == Entries(s)[10 := s'.pending];
  }

  lemma FaultStrays(s: Device, a: File, g: Grant)
    requires Refines(s, a) && g.Block?
    requires g.heap.Keys == s.heap.Keys - OwnedBy(s.pending) + {g.ptr}
    requires if s.pending.size > 0 then g.ptr == s.pending.ptr && g.ptr in s.heap else g.ptr !in s.heap
    ensures Strays(s.(heap := g.heap)) == Strays(s) + if g.ptr in s.heap then {} else {g.ptr}
  {
    ExactMeansNoStrays(s, a);
    assert Entries(s.(heap := g.heap)) == Entries(s);
    hide Refines, Entries, Owned;
  }

  /** The pending entry has bytes, and no memory. */
  predicate Dangling(s: Device) {
    s.pending.size > 0 && IsBlock(s.pending.ptr) && s.pending.ptr !in s.heap
  }

  lemma LosingDangles(s: Device, a: File, op: Op)
    requires Refines(s, a) && Possible(s, op) && LosesPending(s, op)
    ensures Dangling(Step(s, op).0)
  {
    assert Holds(s.heap, Entries(s)[10], Stored(a)[10]);
    hide Refines;
  }

  lemma DanglingIsNeither(s: Device)
    requires Dangling(s)
    ensures !Exact(s) && forall a: File :: !Refines(s, a)
  {
    var es := Entries(s);
    assert es[10].size > 0 && es[10].ptr in Owned(es);
    forall a: File
      ensures !AllHold(s.heap, es, Stored(a))
    {
      assert !Holds(s.heap, es[10], Stored(a)[10]);
    }
  }

  /** Every later write is refused as a use of freed memory, so it stays that way. */
  lemma {:induction false} DanglingStays(s: Device, ops: seq<Op>)
    requires Dangling(s)
    ensures Dangling(Run(s, ops))
    decreases |ops|
  {
    if ops != [] {
      if !ops[0].Write? || s.locked {
        OnlyWritesTouchMemory(s, ops[0]);
      }
      DanglingStays(Step(s, ops[0]).0, ops[1..]);
    }
  }

  /** Ownership stays exact through every operation but the one that drops a moved buffer, and that one always
      breaks it: with nothing pending the block leaks, otherwise the pending pointer dangles as well. */
  lemma OwnershipStep(s: Device, a: File, op: Op)
    requires Refines(s, a) && Exact(s) && Possible(s, op)
    ensures Exact(Step(s, op).0) <==> !Strands(s, op)
  {
    hide Refines, Exact, Step;
    if LosesPending(s, op) {
      LosingDangles(s, a, op);
      DanglingIsNeither(Step(s, op).0);
    } else {
      StraysStep(s, a, op);
      StepRefines(s, a, op);
      ExactMeansNoStrays(s, a);
      ExactMeansNoStrays(Step(s, op).0, FileStep(a, op).0);
    }
  }

  // ---- whole runs ----

  /** The allocator behaves all along the run. */
  predicate AllPossible(s: Device, ops: seq<Op>)
    decreases |ops|
  {
    ops == [] || (Possible(s, ops[0]) && AllPossible(Step(s, ops[0]).0, ops[1..]))
  }

  /** The allocator behaves and no moved buffer is dropped, all along the run. */
  predicate Clean(s: Device, ops: seq<Op>)
    decreases |ops|
  {
    ops == [] || (Possible(s, ops[0]) && !Strands(s, ops[0]) && Clean(Step(s, ops[0]).0, ops[1..]))
  }

  /** All the blocks a run drops. */
  function Drops(s: Device, ops: seq<Op>): set<nat>
    decreases |ops|
  {
    if ops == [] then {} else Dropped(s, ops[0]) + Drops(Step(s, ops[0]).0, ops[1..])
  }

  /** While no pending command is lost, a run adds to the strays exactly the blocks it drops: none is ever owned or freed
      again. */
  lemma {:induction false} StraysRun(s: Device, a: File, ops: seq<Op>)
    requires Refines(s, a) && Keeps(s, ops)
    ensures Strays(Run(s, ops)) == Strays(s) + Drops(s, ops)
    ensures Drops(s, ops) == {} <==> Clean(s, ops)
    decreases |ops|
  {
    if ops != [] {
      hide Refines, Strays, Step, Strands, Possible;
      StraysStep(s, a, ops[0]);
      StepRefines(s, a, ops[0]);
      StraysRun(Step(s, ops[0]).0, FileStep(a, ops[0]).0, ops[1..]);
    }
  }

  lemma {:induction false} CleanKeeps(s: Device, ops: seq<Op>)
    requires Clean(s, ops)
    ensures Keeps(s, ops)
    decreases |ops|
  {
    if ops != [] {
      hide Step, Possible;
      CleanKeeps(Step(s, ops[0]).0, ops[1..]);
    }
  }

  /** A run that loses a pending command ends with it dangling. */
  lemma {:induction false} LosingRunDangles(s: Device, a: File, ops: seq<Op>)
    requires Refines(s, a) && AllPossible(s, ops) && !Keeps(s, ops)
    ensures Dangling(Run(s, ops))
    decreases |ops|
  {
    hide Refines, Step, FileStep, Possible, LosesPending, Dangling;
    if LosesPending(s, ops[0]) {
      LosingDangles(s, a, ops[0]);
      DanglingStays(Step(s, ops[0]).0, ops[1..]);
    } else {
      StepRefines(s, a, ops[0]);
      LosingRunDangles(Step(s, ops[0]).0, FileStep(a, ops[0]).0, ops[1..]);
    }
  }

  /** Over a run the device still stands for a file at the end exactly when no write of the run lost a pending command. */
  lemma KeepsIff(s: Device, a: File, ops: seq<Op>)
    requires Refines(s, a) && AllPossible(s, ops)
    ensures Keeps(s, ops) <==> exists b: File :: Refines(Run(s, ops), b)
  {
    hide Refines, Run, Step, FileStep, AllPossible, Keeps;
    if Keeps(s, ops) {
      RunRefines(s, a, ops);
    } else {
      LosingRunDangles(s, a, ops);
      DanglingIsNeither(Run(s, ops));
    }
  }

  /** From exact ownership, it is exact at the end of a run exactly when no operation of the run dropped a moved buffer. */
  lemma OwnershipRunIff(s: Device, a: File, ops: seq<Op>)
    requires Refines(s, a) && Exact(s) && AllPossible(s, ops)
    ensures Exact(Run(s, ops)) <==> Clean(s, ops)
  {
    hide Refines, Exact, Run, Step, FileStep, AllPossible, Keeps, Clean, Drops;
    if Keeps(s, ops) {
      StraysRun(s, a, ops);
      RunRefines(s, a, ops);
      ExactMeansNoStrays(s, a);
      ExactMeansNoStrays(Run(s, ops), FileRun(a, ops));
    } else {
      LosingRunDangles(s, a, ops);
      DanglingIsNeither(Run(s, ops));
      if Clean(s, ops) {
        CleanKeeps(s, ops);
      }
    }
  }

  /** Over any run since the module was loaded: the live blocks are exactly those of the ten slots and the pending entry
      if and only if no operation dropped a moved buffer; and then they own pairwise different blocks, and no freed block
      was ever freed again or read. */
  lemma OwnershipOfAnyRun(ops: seq<Op>)
    requires AllPossible(INITIAL, ops)
    ensures Exact(Run(INITIAL, ops)) <==> Clean(INITIAL, ops)
    ensures Clean(INITIAL, ops) ==> Distinct(Entries(Run(INITIAL, ops))) && BadMemory !in Results(INITIAL, ops)
  {
    InitialRefines();
    OwnershipRunIff(INITIAL, EMPTY_FILE, ops);
    if Clean(INITIAL, ops) {
      CleanKeeps(INITIAL, ops);
      HistoryOfAnyRun(ops);
    }
  }

  // ---- module removal ----

  lemma OwnedSnoc(es: seq<Entry>, e: Entry)
    ensures Owned(es + [e]) == Owned(es) + OwnedBy(e)
    ensures Distinct(es + [e]) && e.size > 0 ==> e.ptr !in Owned(es)
  {
    var all := es + [e];
    forall p | p in Owned(es) + OwnedBy(e)
      ensures p in Owned(all)
    {
      if p in Owned(es) {
        var k :| 0 <= k < |es| && es[k].size > 0 && es[k].ptr == p;
        assert all[k] == es[k];
      } else {
        assert all[|es|] == e;
      }
    }
    if Distinct(all) && e.size > 0 {
      forall k | 0 <= k < |es| && es[k].size > 0
        ensures es[k].ptr != e.ptr
      {
        assert all[k] == es[k] && all[|es|] == e;
      }
    }
  }

  lemma {:induction false} FreeingSlots(heap: Heap, slots: seq<Entry>)
    requires Distinct(slots)
    requires forall i :: 0 <= i < |slots| ==>
               if slots[i].size > 0 then IsBlock(slots[i].ptr) && slots[i].ptr in heap else !IsBlock(slots[i].ptr)
    ensures FreeSlots(heap, slots) == Some(heap - Owned(slots))
  {
    if slots == [] {
      assert heap - Owned(slots) == heap;
    } else {
      var n := |slots| - 1;
      FreeingSlots(heap, slots[..n]);
      var last := slots[n];
      assert slots == slots[..n] + [last];
      OwnedSnoc(slots[..n], last);
      var rest := heap - Owned(slots[..n]);
      if last.size > 0 {
        assert rest - {last.ptr} == heap - Owned(slots);
      } else {
        assert rest == heap - Owned(slots);
      }
    }
  }

  lemma SlotsAreFreeable(s: Device, a: File)
    requires Refines(s, a)
    ensures Distinct(s.ring.slots)
    ensures forall i :: 0 <= i < 10 ==>
              if s.ring.slots[i].size > 0 then IsBlock(s.ring.slots[i].ptr) && s.ring.slots[i].ptr in s.heap
              else !IsBlock(s.ring.slots[i].ptr)
  {
    var slots, es := s.ring.slots, Entries(s);
    forall i | 0 <= i < 10
      ensures if slots[i].size > 0 then IsBlock(slots[i].ptr) && slots[i].ptr in s.heap else !IsBlock(slots[i].ptr)
    {
      assert Holds(s.heap, es[i], Stored(a)[i]);
    }
    forall i, j | 0 <= i < j < 10 && slots[i].size > 0 && slots[j].size > 0
      ensures slots[i].ptr != slots[j].ptr
    {
      assert es[i] == slots[i] && es[j] == slots[j];
    }
  }

  /** Module removal frees every stored command once and frees nothing else. The pending buffer and the strays are not
      freed: they are what remains allocated. */
  lemma CleanupLeaves(s: Device, a: File)
    requires Refines(s, a)
    ensures FreeSlots(s.heap, s.ring.slots).Some?
    ensures FreeSlots(s.heap, s.ring.slots).value.Keys == OwnedBy(s.pending) + Strays(s)
    ensures OwnedBy(s.pending) == {} <==> a.pending == []
  {
    PendingSize(s, a);
    SlotsAreFreeable(s, a);
    FreeingSlots(s.heap, s.ring.slots);
    OwnedSnoc(s.ring.slots, s.pending);
    ExactMeansNoStrays(s, a);
    assert Distinct(Entries(s)) && Entries(s) == s.ring.slots + [s.pending];
    hide Refines, FreeSlots, Entries, Owned, Distinct;
  }

  /** Removal after any run since the module was loaded that lost no pending command frees all but an unterminated
      command and the blocks dropped on the way. */
  lemma CleanupAfterAnyRun(ops: seq<Op>)
    requires Keeps(INITIAL, ops)
    ensures var s := Run(INITIAL, ops);
            FreeSlots(s.heap, s.ring.slots).Some?
            && FreeSlots(s.heap, s.ring.slots).value.Keys == OwnedBy(s.pending) + Drops(INITIAL, ops)
            && (FreeSlots(s.heap, s.ring.slots) == Some(map[]) <==> s.pending.size == 0 && Clean(INITIAL, ops))
  {
    InitialRefines();
    RunRefines(INITIAL, EMPTY_FILE, ops);
    StraysRun(INITIAL, EMPTY_FILE, ops);
    assert Strays(INITIAL) == {};
    var s := Run(INITIAL, ops);
    hide Refines, Strays, FreeSlots, Clean, Drops, Run, FileRun, Keeps;
    CleanupLeaves(s, FileRun(EMPTY_FILE, ops));
    PendingSize(s, FileRun(EMPTY_FILE, ops));
    var left := FreeSlots(s.heap, s.ring.slots).value;
    assert left == map[] <==> left.Keys == {};
  }

  // ---- the operation that breaks it ----

  /** A first write that moves and then fails to copy: nothing is stored and the block is lost. */
  lemma LeakWitness()
    ensures var op := Write(0, [1], Moved(100, 0), true);
            Strands(INITIAL, op) && Possible(INITIAL, op)
            && Step(INITIAL, op).1 == Fail(EFAULT)
            && Step(INITIAL, op).0 == INITIAL.(heap := map[100 := [0]])
  {
    assert Resized([], 1, 0) == [0];
  }

  /** The same after an unterminated write: the pending pointer is left dangling and the next write uses it. */
  lemma DanglingWitness()
    ensures var ops := [Write(0, [1], Moved(100, 0), false), Write(0, [2], Moved(101, 0), true), Write(0, [3], NoMemory, false)];
            Results(INITIAL, ops) == [Done(1, []), Fail(EFAULT), BadMemory]
  {
    var op0, op1, op2 := Write(0, [1], Moved(100, 0), false), Write(0, [2], Moved(101, 0), true), Write(0, [3], NoMemory, false);
    var s1 := Step(INITIAL, op0).0;
    assert s1.pending == Entry(100, 1) && s1.heap.Keys == {100} && !s1.locked;
    var s2 := Step(s1, op1).0;
    assert s2.pending == Entry(100, 1) && s2.heap.Keys == {101} && !s2.locked;
    assert Step(s2, op2).1 == BadMemory;
    assert [op0, op1, op2][1..] == [op1, op2] && [op1, op2][1..] == [op2];
    assert Results(s2, [op2]) == [BadMemory];
    assert Results(s1, [op1, op2]) == [Fail(EFAULT)] + Results(s2, [op2]);
  }
}
