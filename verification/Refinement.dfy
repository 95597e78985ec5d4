/** The driver, with its ring, buffers and allocator, implements the file of `FileSpec`: same answers, operation by
    operation, over every run. */
module Refinement {
  import opened Bytes
  import opened CircularBuffer
  import opened Driver
  import opened FileSpec

  /** An entry stores exactly these bytes in a live block, or stores nothing and has no block. */
  ghost predicate Holds(heap: Heap, e: Entry, bytes: seq<byte>) {
    && e.size == |bytes|
    && (if bytes == [] then !IsBlock(e.ptr)
        else IsBlock(e.ptr) && e.ptr in heap && e.size <= |heap[e.ptr]| && heap[e.ptr][..e.size] == bytes)
  }

  /** The ten slots, then the pending entry. */
  function Entries(s: Device): (es: seq<Entry>)
    ensures |es| == 11
  {
    s.ring.slots + [s.pending]
  }

  function Stored(a: File): (parts: seq<seq<byte>>)
    ensures |parts| == 11
  {
    Slots(a.hist) + [a.pending]
  }

  ghost predicate AllHold(heap: Heap, es: seq<Entry>, parts: seq<seq<byte>>) {
    |es| == |parts| && forall i :: 0 <= i < |es| ==> Holds(heap, es[i], parts[i])
  }

  /** No block is owned twice. */
  ghost predicate Distinct(es: seq<Entry>) {
    forall i, j :: 0 <= i < j < |es| && es[i].size > 0 && es[j].size > 0 ==> es[i].ptr != es[j].ptr
  }

  function OldestSlot(n: nat): nat {
    if n < 10 then 0 else n % 10
  }

  /** The ring's indices count commands. */
  ghost predicate CountsTo(r: Ring, n: nat) {
    r.inOffs == n % 10 && r.outOffs == OldestSlot(n) && r.full == (n >= 10)
  }

  /** The device stands for the file. */
  ghost predicate Refines(s: Device, a: File) {
    && a.Valid()
    && CountsTo(s.ring, |a.hist|)
    && AllHold(s.heap, Entries(s), Stored(a))
    && Distinct(Entries(s))
    && s.locked == a.locked
    && s.pos == a.pos
    && NULL !in s.heap && ZERO_SIZE_PTR !in s.heap
  }

  /** An allocator can leave a live block where it is, or hand out an address that is not live. */
  predicate Possible(s: Device, op: Op) {
    op.Write? && !s.locked && s.pending.size + |op.data| > 0 ==>
      match op.alloc
      case NoMemory => true
      case InPlace(_) => s.pending.ptr in s.heap
      case Moved(q, _) => IsBlock(q) && q !in s.heap
  }

  /** The reallocated buffer moved and then the copy from the caller failed, so its new address is dropped. */
  predicate Strands(s: Device, op: Op) {
    op.Write? && !s.locked && op.alloc.Moved? && op.fault && op.data != []
  }

  /** As above, and bytes of an unterminated command were in the buffer. */
  predicate LosesPending(s: Device, op: Op) {
    Strands(s, op) && s.pending.size > 0
  }

  lemma InitialRefines()
    ensures Refines(INITIAL, EMPTY_FILE)
  {
  }

  lemma SameLock(s: Device, a: File)
    requires Refines(s, a)
    ensures s.locked == a.locked
  {
  }

  // ---- storage order and reading order ----

  lemma {:induction false} SumIsLength(es: seq<Entry>, parts: seq<seq<byte>>)
    requires |es| == |parts|
    requires forall i :: 0 <= i < |es| ==> es[i].size == |parts[i]|
    ensures Sum(es) == |Flat(parts)|
  {
    if es != [] {
      var n := |es| - 1;
      SumIsLength(es[..n], parts[..n]);
      FlatTake(parts, n);
      assert parts[..n + 1] == parts;
    }
  }

  /** A slot holds a command exactly when its rank is among the readable ones, and then it is that one. */
  lemma SlotIsCommand(hist: seq<seq<byte>>, i: nat)
    requires i < 10
    ensures var j := Rank(OldestSlot(|hist|), i);
            if j < |Last(hist, 10)| then Slot(hist, i) == Last(hist, 10)[j] else Slot(hist, i) == []
  {
    var n := |hist|;
    var j := Rank(OldestSlot(n), i);
    if n < 10 {
      assert j == i;
      if i < n {
        assert (n + 9 - i) % 10 == n - 1 - i;
      } else {
        assert (n + 9 - i) % 10 == n + 9 - i;
      }
    } else {
      assert (n + 9 - i) % 10 == 9 - j;
    }
  }

  /** In reading order, everything before a slot's command is everything that precedes it in the file. */
  lemma BeforeIsPrefix(s: Device, a: File, i: nat)
    requires Refines(s, a) && i < 10
    ensures var j := Rank(s.ring.outOffs, i);
            if j < |a.Commands()| then BytesBefore(s.ring, i) == |Flat(a.Commands()[..j])| && Slot(a.hist, i) == a.Commands()[j]
            else s.ring.slots[i].size == 0
  {
    SlotIsCommand(a.hist, i);
    var o := s.ring.outOffs;
    var j := Rank(o, i);
    if j < |a.Commands()| {
      var es := Rotated(s.ring.slots, o)[..j];
      var parts := a.Commands()[..j];
      forall k | 0 <= k < j
        ensures es[k].size == |parts[k]|
      {
        RankInverse(o, k);
        RotatedAt(s.ring.slots, o, (o + k) % 10);
        SlotIsCommand(a.hist, (o + k) % 10);
        assert Holds(s.heap, Entries(s)[(o + k) % 10], Stored(a)[(o + k) % 10]);
      }
      SumIsLength(es, parts);
    } else {
      assert Holds(s.heap, Entries(s)[i], Stored(a)[i]);
    }
  }

  lemma SlotSizes(s: Device, a: File, i: nat)
    requires Refines(s, a) && i <= 10
    ensures Sum(s.ring.slots[..i]) == |Flat(Slots(a.hist)[..i])|
    ensures forall k :: 0 <= k < 10 ==> s.ring.slots[k].size == |Slot(a.hist, k)|
  {
    forall k | 0 <= k < 10
      ensures s.ring.slots[k].size == |Slots(a.hist)[k]|
    {
      assert Holds(s.heap, Entries(s)[k], Stored(a)[k]);
    }
    SumIsLength(s.ring.slots[..i], Slots(a.hist)[..i]);
  }

  /** The storage-order total of the slot sizes is the length of the file, rotated or not. */
  lemma TotalIsLength(s: Device, a: File)
    requires Refines(s, a)
    ensures Sum(s.ring.slots) == |a.Content()|
  {
    var o := s.ring.outOffs;
    var rot := Rotated(s.ring.slots, o);
    var n := |a.Commands()|;
    forall k | 0 <= k < 10
      ensures rot[k].size == if k < n then |a.Commands()[k]| else 0
    {
      RankInverse(o, k);
      RotatedAt(s.ring.slots, o, (o + k) % 10);
      SlotIsCommand(a.hist, (o + k) % 10);
      assert Holds(s.heap, Entries(s)[(o + k) % 10], Stored(a)[(o + k) % 10]);
    }
    var parts := a.Commands() + seq(10 - n, _ => []);
    SumIsLength(rot, parts);
    FlatAppend(a.Commands(), seq(10 - n, _ => []));
    FlatEmpties(seq(10 - n, _ => []));
    RotationKeepsSum(s.ring.slots, o);
  }

  // ---- one operation ----

  lemma MoveRefines(s: Device, a: File, h: Handle, p: nat)
    requires Refines(s, a)
    ensures Refines(s.MoveTo(h, p), a.MoveTo(h, p))
  {
    assert Entries(s.MoveTo(h, p)) == Entries(s);
  }

  lemma LockRefines(s: Device, a: File)
    requires Refines(s, a)
    ensures Refines(s.(locked := true), a.(locked := true))
  {
    assert Entries(s.(locked := true)) == Entries(s);
  }

  lemma SlotStores(s: Device, a: File, i: nat)
    requires Refines(s, a) && i < 10
    ensures var e := s.ring.slots[i];
            e.size == |Slot(a.hist, i)|
            && (e.size > 0 ==>
                  e.ptr in s.heap && e.size <= |s.heap[e.ptr]| && s.heap[e.ptr][..e.size] == Slot(a.hist, i))
  {
    assert Holds(s.heap, Entries(s)[i], Stored(a)[i]);
  }

  /** The stored bytes from a location on are the piece of the file that starts at the location's flat position. */
  lemma LocationIsPiece(s: Device, a: File, i: nat, off: nat)
    requires Refines(s, a) && i < 10 && off < s.ring.slots[i].size
    ensures var e := s.ring.slots[i];
            var rest := Pieces(a.Commands(), BytesBefore(s.ring, i) + off);
            e.ptr in s.heap && e.size <= |s.heap[e.ptr]| && rest != [] && rest[0] == s.heap[e.ptr][off..e.size]
  {
    hide Refines, BytesBefore, Rank, Slot, Pieces;
    SlotStores(s, a, i);
    BeforeIsPrefix(s, a, i);
    var j := Rank(s.ring.outOffs, i);
    PiecesAt(a.Commands(), j, off);
    var e := s.ring.slots[i];
    assert s.heap[e.ptr][off..e.size] == s.heap[e.ptr][..e.size][off..];
  }

  /** Where the lookup lands, the stored bytes from there on are the piece of the file a read may deliver from. */
  lemma FoundIsPiece(s: Device, a: File, p: nat)
    requires Refines(s, a)
    ensures match Find(s.ring, p)
            case None => Pieces(a.Commands(), p) == []
            case Some((i, off)) =>
              i < 10 && off < s.ring.slots[i].size
              && var e := s.ring.slots[i];
              e.ptr in s.heap && e.size <= |s.heap[e.ptr]|
              && Pieces(a.Commands(), p) != [] && Pieces(a.Commands(), p)[0] == s.heap[e.ptr][off..e.size]
  {
    hide Refines, Find, BytesBefore, Pieces;
    FindLocates(s.ring, p);
    match Find(s.ring, p)
    case None =>
      TotalIsLength(s, a);
      PiecesAreTheRest(a.Commands(), p);
    case Some((i, off)) =>
      LocationIsPiece(s, a, i, off);
  }

  /** The lookup is flat indexing: it fails exactly past the end of the file, and otherwise the byte stored where it
      points is the byte of the file it was asked for. */
  lemma LookupIsFlatIndexing(s: Device, a: File, k: nat)
    requires Refines(s, a)
    ensures Find(s.ring, k) == None <==> k >= |a.Content()|
    ensures match Find(s.ring, k)
            case None => true
            case Some((i, off)) =>
              i < 10 && off < s.ring.slots[i].size
              && s.ring.slots[i].ptr in s.heap && off < |s.heap[s.ring.slots[i].ptr]|
              && s.heap[s.ring.slots[i].ptr][off] == a.Content()[k]
  {
    hide Refines, Find, Pieces, Flat;
    FoundIsPiece(s, a, k);
    PiecesAreTheRest(a.Commands(), k);
    match Find(s.ring, k)
    case None =>
    case Some((i, off)) =>
      var rest := Pieces(a.Commands(), k);
      assert Flat(rest)[0] == rest[0][0] by {
        FlatHead(rest);
      }
  }

  lemma FlatHead(parts: seq<seq<byte>>)
    requires parts != []
    ensures parts[0] <= Flat(parts)
  {
  }

  lemma ReadAgrees(s: Device, a: File, h: Handle, count: nat, fault: bool)
    requires s.Pos(h) == a.Pos(h)
    requires match Find(s.ring, s.Pos(h))
             case None => Pieces(a.Commands(), s.Pos(h)) == []
             case Some((i, off)) =>
               i < 10 && off < s.ring.slots[i].size
               && var e := s.ring.slots[i];
               e.ptr in s.heap && e.size <= |s.heap[e.ptr]|
               && Pieces(a.Commands(), s.Pos(h)) != [] && Pieces(a.Commands(), s.Pos(h))[0] == s.heap[e.ptr][off..e.size]
    ensures var (s', r) := ReadStep(s, h, count, fault);
            var (a', r') := ReadFile(a, h, count, fault);
            r == r' && r.Done?
            && s' == (if r.data == [] then s else s.MoveTo(h, s.Pos(h) + |r.data|))
            && a' == (if r.data == [] then a else a.MoveTo(h, s.Pos(h) + |r.data|))
  {
    hide Find, Pieces, Last;
    match Find(s.ring, s.Pos(h))
    case None =>
    case Some((i, off)) =>
      var e := s.ring.slots[i];
      var n := Min(count, e.size - off);
      var piece := Pieces(a.Commands(), s.Pos(h))[0];
      SliceOfSlice(s.heap[e.ptr], off, e.size, n);
      assert |piece| == e.size - off && piece[..n] == s.heap[e.ptr][off..off + n];
      assert |piece[..n]| == n;
  }

  lemma ReadRefines(s: Device, a: File, h: Handle, count: nat, fault: bool)
    requires Refines(s, a)
    ensures Refines(ReadStep(s, h, count, fault).0, ReadFile(a, h, count, fault).0)
    ensures ReadStep(s, h, count, fault).1 == ReadFile(a, h, count, fault).1
  {
    FoundIsPiece(s, a, s.Pos(h));
    ReadAgrees(s, a, h, count, fault);
    MoveRefines(s, a, h, s.Pos(h) + |ReadFile(a, h, count, fault).1.data|);
  }

  lemma LlseekRefines(s: Device, a: File, h: Handle, off: loff, whence: nat)
    requires Refines(s, a)
    ensures Refines(LlseekStep(s, h, off, whence).0, SeekFile(a, h, off, whence).0)
    ensures LlseekStep(s, h, off, whence).1 == SeekFile(a, h, off, whence).1
  {
    TotalIsLength(s, a);
    LockRefines(s, a);
    match SeekTarget(s.Pos(h), |a.Content()|, off, whence)
    case Some(p) =>
      if p >= 0 {
        MoveRefines(s, a, h, p);
      }
    case None =>
  }

  lemma IoctlRefines(s: Device, a: File, h: Handle, request: Request)
    requires Refines(s, a)
    ensures Refines(IoctlStep(s, h, request).0, ControlFile(a, h, request).0)
    ensures IoctlStep(s, h, request).1 == ControlFile(a, h, request).1
  {
    LockRefines(s, a);
    match request
    case SeekTo(cmd, off) =>
      if cmd <= 9 {
        SlotSizes(s, a, cmd);
        MoveRefines(s, a, h, Sum(s.ring.slots[..cmd]) + off);
        hide Refines, Slot, Slots;
      }
    case _ =>
  }

  lemma NextLatest(n: nat, i: nat)
    requires i < 10
    ensures (n + 10 - i) % 10 == if i == n % 10 then 0 else (n + 9 - i) % 10 + 1
  {
    var m, r := n / 10, n % 10;
    if i <= r {
      assert n + 10 - i == 10 * (m + 1) + (r - i);
    } else {
      assert n + 10 - i == 10 * m + (10 + r - i);
    }
  }

  /** Storing one more command changes one slot. */
  lemma SlotsAfter(hist: seq<seq<byte>>, cmd: seq<byte>)
    ensures Slots(hist + [cmd]) == Slots(hist)[|hist| % 10 := cmd]
  {
    forall i | 0 <= i < 10
      ensures Slot(hist + [cmd], i) == if i == |hist| % 10 then cmd else Slot(hist, i)
    {
      NextLatest(|hist|, i);
    }
  }

  /** The block an entry owns, if any. */
  function OwnedBy(e: Entry): set<nat> {
    if e.size > 0 then {e.ptr} else {}
  }

  /** What handing the pending buffer to the ring does to the entries and the heap. */
  lemma CommitMoves(s: Device)
    requires var r := s.ring.slots[s.ring.inOffs]; if r.size > 0 then IsBlock(r.ptr) && r.ptr in s.heap else !IsBlock(r.ptr)
    ensures Commit(s).Some?
    ensures Entries(Commit(s).value) == Entries(s)[s.ring.inOffs := s.pending][10 := Entry(NULL, 0)]
    ensures Commit(s).value.heap == s.heap - OwnedBy(s.ring.slots[s.ring.inOffs])
    ensures Commit(s).value.pos == s.pos && Commit(s).value.locked == s.locked
    ensures Commit(s).value.ring == Add(s.ring, s.pending).0
  {
    if s.ring.slots[s.ring.inOffs].size == 0 {
      assert s.heap - {} == s.heap;
    }
  }

  lemma AddCounts(r: Ring, n: nat, e: Entry)
    requires r.Valid() && CountsTo(r, n)
    ensures CountsTo(Add(r, e).0, n + 1)
  {
    if n % 10 < 9 {
      assert (n + 1) % 10 == n % 10 + 1;
    }
  }

  /** Moving the pending entry into a slot leaves no block owned twice. */
  lemma HandedOverDistinct(es: seq<Entry>, i: nat)
    requires |es| == 11 && i < 10 && Distinct(es)
    ensures Distinct(es[i := es[10]][10 := Entry(NULL, 0)])
  {
    var es' := es[i := es[10]][10 := Entry(NULL, 0)];
    forall x, y | 0 <= x < y < 11 && es'[x].size > 0 && es'[y].size > 0
      ensures es'[x].ptr != es'[y].ptr
    {
      var x', y' := if x == i then 10 else x, if y == i then 10 else y;
      assert y != 10 && es'[x] == es[x'] && es'[y] == es[y'];
    }
  }

  /** Every entry still stores its bytes once the displaced block has been freed. */
  lemma HandedOverHolds(heap: Heap, es: seq<Entry>, parts: seq<seq<byte>>, i: nat)
    requires |es| == 11 && i < 10 && AllHold(heap, es, parts) && Distinct(es)
    ensures AllHold(heap - OwnedBy(es[i]), es[i := es[10]][10 := Entry(NULL, 0)], parts[i := parts[10]][10 := []])
  {
    var es', parts' := es[i := es[10]][10 := Entry(NULL, 0)], parts[i := parts[10]][10 := []];
    forall k | 0 <= k < 11
      ensures Holds(heap - OwnedBy(es[i]), es'[k], parts'[k])
    {
      if k < 10 {
        var k' := if k == i then 10 else k;
        assert es'[k] == es[k'] && parts'[k] == parts[k'];
        assert Holds(heap, es[k'], parts[k']) && k' != i;
      }
    }
  }

  /** Handing the pending buffer to the ring and freeing the displaced one. */
  lemma CommitRefines(s: Device, a: File, cmd: seq<byte>)
    requires NEWLINE in cmd
    requires a.Valid() && a.pending == []
    requires CountsTo(s.ring, |a.hist|)
    requires s.locked == a.locked && s.pos == a.pos
    requires AllHold(s.heap, Entries(s), Slots(a.hist) + [cmd])
    requires Distinct(Entries(s))
    requires NULL !in s.heap && ZERO_SIZE_PTR !in s.heap
    ensures Commit(s).Some? && Refines(Commit(s).value, a.(hist := a.hist + [cmd]))
    ensures Commit(s).value.heap == s.heap - OwnedBy(s.ring.slots[s.ring.inOffs])
  {
    var i := s.ring.inOffs;
    var es, parts := Entries(s), Slots(a.hist) + [cmd];
    assert es[i] == s.ring.slots[i] && es[10] == s.pending && CountsTo(s.ring, |a.hist|);
    assert Holds(s.heap, es[i], parts[i]);
    CommitMoves(s);
    AddCounts(s.ring, |a.hist|, s.pending);
    HandedOverDistinct(es, i);
    HandedOverHolds(s.heap, es, parts, i);
    SlotsAfter(a.hist, cmd);
    assert parts[i := parts[10]][10 := []] == Stored(a.(hist := a.hist + [cmd]));
    hide Commit, CountsTo, AllHold, Distinct, Stored, Entries;
  }

  /** The state between copying the caller's bytes and looking for the newline. */
  lemma ExtendHolds(s: Device, a: File, q: nat, heap: Heap, bytes: seq<byte>)
    requires Refines(s, a) && bytes != []
    requires IsBlock(q) && q in heap && heap[q] == bytes
    requires heap.Keys == s.heap.Keys - OwnedBy(s.pending) + {q}
    requires forall p :: p in s.heap && p != q && p != s.pending.ptr ==> heap[p] == s.heap[p]
    requires q !in s.heap || (q == s.pending.ptr && s.pending.size > 0)
    ensures AllHold(heap, s.ring.slots + [Entry(q, |bytes|)], Slots(a.hist) + [bytes])
    ensures Distinct(s.ring.slots + [Entry(q, |bytes|)])
  {
    var es := Entries(s);
    var es' := s.ring.slots + [Entry(q, |bytes|)];
    assert bytes[..|bytes|] == bytes;
    forall k | 0 <= k < 10
      ensures Holds(heap, es'[k], Slots(a.hist)[k])
      ensures es'[k].size > 0 ==> es'[k].ptr != q
    {
      assert Holds(s.heap, es[k], Stored(a)[k]);
      assert Holds(s.heap, es[10], Stored(a)[10]);
      if es[k].size > 0 && s.pending.size > 0 {
        assert es[k].ptr != es[10].ptr;
      }
    }
    forall i, j | 0 <= i < j < 11 && es'[i].size > 0 && es'[j].size > 0
      ensures es'[i].ptr != es'[j].ptr
    {
      assert es'[i] == es[i];
      if j < 10 {
        assert es'[j] == es[j];
      }
    }
  }

  /** The bytes a write leaves in the reallocated buffer, and the other blocks it leaves alone. */
  lemma GrantExtends(s: Device, a: File, data: seq<byte>, alloc: Alloc)
    requires Refines(s, a) && Possible(s, Write(0, data, alloc, false)) && !s.locked
    requires s.pending.size + |data| > 0
    ensures var g := Krealloc(s.heap, s.pending.ptr, s.pending.size + |data|, alloc);
            if alloc.NoMemory? then g == Denied
            else
              g.Block? && IsBlock(g.ptr) && g.ptr in g.heap
              && |g.heap[g.ptr]| == s.pending.size + |data|
              && g.heap[g.ptr][..s.pending.size] == a.pending
              && g.heap.Keys == s.heap.Keys - OwnedBy(s.pending) + {g.ptr}
              && (g.ptr !in s.heap || (g.ptr == s.pending.ptr && s.pending.size > 0))
              && (alloc.Moved? <==> g.ptr !in s.heap)
              && forall p :: p in s.heap && p != g.ptr && p != s.pending.ptr ==> g.heap[p] == s.heap[p]
  {
    assert Holds(s.heap, Entries(s)[10], Stored(a)[10]);
    if a.pending != [] {
      assert s.heap[s.pending.ptr][..s.pending.size] == a.pending;
    }
  }

  /** The branches of a write of at least one stored byte. */
  lemma WriteBranches(s: Device, a: File, h: Handle, data: seq<byte>, alloc: Alloc, fault: bool, g: Grant)
    requires s.pending.size == |a.pending| && s.pending.size + |data| > 0
    requires g == Krealloc(s.heap, s.pending.ptr, s.pending.size + |data|, alloc)
    requires if alloc.NoMemory? then g == Denied else g.Block?
    ensures WriteStep(s, h, data, alloc, fault) ==
            if alloc.NoMemory? then (s, Fail(EFAULT))
            else if fault && data != [] then (s.(heap := g.heap), Fail(EFAULT))
            else Store(s, h, data, g.ptr, g.heap)
    ensures WriteFile(a, h, data, alloc.NoMemory?, fault) ==
            if alloc.NoMemory? || (fault && data != []) then (a, Fail(EFAULT))
            else WriteFile(a, h, data, false, false)
  {
    assert a.pending + data != [];
  }

  lemma PendingSize(s: Device, a: File)
    requires Refines(s, a)
    ensures s.pending.size == |a.pending|
  {
    assert Holds(s.heap, Entries(s)[10], Stored(a)[10]);
  }

  lemma WriteRefines(s: Device, a: File, h: Handle, data: seq<byte>, alloc: Alloc, fault: bool)
    requires Refines(s, a) && !s.locked
    requires Possible(s, Write(h, data, alloc, fault)) && !LosesPending(s, Write(h, data, alloc, fault))
    ensures Refines(WriteStep(s, h, data, alloc, fault).0, WriteFile(a, h, data, alloc.NoMemory?, fault).0)
    ensures WriteStep(s, h, data, alloc, fault).1 == WriteFile(a, h, data, alloc.NoMemory?, fault).1
  {
    hide Refines;
    PendingSize(s, a);
    var size := s.pending.size + |data|;
    if size == 0 {
      EmptyWriteRefines(s, a, h, alloc, fault);
    } else {
      GrantExtends(s, a, data, alloc);
      var g := Krealloc(s.heap, s.pending.ptr, size, alloc);
      WriteBranches(s, a, h, data, alloc, fault, g);
      if !alloc.NoMemory? {
        if fault && data != [] {
          FaultRefines(s, a, g);
        } else {
          CopyRefines(s, a, h, data, g);
        }
      }
    }
  }

  lemma EmptyWriteRefines(s: Device, a: File, h: Handle, alloc: Alloc, fault: bool)
    requires Refines(s, a) && !s.locked && s.pending.size == 0
    ensures Refines(WriteStep(s, h, [], alloc, fault).0, WriteFile(a, h, [], alloc.NoMemory?, fault).0)
    ensures WriteStep(s, h, [], alloc, fault).1 == WriteFile(a, h, [], alloc.NoMemory?, fault).1
  {
    assert Holds(s.heap, Entries(s)[10], Stored(a)[10]);
    var s' := WriteStep(s, h, [], alloc, fault).0;
    assert s'.heap == s.heap;
    assert a.pending + [] == a.pending;
    forall k | 0 <= k < 11
      ensures Holds(s'.heap, Entries(s')[k], Stored(a)[k])
    {
      assert Holds(s.heap, Entries(s)[k], Stored(a)[k]);
    }
    forall i, j | 0 <= i < j < 11 && Entries(s')[i].size > 0 && Entries(s')[j].size > 0
      ensures Entries(s')[i].ptr != Entries(s')[j].ptr
    {
      assert Entries(s')[i] == Entries(s)[i] && Entries(s')[j] == Entries(s)[j];
    }
  }

  /** A failed copy drops only the new address: nothing stored is affected unless it replaced a pending one. */
  lemma FaultRefines(s: Device, a: File, g: Grant)
    requires Refines(s, a) && g.Block?
    requires IsBlock(g.ptr) && g.ptr in g.heap && |g.heap[g.ptr]| >= s.pending.size && g.heap[g.ptr][..s.pending.size] == a.pending
    requires g.heap.Keys == s.heap.Keys - OwnedBy(s.pending) + {g.ptr}
    requires forall p :: p in s.heap && p != g.ptr && p != s.pending.ptr ==> g.heap[p] == s.heap[p]
    requires g.ptr !in s.heap ==> s.pending.size == 0
    requires g.ptr in s.heap ==> g.ptr == s.pending.ptr && s.pending.size > 0
    ensures Refines(s.(heap := g.heap), a)
  {
    var es := Entries(s);
    assert Entries(s.(heap := g.heap)) == es;
    assert Holds(s.heap, es[10], Stored(a)[10]);
    forall k | 0 <= k < 11
      ensures Holds(g.heap, es[k], Stored(a)[k])
    {
      assert Holds(s.heap, es[k], Stored(a)[k]);
      if k < 10 && es[k].size > 0 && s.pending.size > 0 {
        assert es[k].ptr != es[10].ptr;
      }
    }
  }

  /** A successful copy extends the pending command and hands it over once it is terminated. */
  lemma CopyRefines(s: Device, a: File, h: Handle, data: seq<byte>, g: Grant)
    requires Refines(s, a) && !s.locked && g.Block?
    requires s.pending.size + |data| > 0
    requires IsBlock(g.ptr) && g.ptr in g.heap && |g.heap[g.ptr]| == s.pending.size + |data|
    requires g.heap[g.ptr][..s.pending.size] == a.pending
    requires g.heap.Keys == s.heap.Keys - OwnedBy(s.pending) + {g.ptr}
    requires g.ptr !in s.heap || (g.ptr == s.pending.ptr && s.pending.size > 0)
    requires forall p :: p in s.heap && p != g.ptr && p != s.pending.ptr ==> g.heap[p] == s.heap[p]
    ensures Refines(Store(s, h, data, g.ptr, g.heap).0, WriteFile(a, h, data, false, false).0)
    ensures Store(s, h, data, g.ptr, g.heap).1 == Done(|data|, [])
    ensures Store(s, h, data, g.ptr, g.heap).0.heap.Keys ==
            g.heap.Keys - (if NEWLINE in a.pending + data then OwnedBy(s.ring.slots[s.ring.inOffs]) else {})
  {
    hide Refines, Commit;
    var bytes := a.pending + data;
    var s1 := s.(heap := g.heap[g.ptr := bytes], pending := Entry(g.ptr, |bytes|)).MoveTo(h, s.Pos(h) + |data|);
    PendingSize(s, a);
    CopiedRefines(s, a, h, data, g);
  }

  /** The state once the bytes are stored, before and after a terminated command is handed over. */
  lemma CopiedRefines(s: Device, a: File, h: Handle, data: seq<byte>, g: Grant)
    requires Refines(s, a) && g.Block? && s.pending.size + |data| > 0
    requires IsBlock(g.ptr) && g.ptr in g.heap && |g.heap[g.ptr]| == s.pending.size + |data|
    requires g.heap.Keys == s.heap.Keys - OwnedBy(s.pending) + {g.ptr}
    requires g.ptr !in s.heap || (g.ptr == s.pending.ptr && s.pending.size > 0)
    requires forall p :: p in s.heap && p != g.ptr && p != s.pending.ptr ==> g.heap[p] == s.heap[p]
    ensures var bytes := a.pending + data;
            var s1 := s.(heap := g.heap[g.ptr := bytes], pending := Entry(g.ptr, |bytes|)).MoveTo(h, s.Pos(h) + |data|);
            var a1 := a.MoveTo(h, a.Pos(h) + |data|);
            s.Pos(h) == a.Pos(h) &&
            if NEWLINE in bytes
            then Commit(s1).Some? && Refines(Commit(s1).value, a1.(hist := a.hist + [bytes], pending := []))
                 && Commit(s1).value.heap == s1.heap - OwnedBy(s.ring.slots[s.ring.inOffs])
            else Refines(s1, a1.(pending := bytes))
  {
    var bytes := a.pending + data;
    var s1 := s.(heap := g.heap[g.ptr := bytes], pending := Entry(g.ptr, |bytes|)).MoveTo(h, s.Pos(h) + |data|);
    var a1 := a.MoveTo(h, a.Pos(h) + |data|);
    PendingSize(s, a);
    ExtendHolds(s, a, g.ptr, s1.heap, bytes);
    assert Entries(s1) == s.ring.slots + [Entry(g.ptr, |bytes|)];
    hide AllHold, Distinct, Commit, CountsTo;
    if NEWLINE in bytes {
      CommitRefines(s1, a1.(pending := []), bytes);
    } else {
      assert Stored(a1.(pending := bytes)) == Slots(a.hist) + [bytes];
    }
  }

  /** One operation of the driver does to the device what the same operation does to the file, and answers the same. */
  lemma StepRefines(s: Device, a: File, op: Op)
    requires Refines(s, a) && Possible(s, op) && !LosesPending(s, op)
    ensures Refines(Step(s, op).0, FileStep(a, op).0)
    ensures Step(s, op).1 == FileStep(a, op).1
  {
    if !op.Interrupted? && !s.locked {
      match op
      case Read(h, count, fault) => ReadRefines(s, a, h, count, fault);
      case Write(h, data, alloc, fault) => WriteRefines(s, a, h, data, alloc, fault);
      case Llseek(h, off, whence) => LlseekRefines(s, a, h, off, whence);
      case Ioctl(h, request) => IoctlRefines(s, a, h, request);
    }
  }

  /** Exactly one kind of operation breaks the file: afterwards the device stands for no file at all. */
  lemma LosesPendingIff(s: Device, a: File, op: Op)
    requires Refines(s, a) && Possible(s, op)
    ensures LosesPending(s, op) <==> forall b: File :: !Refines(Step(s, op).0, b)
  {
    if LosesPending(s, op) {
      DanglingPending(s, a, op);
    } else {
      StepRefines(s, a, op);
    }
  }

  lemma DanglingPending(s: Device, a: File, op: Op)
    requires Refines(s, a) && Possible(s, op) && LosesPending(s, op)
    ensures var s' := Step(s, op).0;
            s'.pending.size > 0 && s'.pending.ptr !in s'.heap && forall b: File :: !Refines(s', b)
  {
    assert Holds(s.heap, Entries(s)[10], Stored(a)[10]);
    var s' := Step(s, op).0;
    forall b: File
      ensures !AllHold(s'.heap, Entries(s'), Stored(b))
    {
      assert !Holds(s'.heap, Entries(s')[10], Stored(b)[10]);
    }
  }

  // ---- whole runs ----

  /** The allocator behaves, and no pending command is lost, all along the run. */
  predicate Keeps(s: Device, ops: seq<Op>)
    decreases |ops|
  {
    ops == [] ||
    (Possible(s, ops[0]) && !LosesPending(s, ops[0]) && Keeps(Step(s, ops[0]).0, ops[1..]))
  }

  /** A run is its first operation and then the rest. */
  lemma RunCons(s: Device, a: File, op: Op, rest: seq<Op>)
    ensures Keeps(s, [op] + rest) == (Possible(s, op) && !LosesPending(s, op) && Keeps(Step(s, op).0, rest))
    ensures Run(s, [op] + rest) == Run(Step(s, op).0, rest)
    ensures FileRun(a, [op] + rest) == FileRun(FileStep(a, op).0, rest)
    ensures Results(s, [op] + rest) == [Step(s, op).1] + Results(Step(s, op).0, rest)
    ensures FileResults(a, [op] + rest) == [FileStep(a, op).1] + FileResults(FileStep(a, op).0, rest)
  {
    hide Step, FileStep;
    assert ([op] + rest)[1..] == rest;
  }

  /** The bytes an operation stored, going by its answer. */
  function WrittenBy(op: Op, r: Result): seq<byte> {
    if op.Write? && r.Done? && r.ret >= 0 then op.data else []
  }

  /** The bytes of the writes that succeeded, in order. */
  function Written(ops: seq<Op>, rs: seq<Result>): seq<byte>
    requires |ops| == |rs|
  {
    if ops == [] then [] else WrittenBy(ops[0], rs[0]) + Written(ops[1..], rs[1..])
  }

  /** Driver and file cannot be told apart by any run of operations. */
  lemma {:induction false} RunRefines(s: Device, a: File, ops: seq<Op>)
    requires Refines(s, a) && Keeps(s, ops)
    ensures Refines(Run(s, ops), FileRun(a, ops))
    ensures Results(s, ops) == FileResults(a, ops)
    decreases |ops|
  {
    if ops != [] {
      StepRefines(s, a, ops[0]);
      RunRefines(Step(s, ops[0]).0, FileStep(a, ops[0]).0, ops[1..]);
    }
  }

  lemma StepWrites(a: File, op: Op)
    ensures var (b, r) := FileStep(a, op);
            Flat(b.hist) + b.pending == Flat(a.hist) + a.pending + WrittenBy(op, r)
  {
    var (b, r) := FileStep(a, op);
    if op.Write? && !a.locked {
      var whole := a.pending + op.data;
      FlatSnoc(a.hist, whole);
      assert Flat(a.hist) + whole + [] == Flat(a.hist) + a.pending + op.data;
    }
    assert Flat(a.hist) + a.pending + [] == Flat(a.hist) + a.pending;
  }

  /** No byte of a successful write is lost, duplicated or reordered. */
  lemma {:induction false} NothingWrittenIsLost(a: File, ops: seq<Op>)
    ensures var b := FileRun(a, ops);
            Flat(b.hist) + b.pending == Flat(a.hist) + a.pending + Written(ops, FileResults(a, ops))
    decreases |ops|
  {
    var before := Flat(a.hist) + a.pending;
    if ops == [] {
      assert before + [] == before;
    } else {
      var (b, r) := FileStep(a, ops[0]);
      hide FileStep, Flat, WrittenBy;
      StepWrites(a, ops[0]);
      NothingWrittenIsLost(b, ops[1..]);
      var rest := FileResults(b, ops[1..]);
      assert FileResults(a, ops)[1..] == rest;
      assert before + WrittenBy(ops[0], r) + Written(ops[1..], rest) == before + (WrittenBy(ops[0], r) + Written(ops[1..], rest));
    }
  }

  lemma {:induction false} FileNeverTouchesBadMemory(a: File, ops: seq<Op>)
    ensures BadMemory !in FileResults(a, ops)
    decreases |ops|
  {
    if ops != [] {
      FileNeverTouchesBadMemory(FileStep(a, ops[0]).0, ops[1..]);
    }
  }

  /** The bytes an entry stores. */
  function EntryBytes(s: Device, i: nat): seq<byte>
    requires i < 11
  {
    var e := Entries(s)[i];
    if e.size > 0 && e.ptr in s.heap && e.size <= |s.heap[e.ptr]| then s.heap[e.ptr][..e.size] else []
  }

  lemma EntriesStore(s: Device, a: File)
    requires Refines(s, a)
    ensures forall i :: 0 <= i < 10 ==> s.ring.slots[i].size == |Slot(a.hist, i)| && EntryBytes(s, i) == Slot(a.hist, i)
    ensures s.pending.size == |a.pending| && EntryBytes(s, 10) == a.pending
  {
    forall i | 0 <= i < 11
      ensures EntryBytes(s, i) == Stored(a)[i] && Entries(s)[i].size == |Stored(a)[i]|
    {
      assert Holds(s.heap, Entries(s)[i], Stored(a)[i]);
    }
    forall i | 0 <= i < 10
      ensures s.ring.slots[i].size == |Slot(a.hist, i)| && EntryBytes(s, i) == Slot(a.hist, i)
    {
      assert Entries(s)[i] == s.ring.slots[i] && Stored(a)[i] == Slot(a.hist, i);
    }
    assert Stored(a)[10] == a.pending;
  }

  /** A slot's command is the latest of its residue: each of the last ten commands sits in the slot of its number
      modulo ten, and slots not yet reached are empty. */
  lemma SlotsHoldLatest(hist: seq<seq<byte>>, m: nat)
    ensures m < |hist| <= m + 10 ==> Slot(hist, m % 10) == hist[m]
    ensures |hist| <= m < 10 ==> Slot(hist, m) == []
  {
    if m < |hist| <= m + 10 {
      LatestInSlot(|hist|, m);
    } else if |hist| <= m < 10 {
      assert (|hist| + 9 - m) % 10 == |hist| + 9 - m;
    }
  }

  /** What standing for a file says about the ring: indices count commands modulo ten, the file starts at the oldest
      slot, and each slot stores the latest command of its residue. */
  lemma RingOfFile(s: Device, a: File)
    requires Refines(s, a)
    ensures s.ring.inOffs == |a.hist| % 10
    ensures s.ring.full == (|a.hist| >= 10)
    ensures s.ring.outOffs == (if |a.hist| < 10 then 0 else |a.hist| % 10)
    ensures forall i :: 0 <= i < 10 ==> s.ring.slots[i].size == |Slot(a.hist, i)| && EntryBytes(s, i) == Slot(a.hist, i)
  {
    EntriesStore(s, a);
  }

  /** Over any run since the module was loaded, the device stands for the file that the same operations make of an
      empty one, answers as it does, never touches dead memory, and accounts for every byte written. */
  lemma HistoryOfAnyRun(ops: seq<Op>)
    requires Keeps(INITIAL, ops)
    ensures var s, a := Run(INITIAL, ops), FileRun(EMPTY_FILE, ops);
            && Refines(s, a)
            && Results(INITIAL, ops) == FileResults(EMPTY_FILE, ops)
            && BadMemory !in Results(INITIAL, ops)
            && Flat(a.hist) + EntryBytes(s, 10) == Written(ops, Results(INITIAL, ops))
            && NEWLINE !in EntryBytes(s, 10)
            && (forall m :: 0 <= m < |a.hist| ==> NEWLINE in a.hist[m])
  {
    InitialRefines();
    RunRefines(INITIAL, EMPTY_FILE, ops);
    NothingWrittenIsLost(EMPTY_FILE, ops);
    FileNeverTouchesBadMemory(EMPTY_FILE, ops);
    EntriesStore(Run(INITIAL, ops), FileRun(EMPTY_FILE, ops));
    assert Flat([]) + [] == [];
  }

  lemma LatestInSlot(n: nat, m: nat)
    requires m < n <= m + 10
    ensures n - 1 - (n + 9 - m % 10) % 10 == m
  {
    assert n + 9 - m % 10 == 10 * (m / 10 + 1) + (n - 1 - m);
  }
}
