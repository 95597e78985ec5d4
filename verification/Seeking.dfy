/** Where seeks land: the IOCSEEKTO ioctl, which counts storage slots, and SEEK_END. */
module Seeking {
  import opened Bytes
  import opened CircularBuffer
  import opened Driver
  import opened FileSpec
  import opened Refinement

  // ---- the ioctl and the lookup ----

  lemma FullSlotsHold(s: Device, a: File)
    requires Refines(s, a) && s.ring.outOffs != 0
    ensures forall i :: 0 <= i < 10 ==> s.ring.slots[i].size > 0
  {
    forall i | 0 <= i < 10
      ensures s.ring.slots[i].size > 0
    {
      SlotStores(s, a, i);
      SlotIsCommand(a.hist, i);
    }
  }

  /** The bytes stored before a slot are the bytes read before it exactly when the ring is not rotated. */
  lemma StorageOrderIff(r: Ring, i: nat)
    requires r.Valid() && i < 10
    requires r.outOffs != 0 ==> forall k :: 0 <= k < 10 ==> r.slots[k].size > 0
    ensures Sum(r.slots[..i]) == BytesBefore(r, i) <==> r.outOffs == 0
  {
    hide Rank;
    var slots, o := r.slots, r.outOffs;
    RankValue(o, i);
    if o == 0 {
      assert Rotated(slots, 0) == slots;
    } else if i < o {
      assert Rotated(slots, o)[..i + 10 - o] == slots[o..] + slots[..i];
      SumAppend(slots[o..], slots[..i]);
      SomethingStored(slots[o..]);
    } else {
      assert Rotated(slots, o)[..i - o] == slots[o..i];
      assert slots[..i] == slots[..o] + slots[o..i];
      SumAppend(slots[..o], slots[o..i]);
      SomethingStored(slots[..o]);
    }
  }

  lemma SomethingStored(es: seq<Entry>)
    requires es != [] && forall k :: 0 <= k < |es| ==> es[k].size > 0
    ensures Sum(es) > 0
  {
  }

  /** A seek is accepted exactly when the slot stores the byte asked for. The lookup of the new position finds that
      slot and that offset again exactly when the oldest command is in slot 0: in a rotated ring no accepted seek
      lands where it was aimed. */
  lemma SeekRoundTripIff(s: Device, a: File, h: Handle, cmd: nat, off: nat)
    requires Refines(s, a) && !s.locked
    ensures var (s', r) := Step(s, Ioctl(h, SeekTo(cmd, off)));
            (r == Done(0, []) <==> cmd < 10 && off < s.ring.slots[cmd].size)
            && (r == Done(0, []) ==>
                  (Find(s'.ring, s'.Pos(h)) == Some((cmd, off)) <==> s.ring.outOffs == 0))
  {
    hide Refines, Find, BytesBefore;
    if cmd < 10 && off < s.ring.slots[cmd].size {
      var p := Sum(s.ring.slots[..cmd]) + off;
      FindIff(s.ring, p, cmd, off);
      if s.ring.outOffs != 0 {
        FullSlotsHold(s, a);
      }
      StorageOrderIff(s.ring, cmd);
    }
  }

  /** An accepted seek always lands inside the file, rotated or not, so a following read of at least one byte that
      is not interrupted and does not fault delivers something. */
  lemma SeekStaysInside(s: Device, a: File, h: Handle, cmd: nat, off: nat, count: nat)
    requires Refines(s, a) && !s.locked && count > 0
    requires Step(s, Ioctl(h, SeekTo(cmd, off))).1 == Done(0, [])
    ensures var s' := Step(s, Ioctl(h, SeekTo(cmd, off))).0;
            s'.Pos(h) < |a.Content()|
            && var r := Step(s', Read(h, count, false)).1;
            r.Done? && r.ret > 0 && r.ret == |r.data|
  {
    hide Refines;
    var op := Ioctl(h, SeekTo(cmd, off));
    var s', b := Step(s, op).0, FileStep(a, op).0;
    StepRefines(s, a, op);
    TotalIsLength(s, a);
    SumTake(s.ring.slots, cmd);
    SumMonotone(s.ring.slots, cmd + 1, 10);
    assert s.ring.slots[..10] == s.ring.slots;
    StepRefines(s', b, Read(h, count, false));
    ReadIsSlice(b, h, count);
  }

  // ---- the same request counted oldest first ----

  /** The readable command of a number counted from the oldest, or nothing. */
  function Command(a: File, cmd: nat): seq<byte> {
    if cmd < |a.Commands()| then a.Commands()[cmd] else []
  }

  /** The seek as its header describes it: `cmd` counts commands from the oldest. */
  function SeekOldestFirst(a: File, h: Handle, cmd: nat, off: nat): (File, Result) {
    if off >= |Command(a, cmd)| then (a.(locked := true), Fail(EINVAL))
    else (a.MoveTo(h, |Flat(a.Commands()[..cmd])| + off), Done(0, []))
  }

  /** Counted oldest first, every accepted seek lands on the byte it names, in every state: the lookup finds the slot
      of that command, and what is left to read starts with the rest of it. */
  lemma OldestFirstRoundTrip(s: Device, a: File, h: Handle, cmd: nat, off: nat)
    requires Refines(s, a) && SeekOldestFirst(a, h, cmd, off).1.ret == 0
    ensures var b := SeekOldestFirst(a, h, cmd, off).0;
            Find(s.ring, b.Pos(h)) == Some(((s.ring.outOffs + cmd) % 10, off))
            && Pieces(a.Commands(), b.Pos(h)) == [a.Commands()[cmd][off..]] + a.Commands()[cmd + 1..]
  {
    hide Refines, Find, BytesBefore, Rank, Slot, Pieces;
    var o := s.ring.outOffs;
    var i := (o + cmd) % 10;
    RankInverse(o, cmd);
    BeforeIsPrefix(s, a, i);
    SlotStores(s, a, i);
    FindIff(s.ring, |Flat(a.Commands()[..cmd])| + off, i, off);
    PiecesAt(a.Commands(), cmd, off);
  }

  /** Length of the first `i` commands counted from the oldest. */
  lemma {:induction false} SameSizesSamePrefix(a: File, i: nat)
    requires i <= |a.Commands()|
    requires forall k :: 0 <= k < 10 ==> |Slot(a.hist, k)| == |Command(a, k)|
    ensures |Flat(Slots(a.hist)[..i])| == |Flat(a.Commands()[..i])|
  {
    if i > 0 {
      SameSizesSamePrefix(a, i - 1);
      FlatTake(Slots(a.hist), i - 1);
      FlatTake(a.Commands(), i - 1);
      assert |Slot(a.hist, i - 1)| == |Command(a, i - 1)|;
    }
  }

  /** The shipped seek behaves as documented on every request exactly when the commands, slot by slot, have the sizes
      they have oldest first: before the ring wraps, at every multiple of ten commands, or when a rotation leaves the
      list of sizes unchanged. */
  lemma SeekAsDocumentedIff(a: File)
    ensures (forall h: Handle, cmd: nat, off: nat :: ControlFile(a, h, SeekTo(cmd, off)) == SeekOldestFirst(a, h, cmd, off))
            <==> forall i :: 0 <= i < 10 ==> |Slot(a.hist, i)| == |Command(a, i)|
  {
    if forall i :: 0 <= i < 10 ==> |Slot(a.hist, i)| == |Command(a, i)| {
      forall h: Handle, cmd: nat, off: nat
        ensures ControlFile(a, h, SeekTo(cmd, off)) == SeekOldestFirst(a, h, cmd, off)
      {
        if cmd < 10 {
          assert |Slot(a.hist, cmd)| == |Command(a, cmd)|;
          if off < |Command(a, cmd)| {
            SameSizesSamePrefix(a, cmd);
          }
        }
      }
    }
    if forall h: Handle, cmd: nat, off: nat :: ControlFile(a, h, SeekTo(cmd, off)) == SeekOldestFirst(a, h, cmd, off) {
      forall i | 0 <= i < 10
        ensures |Slot(a.hist, i)| == |Command(a, i)|
      {
        var x, y := |Slot(a.hist, i)|, |Command(a, i)|;
        assert ControlFile(a, 0, SeekTo(i, x)) == SeekOldestFirst(a, 0, i, x);
        assert ControlFile(a, 0, SeekTo(i, y)) == SeekOldestFirst(a, 0, i, y);
      }
    }
  }

  /** With the oldest command in slot 0, the shipped seek is the documented one. */
  lemma UnrotatedSeekIsDocumented(s: Device, a: File, h: Handle, cmd: nat, off: nat)
    requires Refines(s, a) && s.ring.outOffs == 0
    ensures ControlFile(a, h, SeekTo(cmd, off)) == SeekOldestFirst(a, h, cmd, off)
  {
    forall i | 0 <= i < 10
      ensures |Slot(a.hist, i)| == |Command(a, i)|
    {
      SlotIsCommand(a.hist, i);
      assert Rank(0, i) == i;
    }
    SeekAsDocumentedIff(a);
  }

  // ---- a reachable rotated ring ----

  /** One write per command, each to a new address. */
  function CommandWrites(cmds: seq<seq<byte>>, next: nat): seq<Op> {
    if cmds == [] then [] else [Write(0, cmds[0], Moved(next, 0), false)] + CommandWrites(cmds[1..], next + 1)
  }

  /** Any list of terminated commands can be written, one by one. */
  lemma {:induction false} CommandsCanBeWritten(s: Device, a: File, cmds: seq<seq<byte>>, next: nat)
    requires Refines(s, a) && !s.locked && a.pending == []
    requires next > ZERO_SIZE_PTR && forall p :: p in s.heap ==> p < next
    requires forall i :: 0 <= i < |cmds| ==> NEWLINE in cmds[i]
    ensures Keeps(s, CommandWrites(cmds, next))
    ensures FileRun(a, CommandWrites(cmds, next)).hist == a.hist + cmds
    ensures !FileRun(a, CommandWrites(cmds, next)).locked
    decreases |cmds|, 1
  {
    if cmds == [] {
      SameLock(s, a);
      assert a.hist + [] == a.hist;
    } else {
      CommandsCanBeWrittenNext(s, a, cmds, next);
    }
  }

  lemma {:induction false} CommandsCanBeWrittenNext(s: Device, a: File, cmds: seq<seq<byte>>, next: nat)
    requires Refines(s, a) && !s.locked && a.pending == []
    requires next > ZERO_SIZE_PTR && forall p :: p in s.heap ==> p < next
    requires cmds != [] && forall i :: 0 <= i < |cmds| ==> NEWLINE in cmds[i]
    ensures Keeps(s, CommandWrites(cmds, next))
    ensures FileRun(a, CommandWrites(cmds, next)).hist == a.hist + cmds
    ensures !FileRun(a, CommandWrites(cmds, next)).locked
    decreases |cmds|, 0
  {
    hide *;
    OneCommand(s, a, cmds[0], next);
    var op := Write(0, cmds[0], Moved(next, 0), false);
    var rest := CommandWrites(cmds[1..], next + 1);
    RunCons(s, a, op, rest);
    CommandsCanBeWritten(Step(s, op).0, FileStep(a, op).0, cmds[1..], next + 1);
    assert a.hist + cmds == a.hist + [cmds[0]] + cmds[1..];
    assert CommandWrites(cmds, next) == [op] + rest by {
      NextWrite(cmds, next);
    }
  }

  lemma NextWrite(cmds: seq<seq<byte>>, next: nat)
    requires cmds != []
    ensures CommandWrites(cmds, next) == [Write(0, cmds[0], Moved(next, 0), false)] + CommandWrites(cmds[1..], next + 1)
  {
  }

  lemma OneCommand(s: Device, a: File, cmd: seq<byte>, next: nat)
    requires Refines(s, a) && !s.locked && a.pending == [] && NEWLINE in cmd
    requires next > ZERO_SIZE_PTR && forall p :: p in s.heap ==> p < next
    ensures var op := Write(0, cmd, Moved(next, 0), false);
            var s', b := Step(s, op).0, FileStep(a, op).0;
            Possible(s, op) && !LosesPending(s, op) && Refines(s', b)
            && !s'.locked && b.hist == a.hist + [cmd] && b.pending == []
            && forall p :: p in s'.heap ==> p < next + 1
  {
    var op := Write(0, cmd, Moved(next, 0), false);
    hide Refines;
    StepRefines(s, a, op);
    SameLock(s, a);
    SameLock(Step(s, op).0, FileStep(a, op).0);
    WritesOneCommand(a, op);
    OneMoreBlock(s, cmd, next);
  }

  lemma WritesOneCommand(a: File, op: Op)
    requires op.Write? && op.alloc.Moved? && !op.fault && NEWLINE in op.data
    requires a.pending == [] && !a.locked
    ensures var b := FileStep(a, op).0;
            b.hist == a.hist + [op.data] && b.pending == [] && !b.locked
  {
    assert a.pending + op.data == op.data;
  }

  lemma OneMoreBlock(s: Device, data: seq<byte>, next: nat)
    requires !s.locked
    ensures Step(s, Write(0, data, Moved(next, 0), false)).0.heap.Keys <= s.heap.Keys + {next}
  {
  }

  /** Eleven commands, the last one shorter than the others. */
  const ELEVEN: seq<seq<byte>> := seq(10, _ => [0, NEWLINE]) + [[NEWLINE]]

  lemma ElevenWritten()
    ensures var ops := CommandWrites(ELEVEN, 100);
            Keeps(INITIAL, ops) && Refines(Run(INITIAL, ops), FileRun(EMPTY_FILE, ops))
            && FileRun(EMPTY_FILE, ops).hist == ELEVEN && !FileRun(EMPTY_FILE, ops).locked
  {
    InitialRefines();
    CommandsCanBeWritten(INITIAL, EMPTY_FILE, ELEVEN, 100);
    RunRefines(INITIAL, EMPTY_FILE, CommandWrites(ELEVEN, 100));
    assert [] + ELEVEN == ELEVEN;
  }

  lemma ElevenInRing(s: Device, a: File)
    requires Refines(s, a) && a.hist == ELEVEN
    ensures s.ring.outOffs == 1
    ensures s.ring.slots[0].size == 1 && s.ring.slots[1].size == 2
    ensures a.Commands()[0] == [0, NEWLINE] && |a.Commands()| == 10 && |a.Commands()[1]| == 2
  {
    SlotsHoldLatest(a.hist, 10);
    SlotsHoldLatest(a.hist, 1);
    SlotStores(s, a, 0);
    SlotStores(s, a, 1);
    assert a.Commands() == a.hist[1..];
  }

  /** A reachable rotated ring: a seek to byte 0 of slot 1 is accepted and lands on byte 1 of that slot, which is byte
      1 of the oldest command; counted oldest first the request names the second command, at position 2. */
  lemma RotatedSeekWitness()
    ensures var ops := CommandWrites(ELEVEN, 100);
            Keeps(INITIAL, ops)
            && var (s, r) := Step(Run(INITIAL, ops), Ioctl(0, SeekTo(1, 0)));
            r == Done(0, []) && s.ring.outOffs == 1 && Find(s.ring, s.Pos(0)) == Some((1, 1))
            && SeekOldestFirst(FileRun(EMPTY_FILE, ops), 0, 1, 0).0.Pos(0) == 2
  {
    hide Refines, Run, FileRun, Keeps;
    ElevenWritten();
    var ops := CommandWrites(ELEVEN, 100);
    var s, a := Run(INITIAL, ops), FileRun(EMPTY_FILE, ops);
    ElevenInRing(s, a);
    assert !s.locked by {
      SameLock(s, a);
    }
    assert s.ring.slots[..1] == [s.ring.slots[0]];
    assert BytesBefore(s.ring, 1) == 0 by {
      assert Rank(1, 1) == 0;
    }
    FindIff(s.ring, 1, 1, 1);
    FlatTake(a.Commands(), 0);
  }

  // ---- SEEK_END ----

  /** Seeking to the end answers the length of the file although it adds the slots up in storage order. From there a
      read delivers nothing, and from any earlier position a read of at least one byte delivers something. */
  lemma EndIsWhereReadsStop(s: Device, a: File, h: Handle, p: nat, count: nat)
    requires Refines(s, a) && !s.locked && count > 0
    requires |a.Content()| < 0x8000_0000_0000_0000
    ensures var (s', r) := Step(s, Llseek(h, 0, 2));
            r == Done(|a.Content()|, []) && s'.Pos(h) == |a.Content()|
            && (Step(s.MoveTo(h, p), Read(h, count, false)).1 == Done(0, []) <==> p >= r.ret)
  {
    hide Refines, Find, Pieces;
    TotalIsLength(s, a);
    SameLock(s, a);
    var n := |a.Content()|;
    assert Signed(n + 0, 0x1_0000_0000_0000_0000) == n;
    MoveRefines(s, a, h, p);
    StepRefines(s.MoveTo(h, p), a.MoveTo(h, p), Read(h, count, false));
    ReadIsSlice(a.MoveTo(h, p), h, count);
  }

  /** Where a seek counts from: the start, the position, or the end of the file. */
  function Base(a: File, h: Handle, whence: nat): nat
    requires whence <= 2
  {
    if whence == 0 then 0 else if whence == 1 then a.Pos(h) else |a.Content()|
  }

  /** A seek that would land before the start, or behind the last position there is, or that counts from nothing known. */
  predicate BadSeek(a: File, h: Handle, off: loff, whence: nat) {
    whence > 2 || !(0 <= Base(a, h, whence) + off < 0x8000_0000_0000_0000)
  }

  /** aesd_llseek: a seek moves the handle to exactly base plus offset, answers that position and leaves the lock free;
      a bad one - also when the sum wraps around - answers -22, moves nothing and keeps the lock. */
  lemma SeekMovesIff(s: Device, a: File, h: Handle, off: loff, whence: nat)
    requires Refines(s, a) && !s.locked
    requires whence <= 2 ==> Base(a, h, whence) + off < 0x1_0000_0000_0000_0000
    ensures var (s', r) := Step(s, Llseek(h, off, whence));
            if BadSeek(a, h, off, whence) then r == Done(-22, []) && s' == s.(locked := true)
            else
              var p := Base(a, h, whence) + off;
              r == Done(p, []) && s'.Pos(h) == p && !s'.locked
              && (forall g :: g != h ==> s'.Pos(g) == s.Pos(g))
              && s'.ring == s.ring && s'.pending == s.pending && s'.heap == s.heap
  {
    TotalIsLength(s, a);
    assert s.Pos(h) == a.Pos(h);
    hide Refines;
    if whence <= 2 {
      WrapsToNegative(Base(a, h, whence) + off);
    }
  }

  lemma WrapsToNegative(x: int)
    requires -0x8000_0000_0000_0000 <= x < 0x1_0000_0000_0000_0000
    ensures Signed(x, 0x1_0000_0000_0000_0000) == if x < 0x8000_0000_0000_0000 then x else x - 0x1_0000_0000_0000_0000
  {
    if x < 0 {
      assert x % 0x1_0000_0000_0000_0000 == x + 0x1_0000_0000_0000_0000;
    } else {
      assert x % 0x1_0000_0000_0000_0000 == x;
    }
  }
}
