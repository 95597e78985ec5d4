/** The server's helpers over the device file (server/manipulate_file.c): measuring, draining and writing it through
    the file operations. */
module FileClient {
  import opened Bytes
  import opened Driver
  import opened FileSpec
  import opened Refinement
  import CharDevice

  /** The size of the reply buffer, and of the buffer each read goes into first. */
  const BUFFER_SIZE := 1024 * 30
  const CHUNK_SIZE := 1024

  const INT_RANGE := 0x1_0000_0000

  /** What the C library makes of an answer kept in an int: -1 for an error, otherwise the value cut to 32 bits. */
  function CInt(ret: int): (r: int)
    ensures -0x8000_0000 <= r < 0x8000_0000
    ensures if ret < 0 then r == -1 else (ret - r) % 0x1_0000_0000 == 0
  {
    if ret < 0 then -1 else Signed(ret, INT_RANGE)
  }

  /** The chunks in which a loop of reads with `size` bytes to go takes the pieces: whole pieces while they fit in what
      is left of `size`. */
  function Chunks(pieces: seq<seq<byte>>, size: nat): seq<seq<byte>>
    decreases |pieces|
  {
    if pieces == [] || size == 0 then []
    else if |pieces[0]| <= size then [pieces[0]] + Chunks(pieces[1..], size - |pieces[0]|)
    else [pieces[0][..size]]
  }

  /** A budget of at least what is there takes all of it. */
  lemma {:induction false} ChunksAreAll(pieces: seq<seq<byte>>, size: nat)
    requires NoneEmpty(pieces) && size >= |Flat(pieces)|
    ensures Chunks(pieces, size) == pieces
    decreases |pieces|
  {
    if pieces != [] {
      ChunksAreAll(pieces[1..], size - |pieces[0]|);
      assert pieces == [pieces[0]] + pieces[1..];
    }
  }

  /** In general the chunks are the first `size` bytes of what is there. */
  lemma {:induction false} ChunksAreAPrefix(pieces: seq<seq<byte>>, size: nat)
    ensures Flat(Chunks(pieces, size)) == Flat(pieces)[..Min(size, |Flat(pieces)|)]
    decreases |pieces|
  {
    if pieces != [] && size > 0 {
      var first, rest := pieces[0], pieces[1..];
      if |first| <= size {
        ChunksAreAPrefix(rest, size - |first|);
        assert Chunks(pieces, size)[1..] == Chunks(rest, size - |first|);
      } else {
        assert Flat([first[..size]]) == first[..size];
      }
    }
  }

  /** What a reader at a handle's position with `size` bytes to go will take from the file. */
  function Ahead(a: File, h: Handle, size: nat): seq<seq<byte>> {
    Chunks(Pieces(a.Commands(), a.Pos(h)), size)
  }

  /** One read of `size` bytes takes the first chunk ahead and leaves the others ahead; when none is ahead it answers 0. */
  lemma ReadTakesChunk(a: File, h: Handle, size: nat)
    requires a.Valid()
    ensures var ahead := Ahead(a, h, size);
            if ahead == [] then ReadFile(a, h, size, false) == (a, Done(0, []))
            else
              0 < |ahead[0]| <= size
              && ReadFile(a, h, size, false) == (a.MoveTo(h, a.Pos(h) + |ahead[0]|), Done(|ahead[0]|, ahead[0]))
              && Ahead(a.MoveTo(h, a.Pos(h) + |ahead[0]|), h, size - |ahead[0]|) == ahead[1..]
  {
    CommandsNonEmpty(a);
    PiecesAreTheRest(a.Commands(), a.Pos(h));
    hide Pieces, Last, Flat;
    var ps := Pieces(a.Commands(), a.Pos(h));
    if ps != [] && size > 0 {
      var n := Min(size, |ps[0]|);
      PiecesAdvance(a.Commands(), a.Pos(h), n);
      FirstChunk(ps, size);
      hide Chunks, NoneEmpty;
    }
  }

  /** The first chunk, and what a smaller budget makes of the rest. */
  lemma FirstChunk(ps: seq<seq<byte>>, size: nat)
    requires ps != [] && ps[0] != [] && size > 0
    ensures var n := Min(size, |ps[0]|);
            var rest := if n < |ps[0]| then [ps[0][n..]] + ps[1..] else ps[1..];
            Chunks(ps, size) != [] && Chunks(ps, size)[0] == ps[0][..n] && Chunks(rest, size - n) == Chunks(ps, size)[1..]
  {
    assert ps[0][..|ps[0]|] == ps[0];
  }

  /** A chunk can be taken as a C string from the chunk buffer. */
  predicate ChunkFits(chunk: seq<byte>) {
    |chunk| < CHUNK_SIZE || (|chunk| == CHUNK_SIZE && NUL in chunk)
  }

  /** Every chunk fits the chunk buffer, and the strings appended to `buffer` fit the reply buffer with their end. */
  predicate Fits(buffer: seq<byte>, chunks: seq<seq<byte>>)
    decreases |chunks|
  {
    chunks == [] ||
    (ChunkFits(chunks[0]) && |buffer| + |CStr(chunks[0])| < BUFFER_SIZE
     && Fits(buffer + CStr(chunks[0]), chunks[1..]))
  }

  /** In numbers: every chunk is shorter than 1024 bytes, or has exactly 1024 and a NUL among them, and all strings together
      leave room for an end in 30720 bytes. */
  lemma {:induction false} FitsIff(buffer: seq<byte>, chunks: seq<seq<byte>>)
    ensures Fits(buffer, chunks) <==>
            (forall i :: 0 <= i < |chunks| ==> |chunks[i]| < 1024 || (|chunks[i]| == 1024 && NUL in chunks[i]))
            && (chunks == [] || |buffer| + |CStrs(chunks)| < 30720)
    decreases |chunks|
  {
    if chunks != [] {
      hide CStr;
      FitsIff(buffer + CStr(chunks[0]), chunks[1..]);
      assert chunks == [chunks[0]] + chunks[1..];
    }
  }

  /** A file without NUL fits exactly when each command is shorter than 1024 bytes and the whole is shorter than 30720. */
  lemma PlainFits(parts: seq<seq<byte>>)
    requires parts != [] && NUL !in Flat(parts)
    ensures CStrs(parts) == Flat(parts)
    ensures Fits([], parts) <==> (forall i :: 0 <= i < |parts| ==> |parts[i]| < 1024) && |Flat(parts)| < 30720
  {
    FitsIff([], parts);
    CStrsLossless(parts);
    forall i | 0 <= i < |parts|
      ensures NUL !in parts[i]
    {
      PartsOfFlat(parts, i);
    }
    hide Fits, CStrs, Flat;
  }

  lemma PartsOfFlat(parts: seq<seq<byte>>, i: nat)
    requires i < |parts|
    ensures forall b :: b in parts[i] ==> b in Flat(parts)
  {
    FlatTake(parts, i);
    FlatSplit(parts, i + 1);
    hide Flat;
  }

  /** How a call of file_read ends. `Overrun` stands for the C behaviour after writing past a buffer, `Stuck` for a
      driver call that does not return. */
  datatype ReadEnd = Finished(buffer: seq<byte>) | Failed | Overrun | Stuck

  /** Seeking to the end and to the start, when neither is interrupted. */
  lemma Measuring(s: Device, a: File, h: Handle)
    requires Refines(s, a) && !s.locked && |a.Content()| < 0x8000_0000_0000_0000
    ensures var (s1, r1) := Step(s, Llseek(h, 0, 2));
            var (s2, r2) := Step(s1, Llseek(h, 0, 0));
            r1 == Done(|a.Content()|, []) && r2 == Done(0, [])
            && Refines(s1, a.MoveTo(h, |a.Content()|))
            && Refines(s2, a.MoveTo(h, |a.Content()|).MoveTo(h, 0))
            && s2.Pos(h) == 0
  {
    hide Refines;
    var op, op' := Llseek(h, 0, 2), Llseek(h, 0, 0);
    StepRefines(s, a, op);
    SameLock(s, a);
    assert Signed(|a.Content()| + 0, 0x1_0000_0000_0000_0000) == |a.Content()|;
    StepRefines(Step(s, op).0, FileStep(a, op).0, op');
    SameLock(Step(s, op).0, FileStep(a, op).0);
  }

  /** file_size: seeks to the end and back to the start, and subtracts the two answers, errors included; nothing when a
      seek does not return. Undisturbed, this measures the file and leaves the position at 0. */
  method FileSize(dev: CharDevice.Aesd, h: Handle, interruptEnd: bool, interruptSet: bool, ghost a: File)
      returns (size: Option<int>)
    requires dev.Valid() && Refines(dev.State(), a)
    modifies dev
    ensures dev.Valid()
    ensures var (b, end) := FileStep(a, if interruptEnd then Interrupted(h) else Llseek(h, 0, 2));
            var (c, front) := FileStep(b, if interruptSet then Interrupted(h) else Llseek(h, 0, 0));
            if end.Done? && front.Done? then size == Some(CInt(end.ret) - CInt(front.ret)) && Refines(dev.State(), c)
            else size == None && Refines(dev.State(), b)
    ensures !a.locked && !interruptEnd && !interruptSet && |a.Content()| < INT_RANGE / 2 ==>
              size == Some(|a.Content()|)
              && dev.State().Pos(h) == 0 && Refines(dev.State(), a.MoveTo(h, |a.Content()|).MoveTo(h, 0))
  {
    hide Refines, Step, FileStep;
    if !a.locked && |a.Content()| < INT_RANGE / 2 {
      SameLock(dev.State(), a);
      Measuring(dev.State(), a, h);
      assert CInt(|a.Content()|) == |a.Content()| && CInt(0) == 0;
    }
    hide CInt;
    ghost var op := if interruptEnd then Interrupted(h) else Llseek(h, 0, 2);
    ghost var op' := if interruptSet then Interrupted(h) else Llseek(h, 0, 0);
    SeekRefines(dev.State(), a, op);
    SeekRefines(Step(dev.State(), op).0, FileStep(a, op).0, op');
    var end := dev.Llseek(h, 0, 2, interruptEnd);
    if !end.Done? {
      return None;
    }
    var front := dev.Llseek(h, 0, 0, interruptSet);
    if !front.Done? {
      return None;
    }
    size := Some(CInt(end.ret) - CInt(front.ret));
  }

  lemma SeekRefines(s: Device, a: File, op: Op)
    requires Refines(s, a) && !op.Write?
    ensures Refines(Step(s, op).0, FileStep(a, op).0) && Step(s, op).1 == FileStep(a, op).1
    ensures !Step(s, op).1.Done? ==> Step(s, op).0 == s && FileStep(a, op).0 == a
  {
    StepRefines(s, a, op);
    SameLock(s, a);
    hide Refines;
  }

  /** One turn of the draining loop, in whatever environment. */
  lemma DrainTurn(s: Device, b: File, h: Handle, left: nat, interrupted: bool, fault: bool)
    requires Refines(s, b)
    ensures var (s', r) := Step(s, if interrupted then Interrupted(h) else Read(h, left, fault));
            var ahead := Ahead(b, h, left);
            (!r.Done? <==> b.locked && !interrupted)
            && (r.Done? && r.ret < 0 <==> interrupted || (!b.locked && fault && ahead != []))
            && (r.Done? && r.ret == 0 ==> ahead == [] && Refines(s', b))
            && (r.Done? && r.ret > 0 ==> ahead != [])
            && (r.Done? && r.ret > 0 ==>
                  var next := b.MoveTo(h, b.Pos(h) + |ahead[0]|);
                  r.data == ahead[0] && r.ret == |ahead[0]| <= left
                  && Refines(s', next) && Ahead(next, h, left - r.ret) == ahead[1..])
  {
    hide Refines;
    var op := if interrupted then Interrupted(h) else Read(h, left, fault);
    StepRefines(s, b, op);
    SameLock(s, b);
    assert b.Valid() by {
      ValidFile(s, b);
    }
    ReadTakesChunk(b, h, left);
    FaultyRead(b, h, left);
    hide Ahead, ReadFile;
  }

  lemma ValidFile(s: Device, a: File)
    requires Refines(s, a)
    ensures a.Valid()
  {
  }

  /** A read that faults either fails or had nothing to copy. */
  lemma FaultyRead(b: File, h: Handle, count: nat)
    ensures ReadFile(b, h, count, true) == ReadFile(b, h, count, false) || ReadFile(b, h, count, true) == (b, Fail(EFAULT))
    ensures ReadFile(b, h, count, true).1.ret <= 0
  {
  }

  /** The file with one handle moved on by `done` bytes. */
  function MovedOn(a: File, h: Handle, done: nat): File {
    if done == 0 then a else a.MoveTo(h, a.Pos(h) + done)
  }

  lemma MovedFurther(a: File, h: Handle, done: nat, n: nat)
    requires n > 0
    ensures var b := MovedOn(a, h, done); b.MoveTo(h, b.Pos(h) + n) == MovedOn(a, h, done + n)
  {
  }

  /** What stays true while draining: the strings already appended and the chunks still ahead make up the result. */
  ghost predicate Underway(buffer: seq<byte>, chunks: seq<seq<byte>>, out: seq<byte>, ahead: seq<seq<byte>>, done: nat) {
    && out + CStrs(ahead) == buffer + CStrs(chunks)
    && (Fits(buffer, chunks) <==> Fits(out, ahead))
    && done + |Flat(ahead)| == |Flat(chunks)|
  }

  lemma UnderwayTurns(buffer: seq<byte>, chunks: seq<seq<byte>>, out: seq<byte>, ahead: seq<seq<byte>>, done: nat)
    requires Underway(buffer, chunks, out, ahead, done)
    ensures ahead == [] ==> out == buffer + CStrs(chunks) && Fits(buffer, chunks) && done == |Flat(chunks)|
    ensures ahead != [] ==>
              if ChunkFits(ahead[0]) && |out| + |CStr(ahead[0])| < BUFFER_SIZE
              then Underway(buffer, chunks, out + CStr(ahead[0]), ahead[1..], done + |ahead[0]|)
              else !Fits(buffer, chunks)
  {
    if ahead == [] {
      assert out + [] == out;
    } else {
      assert out + CStr(ahead[0]) + CStrs(ahead[1..]) == out + CStrs(ahead);
    }
  }

  /** One read of the draining loop. `next` is the file afterwards and `rest` what is then ahead. */
  method Turn(dev: CharDevice.Aesd, h: Handle, left: nat, interrupted: bool, fault: bool, ghost b: File)
      returns (r: Result, ghost next: File, ghost rest: seq<seq<byte>>)
    requires dev.Valid() && Refines(dev.State(), b)
    modifies dev
    ensures dev.Valid()
    ensures !r.Done? <==> b.locked && !interrupted
    ensures r.Done? && r.ret < 0 <==> interrupted || (!b.locked && fault && Ahead(b, h, left) != [])
    ensures r.Done? && r.ret == 0 ==> Ahead(b, h, left) == [] && Refines(dev.State(), b)
    ensures r.Done? && r.ret > 0 ==>
              r.ret == |r.data| <= left && Ahead(b, h, left) == [r.data] + rest
              && next == b.MoveTo(h, b.Pos(h) + |r.data|) && next.locked == b.locked
              && Refines(dev.State(), next) && Ahead(next, h, left - r.ret) == rest
  {
    hide Refines, Step, Ahead;
    DrainTurn(dev.State(), b, h, left, interrupted, fault);
    r := dev.Read(h, left, interrupted, fault);
    next, rest := b, [];
    if r.Done? && r.ret > 0 {
      next, rest := b.MoveTo(h, b.Pos(h) + |r.data|), Ahead(b, h, left)[1..];
    }
  }

  /** file_read: reads and appends until a read answers 0. `interrupted` and `fault` say what happens to the i-th read. */
  method FileRead(dev: CharDevice.Aesd, h: Handle, buffer: seq<byte>, size: int,
                  interrupted: nat -> bool, fault: nat -> bool, ghost a: File)
      returns (end: ReadEnd)
    requires dev.Valid() && Refines(dev.State(), a)
    modifies dev
    ensures dev.Valid()
    ensures size <= 0 ==> end == Failed && dev.State() == old(dev.State())
    ensures size > 0 && !a.locked && (forall i :: !interrupted(i) && !fault(i)) ==>
              var chunks := Ahead(a, h, size);
              (if Fits(buffer, chunks) then end == Finished(buffer + CStrs(chunks)) else end == Overrun)
    ensures size > 0 && !a.locked ==> end == Drained(buffer, Ahead(a, h, size), 0, interrupted, fault)
    ensures size > 0 && a.locked ==> end == if interrupted(0) then Failed else Stuck
    ensures end.Finished? ==>
              end.buffer == buffer + CStrs(Ahead(a, h, size))
              && Refines(dev.State(), MovedOn(a, h, |Flat(Ahead(a, h, size))|))
  {
    hide *;
    if size <= 0 {
      return Failed;
    }
    var left: nat, out, i: nat := size, buffer, 0;
    ghost var b, chunks, done: nat := a, Ahead(a, h, size), 0;
    ghost var ahead := chunks;
    UnderwayStarts(a, h, buffer, chunks);
    if forall i :: !interrupted(i) && !fault(i) {
      Undisturbed(buffer, chunks, interrupted, fault);
    }
    while true
      invariant dev.Valid() && Refines(dev.State(), b) && b.locked == a.locked
      invariant ahead == Ahead(b, h, left)
      invariant Underway(buffer, chunks, out, ahead, done)
      invariant b == MovedOn(a, h, done)
      invariant Drained(out, ahead, i, interrupted, fault) == Drained(buffer, chunks, 0, interrupted, fault)
      invariant a.locked ==> i == 0
      decreases |ahead|
    {
      DrainedTurn(out, ahead, i, interrupted, fault);
      UnderwayTurns(buffer, chunks, out, ahead, done);
      var r;
      ghost var next, rest;
      r, next, rest := Turn(dev, h, left, interrupted(i), fault(i), b);
      if !r.Done? {
        return Stuck;
      }
      if r.ret < 0 {
        return Failed;
      }
      if r.ret == 0 {
        return Finished(out);
      }
      if !ChunkFits(r.data) || |out| + |CStr(r.data)| >= BUFFER_SIZE {
        return Overrun;
      }
      MovedFurther(a, h, done, r.ret);
      out := out + CStr(r.data);
      b, ahead, done := next, rest, done + r.ret;
      left, i := left - r.ret, i + 1;
    }
  }

  /** How draining these chunks ends, from read number `i` on, when reads may be interrupted and copies may fault. */
  function Drained(out: seq<byte>, ahead: seq<seq<byte>>, i: nat, interrupted: nat -> bool, fault: nat -> bool): ReadEnd
    decreases |ahead|
  {
    if interrupted(i) then Failed
    else if ahead == [] then Finished(out)
    else if fault(i) then Failed
    else if !ChunkFits(ahead[0]) || |out| + |CStr(ahead[0])| >= BUFFER_SIZE then Overrun
    else Drained(out + CStr(ahead[0]), ahead[1..], i + 1, interrupted, fault)
  }

  lemma DrainedTurn(out: seq<byte>, ahead: seq<seq<byte>>, i: nat, interrupted: nat -> bool, fault: nat -> bool)
    ensures var end := Drained(out, ahead, i, interrupted, fault);
            (interrupted(i) || (fault(i) && ahead != []) ==> end == Failed)
            && (!interrupted(i) && ahead == [] ==> end == Finished(out))
            && (!interrupted(i) && !fault(i) && ahead != [] ==>
                  if ChunkFits(ahead[0]) && |out| + |CStr(ahead[0])| < BUFFER_SIZE
                  then end == Drained(out + CStr(ahead[0]), ahead[1..], i + 1, interrupted, fault)
                  else end == Overrun)
  {
    hide CStr, ChunkFits, BUFFER_SIZE;
  }

  /** Read number `n` of the draining fails - it is interrupted, or has a chunk to copy and faults - and all chunks before
      it fit. */
  predicate FailsAt(out: seq<byte>, chunks: seq<seq<byte>>, first: nat, n: nat, interrupted: nat -> bool, fault: nat -> bool) {
    n <= |chunks| && Fits(out, chunks[..n]) && (interrupted(first + n) || (n < |chunks| && fault(first + n)))
  }

  lemma FailsLater(out: seq<byte>, chunks: seq<seq<byte>>, first: nat, n: nat, interrupted: nat -> bool, fault: nat -> bool)
    requires chunks != []
    ensures FailsAt(out, chunks, first, n + 1, interrupted, fault) <==>
            ChunkFits(chunks[0]) && |out| + |CStr(chunks[0])| < BUFFER_SIZE
            && FailsAt(out + CStr(chunks[0]), chunks[1..], first + 1, n, interrupted, fault)
  {
    hide CStr, ChunkFits, BUFFER_SIZE;
    if n < |chunks| {
      assert chunks[..n + 1][1..] == chunks[1..][..n] && chunks[..n + 1][0] == chunks[0];
    }
  }

  /** Draining fails exactly when some read fails before any chunk has overrun a buffer. Otherwise it is finished, with all
      strings appended, exactly when everything fits. */
  lemma {:induction false} DrainedIff(out: seq<byte>, chunks: seq<seq<byte>>, first: nat, interrupted: nat -> bool, fault: nat -> bool)
    ensures var end := Drained(out, chunks, first, interrupted, fault);
            (end == Failed <==> exists n :: FailsAt(out, chunks, first, n, interrupted, fault))
            && (end != Failed ==> end == if Fits(out, chunks) then Finished(out + CStrs(chunks)) else Overrun)
    decreases |chunks|
  {
    hide CStr, ChunkFits, BUFFER_SIZE;
    DrainedTurn(out, chunks, first, interrupted, fault);
    assert FailsAt(out, chunks, first, 0, interrupted, fault) <==> interrupted(first) || (chunks != [] && fault(first));
    if chunks == [] {
      assert out + [] == out;
    } else {
      var out', rest, next := out + CStr(chunks[0]), chunks[1..], first + 1;
      DrainedIff(out', rest, next, interrupted, fault);
      hide FailsAt, Drained;
      if n: nat :| FailsAt(out, chunks, first, n, interrupted, fault) && n > 0 {
        FailsLater(out, chunks, first, n - 1, interrupted, fault);
      }
      if n: nat :| FailsAt(out', rest, next, n, interrupted, fault) {
        FailsLater(out, chunks, first, n, interrupted, fault);
      }
      assert out' + CStrs(rest) == out + CStrs(chunks);
    }
  }

  lemma Undisturbed(buffer: seq<byte>, chunks: seq<seq<byte>>, interrupted: nat -> bool, fault: nat -> bool)
    requires forall i :: !interrupted(i) && !fault(i)
    ensures Drained(buffer, chunks, 0, interrupted, fault) ==
            if Fits(buffer, chunks) then Finished(buffer + CStrs(chunks)) else Overrun
  {
    DrainedIff(buffer, chunks, 0, interrupted, fault);
    hide Drained, Fits;
  }

  lemma UnderwayStarts(a: File, h: Handle, buffer: seq<byte>, chunks: seq<seq<byte>>)
    ensures Underway(buffer, chunks, buffer, chunks, 0) && a == MovedOn(a, h, 0)
  {
  }

  /** Reading with a measured size of at least the rest of the file yields exactly the rest of the file, whatever the
      boundaries of the commands, exactly when no byte of it is NUL. */
  lemma DrainingIff(a: File, h: Handle, size: nat)
    requires a.Valid() && a.Pos(h) <= |a.Content()| && size >= |a.Content()| - a.Pos(h)
    ensures Flat(Ahead(a, h, size)) == a.Content()[a.Pos(h)..]
    ensures CStrs(Ahead(a, h, size)) == a.Content()[a.Pos(h)..] <==> NUL !in a.Content()[a.Pos(h)..]
  {
    var ps := Pieces(a.Commands(), a.Pos(h));
    PiecesAreTheRest(a.Commands(), a.Pos(h));
    ChunksAreAPrefix(ps, size);
    CStrsLossless(Ahead(a, h, size));
  }

  /** file_write: one write to the device; nothing when the call does not return. */
  method FileWrite(dev: CharDevice.Aesd, h: Handle, data: seq<byte>, alloc: Alloc, interrupted: bool, fault: bool, ghost a: File)
      returns (written: Option<int>)
    requires dev.Valid() && Refines(dev.State(), a)
    requires Possible(dev.State(), Write(h, data, alloc, fault)) && !LosesPending(dev.State(), Write(h, data, alloc, fault))
    modifies dev, dev.ring, dev.ring.entry
    ensures dev.Valid()
    ensures written == None <==> a.locked && !interrupted
    ensures written.Some? ==> written == Some(-1) || written == Some(|data|)
    ensures written == Some(|data|) <==>
            !interrupted && !a.locked && !(fault && data != []) && !(alloc.NoMemory? && a.pending + data != [])
    ensures written == Some(|data|) ==> Refines(dev.State(), WriteFile(a, h, data, false, false).0)
    ensures written != Some(|data|) ==> Refines(dev.State(), a)
  {
    hide Refines, Step;
    ghost var op := if interrupted then Interrupted(h) else Write(h, data, alloc, fault);
    SameLock(dev.State(), a);
    StepRefines(dev.State(), a, op);
    var r := dev.Write(h, data, alloc, interrupted, fault);
    written := if r.Done? then Some(if r.ret < 0 then -1 else r.ret) else None;
  }
}
