/** A command written in pieces is the command written whole, wherever the pieces are cut. */
module Chunking {
  import opened Bytes
  import opened Driver
  import opened FileSpec
  import opened Refinement

  /** One successful write per chunk. */
  function WriteAll(a: File, h: Handle, chunks: seq<seq<byte>>): File
    decreases |chunks|
  {
    if chunks == [] then a else WriteAll(WriteFile(a, h, chunks[0], false, false).0, h, chunks[1..])
  }

  /** No byte comes in a later chunk than the one that holds the first newline. */
  predicate EndsAtNewline(chunks: seq<seq<byte>>) {
    forall i :: 0 <= i < |chunks| && NEWLINE in chunks[i] ==> Flat(chunks[i + 1..]) == []
  }

  lemma {:induction false} EmptyWritesChangeNothing(a: File, h: Handle, chunks: seq<seq<byte>>)
    requires a.Valid() && Flat(chunks) == [] && h in a.pos
    ensures WriteAll(a, h, chunks) == a
  {
    if chunks != [] {
      assert a.pending + chunks[0] == a.pending;
      assert WriteFile(a, h, chunks[0], false, false).0 == a;
      EmptyWritesChangeNothing(a, h, chunks[1..]);
    }
  }

  lemma OneWriteGrows(a: File, h: Handle, data: seq<byte>)
    ensures var b := WriteFile(a, h, data, false, false).0;
            a.hist <= b.hist && Flat(b.hist) + b.pending == Flat(a.hist) + a.pending + data
  {
    FlatSnoc(a.hist, a.pending + data);
    assert Flat(a.hist) + a.pending + data == Flat(a.hist) + (a.pending + data) + [];
  }

  /** More writes only add to the history. */
  lemma {:induction false} HistoryGrows(a: File, h: Handle, chunks: seq<seq<byte>>)
    ensures a.hist <= WriteAll(a, h, chunks).hist
    ensures Flat(WriteAll(a, h, chunks).hist) + WriteAll(a, h, chunks).pending == Flat(a.hist) + a.pending + Flat(chunks)
    decreases |chunks|
  {
    if chunks == [] {
      assert a.pending + [] == a.pending;
      assert Flat(a.hist) + a.pending + [] == Flat(a.hist) + a.pending;
    } else {
      var b := WriteFile(a, h, chunks[0], false, false).0;
      OneWriteGrows(a, h, chunks[0]);
      hide WriteFile;
      HistoryGrows(b, h, chunks[1..]);
      assert Flat(a.hist) + a.pending + chunks[0] + Flat(chunks[1..]) == Flat(a.hist) + a.pending + Flat(chunks);
    }
  }

  /** A chunk without a newline is written first and the rest onto it. */
  lemma UnterminatedChunk(a: File, h: Handle, first: seq<byte>, rest: seq<byte>)
    requires a.Valid() && NEWLINE !in first
    ensures var b := WriteFile(a, h, first, false, false).0;
            b.Valid() && WriteFile(b, h, rest, false, false).0 == WriteFile(a, h, first + rest, false, false).0
  {
    assert NEWLINE !in a.pending + first;
    assert a.pending + first + rest == a.pending + (first + rest);
  }

  /** A chunk with a newline ends the command: bytes after it never get into it. */
  lemma TerminatedChunk(a: File, h: Handle, first: seq<byte>, rest: seq<seq<byte>>)
    requires a.Valid() && NEWLINE in first
    ensures var b := WriteFile(a, h, first, false, false).0;
            WriteAll(b, h, rest) == WriteFile(a, h, first + Flat(rest), false, false).0 <==> Flat(rest) == []
  {
    var b := WriteFile(a, h, first, false, false).0;
    if Flat(rest) == [] {
      assert first + Flat(rest) == first;
      EmptyWritesChangeNothing(b, h, rest);
    } else {
      HistoryGrows(b, h, rest);
      var n := |a.hist|;
      assert b.hist[n] == a.pending + first;
      assert WriteAll(b, h, rest).hist[n] == b.hist[n];
      var whole := WriteFile(a, h, first + Flat(rest), false, false).0;
      assert NEWLINE in first + Flat(rest);
      assert whole.hist[n] == a.pending + (first + Flat(rest));
    }
  }

  /** Writing chunk by chunk ends in the very state of writing everything at once exactly when no byte comes
      in a later chunk than the one that holds the first newline. */
  lemma {:induction false} ChunkingIff(a: File, h: Handle, chunks: seq<seq<byte>>)
    requires a.Valid() && chunks != []
    ensures WriteAll(a, h, chunks) == WriteFile(a, h, Flat(chunks), false, false).0 <==> EndsAtNewline(chunks)
    decreases |chunks|
  {
    hide WriteFile;
    var first, rest := chunks[0], chunks[1..];
    var b := WriteFile(a, h, first, false, false).0;
    assert Flat(chunks) == first + Flat(rest);
    if NEWLINE in first {
      TerminatedChunk(a, h, first, rest);
      if Flat(rest) == [] {
        EmptyRest(chunks);
      } else {
        assert chunks[0 + 1..] == rest;
      }
    } else {
      UnterminatedChunk(a, h, first, Flat(rest));
      TailEndsAtNewline(chunks);
      if rest == [] {
        assert first + [] == first;
      } else {
        ChunkingIff(b, h, rest);
      }
    }
  }

  lemma EmptyRest(chunks: seq<seq<byte>>)
    requires chunks != [] && Flat(chunks[1..]) == []
    ensures EndsAtNewline(chunks)
  {
    forall i | 0 <= i < |chunks| && NEWLINE in chunks[i]
      ensures Flat(chunks[i + 1..]) == []
    {
      FlatSplit(chunks[1..], i);
      assert chunks[1..][i..] == chunks[i + 1..];
    }
  }

  lemma TailEndsAtNewline(chunks: seq<seq<byte>>)
    requires chunks != [] && NEWLINE !in chunks[0]
    ensures EndsAtNewline(chunks) <==> EndsAtNewline(chunks[1..])
  {
    var rest := chunks[1..];
    if EndsAtNewline(chunks) {
      forall i | 0 <= i < |rest| && NEWLINE in rest[i]
        ensures Flat(rest[i + 1..]) == []
      {
        assert chunks[i + 1] == rest[i];
        assert rest[i + 1..] == chunks[i + 2..];
      }
    }
    if EndsAtNewline(rest) {
      forall i | 0 <= i < |chunks| && NEWLINE in chunks[i]
        ensures Flat(chunks[i + 1..]) == []
      {
        assert chunks[i] == rest[i - 1];
        assert chunks[i + 1..] == rest[i..];
      }
    }
  }

  // ---- on the device ----

  /** The operations of a list that write these chunks, each successful in its environment. */
  predicate WritesChunks(ops: seq<Op>, h: Handle, chunks: seq<seq<byte>>) {
    |ops| == |chunks| && forall i :: 0 <= i < |ops| ==>
      ops[i].Write? && ops[i].h == h && ops[i].data == chunks[i] && !ops[i].alloc.NoMemory? && !ops[i].fault
  }

  lemma {:induction false} RunIsWriteAll(a: File, h: Handle, ops: seq<Op>, chunks: seq<seq<byte>>)
    requires !a.locked && WritesChunks(ops, h, chunks)
    ensures FileRun(a, ops) == WriteAll(a, h, chunks)
    decreases |ops|
  {
    if ops != [] {
      RunIsWriteAll(FileStep(a, ops[0]).0, h, ops[1..], chunks[1..]);
    }
  }

  /** The same ring positions, the same bytes in every slot and pending, the same positions of every open file: equal up
      to where the buffers lie. */
  ghost predicate SameUpToAddresses(s: Device, t: Device) {
    && s.ring.inOffs == t.ring.inOffs && s.ring.outOffs == t.ring.outOffs && s.ring.full == t.ring.full
    && (forall i :: 0 <= i < 11 ==> Entries(s)[i].size == Entries(t)[i].size && EntryBytes(s, i) == EntryBytes(t, i))
    && s.locked == t.locked && s.pos == t.pos
  }

  lemma SameFileSameDevice(s: Device, t: Device, a: File)
    requires Refines(s, a) && Refines(t, a)
    ensures SameUpToAddresses(s, t)
  {
    forall i | 0 <= i < 11
      ensures Entries(s)[i].size == Entries(t)[i].size && EntryBytes(s, i) == EntryBytes(t, i)
    {
      assert Holds(s.heap, Entries(s)[i], Stored(a)[i]) && Holds(t.heap, Entries(t)[i], Stored(a)[i]);
    }
  }

  /** On the driver: any two ways of cutting the same bytes into writes, both with no byte in a later chunk than the first
      newline, leave the device in the same state up to buffer addresses, whatever the allocator did in either. */
  lemma CuttingDoesNotMatter(s: Device, a: File, h: Handle, ops: seq<Op>, chunks: seq<seq<byte>>, ops': seq<Op>, chunks': seq<seq<byte>>)
    requires Refines(s, a) && !s.locked
    requires chunks != [] && chunks' != [] && Flat(chunks) == Flat(chunks')
    requires EndsAtNewline(chunks) && EndsAtNewline(chunks')
    requires WritesChunks(ops, h, chunks) && WritesChunks(ops', h, chunks')
    requires Keeps(s, ops) && Keeps(s, ops')
    ensures SameUpToAddresses(Run(s, ops), Run(s, ops'))
  {
    RunIsWriteAll(a, h, ops, chunks);
    RunIsWriteAll(a, h, ops', chunks');
    ChunkingIff(a, h, chunks);
    ChunkingIff(a, h, chunks');
    RunRefines(s, a, ops);
    RunRefines(s, a, ops');
    SameFileSameDevice(Run(s, ops), Run(s, ops'), FileRun(a, ops));
  }
}
