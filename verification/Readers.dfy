/** What a reader receives while others write: history bytes, in order, none twice, skipping only what was evicted. */
module Readers {
  import opened Bytes
  import opened Driver
  import opened FileSpec
  import opened Refinement

  /** One successful read: how many bytes had been evicted when it happened, how many the handle had itself written, and
      which bytes of everything ever committed it delivered, counted from the very first. */
  datatype Span = Span(evicted: nat, written: nat, lo: nat, data: seq<byte>) {
    function Hi(): nat {
      lo + |data|
    }
  }

  predicate Delivers(op: Op, r: Result, h: Handle) {
    op.Read? && op.h == h && r.Done? && r.data != []
  }

  /** The bytes an operation of handle `h` writes; they move its position as well. */
  function Wrote(op: Op, r: Result, h: Handle): nat {
    if op.Write? && op.h == h && r.Done? && r.ret > 0 then r.ret else 0
  }

  /** The spans a run delivers to handle `h`, which has written `w` bytes before. */
  function Spans(a: File, ops: seq<Op>, h: Handle, w: nat): seq<Span>
    decreases |ops|
  {
    if ops == [] then []
    else
      var (b, r) := FileStep(a, ops[0]);
      (if Delivers(ops[0], r, h) then [Span(a.Evicted(), w, a.Evicted() + a.Pos(h), r.data)] else [])
      + Spans(b, ops[1..], h, w + Wrote(ops[0], r, h))
  }

  /** All the bytes a run writes by handle `h`. */
  function WrittenBy(a: File, ops: seq<Op>, h: Handle): nat
    decreases |ops|
  {
    if ops == [] then 0
    else
      var (b, r) := FileStep(a, ops[0]);
      Wrote(ops[0], r, h) + WrittenBy(b, ops[1..], h)
  }

  /** The byte strings the answers of a run hand to handle `h`. */
  function Delivered(ops: seq<Op>, rs: seq<Result>, h: Handle): seq<seq<byte>>
    requires |ops| == |rs|
  {
    if ops == [] then []
    else (if Delivers(ops[0], rs[0], h) then [rs[0].data] else []) + Delivered(ops[1..], rs[1..], h)
  }

  function Data(spans: seq<Span>): seq<seq<byte>> {
    if spans == [] then [] else [spans[0].data] + Data(spans[1..])
  }

  predicate Seeks(op: Op) {
    op.Llseek? || (op.Ioctl? && op.request.SeekTo?)
  }

  /** The handle does not seek: it reads and writes; other handles do anything. */
  predicate NoSeeks(ops: seq<Op>, h: Handle) {
    forall i :: 0 <= i < |ops| && ops[i].h == h ==> !Seeks(ops[i])
  }

  /** The handle is used for nothing but reads; other handles do anything. */
  predicate OnlyReads(ops: seq<Op>, h: Handle) {
    forall i :: 0 <= i < |ops| && ops[i].h == h ==> ops[i].Read? || ops[i].Interrupted?
  }

  /** Each span starts where the one before it ended, plus the bytes evicted and those written by the handle itself in
      between: the position within the file carries over. `p` is the position, `evicted` and `w` the bytes evicted and
      written before the first span. */
  ghost predicate Follow(spans: seq<Span>, evicted: nat, w: nat, p: nat) {
    spans == [] ||
    (spans[0].evicted >= evicted && spans[0].written >= w && spans[0].lo == spans[0].evicted + p + (spans[0].written - w)
     && Follow(spans[1..], spans[0].evicted, spans[0].written, p + (spans[0].written - w) + |spans[0].data|))
  }

  /** Every span delivered exactly its bytes of the history. */
  ghost predicate Genuine(spans: seq<Span>, all: seq<byte>) {
    forall i :: 0 <= i < |spans| ==> spans[i].Hi() <= |all| && all[spans[i].lo..spans[i].Hi()] == spans[i].data
  }

  // ---- the history only grows ----

  lemma EvictionGrows(a: File, op: Op)
    ensures var b := FileStep(a, op).0;
            a.Evicted() <= b.Evicted() && Flat(a.hist) <= Flat(b.hist)
  {
    var b := FileStep(a, op).0;
    if b.hist != a.hist {
      var n := |a.hist|;
      var k, k' := n - |a.Commands()|, n + 1 - |b.Commands()|;
      FlatSnoc(a.hist, b.hist[n]);
      assert b.hist[..k] == a.hist[..k];
      assert b.hist[..k'] == b.hist[..k] + b.hist[k..k'];
      FlatAppend(b.hist[..k], b.hist[k..k']);
    }
  }

  lemma {:induction false} HistoryGrows(a: File, ops: seq<Op>)
    ensures var b := FileRun(a, ops);
            a.Evicted() <= b.Evicted() && Flat(a.hist) <= Flat(b.hist)
    decreases |ops|
  {
    if ops != [] {
      EvictionGrows(a, ops[0]);
      HistoryGrows(FileStep(a, ops[0]).0, ops[1..]);
    }
  }

  // ---- one handle's reads ----

  /** A read takes the next bytes of the history behind what has been evicted. */
  lemma ReadFromHistory(a: File, op: Op, h: Handle)
    requires Delivers(op, FileStep(a, op).1, h)
    ensures var (b, r) := FileStep(a, op);
            var lo := a.Evicted() + a.Pos(h);
            lo + |r.data| <= |Flat(a.hist)| && Flat(a.hist)[lo..lo + |r.data|] == r.data
            && b.Pos(h) == a.Pos(h) + |r.data|
  {
    ReadIsSlice(a, h, op.count);
    HistorySplits(a);
    var p, n := a.Pos(h), |FileStep(a, op).1.data|;
    SliceOfSuffix(Flat(a.hist), a.Evicted(), p, p + n);
  }

  /** Where an operation that is not a seek and delivers nothing leaves a handle: its own write moves it. */
  lemma PositionAfter(a: File, op: Op, h: Handle)
    requires op.h == h ==> !Seeks(op)
    requires !Delivers(op, FileStep(a, op).1, h)
    ensures FileStep(a, op).0.Pos(h) == a.Pos(h) + Wrote(op, FileStep(a, op).1, h)
  {
    if op.Read? && op.h == h && !a.locked {
      if Pieces(a.Commands(), a.Pos(h)) != [] {
        PiecesAreTheRest(a.Commands(), a.Pos(h));
      }
    }
  }

  /** Putting one more span in front. */
  lemma SpanInFront(span: Span, rest: seq<Span>, later: nat, p: nat, all: seq<byte>)
    requires Follow(rest, later, span.written, p + |span.data|) && Genuine(rest, all)
    requires span.lo == span.evicted + p && span.evicted <= later
    requires span.Hi() <= |all| && all[span.lo..span.Hi()] == span.data
    ensures Follow([span] + rest, span.evicted, span.written, p) && Genuine([span] + rest, all)
    ensures Data([span] + rest) == [span.data] + Data(rest)
    ensures |Flat(Data([span] + rest))| == |span.data| + |Flat(Data(rest))|
  {
    assert ([span] + rest)[1..] == rest;
    FollowEarlier(rest, later, span.written, p + |span.data|, span.evicted, 0);
    FlatAppend([span.data], Data(rest));
  }

  /** The same spans seen from earlier on, before some evictions and `n` bytes of the handle's own writes. */
  lemma FollowEarlier(spans: seq<Span>, evicted: nat, w: nat, p: nat, earlier: nat, n: nat)
    requires Follow(spans, evicted, w, p) && earlier <= evicted && n <= w && n <= p
    ensures Follow(spans, earlier, w - n, p - n)
  {
  }

  lemma NoSeeksNext(ops: seq<Op>, h: Handle)
    requires ops != [] && NoSeeks(ops, h)
    ensures NoSeeks(ops[1..], h) && (ops[0].h == h ==> !Seeks(ops[0]))
  {
  }

  lemma NothingRead(a: File, h: Handle, w: nat)
    ensures Spans(a, [], h, w) == [] && FileRun(a, []) == a && WrittenBy(a, [], h) == 0
    ensures Follow([], a.Evicted(), w, a.Pos(h)) && Genuine([], Flat(a.hist)) && Flat(Data([])) == []
  {
  }

  /** The spans of a handle that does not seek are genuine, and each starts at the end of the one before it plus what was
      evicted and what the handle wrote in between. */
  lemma {:induction false} ReaderFollows(a: File, ops: seq<Op>, h: Handle, w: nat)
    requires NoSeeks(ops, h)
    ensures var b := FileRun(a, ops);
            var spans := Spans(a, ops, h, w);
            Follow(spans, a.Evicted(), w, a.Pos(h)) && Genuine(spans, Flat(b.hist))
            && b.Pos(h) == a.Pos(h) + |Flat(Data(spans))| + WrittenBy(a, ops, h)
    decreases |ops|
  {
    hide *;
    if ops == [] {
      NothingRead(a, h, w);
    } else {
      NoSeeksNext(ops, h);
      var (b, r) := FileStep(a, ops[0]);
      ReaderFollows(b, ops[1..], h, w + Wrote(ops[0], r, h));
      ReaderFollowsNext(a, ops, h, w);
    }
  }

  lemma SpansCons(a: File, ops: seq<Op>, h: Handle, w: nat)
    requires ops != []
    ensures var (b, r) := FileStep(a, ops[0]);
            var rest := Spans(b, ops[1..], h, w + Wrote(ops[0], r, h));
            FileRun(a, ops) == FileRun(b, ops[1..])
            && WrittenBy(a, ops, h) == Wrote(ops[0], r, h) + WrittenBy(b, ops[1..], h)
            && (Delivers(ops[0], r, h) ==> Wrote(ops[0], r, h) == 0)
            && Spans(a, ops, h, w) ==
               if Delivers(ops[0], r, h) then [Span(a.Evicted(), w, a.Evicted() + a.Pos(h), r.data)] + rest else rest
  {
    hide FileStep, a.Evicted;
    var (b, r) := FileStep(a, ops[0]);
    var rest := Spans(b, ops[1..], h, w + Wrote(ops[0], r, h));
    assert [] + rest == rest;
  }

  lemma ReaderFollowsNext(a: File, ops: seq<Op>, h: Handle, w: nat)
    requires ops != [] && (ops[0].h == h ==> !Seeks(ops[0]))
    requires var (b, r) := FileStep(a, ops[0]);
             var w' := w + Wrote(ops[0], r, h);
             var rest := Spans(b, ops[1..], h, w');
             var f := FileRun(b, ops[1..]);
             Follow(rest, b.Evicted(), w', b.Pos(h)) && Genuine(rest, Flat(f.hist))
             && f.Pos(h) == b.Pos(h) + |Flat(Data(rest))| + WrittenBy(b, ops[1..], h)
    ensures var spans := Spans(a, ops, h, w);
            var f := FileRun(a, ops);
            Follow(spans, a.Evicted(), w, a.Pos(h)) && Genuine(spans, Flat(f.hist))
            && f.Pos(h) == a.Pos(h) + |Flat(Data(spans))| + WrittenBy(a, ops, h)
  {
    hide FileStep, FileRun, Spans, WrittenBy, Wrote, Follow, Genuine, Data, Flat, a.Evicted, a.Pos;
    var op := ops[0];
    var (b, r) := FileStep(a, op);
    var w' := w + Wrote(op, r, h);
    var rest := Spans(b, ops[1..], h, w');
    var all := Flat(FileRun(b, ops[1..]).hist);
    SpansCons(a, ops, h, w);
    EvictionGrows(a, op);
    HistoryGrows(b, ops[1..]);
    if Delivers(op, r, h) {
      ReadFromHistory(a, op, h);
      var span := Span(a.Evicted(), w, a.Evicted() + a.Pos(h), r.data);
      assert all[span.lo..span.Hi()] == Flat(a.hist)[span.lo..span.Hi()];
      SpanInFront(span, rest, b.Evicted(), a.Pos(h), all);
    } else {
      PositionAfter(a, op, h);
      FollowEarlier(rest, b.Evicted(), w', b.Pos(h), a.Evicted(), Wrote(op, r, h));
    }
  }

  /** Following spans never overlap and never go back. */
  lemma {:induction false} FollowingIsOrdered(spans: seq<Span>, evicted: nat, w: nat, p: nat, i: nat, j: nat)
    requires Follow(spans, evicted, w, p) && i < j < |spans|
    ensures spans[i].Hi() <= spans[j].lo
    ensures j == i + 1 ==>
              spans[j].lo == spans[i].Hi() + (spans[j].evicted - spans[i].evicted) + (spans[j].written - spans[i].written)
  {
    var q := p + (spans[0].written - w) + |spans[0].data|;
    if i > 0 {
      FollowingIsOrdered(spans[1..], spans[0].evicted, spans[0].written, q, i - 1, j - 1);
    } else if j > 1 {
      FollowingIsOrdered(spans[1..], spans[0].evicted, spans[0].written, q, 0, j - 1);
    }
  }

  /** While nothing is evicted and the handle writes nothing the spans join up. */
  lemma {:induction false} FollowingJoins(spans: seq<Span>, evicted: nat, w: nat, p: nat, all: seq<byte>)
    requires Follow(spans, evicted, w, p) && Genuine(spans, all)
    requires forall i :: 0 <= i < |spans| ==> spans[i].evicted == evicted && spans[i].written == w
    requires evicted + p <= |all|
    ensures var n := |Flat(Data(spans))|;
            evicted + p + n <= |all| && Flat(Data(spans)) == all[evicted + p..evicted + p + n]
  {
    hide *;
    FlatData(spans);
    if spans == [] {
      assert all[evicted + p..evicted + p] == [];
    } else {
      FirstSpan(spans, evicted, w, p, all);
      var lo, k := evicted + p, |spans[0].data|;
      FollowingJoins(spans[1..], evicted, w, p + k, all);
      JoinSlices(all, lo, lo + k, lo + k + |Flat(Data(spans[1..]))|);
    }
  }

  lemma FlatData(spans: seq<Span>)
    ensures Flat(Data(spans)) == if spans == [] then [] else spans[0].data + Flat(Data(spans[1..]))
  {
    if spans != [] {
      assert ([spans[0].data] + Data(spans[1..]))[1..] == Data(spans[1..]);
    }
  }

  lemma FirstSpan(spans: seq<Span>, evicted: nat, w: nat, p: nat, all: seq<byte>)
    requires spans != [] && Follow(spans, evicted, w, p) && Genuine(spans, all)
    requires forall i :: 0 <= i < |spans| ==> spans[i].evicted == evicted && spans[i].written == w
    ensures var (span, q) := (spans[0], p + |spans[0].data|);
            span.lo == evicted + p && evicted + q <= |all| && all[evicted + p..evicted + q] == span.data
            && Follow(spans[1..], evicted, w, q) && Genuine(spans[1..], all)
    ensures forall i :: 0 <= i < |spans[1..]| ==> spans[1..][i].evicted == evicted && spans[1..][i].written == w
  {
  }

  lemma JoinSlices(all: seq<byte>, i: nat, j: nat, k: nat)
    requires i <= j <= k <= |all|
    ensures all[i..k] == all[i..j] + all[j..k]
  {
  }

  lemma {:induction false} GrowthBetween(a: File, ops: seq<Op>, h: Handle, w: nat)
    ensures forall i :: 0 <= i < |Spans(a, ops, h, w)| ==>
              a.Evicted() <= Spans(a, ops, h, w)[i].evicted <= FileRun(a, ops).Evicted()
              && w <= Spans(a, ops, h, w)[i].written <= w + WrittenBy(a, ops, h)
    decreases |ops|
  {
    hide *;
    NothingRead(a, h, w);
    if ops != [] {
      var (b, r) := FileStep(a, ops[0]);
      EvictionGrows(a, ops[0]);
      HistoryGrows(b, ops[1..]);
      GrowthBetween(b, ops[1..], h, w + Wrote(ops[0], r, h));
      SpansCons(a, ops, h, w);
    }
  }

  lemma DeliveredCons(a: File, ops: seq<Op>, h: Handle)
    requires ops != []
    ensures var (b, r) := FileStep(a, ops[0]);
            var rest := Delivered(ops[1..], FileResults(b, ops[1..]), h);
            Delivered(ops, FileResults(a, ops), h) == if Delivers(ops[0], r, h) then [r.data] + rest else rest
  {
    hide FileStep, Delivers;
    var (b, r) := FileStep(a, ops[0]);
    assert FileResults(a, ops)[1..] == FileResults(b, ops[1..]) && FileResults(a, ops)[0] == r;
    hide FileResults;
    var rest := Delivered(ops[1..], FileResults(b, ops[1..]), h);
    assert [] + rest == rest;
  }

  lemma DataOfSpans(a: File, ops: seq<Op>, h: Handle, w: nat)
    requires ops != []
    ensures var (b, r) := FileStep(a, ops[0]);
            var rest := Data(Spans(b, ops[1..], h, w + Wrote(ops[0], r, h)));
            Data(Spans(a, ops, h, w)) == if Delivers(ops[0], r, h) then [r.data] + rest else rest
  {
    hide FileStep, Spans, Wrote, WrittenBy, FileRun, a.Evicted, a.Pos;
    var (b, r) := FileStep(a, ops[0]);
    SpansCons(a, ops, h, w);
    if Delivers(ops[0], r, h) {
      var span := Span(a.Evicted(), w, a.Evicted() + a.Pos(h), r.data);
      var rest := Spans(b, ops[1..], h, w);
      assert ([span] + rest)[1..] == rest;
    }
  }

  lemma NothingDelivered(a: File, h: Handle, w: nat)
    ensures Data(Spans(a, [], h, w)) == [] && Delivered([], FileResults(a, []), h) == []
  {
  }

  lemma {:induction false} SpansAreDelivered(a: File, ops: seq<Op>, h: Handle, w: nat)
    ensures Data(Spans(a, ops, h, w)) == Delivered(ops, FileResults(a, ops), h)
    decreases |ops|
  {
    hide *;
    if ops == [] {
      NothingDelivered(a, h, w);
    } else {
      var (b, r) := FileStep(a, ops[0]);
      SpansAreDelivered(b, ops[1..], h, w + Wrote(ops[0], r, h));
      DataOfSpans(a, ops, h, w);
      DeliveredCons(a, ops, h);
    }
  }

  /** On the driver, over any run in which a handle does not seek - it may read and write - while the others do anything:
      what its reads return are spans of the history of all commands, in strictly forward order, each starting at the end
      of the one before plus the bytes evicted and the bytes it wrote itself between the two. */
  lemma ReadersInOrder(s: Device, a: File, ops: seq<Op>, h: Handle, i: nat, j: nat)
    requires Refines(s, a) && Keeps(s, ops) && NoSeeks(ops, h)
    ensures var spans := Spans(a, ops, h, 0);
            var all := Flat(FileRun(a, ops).hist);
            Delivered(ops, Results(s, ops), h) == Data(spans) && Genuine(spans, all)
            && (i < j < |spans| ==> spans[i].Hi() <= spans[j].lo)
            && (j == i + 1 < |spans| ==>
                  spans[j].lo - spans[i].Hi() ==
                  (spans[j].evicted - spans[i].evicted) + (spans[j].written - spans[i].written))
            && (i == 0 < |spans| ==> spans[0].lo == spans[0].evicted + s.Pos(h) + spans[0].written)
  {
    hide Refines;
    RunRefines(s, a, ops);
    SpansAreDelivered(a, ops, h, 0);
    ReaderFollows(a, ops, h, 0);
    SamePosition(s, a, h);
    if i < j < |Spans(a, ops, h, 0)| {
      FollowingIsOrdered(Spans(a, ops, h, 0), a.Evicted(), 0, a.Pos(h), i, j);
    }
  }

  lemma SamePosition(s: Device, a: File, h: Handle)
    requires Refines(s, a)
    ensures s.Pos(h) == a.Pos(h)
  {
  }

  lemma {:induction false} WritesNothing(a: File, ops: seq<Op>, h: Handle)
    requires OnlyReads(ops, h)
    ensures WrittenBy(a, ops, h) == 0 && NoSeeks(ops, h)
    decreases |ops|
  {
    if ops != [] {
      WritesNothing(FileStep(a, ops[0]).0, ops[1..], h);
      hide FileStep;
      assert forall i :: 0 < i < |ops| ==> ops[i] == ops[1..][i - 1];
    }
  }

  /** As long as nothing is evicted, the reads of a handle that only reads and starts inside the file concatenate to one
      slice of the history: from where it stood to where it stands. */
  lemma ReadersContiguous(s: Device, a: File, ops: seq<Op>, h: Handle)
    requires Refines(s, a) && Keeps(s, ops) && OnlyReads(ops, h)
    requires FileRun(a, ops).Evicted() == a.Evicted() && s.Pos(h) <= |a.Content()|
    ensures var all := Flat(FileRun(a, ops).hist);
            var lo, hi := a.Evicted() + s.Pos(h), a.Evicted() + Run(s, ops).Pos(h);
            lo <= hi <= |all| && Flat(Delivered(ops, Results(s, ops), h)) == all[lo..hi]
  {
    hide *;
    RunRefines(s, a, ops);
    SamePosition(s, a, h);
    SamePosition(Run(s, ops), FileRun(a, ops), h);
    WritesNothing(a, ops, h);
    SpansAreDelivered(a, ops, h, 0);
    ReaderFollows(a, ops, h, 0);
    GrowthBetween(a, ops, h, 0);
    HistoryGrows(a, ops);
    HistorySplits(a);
    FollowingJoins(Spans(a, ops, h, 0), a.Evicted(), 0, a.Pos(h), Flat(FileRun(a, ops).hist));
  }

  /** In particular an open file that was not used before is read from the first byte there is: as long as nothing is evicted
      its reads concatenate to the beginning of the file. */
  lemma NewReaderFromStart(s: Device, a: File, ops: seq<Op>, h: Handle)
    requires Refines(s, a) && Keeps(s, ops) && OnlyReads(ops, h) && h !in s.pos
    requires FileRun(a, ops).Evicted() == a.Evicted()
    ensures Flat(Delivered(ops, Results(s, ops), h)) <= FileRun(a, ops).Content()
  {
    hide Refines, Keeps, OnlyReads, Run, FileRun, Results, Delivered, Flat, Last;
    ReadersContiguous(s, a, ops, h);
    HistorySplits(FileRun(a, ops));
  }
}
