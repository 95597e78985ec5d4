/** Whole sessions in which no call fails: any list of packets, by any threads, is served as a plain function says. */
module Session {
  import opened Bytes
  import opened Driver
  import opened FileSpec
  import opened Refinement
  import opened FileClient
  import opened Server
  import opened Silence
  import opened Service

  // ---- the service, without device, threads or buffers ----

  /** What the clients have of the server: the commands stored, who was sent what, and whether it still answers. */
  datatype Board = Board(hist: seq<seq<byte>>, echoes: seq<(nat, seq<byte>)>, replays: seq<(nat, seq<byte>)>, serving: bool)

  const BLANK := Board([], [], [], true)

  /** The commands, or rests of commands, a packet asks for. */
  function Wanted(hist: seq<seq<byte>>, p: Packet): seq<seq<byte>> {
    if p.IsSeek() then SoughtParts(hist, p) else Last(hist + [p.bytes], 10)
  }

  /** An ordinary packet is stored; every packet is answered with what it wants, unless that does not fit or is nothing. */
  function Serve(b: Board, t: nat, p: Packet): Board {
    if !b.serving then b
    else
      var hist := if p.IsSeek() then b.hist else b.hist + [p.bytes];
      match Answer(Wanted(b.hist, p))
      case None => Board(hist, b.echoes, b.replays, false)
      case Some(data) =>
        if p.IsSeek() then Board(hist, b.echoes, b.replays + [(t, data)], true)
        else Board(hist, b.echoes + [(t, data)], b.replays, true)
  }

  function ServeAll(b: Board, packets: seq<(nat, Packet)>): Board
    decreases |packets|
  {
    if packets == [] then b else ServeAll(Serve(b, packets[0].0, packets[0].1), packets[1..])
  }

  // ---- the calls of a session ----

  lemma {:induction false} SomeBlockIsFree(live: set<nat>, low: nat)
    ensures exists q: nat :: q >= low && q !in live
    decreases live
  {
    if low in live {
      SomeBlockIsFree(live - {low}, low + 1);
    }
  }

  /** Some address the allocator may hand out. */
  ghost function FreshBlock(heap: Heap): (q: nat)
    ensures IsBlock(q) && q !in heap
  {
    SomeBlockIsFree(heap.Keys, 17);
    var q: nat :| q >= 17 && q !in heap.Keys;
    q
  }

  ghost function Calls(s: Sys, t: nat, p: Packet): seq<(nat, Act)> {
    var turns := |Wanted(s.file.hist, p)| + 1;
    if p.IsSeek() then SeekCalls(t, p, turns) else StoreCalls(t, p, FreshBlock(s.dev.heap), turns)
  }

  /** The packets one after the other, each with all its calls. */
  ghost function SessionCalls(s: Sys, packets: seq<(nat, Packet)>): seq<(nat, Act)>
    decreases |packets|
  {
    if packets == [] then []
    else
      var calls := Calls(s, packets[0].0, packets[0].1);
      calls + SessionCalls(SysRun(s, calls), packets[1..])
  }

  // ---- the server shows the board ----

  function Told(replies: seq<Reply>): seq<(nat, seq<byte>)> {
    seq(|replies|, i requires 0 <= i < |replies| => (replies[i].thread, replies[i].data))
  }

  ghost predicate Shows(s: Sys, b: Board) {
    && s.file.hist == b.hist && Told(s.echoes) == b.echoes && Told(s.replays) == b.replays
    && if b.serving then Ready(s) else Silent(s)
  }

  lemma ToldMore(replies: seq<Reply>, r: Reply)
    ensures Told(replies + [r]) == Told(replies) + [(r.thread, r.data)]
  {
  }

  lemma StoreServed(s: Sys, b: Board, t: nat, p: Packet)
    requires Inv(s) && Shows(s, b) && b.serving && s.Pc(t) == WantLock && Sendable(p) && !p.IsSeek()
    ensures var s' := SysRun(s, Calls(s, t, p));
            Shows(s', Serve(b, t, p)) && (Serve(b, t, p).serving ==> s'.Pc(t) == WantLock)
  {
    var hist := s.file.hist + [p.bytes];
    var parts := Last(hist, 10);
    PacketAnsweredIff(s, t, p, FreshBlock(s.dev.heap));
    SomethingToSend(s.file.hist, p.bytes);
    hide Inv, Fits, SysRun, SEEK_WORD, StoreCalls, Told, Silent, Last;
    ToldMore(s.echoes, Reply(t, Job(p, hist, false, 0, |Flat(parts)|), CStrs(parts)));
  }

  lemma SeekServed(s: Sys, b: Board, t: nat, p: Packet)
    requires Inv(s) && Shows(s, b) && b.serving && s.Pc(t) == WantLock && Sendable(p) && p.IsSeek()
    ensures var s' := SysRun(s, Calls(s, t, p));
            Shows(s', Serve(b, t, p)) && (Serve(b, t, p).serving ==> s'.Pc(t) == WantLock)
  {
    var hist := s.file.hist;
    var parts := SoughtParts(hist, p);
    SeekAnsweredIff(s, t, p);
    hide Inv, Fits, SysRun, SEEK_WORD, SeekCalls, Told, Silent, Last, Slot, SeekPosition;
    if InSlot(hist, p) {
      ToldMore(s.replays, Reply(t, Job(p, hist, true, SeekPosition(hist, p), |Flat(Last(hist, 10))|), CStrs(parts)));
    } else {
      assert parts == [];
    }
  }

  /** The calls of one packet do to the server what serving it does to the board. */
  lemma PacketServed(s: Sys, b: Board, t: nat, p: Packet)
    requires Inv(s) && Shows(s, b) && Sendable(p) && (b.serving ==> s.Pc(t) == WantLock)
    ensures var s' := SysRun(s, Calls(s, t, p));
            Shows(s', Serve(b, t, p)) && (Serve(b, t, p).serving ==> s'.Pc(t) == WantLock)
  {
    if !b.serving {
      hide Inv, SysRun, Calls, Silent, Told;
      SilentForEver(s, Calls(s, t, p));
    } else if p.IsSeek() {
      SeekServed(s, b, t, p);
    } else {
      StoreServed(s, b, t, p);
    }
  }

  // ---- the other threads ----

  predicate AllBy(calls: seq<(nat, Act)>, t: nat) {
    forall i :: 0 <= i < |calls| ==> calls[i].0 == t
  }

  /** A call of one thread leaves the places of the others alone. */
  lemma OthersStay(s: Sys, t: nat, act: Act, u: nat)
    requires u != t
    ensures SysStep(s, t, act).Pc(u) == s.Pc(u)
  {
    hide Step, FileStep, SEEK_WORD, BUFFER_SIZE, ChunkFits, CStr, Possible;
  }

  lemma {:induction false} OthersStayOn(s: Sys, calls: seq<(nat, Act)>, t: nat, u: nat)
    requires AllBy(calls, t) && u != t
    ensures SysRun(s, calls).Pc(u) == s.Pc(u)
    decreases |calls|
  {
    hide SysStep;
    if calls != [] {
      OthersStay(s, calls[0].0, calls[0].1, u);
      OthersStayOn(SysStep(s, calls[0].0, calls[0].1), calls[1..], t, u);
    }
  }

  lemma {:induction false} ReadsAllBy(t: nat, n: nat)
    ensures AllBy(Reads(t, n), t)
  {
    if n > 0 {
      ReadsAllBy(t, n - 1);
    }
  }

  lemma CallsAllBy(s: Sys, t: nat, p: Packet)
    ensures AllBy(Calls(s, t, p), t)
  {
    hide Wanted, SEEK_WORD;
    ReadsAllBy(t, |Wanted(s.file.hist, p)| + 1);
    hide Reads;
  }

  /** Every packet is a terminated string, from a thread that waits for the mutex. */
  ghost predicate MayCome(s: Sys, packets: seq<(nat, Packet)>) {
    forall i :: 0 <= i < |packets| ==> Sendable(packets[i].1) && s.Pc(packets[i].0) == WantLock
  }

  /** The sequential service: from any reachable state, the calls of any packets of any threads, none of them failing, do
      to the server what `ServeAll` does to the board - up to the first packet that cannot be answered, and with silence
      from there on. */
  lemma {:induction false} SessionIsServed(s: Sys, b: Board, packets: seq<(nat, Packet)>)
    requires Inv(s) && Shows(s, b) && (forall i :: 0 <= i < |packets| ==> Sendable(packets[i].1))
    requires b.serving ==> MayCome(s, packets)
    ensures Shows(SysRun(s, SessionCalls(s, packets)), ServeAll(b, packets))
    decreases |packets|
  {
    hide Inv, Shows, Serve, Calls, Sendable, SysStep;
    if packets != [] {
      var (t, p) := packets[0];
      var calls := Calls(s, t, p);
      var s' := SysRun(s, calls);
      PacketServed(s, b, t, p);
      RunInv(s, calls);
      if Serve(b, t, p).serving {
        StillWaiting(s, b, t, p, packets);
      }
      SessionIsServed(s', Serve(b, t, p), packets[1..]);
      SysRunSplit(s, calls, SessionCalls(s', packets[1..]));
    }
  }

  lemma StillWaiting(s: Sys, b: Board, t: nat, p: Packet, packets: seq<(nat, Packet)>)
    requires packets != [] && packets[0] == (t, p) && (b.serving ==> MayCome(s, packets))
    requires Serve(b, t, p).serving && SysRun(s, Calls(s, t, p)).Pc(t) == WantLock
    ensures MayCome(SysRun(s, Calls(s, t, p)), packets[1..])
  {
    hide SysRun, Calls, Sendable, Wanted, Answer, SEEK_WORD;
    var s' := SysRun(s, Calls(s, t, p));
    CallsAllBy(s, t, p);
    forall i | 0 <= i < |packets[1..]|
      ensures Sendable(packets[1..][i].1) && s'.Pc(packets[1..][i].0) == WantLock
    {
      assert packets[1..][i] == packets[i + 1];
      var u := packets[i + 1].0;
      if u != t {
        OthersStayOn(s, Calls(s, t, p), t, u);
      }
    }
  }

  // ---- what that means for ordinary packets ----

  function PacketBytes(packets: seq<(nat, Packet)>): seq<seq<byte>> {
    seq(|packets|, i requires 0 <= i < |packets| => packets[i].1.bytes)
  }

  /** The file right after packet `k`, as commands. */
  function FileAfter(hist: seq<seq<byte>>, packets: seq<(nat, Packet)>, k: nat): seq<seq<byte>>
    requires k < |packets|
  {
    Last(hist + PacketBytes(packets)[..k + 1], 10)
  }

  ghost predicate AllFit(hist: seq<seq<byte>>, packets: seq<(nat, Packet)>) {
    forall k :: 0 <= k < |packets| ==> Fits([], FileAfter(hist, packets, k))
  }

  ghost predicate AllOrdinary(packets: seq<(nat, Packet)>) {
    forall i :: 0 <= i < |packets| ==> Sendable(packets[i].1) && !packets[i].1.IsSeek()
  }

  /** One reply for each packet, in order, with the file after it. */
  function Answers(hist: seq<seq<byte>>, packets: seq<(nat, Packet)>): seq<(nat, seq<byte>)> {
    seq(|packets|, k requires 0 <= k < |packets| => (packets[k].0, CStrs(FileAfter(hist, packets, k))))
  }

  lemma FileAfterNext(hist: seq<seq<byte>>, packets: seq<(nat, Packet)>, k: nat)
    requires k < |packets|
    ensures k == 0 ==> FileAfter(hist, packets, 0) == Last(hist + [packets[0].1.bytes], 10)
    ensures k > 0 ==> FileAfter(hist, packets, k) == FileAfter(hist + [packets[0].1.bytes], packets[1..], k - 1)
  {
    var all := PacketBytes(packets);
    if k == 0 {
      assert all[..1] == [packets[0].1.bytes];
    } else {
      assert all[..k + 1] == [packets[0].1.bytes] + PacketBytes(packets[1..])[..k];
      assert hist + all[..k + 1] == hist + [packets[0].1.bytes] + PacketBytes(packets[1..])[..k];
    }
  }

  lemma {:induction false} SilentBoard(b: Board, packets: seq<(nat, Packet)>)
    requires !b.serving
    ensures ServeAll(b, packets) == b
    decreases |packets|
  {
    if packets != [] {
      SilentBoard(b, packets[1..]);
    }
  }

  lemma AllFitNext(hist: seq<seq<byte>>, packets: seq<(nat, Packet)>)
    requires packets != []
    ensures AllFit(hist, packets) <==>
            Fits([], Last(hist + [packets[0].1.bytes], 10)) && AllFit(hist + [packets[0].1.bytes], packets[1..])
  {
    hide FileAfter, Fits, Last;
    FileAfterNext(hist, packets, 0);
    forall k | 0 < k < |packets|
      ensures FileAfter(hist, packets, k) == FileAfter(hist + [packets[0].1.bytes], packets[1..], k - 1)
    {
      FileAfterNext(hist, packets, k);
    }
    if AllFit(hist, packets) {
      forall k | 0 <= k < |packets[1..]|
        ensures Fits([], FileAfter(hist + [packets[0].1.bytes], packets[1..], k))
      {
        assert Fits([], FileAfter(hist, packets, k + 1));
      }
    }
  }

  lemma AnswersNext(hist: seq<seq<byte>>, packets: seq<(nat, Packet)>)
    requires packets != []
    ensures PacketBytes(packets) == [packets[0].1.bytes] + PacketBytes(packets[1..])
    ensures Answers(hist, packets) ==
            [(packets[0].0, CStrs(Last(hist + [packets[0].1.bytes], 10)))] + Answers(hist + [packets[0].1.bytes], packets[1..])
  {
    hide FileAfter, Last, CStrs;
    forall k | 0 <= k < |packets|
      ensures k == 0 ==> FileAfter(hist, packets, 0) == Last(hist + [packets[0].1.bytes], 10)
      ensures k > 0 ==> FileAfter(hist, packets, k) == FileAfter(hist + [packets[0].1.bytes], packets[1..], k - 1)
    {
      FileAfterNext(hist, packets, k);
    }
  }

  lemma ServeOrdinary(b: Board, t: nat, p: Packet)
    requires b.serving && Sendable(p) && !p.IsSeek()
    ensures var parts := Last(b.hist + [p.bytes], 10);
            if Fits([], parts) then Serve(b, t, p) == Board(b.hist + [p.bytes], b.echoes + [(t, CStrs(parts))], b.replays, true)
            else !Serve(b, t, p).serving
  {
    SomethingToSend(b.hist, p.bytes);
    hide Fits, Last, SEEK_WORD;
  }

  lemma {:induction false} OrdinaryBoard(b: Board, packets: seq<(nat, Packet)>)
    requires b.serving && AllOrdinary(packets)
    ensures AllFit(b.hist, packets) ==>
              ServeAll(b, packets) == Board(b.hist + PacketBytes(packets), b.echoes + Answers(b.hist, packets), b.replays, true)
    ensures !AllFit(b.hist, packets) ==> !ServeAll(b, packets).serving
    decreases |packets|
  {
    hide Serve, Sendable, Fits, Last, SEEK_WORD, AllFit, PacketBytes, Answers;
    if packets == [] {
      NothingToServe(b);
    } else {
      var (t, p) := packets[0];
      var b1 := Serve(b, t, p);
      ServeOrdinary(b, t, p);
      AllFitNext(b.hist, packets);
      AnswersNext(b.hist, packets);
      if b1.serving {
        OrdinaryBoard(b1, packets[1..]);
        hide ServeAll;
        assert b.hist + [p.bytes] + PacketBytes(packets[1..]) == b.hist + PacketBytes(packets);
        assert b1.echoes + Answers(b1.hist, packets[1..]) == b.echoes + Answers(b.hist, packets);
      } else {
        SilentBoard(b1, packets[1..]);
      }
    }
  }

  lemma NothingToServe(b: Board)
    ensures AllFit(b.hist, []) && b.hist + PacketBytes([]) == b.hist && b.echoes + Answers(b.hist, []) == b.echoes
  {
  }

  /** From the start of the server, any list of ordinary packets by any threads, no call failing: all are answered, one by
      one, each with the file right after it, exactly when each of these files fits the buffers. Otherwise the server has
      fallen silent. */
  lemma OrdinarySessionIff(packets: seq<(nat, Packet)>)
    requires AllOrdinary(packets)
    ensures var s := SysRun(START, SessionCalls(START, packets));
            if AllFit([], packets)
            then Ready(s) && s.file.hist == PacketBytes(packets) && Told(s.echoes) == Answers([], packets) && s.replays == []
            else Silent(s)
  {
    StartInv();
    FreshBoard();
    hide Inv, START, SysRun, SessionCalls, AllFit, PacketBytes, Answers, Silent, Sendable;
    assert MayCome(START, packets);
    SessionIsServed(START, BLANK, packets);
    OrdinaryBoard(BLANK, packets);
    assert [] + PacketBytes(packets) == PacketBytes(packets) && [] + Answers([], packets) == Answers([], packets);
  }

  lemma FreshBoard()
    ensures Shows(START, BLANK) && forall t: nat :: START.Pc(t) == WantLock
  {
  }
}
