/** What the server does for its clients when no call fails: which packets are answered, with what, and that serving any
    list of packets is a plain function of the commands so far. */
module Service {
  import opened Bytes
  import opened CircularBuffer
  import opened Driver
  import opened FileSpec
  import opened Refinement
  import opened FileClient
  import opened Server
  import opened Silence

  lemma {:induction false} SysRunSplit(s: Sys, first: seq<(nat, Act)>, second: seq<(nat, Act)>)
    ensures SysRun(s, first + second) == SysRun(SysRun(s, first), second)
    decreases |first|
  {
    if first == [] {
      assert first + second == second;
    } else {
      assert (first + second)[0] == first[0] && (first + second)[1..] == first[1..] + second;
      SysRunSplit(SysStep(s, first[0].0, first[0].1), first[1..], second);
    }
  }

  /** A thread went on while everything others see of the server stayed as it was. */
  ghost predicate Stays(s: Sys, s': Sys) {
    && s'.holder == s.holder && s'.echoes == s.echoes && s'.replays == s.replays
    && s'.file.hist == s.file.hist && !s'.file.locked && Refines(s'.dev, s'.file)
  }

  lemma StaysUsable(s: Sys, s': Sys)
    requires Stays(s, s')
    ensures !s'.file.locked && Refines(s'.dev, s'.file)
  {
    hide Refines;
  }

  lemma StaysOn(s: Sys, s1: Sys, s2: Sys)
    requires Stays(s, s1) && Stays(s1, s2)
    ensures Stays(s, s2)
  {
    hide Refines;
  }

  /** The reads of one answer: `n` calls, none interrupted or failing. */
  function Reads(t: nat, n: nat): seq<(nat, Act)> {
    if n == 0 then [] else [(t, DoRead(false, false))] + Reads(t, n - 1)
  }

  lemma ReadOnce(s: Sys, t: nat, job: Job, left: nat, out: seq<byte>)
    requires Refines(s.dev, s.file) && !s.file.locked && s.Pc(t) == Reading(job, left, out)
    ensures var s' := SysStep(s, t, DoRead(false, false));
            var ahead := Ahead(s.file, SHARED, left);
            Stays(s, s')
            && if ahead == [] then s'.Pc(t) == Sending(job, out)
               else if !ChunkFits(ahead[0]) || |out| + |CStr(ahead[0])| >= BUFFER_SIZE then s'.Pc(t) == Undefined
               else |ahead[0]| <= left
                    && s'.Pc(t) == Reading(job, left - |ahead[0]|, out + CStr(ahead[0]))
                    && Ahead(s'.file, SHARED, left - |ahead[0]|) == ahead[1..]
  {
    hide Refines, Step, Ahead, ChunkFits, CStr, BUFFER_SIZE, SEEK_WORD;
    var op := Read(SHARED, left, false);
    SameLock(s.dev, s.file);
    CallKeeps(s, op);
    ReadAnswers(s.dev, s.file, op, left, false);
    DrainTurn(s.dev, s.file, SHARED, left, false, false);
    SameLock(Step(s.dev, op).0, FileStep(s.file, op).0);
    hide FileStep;
  }

  /** How the chunks ahead end up in the reply buffer. */
  function Outcome(job: Job, out: seq<byte>, ahead: seq<seq<byte>>): Place {
    if Fits(out, ahead) then Sending(job, out + CStrs(ahead)) else Undefined
  }

  lemma OutcomeNext(job: Job, out: seq<byte>, ahead: seq<seq<byte>>)
    ensures Outcome(job, out, ahead) ==
            if ahead == [] then Sending(job, out)
            else if !ChunkFits(ahead[0]) || |out| + |CStr(ahead[0])| >= BUFFER_SIZE then Undefined
            else Outcome(job, out + CStr(ahead[0]), ahead[1..])
  {
    hide CStr, ChunkFits, BUFFER_SIZE;
    if ahead == [] {
      assert out + [] == out;
    } else {
      assert out + CStr(ahead[0]) + CStrs(ahead[1..]) == out + CStrs(ahead);
    }
  }

  /** The whole read loop: it collects every chunk ahead, or runs over a buffer if one does not fit. */
  lemma {:induction false} ReadToEnd(s: Sys, t: nat, job: Job, left: nat, out: seq<byte>)
    requires Refines(s.dev, s.file) && !s.file.locked && s.Pc(t) == Reading(job, left, out)
    ensures var ahead := Ahead(s.file, SHARED, left);
            var s' := SysRun(s, Reads(t, |ahead| + 1));
            Stays(s, s') && s'.Pc(t) == Outcome(job, out, ahead)
    decreases |Ahead(s.file, SHARED, left)|
  {
    hide *;
    var ahead := Ahead(s.file, SHARED, left);
    var s1 := SysStep(s, t, DoRead(false, false));
    ReadTowards(s, t, job, left, out);
    RunReads(s, t, |ahead|);
    if ahead == [] {
      NoReads(s1, t);
    } else if s1.Pc(t) == Undefined {
      UndefinedStays(s1, t, |ahead|);
    } else {
      var p := s1.Pc(t);
      ReadToEnd(s1, t, job, p.left, p.out);
      StaysOn(s, s1, SysRun(s1, Reads(t, |ahead|)));
    }
  }

  /** One read leads towards the outcome of the loop. */
  lemma ReadTowards(s: Sys, t: nat, job: Job, left: nat, out: seq<byte>)
    requires Refines(s.dev, s.file) && !s.file.locked && s.Pc(t) == Reading(job, left, out)
    ensures var ahead := Ahead(s.file, SHARED, left);
            var s1 := SysStep(s, t, DoRead(false, false));
            var p := s1.Pc(t);
            Stays(s, s1) && !s1.file.locked && Refines(s1.dev, s1.file)
            && (ahead == [] || p == Undefined ==> p == Outcome(job, out, ahead))
            && (ahead != [] && p != Undefined ==>
                  p.Reading? && p.job == job && Ahead(s1.file, SHARED, p.left) == ahead[1..]
                  && Outcome(job, p.out, ahead[1..]) == Outcome(job, out, ahead))
  {
    hide *;
    ReadOnce(s, t, job, left, out);
    OutcomeNext(job, out, Ahead(s.file, SHARED, left));
    StaysUsable(s, SysStep(s, t, DoRead(false, false)));
  }

  lemma NoReads(s: Sys, t: nat)
    ensures SysRun(s, Reads(t, 0)) == s
  {
  }

  lemma RunReads(s: Sys, t: nat, n: nat)
    ensures SysRun(s, Reads(t, n + 1)) == SysRun(SysStep(s, t, DoRead(false, false)), Reads(t, n))
  {
    hide SysStep;
    assert Reads(t, n + 1)[1..] == Reads(t, n);
  }

  lemma {:induction false} UndefinedStays(s: Sys, t: nat, n: nat)
    requires s.Pc(t) == Undefined
    ensures SysRun(s, Reads(t, n)) == s
  {
    if n > 0 {
      RunReads(s, t, n - 1);
      UndefinedStays(s, t, n - 1);
    }
  }

  /** What a client may send: a terminated string. */
  predicate Sendable(p: Packet) {
    p.bytes != [] && |p.bytes| <= BUFFER_SIZE && p.IsString() && p.EndsCommand()
  }

  /** The places on the way from the mutex to the first call of the driver. */
  lemma TakePacket(s: Sys, t: nat, p: Packet)
    requires s.holder == None && s.Pc(t) == WantLock && Sendable(p)
    ensures var place := if p.IsSeek() then SeekingEnd(Job(p, s.file.hist, false, 0, 0)) else Writing(p);
            SysRun(s, [(t, Lock), (t, Receive(Arrived(p)))]) ==
            s.Goto(t, Receiving).Goto(t, place).(holder := Some(t))
  {
    hide SEEK_WORD, BUFFER_SIZE;
    var steps: seq<(nat, Act)> := [(t, Lock), (t, Receive(Arrived(p)))];
    assert steps[1..] == [steps[1]] && |steps[1..][1..]| == 0;
    var s1 := SysStep(s, t, Lock);
    assert s1 == s.Goto(t, Receiving).(holder := Some(t));
    assert s1.Pc(t) == Receiving;
    assert SysRun(s1, [steps[1]]) == SysStep(s1, t, steps[1].1);
  }

  lemma WritePacket(s: Sys, t: nat, p: Packet, q: nat)
    requires Refines(s.dev, s.file) && s.file.pending == [] && !s.file.locked
    requires s.Pc(t) == Writing(p) && Sendable(p) && IsBlock(q) && q !in s.dev.heap
    ensures var s' := SysStep(s, t, DoWrite(Moved(q, 0), false, false));
            s'.holder == s.holder && s'.echoes == s.echoes && s'.replays == s.replays
            && Refines(s'.dev, s'.file) && !s'.file.locked && s'.file.hist == s.file.hist + [p.bytes]
            && s'.Pc(t) == SeekingEnd(Job(p, s'.file.hist, false, 0, 0))
  {
    hide Refines, SEEK_WORD, BUFFER_SIZE, Packet.EndsCommand, Packet.IsString, Step, FileStep;
    var op := Write(SHARED, p.bytes, Moved(q, 0), false);
    MayWrite(s.dev, s.file, op);
    StepRefines(s.dev, s.file, op);
    PacketWrite(s.file, p, op);
    WriteSucceeds(s.file, op);
    hide Possible, LosesPending;
  }

  lemma WriteSucceeds(a: File, op: Op)
    requires !a.locked && op.Write? && op.alloc.Moved? && !op.fault
    ensures FileStep(a, op).1 == Done(|op.data|, []) && !FileStep(a, op).0.locked
  {
  }

  lemma MayWrite(s: Device, a: File, op: Op)
    requires Refines(s, a) && a.pending == [] && op.Write? && op.alloc.Moved?
    requires IsBlock(op.alloc.to) && op.alloc.to !in s.heap
    ensures Possible(s, op) && !LosesPending(s, op)
  {
    PendingSize(s, a);
    hide Refines;
  }

  lemma MeasureEnd(s: Sys, t: nat, job: Job)
    requires Refines(s.dev, s.file) && !s.file.locked && s.Pc(t) == SeekingEnd(job)
    requires |s.file.Content()| < INT_RANGE / 2
    ensures var s' := SysStep(s, t, DoSeekEnd(false));
            Stays(s, s') && s'.Pc(t) == SeekingStart(job, |s.file.Content()|)
  {
    hide Refines, SEEK_WORD;
    var n := |s.file.Content()|;
    var op := Llseek(SHARED, 0, 2);
    SameLock(s.dev, s.file);
    Measuring(s.dev, s.file, SHARED);
    CallKeeps(s, op);
    assert Signed(n, INT_RANGE) == n;
    hide Step;
    LlseekKeepsLock(s.file, op);
  }

  lemma MeasureStart(s: Sys, t: nat, job: Job, n: nat)
    requires Refines(s.dev, s.file) && !s.file.locked && s.Pc(t) == SeekingStart(job, n)
    requires !job.packet.IsSeek() && n > 0
    ensures var s' := SysStep(s, t, DoSeekStart(false));
            Stays(s, s') && s'.file.Pos(SHARED) == 0 && s'.Pc(t) == Reading(job.(from := 0, total := n), n, [])
  {
    hide Refines, SEEK_WORD, Step;
    var op := Llseek(SHARED, 0, 0);
    CallKeeps(s, op);
    SeekStartDone(s.file, op);
    LlseekKeepsLock(s.file, op);
    hide FileStep;
  }

  lemma SeekStartDone(a: File, op: Op)
    requires !a.locked && op == Llseek(SHARED, 0, 0)
    ensures FileStep(a, op).1 == Done(0, []) && FileStep(a, op).0.Pos(SHARED) == 0
    ensures CInt(0) == 0
  {
  }

  lemma MeasureFile(s: Sys, t: nat, job: Job)
    requires Refines(s.dev, s.file) && !s.file.locked && s.Pc(t) == SeekingEnd(job) && !job.packet.IsSeek()
    requires 0 < |s.file.Content()| < INT_RANGE / 2
    ensures var s' := SysStep(SysStep(s, t, DoSeekEnd(false)), t, DoSeekStart(false));
            var n := |s.file.Content()|;
            Stays(s, s') && s'.file.Pos(SHARED) == 0 && s'.Pc(t) == Reading(job.(from := 0, total := n), n, [])
  {
    hide Refines, SysStep, SEEK_WORD, Stays;
    MeasureEnd(s, t, job);
    var s1 := SysStep(s, t, DoSeekEnd(false));
    StaysUsable(s, s1);
    MeasureStart(s1, t, job, |s.file.Content()|);
    StaysOn(s, s1, SysStep(s1, t, DoSeekStart(false)));
  }

  lemma LlseekKeepsLock(a: File, op: Op)
    requires !a.locked && op.Llseek? && FileStep(a, op).1.Done? && FileStep(a, op).1.ret >= 0
    ensures !FileStep(a, op).0.locked
  {
  }

  // ---- the calls of a seek packet ----

  lemma MeasureBack(s: Sys, t: nat, job: Job, n: nat)
    requires Refines(s.dev, s.file) && !s.file.locked && s.Pc(t) == SeekingStart(job, n) && job.packet.IsSeek()
    ensures var s' := SysStep(s, t, DoSeekStart(false));
            Stays(s, s') && s'.Pc(t) == Controlling(job, n)
  {
    hide Refines, SEEK_WORD, Step;
    var op := Llseek(SHARED, 0, 0);
    CallKeeps(s, op);
    SeekStartDone(s.file, op);
    LlseekKeepsLock(s.file, op);
    hide FileStep;
  }

  lemma AcceptedSeek(a: File, p: Packet)
    requires !a.locked && InSlot(a.hist, p)
    ensures FileStep(a, Ioctl(SHARED, SeekTo(p.cmd, p.off))) == (a.MoveTo(SHARED, SeekPosition(a.hist, p)), Done(0, []))
  {
  }

  lemma Control(s: Sys, t: nat, job: Job, n: nat)
    requires Refines(s.dev, s.file) && !s.file.locked && s.Pc(t) == Controlling(job, n)
    requires InSlot(s.file.hist, job.packet) && n > 0
    ensures var s' := SysStep(s, t, DoIoctl(false, false));
            var from := SeekPosition(s.file.hist, job.packet);
            Stays(s, s') && s'.file.Pos(SHARED) == from
            && s'.Pc(t) == Reading(job.(sought := true, from := from, total := n), n, [])
  {
    hide Refines, SEEK_WORD, Step, InSlot, SeekPosition;
    var op := Ioctl(SHARED, SeekTo(job.packet.cmd, job.packet.off));
    CallKeeps(s, op);
    AcceptedSeek(s.file, job.packet);
    hide FileStep;
  }

  // ---- reading to the end and replying ----

  /** What a client is sent when these chunks are ahead: their strings, if they fit the buffers and are not all empty. */
  function Answer(parts: seq<seq<byte>>): Option<seq<byte>> {
    if Fits([], parts) && CStrs(parts) != [] then Some(CStrs(parts)) else None
  }

  /** The mutex and the driver are free. */
  predicate Ready(s: Sys) {
    s.holder == None && !s.file.locked
  }

  /** The reply is the last of its kind. */
  ghost predicate Replied(s: Sys, s': Sys, r: Reply) {
    if r.job.packet.IsSeek() then s'.echoes == s.echoes && s'.replays == s.replays + [r]
    else s'.echoes == s.echoes + [r] && s'.replays == s.replays
  }

  /** Reading all that is ahead and sending what was read. */
  lemma AnswerFrom(s: Sys, t: nat, job: Job, n: nat, parts: seq<seq<byte>>)
    requires Refines(s.dev, s.file) && !s.file.locked && s.holder == Some(t)
    requires s.Pc(t) == Reading(job, n, []) && parts == Ahead(s.file, SHARED, n)
    ensures var s' := SysStep(SysRun(s, Reads(t, |parts| + 1)), t, DoSend(true));
            s'.file.hist == s.file.hist
            && match Answer(parts)
               case Some(data) => Ready(s') && s'.Pc(t) == WantLock && Replied(s, s', Reply(t, job, data))
               case None => Silent(s') && SameService(s, s')
  {
    hide Refines, SysStep, SysRun, Fits, SEEK_WORD, Ahead, Silent;
    ReadToEnd(s, t, job, n, []);
    var s6 := SysRun(s, Reads(t, |parts| + 1));
    assert [] + CStrs(parts) == CStrs(parts);
    Sent(s6, t, job, CStrs(parts));
  }

  lemma Sent(s: Sys, t: nat, job: Job, out: seq<byte>)
    requires s.holder == Some(t)
    ensures var s' := SysStep(s, t, DoSend(true));
            s'.file == s.file
            && (s.Pc(t) == Sending(job, out) && out != [] ==>
                  s'.holder == None && s'.Pc(t) == WantLock && Replied(s, s', Reply(t, job, out)))
            && (s.Pc(t) == Sending(job, out) && out == [] ==> Silent(s') && SameService(s, s'))
            && (s.Pc(t) == Undefined ==> Silent(s') && SameService(s, s'))
  {
    hide SEEK_WORD;
  }

  // ---- the calls of one packet ----

  /** The calls for an ordinary packet, none interrupted, failing or faulting. */
  function StoreCalls(t: nat, p: Packet, q: nat, turns: nat): seq<(nat, Act)> {
    [(t, Lock), (t, Receive(Arrived(p)))]
    + [(t, DoWrite(Moved(q, 0), false, false)), (t, DoSeekEnd(false)), (t, DoSeekStart(false))]
    + Reads(t, turns)
    + [(t, DoSend(true))]
  }

  /** The calls for a seek packet. */
  function SeekCalls(t: nat, p: Packet, turns: nat): seq<(nat, Act)> {
    [(t, Lock), (t, Receive(Arrived(p)))]
    + [(t, DoSeekEnd(false)), (t, DoSeekStart(false)), (t, DoIoctl(false, false))]
    + Reads(t, turns)
    + [(t, DoSend(true))]
  }

  lemma ThreeSteps(s: Sys, x: (nat, Act), y: (nat, Act), z: (nat, Act))
    ensures SysRun(s, [x, y, z]) == SysStep(SysStep(SysStep(s, x.0, x.1), y.0, y.1), z.0, z.1)
    ensures SysRun(s, [z]) == SysStep(s, z.0, z.1)
  {
    hide SysStep;
    assert [x, y, z][1..] == [y, z] && [y, z][1..] == [z] && |[z][1..]| == 0;
    var s1 := SysStep(s, x.0, x.1);
    var s2 := SysStep(s1, y.0, y.1);
    assert SysRun(s2, [z]) == SysStep(s2, z.0, z.1);
    assert SysRun(s1, [y, z]) == SysRun(s2, [z]);
  }

  /** The two calls that take a packet, three calls in the middle, the reads, and the sending. */
  lemma CallsInParts(s: Sys, t: nat, p: Packet, x: Act, y: Act, z: Act, turns: nat)
    ensures var taken := SysRun(s, [(t, Lock), (t, Receive(Arrived(p)))]);
            var ready := SysStep(SysStep(SysStep(taken, t, x), t, y), t, z);
            SysRun(s, [(t, Lock), (t, Receive(Arrived(p)))] + [(t, x), (t, y), (t, z)] + Reads(t, turns) + [(t, DoSend(true))]) ==
            SysStep(SysRun(ready, Reads(t, turns)), t, DoSend(true))
  {
    hide SysStep, SysRun;
    var a: seq<(nat, Act)> := [(t, Lock), (t, Receive(Arrived(p)))];
    var b := [(t, x), (t, y), (t, z)];
    var c, d := Reads(t, turns), [(t, DoSend(true))];
    SysRunSplit(s, a + b + c, d);
    SysRunSplit(s, a + b, c);
    SysRunSplit(s, a, b);
    ThreeSteps(SysRun(s, a), (t, x), (t, y), (t, z));
    ThreeSteps(SysRun(s, a + b + c), (t, x), (t, y), (t, DoSend(true)));
  }

  // ---- ordinary packets ----

  lemma SomethingToSend(hist: seq<seq<byte>>, bytes: seq<byte>)
    requires NEWLINE in CStr(bytes)
    ensures var parts := Last(hist + [bytes], 10);
            parts != [] && parts[|parts| - 1] == bytes && CStrs(parts) != [] && |Flat(parts)| > 0
  {
    var parts := Last(hist + [bytes], 10);
    var n := |parts| - 1;
    CStrsEndsWith(parts);
    FlatTake(parts, n);
    assert parts[..n + 1] == parts;
    assert bytes != [];
  }

  lemma {:induction false} CStrsEndsWith(parts: seq<seq<byte>>)
    requires parts != []
    ensures |CStrs(parts)| >= |CStr(parts[|parts| - 1])|
  {
    if |parts| > 1 {
      CStrsEndsWith(parts[1..]);
    }
  }

  lemma WholeFileAhead(s: Device, a: File, n: nat)
    requires Refines(s, a) && a.Pos(SHARED) == 0 && n == |a.Content()|
    ensures Ahead(a, SHARED, n) == a.Commands()
  {
    hide Refines;
    ValidFile(s, a);
    CommandsNonEmpty(a);
    PiecesFromStart(a.Commands());
    ChunksAreAll(a.Commands(), n);
  }

  /** The facts of the invariant that serving a packet starts from, and that the file stays small. */
  lemma FreeState(s: Sys)
    requires Inv(s)
    ensures Refines(s.dev, s.file) && s.file.pending == []
    ensures |s.file.Content()| < INT_RANGE / 2
    ensures forall cmd: seq<byte> :: |cmd| <= BUFFER_SIZE ==> |Flat(Last(s.file.hist + [cmd], 10))| < INT_RANGE / 2
  {
    hide Refines, EchoesOk, ReplaysOk, Exclusive, HolderOk;
    ShortFile(s.file.hist);
    forall cmd: seq<byte> | |cmd| <= BUFFER_SIZE
      ensures |Flat(Last(s.file.hist + [cmd], 10))| < INT_RANGE / 2
    {
      ShortWithOneMore(s.file.hist, cmd);
      ShortFile(s.file.hist + [cmd]);
    }
  }

  /** From any reachable state with the mutex and the device free, an ordinary packet whose calls do not fail is stored as
      one command. If the strings of all readable commands fit the buffers, they are the reply, and the mutex and the
      driver are free again; otherwise the server is silent from then on. */
  lemma PacketAnsweredIff(s: Sys, t: nat, p: Packet, q: nat)
    requires Inv(s) && Ready(s) && s.Pc(t) == WantLock
    requires Sendable(p) && !p.IsSeek() && IsBlock(q) && q !in s.dev.heap
    ensures var hist := s.file.hist + [p.bytes];
            var parts := Last(hist, 10);
            var s' := SysRun(s, StoreCalls(t, p, q, |parts| + 1));
            s'.file.hist == hist
            && (if Fits([], parts)
                then Ready(s') && s'.Pc(t) == WantLock
                     && s'.echoes == s.echoes + [Reply(t, Job(p, hist, false, 0, |Flat(parts)|), CStrs(parts))]
                     && s'.replays == s.replays
                else Silent(s') && s'.echoes == s.echoes && s'.replays == s.replays)
  {
    var hist := s.file.hist + [p.bytes];
    var parts := Last(hist, 10);
    var n := |Flat(parts)|;
    FreeState(s);
    SomethingToSend(s.file.hist, p.bytes);
    CallsInParts(s, t, p, DoWrite(Moved(q, 0), false, false), DoSeekEnd(false), DoSeekStart(false), |parts| + 1);
    hide Inv, Refines, SysStep, SysRun, Fits, SEEK_WORD, Silent;
    TakePacket(s, t, p);
    var s2 := s.Goto(t, Receiving).Goto(t, Writing(p)).(holder := Some(t));
    WritePacket(s2, t, p, q);
    var s3 := SysStep(s2, t, DoWrite(Moved(q, 0), false, false));
    MeasureFile(s3, t, Job(p, hist, false, 0, 0));
    var s5 := SysStep(SysStep(s3, t, DoSeekEnd(false)), t, DoSeekStart(false));
    WholeFileAhead(s5.dev, s5.file, n);
    AnswerFrom(s5, t, Job(p, hist, false, 0, n), n, parts);
  }

  /** In bytes: as long as no readable byte is NUL, the reply is the whole file with the packet at its end exactly when each
      of its commands is shorter than 1024 bytes and all together are shorter than 30720. */
  lemma PlainPacketIff(s: Sys, t: nat, p: Packet, q: nat)
    requires Inv(s) && Ready(s) && s.Pc(t) == WantLock
    requires Sendable(p) && !p.IsSeek() && IsBlock(q) && q !in s.dev.heap
    requires NUL !in Flat(Last(s.file.hist + [p.bytes], 10))
    ensures var hist := s.file.hist + [p.bytes];
            var parts := Last(hist, 10);
            var s' := SysRun(s, StoreCalls(t, p, q, |parts| + 1));
            if (forall i :: 0 <= i < |parts| ==> |parts[i]| < 1024) && |Flat(parts)| < 30720
            then Ready(s') && s'.echoes == s.echoes + [Reply(t, Job(p, hist, false, 0, |Flat(parts)|), Flat(parts))]
            else Silent(s') && s'.echoes == s.echoes
  {
    hide Inv, SysRun, SEEK_WORD, Fits, StoreCalls, Silent;
    PacketAnsweredIff(s, t, p, q);
    var parts := Last(s.file.hist + [p.bytes], 10);
    PlainFits(parts);
  }

  /** In particular the first packet a fresh server receives, if it holds no NUL, comes back as it was sent exactly when it
      is shorter than 1024 bytes; a longer one silences the server. */
  lemma FirstPacketComesBackIff(t: nat, p: Packet, q: nat)
    requires Sendable(p) && !p.IsSeek() && NUL !in p.bytes && IsBlock(q)
    ensures var s' := SysRun(START, StoreCalls(t, p, q, 2));
            if |p.bytes| < 1024
            then Ready(s') && |s'.echoes| == 1 && s'.echoes[0].thread == t && s'.echoes[0].data == p.bytes
            else Silent(s') && s'.echoes == []
  {
    hide Inv, SysRun, SEEK_WORD, Silent;
    StartInv();
    assert [] + [p.bytes] == [p.bytes];
    assert Flat([p.bytes]) == p.bytes + [] == p.bytes;
    PlainPacketIff(START, t, p, q);
  }

  // ---- seek packets ----

  /** What is read after an accepted seek: the file from the position on, although the size was measured before. */
  lemma RestAhead(s: Device, a: File, n: nat)
    requires Refines(s, a) && n == |a.Content()|
    ensures Ahead(a, SHARED, n) == Pieces(a.Commands(), a.Pos(SHARED))
  {
    hide Refines;
    ValidFile(s, a);
    CommandsNonEmpty(a);
    PiecesNoneEmpty(a.Commands(), a.Pos(SHARED));
    PiecesAreTheRest(a.Commands(), a.Pos(SHARED));
    ChunksAreAll(Pieces(a.Commands(), a.Pos(SHARED)), n);
  }

  /** A seek packet up to the ioctl: nothing others see has changed but the mutex. */
  lemma SeekTaken(s: Sys, t: nat, p: Packet)
    requires Inv(s) && Ready(s) && s.Pc(t) == WantLock && Sendable(p) && p.IsSeek()
    ensures var s2 := SysRun(s, [(t, Lock), (t, Receive(Arrived(p)))]);
            var s4 := SysStep(SysStep(s2, t, DoSeekEnd(false)), t, DoSeekStart(false));
            Refines(s4.dev, s4.file) && !s4.file.locked && s4.holder == Some(t) && SameService(s, s4)
            && s4.Pc(t) == Controlling(Job(p, s.file.hist, false, 0, 0), |s.file.Content()|)
  {
    FreeState(s);
    hide Inv, Refines, SysStep, SysRun, SEEK_WORD;
    TakePacket(s, t, p);
    var job := Job(p, s.file.hist, false, 0, 0);
    var s2 := s.Goto(t, Receiving).Goto(t, SeekingEnd(job)).(holder := Some(t));
    MeasureEnd(s2, t, job);
    MeasureBack(SysStep(s2, t, DoSeekEnd(false)), t, job, |s.file.Content()|);
  }

  /** What is ahead after a seek packet. */
  function SoughtParts(hist: seq<seq<byte>>, p: Packet): seq<seq<byte>> {
    if InSlot(hist, p) then Pieces(Last(hist, 10), SeekPosition(hist, p)) else []
  }

  lemma SlotIsContent(hist: seq<seq<byte>>, p: Packet)
    requires InSlot(hist, p)
    ensures |Flat(Last(hist, 10))| > 0
  {
    var parts := Last(hist, 10);
    var j := Rank(OldestSlot(|hist|), p.cmd);
    SlotIsCommand(hist, p.cmd);
    hide Slot, OldestSlot, Rank, Flat;
    FlatTake(parts, j);
    FlatSplit(parts, j + 1);
  }

  lemma RefusedInFile(s: Device, a: File, p: Packet)
    requires Refines(s, a)
    ensures Refused(s, p) <==> !InSlot(a.hist, p)
  {
    SlotSizes(s, a, 0);
    hide Refines, Slot;
  }

  /** An accepted seek, from the ioctl on. */
  lemma SeekAnswered(s: Sys, t: nat, job: Job)
    requires Refines(s.dev, s.file) && !s.file.locked && s.holder == Some(t) && InSlot(s.file.hist, job.packet)
    requires s.Pc(t) == Controlling(job, |s.file.Content()|)
    ensures var parts := SoughtParts(s.file.hist, job.packet);
            var from := SeekPosition(s.file.hist, job.packet);
            var s' := SysStep(SysRun(SysStep(s, t, DoIoctl(false, false)), Reads(t, |parts| + 1)), t, DoSend(true));
            s'.file.hist == s.file.hist
            && match Answer(parts)
               case Some(data) =>
                 Ready(s') && s'.Pc(t) == WantLock
                 && Replied(s, s', Reply(t, job.(sought := true, from := from, total := |s.file.Content()|), data))
               case None => Silent(s') && SameService(s, s')
  {
    hide Refines, SysStep, SysRun, SEEK_WORD, Slot, SeekPosition, Silent, Answer, Ahead;
    var n := |s.file.Content()|;
    SlotIsContent(s.file.hist, job.packet);
    Control(s, t, job, n);
    var s5 := SysStep(s, t, DoIoctl(false, false));
    RestAhead(s5.dev, s5.file, n);
    AnswerFrom(s5, t, job.(sought := true, from := SeekPosition(s.file.hist, job.packet), total := n), n,
               SoughtParts(s.file.hist, job.packet));
  }

  /** A refused one: silence, whatever happens next. */
  lemma SeekRefused(s: Sys, t: nat, job: Job, size: int, steps: seq<(nat, Act)>)
    requires Inv(s) && s.Pc(t) == Controlling(job, size) && !InSlot(s.file.hist, job.packet)
    ensures var s1 := SysStep(s, t, DoIoctl(false, false));
            Silent(SysRun(s1, steps)) && SameService(s, SysRun(s1, steps))
  {
    RefusedInFile(s.dev, s.file, job.packet) by {
      FreeState(s);
    }
    hide *;
    RefusedSeekSilences(s, t, job, size, steps);
  }

  /** From any reachable state with the mutex and the device free, a seek packet whose calls do not fail leaves the
      commands alone. If its slot stores the byte it names, it is answered with the strings of what the file holds from
      that position on, and the mutex and the driver are free again, when these fit the buffers and are not all empty. In
      every other case there is no reply and the server is silent from then on. */
  lemma SeekAnsweredIff(s: Sys, t: nat, p: Packet)
    requires Inv(s) && Ready(s) && s.Pc(t) == WantLock && Sendable(p) && p.IsSeek()
    ensures var hist := s.file.hist;
            var parts := SoughtParts(hist, p);
            var s' := SysRun(s, SeekCalls(t, p, |parts| + 1));
            s'.file.hist == hist
            && (if InSlot(hist, p) && Fits([], parts) && CStrs(parts) != []
                then Ready(s') && s'.Pc(t) == WantLock && s'.echoes == s.echoes
                     && s'.replays ==
                        s.replays + [Reply(t, Job(p, hist, true, SeekPosition(hist, p), |Flat(Last(hist, 10))|), CStrs(parts))]
                else Silent(s') && s'.echoes == s.echoes && s'.replays == s.replays)
  {
    var hist := s.file.hist;
    var parts := SoughtParts(hist, p);
    SeekTaken(s, t, p);
    CallsInParts(s, t, p, DoSeekEnd(false), DoSeekStart(false), DoIoctl(false, false), |parts| + 1);
    var taken: seq<(nat, Act)> := [(t, Lock), (t, Receive(Arrived(p)))];
    var s2 := SysRun(s, taken);
    var s4 := SysStep(SysStep(s2, t, DoSeekEnd(false)), t, DoSeekStart(false));
    var job := Job(p, hist, false, 0, 0);
    RunInv(s, taken);
    StepInv(s2, t, DoSeekEnd(false));
    StepInv(SysStep(s2, t, DoSeekEnd(false)), t, DoSeekStart(false));
    hide Inv, Refines, SysStep, SysRun, Silent, Slot, SeekPosition, Fits, SEEK_WORD;
    if InSlot(hist, p) {
      SeekAnswered(s4, t, job);
    } else {
      var rest := Reads(t, |parts| + 1);
      SeekRefused(s4, t, job, |s.file.Content()|, rest + [(t, DoSend(true))]);
      RunSnoc(SysStep(s4, t, DoIoctl(false, false)), rest, t, DoSend(true));
    }
  }

  lemma TwoMore(s: Sys, first: seq<(nat, Act)>, x: (nat, Act), y: (nat, Act))
    ensures SysRun(s, first + [x, y]) == SysStep(SysStep(SysRun(s, first), x.0, x.1), y.0, y.1)
  {
    hide SysStep, SysRun;
    RunSnoc(s, first, x.0, x.1);
    RunSnoc(s, first + [x], y.0, y.1);
    assert first + [x] + [y] == first + [x, y];
  }

  lemma NotSilent(s: Sys, t: nat, job: Job, size: int)
    requires Refines(s.dev, s.file) && !s.file.locked && s.holder == Some(t) && s.Pc(t) == Controlling(job, size)
    ensures !s.dev.locked && !Silent(s)
  {
    SameLock(s.dev, s.file);
  }

  /** On a fresh server every seek packet is refused, and then nobody is answered any more. */
  lemma FirstSeekSilences(t: nat, p: Packet, steps: seq<(nat, Act)>)
    requires Sendable(p) && p.IsSeek()
    ensures var before := SysRun(START, [(t, Lock), (t, Receive(Arrived(p)))] + [(t, DoSeekEnd(false)), (t, DoSeekStart(false))]);
            var s' := SysRun(SysStep(before, t, DoIoctl(false, false)), steps);
            before.Pc(t) == Controlling(Job(p, [], false, 0, 0), 0) && !Silent(before)
            && Silent(s') && s'.file.hist == [] && s'.echoes == [] && s'.replays == []
  {
    var taken: seq<(nat, Act)> := [(t, Lock), (t, Receive(Arrived(p)))];
    var all := taken + [(t, DoSeekEnd(false)), (t, DoSeekStart(false))];
    var before := SysRun(START, all);
    StartInv();
    FreshStart(t, p);
    RunInv(START, all);
    hide Inv, Refines, SysStep, SysRun, Silent, InSlot, SEEK_WORD;
    SeekTaken(START, t, p);
    TwoMore(START, taken, (t, DoSeekEnd(false)), (t, DoSeekStart(false)));
    NotSilent(before, t, Job(p, [], false, 0, 0), 0);
    SeekRefused(before, t, Job(p, [], false, 0, 0), 0, steps);
  }

  lemma FreshStart(t: nat, p: Packet)
    ensures Ready(START) && START.Pc(t) == WantLock && !InSlot([], p)
    ensures START.file.hist == [] && START.file.Content() == [] && START.echoes == [] && START.replays == []
  {
  }
}
