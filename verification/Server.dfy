/** The socket server's connection threads (server/aesdsocket.c, tcp_echoback) over one shared device file, one library
    or system call at a time, in any interleaving. */
module Server {
  import opened Bytes
  import opened CircularBuffer
  import opened Driver
  import opened FileSpec
  import opened Refinement
  import opened FileClient

  /** The one open file all threads use. */
  const SHARED: Handle := 0

  /** AESDCHAR_IOCSEEKTO, the word that starts a seek packet */
  const SEEK_WORD: seq<byte> := [65, 69, 83, 68, 67, 72, 65, 82, 95, 73, 79, 67, 83, 69, 69, 75, 84, 79]

  /** The bytes one receive delivers, and the two numbers a scan of a seek packet finds in them. */
  datatype Packet = Packet(bytes: seq<byte>, cmd: nat, off: nat) {
    predicate IsSeek() {
      SEEK_WORD <= bytes
    }

    /** The search for a newline stops at the first NUL. */
    predicate EndsCommand() {
      NEWLINE in CStr(bytes)
    }

    /** The receive buffer, zero before, still ends the packet as a string. */
    predicate IsString() {
      |bytes| < BUFFER_SIZE || NUL in bytes
    }
  }

  datatype Event = Arrived(packet: Packet) | Closed | Failed

  /** A packet being answered. The other fields are history: the commands written when the answer was measured, whether
      the seek was accepted, where reading started and with what size. */
  datatype Job = Job(packet: Packet, hist: seq<seq<byte>>, sought: bool, from: nat, total: int)

  /** Where a thread is: the call it makes next. `Dead` left the loop without unlocking, `Undefined` wrote past a buffer. */
  datatype Place =
    | WantLock
    | Receiving
    | Writing(packet: Packet)
    | SeekingEnd(job: Job)
    | SeekingStart(job: Job, end: int)
    | Controlling(job: Job, size: int)
    | Reading(job: Job, left: nat, out: seq<byte>)
    | Sending(job: Job, out: seq<byte>)
    | Ended
    | Dead
    | Undefined

  datatype Reply = Reply(thread: nat, job: Job, data: seq<byte>)

  /** The device, the file it stands for, the server mutex, the threads, and the replies sent so far: to ordinary packets
      and to seek packets, in order. */
  datatype Sys = Sys(dev: Device, file: File, holder: Option<nat>, pc: map<nat, Place>, echoes: seq<Reply>, replays: seq<Reply>) {
    /** A thread not heard of yet is about to start. */
    function Pc(t: nat): Place {
      if t in pc then pc[t] else WantLock
    }

    function Goto(t: nat, p: Place): Sys {
      this.(pc := pc[t := p])
    }
  }

  const START := Sys(INITIAL, EMPTY_FILE, None, map[], [], [])

  /** One call made by a thread, with what its environment decides, or an operation of another process on another open
      file of the device that is not a write. */
  datatype Act =
    | Lock
    | Receive(event: Event)
    | DoWrite(alloc: Alloc, interrupted: bool, fault: bool)
    | DoSeekEnd(interrupted: bool)
    | DoSeekStart(interrupted: bool)
    | DoIoctl(interrupted: bool, fault: bool)
    | DoRead(interrupted: bool, fault: bool)
    | DoSend(ok: bool)
    | Outside(op: Op)

  predicate DriverCall(act: Act) {
    act.DoWrite? || act.DoSeekEnd? || act.DoSeekStart? || act.DoIoctl? || act.DoRead?
  }

  function Call(s: Sys, op: Op): (Sys, Result) {
    (s.(dev := Step(s.dev, op).0, file := FileStep(s.file, op).0), Step(s.dev, op).1)
  }

  function Maybe(interrupted: bool, op: Op): Op {
    if interrupted then Interrupted(op.h) else op
  }

  /** file_read refuses a size that is not positive, and the session loop is left with the mutex held. */
  function StartReading(s: Sys, t: nat, job: Job, size: int): Sys {
    if size <= 0 then s.Goto(t, Dead)
    else s.Goto(t, Reading(job.(from := s.file.Pos(SHARED), total := size), size, []))
  }

  function ReceiveStep(s: Sys, t: nat, event: Event): Sys {
    match event
    case Closed => s.Goto(t, Ended).(holder := None)
    case Failed => s.Goto(t, Ended).(holder := None)
    case Arrived(p) =>
      if p.bytes == [] || |p.bytes| > BUFFER_SIZE then s
      else if !p.IsString() then s.Goto(t, Undefined)
      else if !p.EndsCommand() then s.Goto(t, WantLock)
      else if p.IsSeek() then s.Goto(t, SeekingEnd(Job(p, s.file.hist, false, 0, 0)))
      else s.Goto(t, Writing(p))
  }

  function WriteCall(s: Sys, t: nat, p: Packet, op: Op): Sys {
    var (s', r) := Call(s, op);
    if !Possible(s.dev, op) || r.Blocked? then s
    else if r.BadMemory? then s'.Goto(t, Undefined)
    else if r.ret <= 0 then s'.Goto(t, Dead)
    else s'.Goto(t, SeekingEnd(Job(p, s'.file.hist, false, 0, 0)))
  }

  function SeekEndCall(s: Sys, t: nat, job: Job, op: Op): Sys {
    var (s', r) := Call(s, op);
    if !r.Done? then s else s'.Goto(t, SeekingStart(job, CInt(r.ret)))
  }

  function SeekStartCall(s: Sys, t: nat, job: Job, end: int, op: Op): Sys {
    var (s', r) := Call(s, op);
    if !r.Done? then s
    else if job.packet.IsSeek() then s'.Goto(t, Controlling(job, end - CInt(r.ret)))
    else StartReading(s', t, job, end - CInt(r.ret))
  }

  /** The answer of the ioctl is not looked at. */
  function IoctlCall(s: Sys, t: nat, job: Job, size: int, op: Op): Sys {
    var (s', r) := Call(s, op);
    if !r.Done? then s else StartReading(s', t, job.(sought := r == Done(0, [])), size)
  }

  /** Where a read that returned leaves the reading thread. */
  function AfterRead(job: Job, size: nat, out: seq<byte>, r: Result): Place {
    if r.BadMemory? then Undefined
    else if r.Blocked? || r.ret < 0 then Dead
    else if r.ret == 0 then Sending(job, out)
    else if r.ret > size || !ChunkFits(r.data) || |out| + |CStr(r.data)| >= BUFFER_SIZE then Undefined
    else Reading(job, size - r.ret, out + CStr(r.data))
  }

  function ReadCall(s: Sys, t: nat, job: Job, size: nat, out: seq<byte>, op: Op): Sys {
    var (s', r) := Call(s, op);
    if r.Blocked? then s else s'.Goto(t, AfterRead(job, size, out, r))
  }

  /** An empty string sends nothing, which counts as a failure. */
  function SendStep(s: Sys, t: nat, job: Job, out: seq<byte>, ok: bool): Sys {
    if !ok || out == [] then s.Goto(t, Dead)
    else
      var s' := s.Goto(t, WantLock).(holder := None);
      if job.packet.IsSeek() then s'.(replays := s.replays + [Reply(t, job, out)])
      else s'.(echoes := s.echoes + [Reply(t, job, out)])
  }

  function SysStep(s: Sys, t: nat, act: Act): Sys {
    match (s.Pc(t), act)
    case (WantLock, Lock) => if s.holder == None then s.Goto(t, Receiving).(holder := Some(t)) else s
    case (Receiving, Receive(event)) => ReceiveStep(s, t, event)
    case (Writing(p), DoWrite(alloc, interrupted, fault)) =>
      WriteCall(s, t, p, Maybe(interrupted, Write(SHARED, p.bytes, alloc, fault)))
    case (SeekingEnd(job), DoSeekEnd(interrupted)) =>
      SeekEndCall(s, t, job, Maybe(interrupted, Llseek(SHARED, 0, 2)))
    case (SeekingStart(job, end), DoSeekStart(interrupted)) =>
      SeekStartCall(s, t, job, end, Maybe(interrupted, Llseek(SHARED, 0, 0)))
    case (Controlling(job, size), DoIoctl(interrupted, fault)) =>
      IoctlCall(s, t, job, size,
                Maybe(interrupted, Ioctl(SHARED, if fault then BadArg else SeekTo(job.packet.cmd, job.packet.off))))
    case (Reading(job, size, out), DoRead(interrupted, fault)) =>
      ReadCall(s, t, job, size, out, Maybe(interrupted, Read(SHARED, size, fault)))
    case (Sending(job, out), DoSend(ok)) => SendStep(s, t, job, out, ok)
    case (_, Outside(op)) => if op.h == SHARED || op.Write? then s else Call(s, op).0
    case _ => s
  }

  /** Any interleaving: a list of which thread does what. */
  function SysRun(s: Sys, steps: seq<(nat, Act)>): Sys
    decreases |steps|
  {
    if steps == [] then s else SysRun(SysStep(s, steps[0].0, steps[0].1), steps[1..])
  }

  // ---- what holds in every reachable state ----

  /** The packet's slot stores a byte at the packet's offset. */
  predicate InSlot(hist: seq<seq<byte>>, p: Packet) {
    p.cmd < 10 && p.off < |Slot(hist, p.cmd)|
  }

  /** The position an accepted seek sets: the offset behind all lower slots. */
  function SeekPosition(hist: seq<seq<byte>>, p: Packet): nat
    requires p.cmd < 10
  {
    |Flat(Slots(hist)[..p.cmd])| + p.off
  }

  function Commands(job: Job): seq<seq<byte>> {
    Last(job.hist, 10)
  }

  function Length(job: Job): nat {
    |Flat(Commands(job))|
  }

  /** What a job that read to the end was bound to collect. */
  function Collected(job: Job): seq<byte> {
    if job.total <= 0 then [] else CStrs(Chunks(Pieces(Commands(job), job.from), job.total))
  }

  /** The file at the time fits an int. */
  predicate Small(job: Job) {
    Length(job) < INT_RANGE / 2
  }

  /** Where reading starts: at 0 for an ordinary packet, unless the seek back was interrupted and it starts at the end;
      at the position the ioctl set for an accepted seek. The size is the measured length, or one more. */
  ghost predicate StartOk(job: Job) {
    && (Small(job) ==> job.total == Length(job) || job.total == Length(job) + 1)
    && (Small(job) && !job.packet.IsSeek() ==> (job.from == 0 && job.total == Length(job)) || job.from == Length(job))
    && (job.sought ==> InSlot(job.hist, job.packet) && job.from == SeekPosition(job.hist, job.packet))
  }

  ghost predicate ReplyOk(r: Reply) {
    r.data != [] && r.data == Collected(r.job) && StartOk(r.job)
  }

  /** The replies to ordinary packets, in order, answer the commands of the history, in order. */
  ghost predicate EchoesOk(echoes: seq<Reply>, hist: seq<seq<byte>>) {
    |echoes| <= |hist| &&
    forall k :: 0 <= k < |echoes| ==>
      ReplyOk(echoes[k]) && !echoes[k].job.packet.IsSeek()
      && echoes[k].job.hist == hist[..k + 1] && echoes[k].job.packet.bytes == hist[k]
  }

  /** Each reply to a seek packet was collected from the file as it stood at some point of the history. */
  ghost predicate ReplaysOk(replays: seq<Reply>, hist: seq<seq<byte>>) {
    forall k :: 0 <= k < |replays| ==>
      ReplyOk(replays[k]) && replays[k].job.packet.IsSeek() && replays[k].job.hist <= hist
  }

  /** The job is about the file as it is now, and an ordinary packet is its last command and not answered yet. */
  ghost predicate Current(job: Job, hist: seq<seq<byte>>, answered: nat) {
    && job.hist == hist
    && (if job.packet.IsSeek() then |hist| == answered
        else |hist| == answered + 1 && hist[answered] == job.packet.bytes)
  }

  /** What each place of the thread that holds the mutex promises. A thread that has ended holds none. */
  ghost predicate PcOk(p: Place, a: File, answered: nat) {
    match p
    case WantLock => |a.hist| == answered
    case Receiving => |a.hist| == answered
    case Writing(packet) =>
      |a.hist| == answered && packet.EndsCommand() && !packet.IsSeek() && |packet.bytes| <= BUFFER_SIZE
    case SeekingEnd(job) => Current(job, a.hist, answered) && !job.sought
    case SeekingStart(job, end) =>
      Current(job, a.hist, answered) && !job.sought
      && (Small(job) ==> end == -1 || (end == Length(job) && a.Pos(SHARED) == Length(job)))
    case Controlling(job, size) =>
      Current(job, a.hist, answered) && job.packet.IsSeek()
      && (Small(job) ==> size <= 0 || size == Length(job) || size == Length(job) + 1)
    case Reading(job, left, out) =>
      Current(job, a.hist, answered) && StartOk(job) && out + CStrs(Ahead(a, SHARED, left)) == Collected(job)
    case Sending(job, out) =>
      Current(job, a.hist, answered) && StartOk(job) && out == Collected(job)
    case Ended => false
    case Dead => true
    case Undefined => true
  }

  /** Every command came in one packet. */
  ghost predicate Short(hist: seq<seq<byte>>) {
    forall i :: 0 <= i < |hist| ==> |hist[i]| <= BUFFER_SIZE
  }

  /** Only the thread that holds the mutex is inside the locked part of the loop. */
  ghost predicate Exclusive(s: Sys) {
    forall t :: t in s.pc ==> s.pc[t].WantLock? || s.pc[t].Ended? || s.holder == Some(t)
  }

  ghost predicate HolderOk(s: Sys) {
    match s.holder
    case None => |s.file.hist| == |s.echoes|
    case Some(t) => PcOk(s.Pc(t), s.file, |s.echoes|)
  }

  ghost predicate Inv(s: Sys) {
    && Refines(s.dev, s.file) && s.file.pending == [] && Short(s.file.hist)
    && EchoesOk(s.echoes, s.file.hist) && ReplaysOk(s.replays, s.file.hist)
    && Exclusive(s) && HolderOk(s)
  }

  // ---- preservation, call by call ----

  lemma StartInv()
    ensures Inv(START)
  {
    InitialRefines();
  }

  /** A thread that is neither waiting nor done holds the mutex, so it is its place in the loop that `HolderOk` is about. */
  lemma ActorHolds(s: Sys, t: nat)
    requires Exclusive(s) && HolderOk(s) && !s.Pc(t).WantLock? && !s.Pc(t).Ended?
    ensures s.holder == Some(t) && PcOk(s.Pc(t), s.file, |s.echoes|)
  {
  }

  /** The mutex holder's new place is the only thing to check after a call of its own. */
  lemma HolderMoves(s: Sys, t: nat, p: Place)
    requires Exclusive(s) && s.holder == Some(t)
    requires PcOk(p, s.file, |s.echoes|)
    ensures Exclusive(s.Goto(t, p)) && HolderOk(s.Goto(t, p))
  {
  }

  /** A call that is not a write keeps the device standing for the file, and the history. */
  lemma CallKeeps(s: Sys, op: Op)
    requires Refines(s.dev, s.file) && !op.Write?
    ensures var (s', r) := Call(s, op);
            Refines(s'.dev, s'.file) && s'.file.hist == s.file.hist && s'.file.pending == s.file.pending
            && r == FileStep(s.file, op).1 && (Exclusive(s) ==> Exclusive(s'))
  {
    StepRefines(s.dev, s.file, op);
    KeepsHistory(s.file, op);
  }

  lemma KeepsHistory(a: File, op: Op)
    requires !op.Write?
    ensures FileStep(a, op).0.hist == a.hist && FileStep(a, op).0.pending == a.pending
    ensures op.h != SHARED ==> FileStep(a, op).0.Pos(SHARED) == a.Pos(SHARED)
  {
  }

  lemma LockInv(s: Sys, t: nat)
    requires Inv(s) && s.Pc(t).WantLock?
    ensures Inv(SysStep(s, t, Lock))
  {
    hide Refines, Short, EchoesOk, ReplaysOk;
  }

  lemma ReceiveInv(s: Sys, t: nat, event: Event)
    requires Inv(s) && s.Pc(t).Receiving?
    ensures Inv(ReceiveStep(s, t, event))
  {
    hide Refines, Short, EchoesOk, ReplaysOk, SEEK_WORD;
    ActorHolds(s, t);
  }

  lemma SendInv(s: Sys, t: nat, job: Job, out: seq<byte>, ok: bool)
    requires Inv(s) && s.Pc(t) == Sending(job, out)
    ensures Inv(SendStep(s, t, job, out, ok))
  {
    hide Refines, Short, Collected, StartOk, SEEK_WORD;
    ActorHolds(s, t);
    if ok && out != [] {
      var r := Reply(t, job, out);
      assert s.file.hist[..|s.file.hist|] == s.file.hist;
    }
  }

  lemma OutsideInv(s: Sys, op: Op)
    requires Inv(s) && op.h != SHARED && !op.Write?
    ensures Inv(Call(s, op).0)
  {
    hide Refines, Short, EchoesOk, ReplaysOk, StartOk, Collected, Step, FileStep;
    CallKeeps(s, op);
    KeepsHistory(s.file, op);
  }

  /** The packet is terminated and nothing was pending, so the write completes exactly one command, or fails and changes
      nothing in the file. */
  lemma PacketWrite(a: File, p: Packet, op: Op)
    requires a.pending == [] && p.EndsCommand()
    requires op.Interrupted? || (op.Write? && op.data == p.bytes)
    ensures var (b, r) := FileStep(a, op);
            b.pending == []
            && (r.Done? && r.ret > 0 ==> b.hist == a.hist + [p.bytes])
            && (!(r.Done? && r.ret > 0) ==> b.hist == a.hist)
            && (r == Blocked ==> b == a)
  {
    assert NEWLINE in p.bytes && p.bytes != [];
    hide CStr, Packet.EndsCommand;
    if op.Write? {
      WholeWrite(a, op.h, op.data, op.alloc.NoMemory?, op.fault);
      hide WriteFile;
    }
  }

  lemma WholeWrite(a: File, h: Handle, data: seq<byte>, denied: bool, fault: bool)
    requires a.pending == [] && NEWLINE in data
    ensures WriteFile(a, h, data, denied, fault) ==
            if denied || fault then (a, Fail(EFAULT))
            else (a.MoveTo(h, a.Pos(h) + |data|).(hist := a.hist + [data], pending := []), Done(|data|, []))
  {
    assert a.pending + data == data;
  }

  lemma EchoesOkLater(echoes: seq<Reply>, hist: seq<seq<byte>>, cmd: seq<byte>)
    requires EchoesOk(echoes, hist)
    ensures EchoesOk(echoes, hist + [cmd])
    ensures forall replays :: ReplaysOk(replays, hist) ==> ReplaysOk(replays, hist + [cmd])
  {
    forall k | 0 <= k < |echoes|
      ensures echoes[k].job.hist == (hist + [cmd])[..k + 1]
    {
      assert (hist + [cmd])[..k + 1] == hist[..k + 1];
    }
  }

  lemma ShortWithOneMore(hist: seq<seq<byte>>, cmd: seq<byte>)
    ensures Short(hist) && |cmd| <= BUFFER_SIZE ==> Short(hist + [cmd])
  {
  }

  lemma WriteInv(s: Sys, t: nat, p: Packet, op: Op)
    requires Inv(s) && s.Pc(t) == Writing(p)
    requires op.Interrupted? || (op.Write? && op.data == p.bytes)
    ensures Inv(WriteCall(s, t, p, op))
  {
    hide Refines, Short, EchoesOk, ReplaysOk, StartOk, Collected, SEEK_WORD, Step, FileStep, HolderOk;
    ActorHolds(s, t);
    if Possible(s.dev, op) {
      PendingSize(s.dev, s.file);
      StepRefines(s.dev, s.file, op);
      PacketWrite(s.file, p, op);
      EchoesOkLater(s.echoes, s.file.hist, p.bytes);
      ShortWithOneMore(s.file.hist, p.bytes);
      var (s', r) := Call(s, op);
      HolderMoves(s', t, Dead);
      HolderMoves(s', t, Undefined);
      if r.Done? && r.ret > 0 {
        HolderMoves(s', t, SeekingEnd(Job(p, s'.file.hist, false, 0, 0)));
      }
    }
  }

  lemma SeekEndAnswers(a: File, op: Op)
    requires op == Interrupted(SHARED) || op == Llseek(SHARED, 0, 2)
    requires |a.Content()| < INT_RANGE / 2
    ensures var (b, r) := FileStep(a, op);
            r.Done? ==> CInt(r.ret) == -1 || (CInt(r.ret) == |a.Content()| && b.Pos(SHARED) == |a.Content()|)
  {
    var n := |a.Content()|;
    assert Signed(n + 0, 0x1_0000_0000_0000_0000) == n && Signed(n, INT_RANGE) == n;
  }

  lemma SeekEndInv(s: Sys, t: nat, job: Job, op: Op)
    requires Inv(s) && s.Pc(t) == SeekingEnd(job)
    requires op == Interrupted(SHARED) || op == Llseek(SHARED, 0, 2)
    ensures Inv(SeekEndCall(s, t, job, op))
  {
    hide Refines, Short, EchoesOk, ReplaysOk, StartOk, Collected, SEEK_WORD, Step, FileStep, Exclusive, HolderOk;
    ActorHolds(s, t);
    CallKeeps(s, op);
    var (s', r) := Call(s, op);
    if r.Done? {
      if Small(job) {
        SeekEndAnswers(s.file, op);
      }
      HolderMoves(s', t, SeekingStart(job, CInt(r.ret)));
    }
  }

  /** Reading starts with everything still ahead. */
  lemma StartReadingInv(s: Sys, t: nat, job: Job, size: int)
    requires Refines(s.dev, s.file) && s.file.pending == [] && Short(s.file.hist)
    requires EchoesOk(s.echoes, s.file.hist) && ReplaysOk(s.replays, s.file.hist)
    requires Exclusive(s) && s.holder == Some(t) && Current(job, s.file.hist, |s.echoes|)
    requires size > 0 ==> StartOk(job.(from := s.file.Pos(SHARED), total := size))
    ensures Inv(StartReading(s, t, job, size))
  {
    hide Refines, Short, EchoesOk, ReplaysOk, StartOk, SEEK_WORD;
    HolderMoves(s, t, Dead);
    if size > 0 {
      var job' := job.(from := s.file.Pos(SHARED), total := size);
      assert [] + CStrs(Ahead(s.file, SHARED, size)) == Collected(job');
      HolderMoves(s, t, Reading(job', size, []));
    }
  }

  lemma SeekStartAnswers(a: File, op: Op)
    requires op == Interrupted(SHARED) || op == Llseek(SHARED, 0, 0)
    ensures var (b, r) := FileStep(a, op);
            r.Done? ==> (CInt(r.ret) == 0 && b.Pos(SHARED) == 0) || (CInt(r.ret) == -1 && b.Pos(SHARED) == a.Pos(SHARED))
  {
  }

  /** Where the measured size and the position leave the thread. */
  lemma SeekStartPlace(job: Job, end: int, a: File, b: File, answered: nat, front: int)
    requires PcOk(SeekingStart(job, end), a, answered) && b.hist == a.hist
    requires (front == 0 && b.Pos(SHARED) == 0) || (front == -1 && b.Pos(SHARED) == a.Pos(SHARED))
    ensures Current(job, b.hist, answered)
    ensures job.packet.IsSeek() ==> PcOk(Controlling(job, end - front), b, answered)
    ensures !job.packet.IsSeek() && end - front > 0 ==> StartOk(job.(from := b.Pos(SHARED), total := end - front))
  {
    hide SEEK_WORD;
  }

  lemma SeekStartInv(s: Sys, t: nat, job: Job, end: int, op: Op)
    requires Inv(s) && s.Pc(t) == SeekingStart(job, end)
    requires op == Interrupted(SHARED) || op == Llseek(SHARED, 0, 0)
    ensures Inv(SeekStartCall(s, t, job, end, op))
  {
    hide Refines, Short, EchoesOk, ReplaysOk, SEEK_WORD, Step, FileStep, StartOk, Current, Exclusive, HolderOk;
    ActorHolds(s, t);
    CallKeeps(s, op);
    SeekStartAnswers(s.file, op);
    var (s', r) := Call(s, op);
    if r.Done? {
      SeekStartPlace(job, end, s.file, s'.file, |s.echoes|, CInt(r.ret));
      hide PcOk;
      if job.packet.IsSeek() {
        HolderMoves(s', t, Controlling(job, end - CInt(r.ret)));
      } else {
        StartReadingInv(s', t, job, end - CInt(r.ret));
      }
    }
  }

  lemma IoctlAnswers(a: File, op: Op, p: Packet)
    requires op == Interrupted(SHARED) || op == Ioctl(SHARED, BadArg) || op == Ioctl(SHARED, SeekTo(p.cmd, p.off))
    ensures var (b, r) := FileStep(a, op);
            r == Done(0, []) ==> InSlot(a.hist, p) && b.Pos(SHARED) == SeekPosition(a.hist, p)
  {
  }

  lemma IoctlInv(s: Sys, t: nat, job: Job, size: int, op: Op)
    requires Inv(s) && s.Pc(t) == Controlling(job, size)
    requires op == Interrupted(SHARED) || op == Ioctl(SHARED, BadArg)
             || op == Ioctl(SHARED, SeekTo(job.packet.cmd, job.packet.off))
    ensures Inv(IoctlCall(s, t, job, size, op))
  {
    hide Refines, Short, EchoesOk, ReplaysOk, SEEK_WORD, Step, FileStep, InSlot, SeekPosition, Exclusive, HolderOk;
    ActorHolds(s, t);
    CallKeeps(s, op);
    IoctlAnswers(s.file, op, job.packet);
    var (s', r) := Call(s, op);
    if r.Done? {
      StartReadingInv(s', t, job.(sought := r == Done(0, [])), size);
    }
  }

  /** A read hands over the first chunk ahead, or nothing when none is. */
  lemma ReadAnswers(s: Device, a: File, op: Op, left: nat, fault: bool)
    requires Refines(s, a) && (op == Interrupted(SHARED) || op == Read(SHARED, left, fault))
    ensures var r := FileStep(a, op).1;
            var ahead := Ahead(a, SHARED, left);
            (r.Done? && r.ret == 0 ==> ahead == [])
            && (r.Done? && r.ret > 0 ==> ahead != [])
            && (r.Done? && r.ret > 0 ==>
                  r.data == ahead[0] && r.ret == |r.data| <= left && Ahead(FileStep(a, op).0, SHARED, left - r.ret) == ahead[1..])
  {
    ValidFile(s, a);
    ReadTakesChunk(a, SHARED, left);
    FaultyRead(a, SHARED, left);
  }

  /** Taking the first chunk ahead keeps the sum of what is collected and what is ahead. */
  lemma ReadPlace(job: Job, left: nat, out: seq<byte>, a: File, b: File, answered: nat, data: seq<byte>)
    requires PcOk(Reading(job, left, out), a, answered) && b.hist == a.hist
    ensures Ahead(a, SHARED, left) == [] ==> PcOk(Sending(job, out), b, answered)
    ensures Ahead(a, SHARED, left) != [] && data == Ahead(a, SHARED, left)[0] && |data| <= left
            && Ahead(b, SHARED, left - |data|) == Ahead(a, SHARED, left)[1..] ==>
              PcOk(Reading(job, left - |data|, out + CStr(data)), b, answered)
  {
    hide StartOk, Collected, SEEK_WORD, Ahead, Current, CStr;
    var ahead := Ahead(a, SHARED, left);
    if ahead == [] {
      assert out + [] == out;
    } else {
      assert out + CStr(ahead[0]) + CStrs(ahead[1..]) == out + CStrs(ahead);
    }
  }

  lemma ReadInv(s: Sys, t: nat, job: Job, left: nat, out: seq<byte>, op: Op, fault: bool)
    requires Inv(s) && s.Pc(t) == Reading(job, left, out)
    requires op == Interrupted(SHARED) || op == Read(SHARED, left, fault)
    ensures Inv(ReadCall(s, t, job, left, out, op))
  {
    hide Refines, Short, EchoesOk, ReplaysOk, StartOk, Collected, SEEK_WORD, Step, FileStep, Ahead, CStr, CStrs, ChunkFits, Exclusive, HolderOk;
    ActorHolds(s, t);
    CallKeeps(s, op);
    ReadAnswers(s.dev, s.file, op, left, fault);
    var (s', r) := Call(s, op);
    HolderMoves(s', t, Dead);
    HolderMoves(s', t, Undefined);
    if r.Done? && r.ret >= 0 {
      ReadPlace(job, left, out, s.file, s'.file, |s.echoes|, r.data);
      if r.ret == 0 {
        HolderMoves(s', t, Sending(job, out));
      } else {
        HolderMoves(s', t, Reading(job, left - r.ret, out + CStr(r.data)));
      }
    }
  }

  lemma StepInv(s: Sys, t: nat, act: Act)
    requires Inv(s)
    ensures Inv(SysStep(s, t, act))
  {
    hide Inv, ReceiveStep, WriteCall, SeekEndCall, SeekStartCall, IoctlCall, ReadCall, SendStep, SEEK_WORD, Call, Maybe;
    if act.Outside? {
      if act.op.h != SHARED && !act.op.Write? {
        OutsideInv(s, act.op);
      }
    } else {
      match (s.Pc(t), act)
      case (WantLock, Lock) => LockInv(s, t);
      case (Receiving, Receive(event)) => ReceiveInv(s, t, event);
      case (Sending(job, out), DoSend(ok)) => SendInv(s, t, job, out, ok);
      case _ =>
        if DriverCall(act) {
          CallInv(s, t, act);
        }
    }
  }

  lemma CallInv(s: Sys, t: nat, act: Act)
    requires Inv(s) && DriverCall(act)
    ensures Inv(SysStep(s, t, act))
  {
    hide Inv, WriteCall, SeekEndCall, SeekStartCall, IoctlCall, ReadCall, SEEK_WORD;
    match (s.Pc(t), act)
    case (Writing(p), DoWrite(alloc, interrupted, fault)) =>
      WriteInv(s, t, p, Maybe(interrupted, Write(SHARED, p.bytes, alloc, fault)));
    case (SeekingEnd(job), DoSeekEnd(interrupted)) =>
      SeekEndInv(s, t, job, Maybe(interrupted, Llseek(SHARED, 0, 2)));
    case (SeekingStart(job, end), DoSeekStart(interrupted)) =>
      SeekStartInv(s, t, job, end, Maybe(interrupted, Llseek(SHARED, 0, 0)));
    case (Controlling(job, size), DoIoctl(interrupted, fault)) =>
      IoctlInv(s, t, job, size,
               Maybe(interrupted, Ioctl(SHARED, if fault then BadArg else SeekTo(job.packet.cmd, job.packet.off))));
    case (Reading(job, left, out), DoRead(interrupted, fault)) =>
      ReadInv(s, t, job, left, out, Maybe(interrupted, Read(SHARED, left, fault)), fault);
    case _ =>
  }

  lemma {:induction false} RunInv(s: Sys, steps: seq<(nat, Act)>)
    requires Inv(s)
    ensures Inv(SysRun(s, steps))
    decreases |steps|
  {
    if steps != [] {
      StepInv(s, steps[0].0, steps[0].1);
      RunInv(SysStep(s, steps[0].0, steps[0].1), steps[1..]);
    }
  }

  // ---- what every client sees ----

  /** At most one thread is between taking and releasing the server mutex. */
  lemma MutualExclusion(steps: seq<(nat, Act)>, t: nat, u: nat)
    ensures var s := SysRun(START, steps);
            !s.Pc(t).WantLock? && !s.Pc(t).Ended? && !s.Pc(u).WantLock? && !s.Pc(u).Ended? ==> t == u
  {
    StartInv();
    RunInv(START, steps);
    var s := SysRun(START, steps);
    hide SysRun;
  }

  /** A newline that the search finds before a NUL ends it. */
  predicate EarlyNewline(bytes: seq<byte>) {
    exists i :: 0 <= i < |bytes| && bytes[i] == 10 && 0 !in bytes[..i]
  }

  /** The first 18 bytes spell the word. */
  predicate SpellsSeek(bytes: seq<byte>) {
    |bytes| >= 18 && forall i :: 0 <= i < 18 ==> bytes[i] == "AESDCHAR_IOCSEEKTO"[i] as int
  }

  lemma EarlyNewlineIff(p: Packet)
    ensures p.EndsCommand() <==> EarlyNewline(p.bytes)
  {
    var r := CStr(p.bytes);
    if p.EndsCommand() {
      var i :| 0 <= i < |r| && r[i] == NEWLINE;
      assert p.bytes[..i] == r[..i];
    }
    if EarlyNewline(p.bytes) {
      var i :| 0 <= i < |p.bytes| && p.bytes[i] == 10 && 0 !in p.bytes[..i];
      CStrReaches(p.bytes, i);
      assert r[i] == NEWLINE;
    }
  }

  /** What a packet that arrives makes its thread do next, byte by byte, and that nothing else changes: a full buffer without
      NUL is searched past its end; without an early newline the thread asks for the mutex it has; otherwise the word
      decides whether the packet is a seek or is stored. */
  lemma ArrivalIff(s: Sys, t: nat, p: Packet)
    requires s.Pc(t).Receiving? && 0 < |p.bytes| <= 30720
    ensures var s' := SysStep(s, t, Receive(Arrived(p)));
            s' == s.Goto(t, s'.Pc(t))
            && s'.Pc(t) ==
               if |p.bytes| == 30720 && 0 !in p.bytes then Undefined
               else if !EarlyNewline(p.bytes) then WantLock
               else if SpellsSeek(p.bytes) then SeekingEnd(Job(p, s.file.hist, false, 0, 0))
               else Writing(p)
  {
    EarlyNewlineIff(p);
    SeekWordIff(p);
    hide Packet.EndsCommand, Packet.IsSeek, EarlyNewline, SpellsSeek;
  }

  lemma SeekWordIff(p: Packet)
    ensures p.IsSeek() <==> SpellsSeek(p.bytes)
  {
  }

  /** Another process's call gets what the driver answers to anybody, and touches nothing of the server. */
  lemma OutsideReachesDriver(s: Sys, t: nat, op: Op)
    requires op.h != SHARED && !op.Write?
    ensures var s' := SysStep(s, t, Outside(op));
            s'.dev == Step(s.dev, op).0 && s'.file == FileStep(s.file, op).0
            && s'.pc == s.pc && s'.holder == s.holder && s'.echoes == s.echoes && s'.replays == s.replays
  {
    hide Step, FileStep;
  }

  /** A client that hangs up, or whose connection fails, takes nothing with it: its thread ends, the mutex is free, and
      the device, the file, the replies and the other threads are as before. */
  lemma HangUpReleases(s: Sys, t: nat, event: Event)
    requires Inv(s) && s.Pc(t).Receiving? && !event.Arrived?
    ensures var s' := SysStep(s, t, Receive(event));
            s'.holder == None && s'.Pc(t) == Ended
            && s'.dev == s.dev && s'.file == s.file && s'.echoes == s.echoes && s'.replays == s.replays
            && forall u: nat :: u != t ==> s'.Pc(u) == s.Pc(u)
  {
    hide Inv, SEEK_WORD;
  }

  /** In any interleaving, the thread that holds the mutex has not ended: no way out of the loop that a client can take
      keeps it. */
  lemma HolderHasNotEnded(steps: seq<(nat, Act)>)
    ensures var s := SysRun(START, steps);
            s.holder.Some? ==> !s.Pc(s.holder.value).Ended?
  {
    StartInv();
    RunInv(START, steps);
    hide SysRun, Refines, Short, EchoesOk, ReplaysOk, Exclusive;
  }

  lemma EchoIsWholeFile(r: Reply)
    requires ReplyOk(r) && !r.job.packet.IsSeek() && Small(r.job)
    requires NoneEmpty(Commands(r.job))
    ensures r.data == CStrs(Commands(r.job))
  {
    var parts := Commands(r.job);
    PiecesAreTheRest(parts, r.job.from);
    assert r.job.from == 0;
    PiecesFromStart(parts);
    ChunksAreAll(parts, r.job.total);
  }

  /** The last `10` commands up to and including number `k`: the whole file right after it was written. */
  function FileAt(hist: seq<seq<byte>>, k: nat): seq<byte>
    requires k < |hist|
  {
    Flat(Last(hist[..k + 1], 10))
  }

  lemma {:induction false} ShortParts(parts: seq<seq<byte>>)
    requires Short(parts)
    ensures |Flat(parts)| <= |parts| * BUFFER_SIZE
  {
    if parts != [] {
      assert Short(parts[1..]);
      ShortParts(parts[1..]);
    }
  }

  /** Ten packets are far from filling an int. */
  lemma ShortFile(hist: seq<seq<byte>>)
    requires Short(hist)
    ensures |Flat(Last(hist, 10))| <= 10 * BUFFER_SIZE < INT_RANGE / 2
  {
    assert Short(Last(hist, 10));
    ShortParts(Last(hist, 10));
  }

  /** Every job of a reachable state is about a file that fits an int. */
  lemma JobIsSmall(s: Sys, job: Job)
    requires Inv(s) && job.hist <= s.file.hist
    ensures Small(job)
  {
    hide Refines, EchoesOk, ReplaysOk, HolderOk, Exclusive, BUFFER_SIZE, Last, Flat;
    assert Short(job.hist);
    ShortFile(job.hist);
  }

  /** In a reachable state, the k-th reply to an ordinary packet answers the k-th command of the history with the whole
      file of that moment. */
  lemma EchoIsAtomic(s: Sys, k: nat)
    requires Inv(s) && k < |s.echoes|
    ensures var r := s.echoes[k];
            && k < |s.file.hist| && s.file.hist[k] == r.job.packet.bytes
            && (r.data == FileAt(s.file.hist, k) <==> NUL !in FileAt(s.file.hist, k))
  {
    hide Inv, ReplyOk, StartOk, SEEK_WORD;
    KnownEcho(s, k);
    var r := s.echoes[k];
    CStrsLossless(Commands(r.job));
    JobIsSmall(s, r.job);
    EchoIsWholeFile(r);
  }

  /** The file of a moment ends with the command written then. */
  lemma FileEndsWithPacket(hist: seq<seq<byte>>, k: nat)
    requires k < |hist|
    ensures |hist[k]| <= |FileAt(hist, k)| && FileAt(hist, k)[|FileAt(hist, k)| - |hist[k]|..] == hist[k]
  {
    var parts := Last(hist[..k + 1], 10);
    var n := |parts| - 1;
    FlatTake(parts, n);
    assert parts[..n + 1] == parts && parts[n] == hist[k];
  }

  /** Sessions are sequential, whatever the interleaving of any number of threads: the device completes one command per
      ordinary packet answered, in the order of the replies, and the k-th reply to an ordinary packet is the
      concatenation of the last ten commands up to and including its own packet - the whole file as it was right after
      that thread's write - exactly when none of these bytes is NUL. At most one packet is written and not answered. */
  lemma EchoesAreAtomic(steps: seq<(nat, Act)>, k: nat)
    ensures var s := SysRun(START, steps);
            && |s.echoes| <= |s.file.hist| && (s.holder == None ==> |s.file.hist| == |s.echoes|) && s.file.pending == []
            && (k < |s.echoes| ==>
                  var r := s.echoes[k];
                  s.file.hist[k] == r.job.packet.bytes
                  && (r.data == FileAt(s.file.hist, k) <==> NUL !in FileAt(s.file.hist, k)))
  {
    StartInv();
    RunInv(START, steps);
    hide SysRun, Refines, ReplaysOk, ReplyOk, FileAt;
    if k < |SysRun(START, steps).echoes| {
      EchoIsAtomic(SysRun(START, steps), k);
    }
  }

  lemma KnownEcho(s: Sys, k: nat)
    requires Inv(s) && k < |s.echoes|
    ensures var job := s.echoes[k].job;
            ReplyOk(s.echoes[k]) && !job.packet.IsSeek() && NoneEmpty(Commands(job))
            && |s.echoes| <= |s.file.hist| && (s.holder == None ==> |s.file.hist| == |s.echoes|)
            && job.hist == s.file.hist[..k + 1] && s.file.hist[k] == job.packet.bytes
  {
    hide ReplaysOk, ReplyOk, StartOk, SEEK_WORD;
    ValidFile(s.dev, s.file);
    hide Refines;
  }

  lemma {:induction false} PiecesNoneEmpty(parts: seq<seq<byte>>, k: nat)
    requires NoneEmpty(parts)
    ensures NoneEmpty(Pieces(parts, k))
  {
    if parts != [] {
      if k < |parts[0]| {
        assert forall i :: 0 < i < |Pieces(parts, k)| ==> Pieces(parts, k)[i] == parts[i];
      } else {
        PiecesNoneEmpty(parts[1..], k - |parts[0]|);
      }
    }
  }

  /** The file at the time of a job from the byte where reading started. */
  function Rest(job: Job): seq<byte> {
    if job.from <= Length(job) then Flat(Commands(job))[job.from..] else []
  }

  lemma KnownReplay(s: Sys, k: nat)
    requires Inv(s) && k < |s.replays|
    ensures var job := s.replays[k].job;
            ReplyOk(s.replays[k]) && StartOk(job) && job.hist <= s.file.hist && NoneEmpty(Commands(job))
  {
    hide EchoesOk, Collected, SEEK_WORD;
  }

  /** Although the size was measured before the seek, so that it exceeds what is left, a reply to a seek packet is the
      file from the position the seek left to its end. */
  lemma ReplayIsTheRest(r: Reply)
    requires ReplyOk(r) && Small(r.job) && NoneEmpty(Commands(r.job))
    ensures r.job.from < Length(r.job)
    ensures r.data == Rest(r.job) <==> NUL !in Rest(r.job)
  {
    var parts, from := Commands(r.job), r.job.from;
    PiecesAreTheRest(parts, from);
    PiecesNoneEmpty(parts, from);
    ChunksAreAll(Pieces(parts, from), r.job.total);
    CStrsLossless(Pieces(parts, from));
  }

  /** With the oldest command in slot 0, the position an accepted seek leaves is byte `off` of command `cmd` counted from
      the oldest. */
  lemma UnrotatedStart(hist: seq<seq<byte>>, p: Packet)
    requires OldestSlot(|hist|) == 0 && InSlot(hist, p)
    ensures var parts := Last(hist, 10);
            p.cmd < |parts| && p.off < |parts[p.cmd]| && SeekPosition(hist, p) <= |Flat(parts)|
            && Flat(parts)[SeekPosition(hist, p)..] == parts[p.cmd][p.off..] + Flat(parts[p.cmd + 1..])
  {
    UnrotatedPrefix(hist, p.cmd);
    hide Slot, Slots, OldestSlot, Pieces, Flat, Last;
    var parts := Last(hist, 10);
    var at := |Flat(parts[..p.cmd])| + p.off;
    PiecesAt(parts, p.cmd, p.off);
    PiecesAreTheRest(parts, at);
    FirstPieceThenRest(parts[p.cmd][p.off..], parts[p.cmd + 1..]);
  }

  lemma FirstPieceThenRest(first: seq<byte>, rest: seq<seq<byte>>)
    ensures Flat([first] + rest) == first + Flat(rest)
  {
    assert ([first] + rest)[1..] == rest;
  }

  lemma UnrotatedPrefix(hist: seq<seq<byte>>, cmd: nat)
    requires OldestSlot(|hist|) == 0 && cmd < 10
    ensures var parts := Last(hist, 10);
            if cmd < |parts| then Slot(hist, cmd) == parts[cmd] && Slots(hist)[..cmd] == parts[..cmd] else Slot(hist, cmd) == []
  {
    hide Slot, Rank, OldestSlot;
    var parts := Last(hist, 10);
    forall i | 0 <= i < 10
      ensures Slots(hist)[i] == if i < |parts| then parts[i] else []
    {
      SlotIsCommand(hist, i);
      RankValue(0, i);
    }
    assert Slots(hist)[cmd] == Slot(hist, cmd);
  }

  /** What a reply to a seek packet holds, in a reachable state. */
  ghost predicate ReplayIsRest(r: Reply, hist: seq<seq<byte>>) {
    var (parts, cmd, off) := (Commands(r.job), r.job.packet.cmd, r.job.packet.off);
    && r.job.hist <= hist && r.job.from < Length(r.job)
    && (r.data == Rest(r.job) <==> NUL !in Rest(r.job))
    && (r.job.sought ==> InSlot(r.job.hist, r.job.packet) && r.job.from == SeekPosition(r.job.hist, r.job.packet))
    && (r.job.sought && OldestSlot(|r.job.hist|) == 0 ==>
          cmd < |parts| && off < |parts[cmd]| && Rest(r.job) == parts[cmd][off..] + Flat(parts[cmd + 1..]))
  }

  lemma UnrotatedRest(job: Job)
    requires OldestSlot(|job.hist|) == 0 && InSlot(job.hist, job.packet) && job.from == SeekPosition(job.hist, job.packet)
    ensures var (parts, cmd, off) := (Commands(job), job.packet.cmd, job.packet.off);
            cmd < |parts| && off < |parts[cmd]| && Rest(job) == parts[cmd][off..] + Flat(parts[cmd + 1..])
  {
    hide InSlot, SeekPosition, OldestSlot, Flat, Last;
    UnrotatedStart(job.hist, job.packet);
  }

  lemma ReplayFacts(s: Sys, k: nat)
    requires Inv(s) && k < |s.replays|
    ensures ReplayIsRest(s.replays[k], s.file.hist)
  {
    var r := s.replays[k];
    hide Inv, ReplyOk, StartOk, SEEK_WORD, InSlot, SeekPosition, OldestSlot, Flat, NoneEmpty, Commands, Rest, Length, Small;
    KnownReplay(s, k);
    JobIsSmall(s, r.job);
    ReplayIsTheRest(r);
    SoughtFrom(r.job);
    if r.job.sought && OldestSlot(|r.job.hist|) == 0 {
      UnrotatedRest(r.job);
    }
  }

  lemma SoughtFrom(job: Job)
    requires StartOk(job)
    ensures job.sought ==> InSlot(job.hist, job.packet) && job.from == SeekPosition(job.hist, job.packet)
  {
    hide InSlot, SeekPosition, Small, SEEK_WORD;
  }

  /** The seek transaction, in any interleaving: a reply to a seek packet is what the file held, at one point of its
      history, from one position to its end, exactly when none of these bytes is NUL. When the seek was accepted, the
      position is the named offset behind all lower slots; and in an unrotated ring what is sent is the named command
      from the named byte on, followed by the later commands. */
  lemma SeekRepliesAreTheRest(steps: seq<(nat, Act)>, k: nat)
    ensures var s := SysRun(START, steps);
            k < |s.replays| ==> ReplayIsRest(s.replays[k], s.file.hist)
  {
    StartInv();
    RunInv(START, steps);
    hide SysRun, Inv, ReplayIsRest;
    var s := SysRun(START, steps);
    if k < |s.replays| {
      ReplayFacts(s, k);
    }
  }
}
