/** When the server falls silent for good: the states from which no packet is stored and no reply is sent any more, and
    exactly which calls lead into them. */
module Silence {
  import opened Bytes
  import opened Driver
  import opened FileSpec
  import opened Refinement
  import opened FileClient
  import opened Server
  import Locking

  /** The thread that holds the mutex will not release it: it asked for it again after a packet without a newline, left
      the loop on an error, or wrote past a buffer. */
  predicate MutexKept(s: Sys) {
    s.holder.Some? &&
    var p := s.Pc(s.holder.value);
    p.WantLock? || p.Dead? || p.Undefined?
  }

  /** A reply is ready; only the thread that holds the mutex can have one. */
  predicate Answering(s: Sys) {
    s.holder.Some? && s.Pc(s.holder.value).Sending?
  }

  /** The server mutex is kept, or the driver is locked and nobody is past its last call to it. */
  predicate Silent(s: Sys) {
    MutexKept(s) || (s.dev.locked && !Answering(s))
  }

  predicate Refused(s: Device, p: Packet) {
    p.cmd > 9 || p.off >= s.ring.slots[p.cmd].size
  }

  /** The read meets an error, or a chunk that does not fit one of the two buffers. */
  predicate ReadFails(out: seq<byte>, ahead: seq<seq<byte>>, interrupted: bool, fault: bool) {
    interrupted || (ahead != [] && (fault || !ChunkFits(ahead[0]) || |out| + |CStr(ahead[0])| >= BUFFER_SIZE))
  }

  /** The guards of the calls that silence a server that is not silent yet. */
  predicate Silences(s: Sys, t: nat, act: Act) {
    match (s.Pc(t), act)
    case (Receiving, Receive(Arrived(p))) =>
      0 < |p.bytes| <= BUFFER_SIZE && !(p.IsString() && p.EndsCommand())
    case (Writing(p), DoWrite(alloc, interrupted, fault)) =>
      interrupted || (Possible(s.dev, Write(SHARED, p.bytes, alloc, fault)) && (alloc.NoMemory? || fault))
    case (SeekingStart(job, end), DoSeekStart(interrupted)) =>
      !job.packet.IsSeek() && end + (if interrupted then 1 else 0) <= 0
    case (Controlling(job, size), DoIoctl(interrupted, fault)) =>
      size <= 0 || (!interrupted && !fault && Refused(s.dev, job.packet))
    case (Reading(job, left, out), DoRead(interrupted, fault)) =>
      ReadFails(out, Ahead(s.file, SHARED, left), interrupted, fault)
    case (Sending(job, out), DoSend(ok)) => !ok || out == [] || s.dev.locked
    case (_, Outside(op)) => op.h != SHARED && !op.Write? && Locking.SkipsUnlock(s.dev, op) && !Answering(s)
    case _ => false
  }

  /** What the clients can tell: the commands stored and the replies sent. */
  predicate SameService(s: Sys, s': Sys) {
    s'.echoes == s.echoes && s'.replays == s.replays && s'.file.hist == s.file.hist
  }

  // ---- a silent server stays silent ----

  /** A call to the locked driver changes nothing, and does not return unless it is interrupted. */
  lemma LockedCall(s: Sys, op: Op)
    requires s.dev.locked && Refines(s.dev, s.file)
    ensures Call(s, op).0 == s
    ensures Call(s, op).1 == if op.Interrupted? then Fail(ERESTARTSYS) else Blocked
  {
  }

  lemma OutsideStaysSilent(s: Sys, op: Op)
    requires Inv(s) && Silent(s) && op.h != SHARED && !op.Write?
    ensures var s' := Call(s, op).0;
            Silent(s') && SameService(s, s')
  {
    hide Refines, FileStep;
    if s.dev.locked {
      LockedCall(s, op);
    }
    KeepsHistory(s.file, op);
  }

  lemma HolderStaysSilent(s: Sys, t: nat, act: Act)
    requires Inv(s) && Silent(s) && s.holder == Some(t) && !act.Outside?
    ensures var s' := SysStep(s, t, act);
            Silent(s') && SameService(s, s')
  {
    hide Refines, Short, EchoesOk, ReplaysOk, PcOk, SEEK_WORD, FileStep, Step, Possible, ChunkFits, BUFFER_SIZE;
    if s.dev.locked {
      forall op: Op
        ensures Call(s, op) == (s, if op.Interrupted? then Fail(ERESTARTSYS) else Blocked)
      {
        LockedCall(s, op);
      }
      hide Call;
    }
  }

  lemma SilentStep(s: Sys, t: nat, act: Act)
    requires Inv(s) && Silent(s)
    ensures var s' := SysStep(s, t, act);
            Silent(s') && SameService(s, s')
  {
    hide Refines, Short, EchoesOk, ReplaysOk, PcOk, SEEK_WORD, FileStep, Step;
    match act
    case Outside(op) =>
      if op.h != SHARED && !op.Write? {
        OutsideStaysSilent(s, op);
      }
    case _ =>
      if s.holder == Some(t) {
        HolderStaysSilent(s, t, act);
      } else {
        assert s.Pc(t).WantLock? || s.Pc(t).Ended?;
      }
  }

  /** Whatever the threads, the clients and the other users of the device do from then on, no packet is stored and no
      reply is sent by any thread. */
  lemma {:induction false} SilentForEver(s: Sys, steps: seq<(nat, Act)>)
    requires Inv(s) && Silent(s)
    ensures Silent(SysRun(s, steps)) && SameService(s, SysRun(s, steps))
    decreases |steps|
  {
    if steps != [] {
      hide Inv, SysStep, Silent;
      StepInv(s, steps[0].0, steps[0].1);
      SilentStep(s, steps[0].0, steps[0].1);
      SilentForEver(SysStep(s, steps[0].0, steps[0].1), steps[1..]);
    }
  }

  predicate IsInterrupted(act: Act) {
    match act
    case DoWrite(_, interrupted, _) => interrupted
    case DoSeekEnd(interrupted) => interrupted
    case DoSeekStart(interrupted) => interrupted
    case DoIoctl(interrupted, _) => interrupted
    case DoRead(interrupted, _) => interrupted
    case _ => false
  }

  /** A thread that calls the locked driver waits in that call until it is interrupted: nothing changes, its place neither. */
  lemma LockedDriverWaits(s: Sys, t: nat, act: Act)
    requires Inv(s) && s.dev.locked && DriverCall(act) && !IsInterrupted(act)
    ensures SysStep(s, t, act) == s
  {
    hide Refines, Short, EchoesOk, ReplaysOk, Exclusive, HolderOk, Call, Possible, CInt, ChunkFits, SEEK_WORD;
    match (s.Pc(t), act)
    case (Writing(p), DoWrite(alloc, interrupted, fault)) => LockedCall(s, Write(SHARED, p.bytes, alloc, fault));
    case (SeekingEnd(job), DoSeekEnd(interrupted)) => LockedCall(s, Llseek(SHARED, 0, 2));
    case (SeekingStart(job, end), DoSeekStart(interrupted)) => LockedCall(s, Llseek(SHARED, 0, 0));
    case (Controlling(job, size), DoIoctl(interrupted, fault)) =>
      LockedCall(s, Ioctl(SHARED, if fault then BadArg else SeekTo(job.packet.cmd, job.packet.off)));
    case (Reading(job, size, out), DoRead(interrupted, fault)) => LockedCall(s, Read(SHARED, size, fault));
    case _ =>
  }

  // ---- what silences it, call by call ----

  /** A call with the driver unlocked: the answer and the lock are those of the file. */
  lemma FreeCall(s: Sys, op: Op)
    requires Inv(s) && (op.Write? ==> Possible(s.dev, op))
    ensures var (s', r) := Call(s, op);
            r == FileStep(s.file, op).1 && s'.dev.locked == s'.file.locked && s'.file == FileStep(s.file, op).0
            && s'.pc == s.pc && s'.holder == s.holder && s.dev.locked == s.file.locked
  {
    hide EchoesOk, ReplaysOk, Short, Exclusive, HolderOk, FileStep, Step;
    PendingSize(s.dev, s.file);
    SameLock(s.dev, s.file);
    StepRefines(s.dev, s.file, op);
    SameLock(Step(s.dev, op).0, FileStep(s.file, op).0);
    hide Refines, Possible, LosesPending;
  }

  /** No call of the server, or of another process, ever touches memory that is not live. */
  lemma NoDeadMemory(s: Sys, op: Op)
    requires Inv(s) && (op.Write? ==> Possible(s.dev, op))
    ensures Call(s, op).1 != BadMemory
  {
    FreeCall(s, op);
    hide Inv, Call, Step, Possible;
  }

  /** The place of the thread that holds the mutex decides. */
  lemma SilentPlace(s: Sys, t: nat, p: Place)
    requires s.holder == Some(t)
    ensures Silent(s.Goto(t, p)) <==> p.WantLock? || p.Dead? || p.Undefined? || (s.dev.locked && !p.Sending?)
  {
  }

  lemma StillServing(s: Sys, t: nat)
    requires s.holder == Some(t) && !s.dev.locked
    requires !s.Pc(t).WantLock? && !s.Pc(t).Dead? && !s.Pc(t).Undefined?
    ensures !Silent(s)
  {
  }

  lemma ReceiveSilences(s: Sys, t: nat, event: Event)
    requires s.holder == Some(t) && !s.dev.locked && s.Pc(t) == Receiving
    ensures Silent(ReceiveStep(s, t, event)) <==>
            event.Arrived? && 0 < |event.packet.bytes| <= BUFFER_SIZE
            && !(event.packet.IsString() && event.packet.EndsCommand())
  {
    hide SEEK_WORD, BUFFER_SIZE;
    StillServing(s, t);
  }

  lemma WriteSilences(s: Sys, t: nat, p: Packet, alloc: Alloc, interrupted: bool, fault: bool)
    requires Inv(s) && s.holder == Some(t) && !s.dev.locked && s.Pc(t) == Writing(p)
    ensures var op := Write(SHARED, p.bytes, alloc, fault);
            Silent(WriteCall(s, t, p, Maybe(interrupted, op))) <==>
            interrupted || (Possible(s.dev, op) && (alloc.NoMemory? || fault))
  {
    var op := Maybe(interrupted, Write(SHARED, p.bytes, alloc, fault));
    StillServing(s, t);
    if Possible(s.dev, op) {
      FreeCall(s, op);
      WriteAnswer(s, t, p, op);
      var s' := Call(s, op).0;
      SilentPlace(s', t, Dead);
      SilentPlace(s', t, SeekingEnd(Job(p, s'.file.hist, false, 0, 0)));
      hide Inv, Call, Silent, Step, FileStep;
    }
  }

  /** The write of a packet stores it or fails, and leaves the driver unlocked. */
  lemma WriteAnswer(s: Sys, t: nat, p: Packet, op: Op)
    requires Inv(s) && s.holder == Some(t) && !s.dev.locked && s.Pc(t) == Writing(p)
    requires op == Interrupted(SHARED) || (op.Write? && op.data == p.bytes)
    ensures var (b, r) := FileStep(s.file, op);
            !b.locked && r.Done? && (r.ret <= 0 <==> op.Interrupted? || op.alloc.NoMemory? || op.fault)
  {
    hide EchoesOk, ReplaysOk, Short, SEEK_WORD;
    SameLock(s.dev, s.file);
    hide Refines;
    ActorHolds(s, t);
    assert NEWLINE in p.bytes;
  }

  lemma SeekEndSilences(s: Sys, t: nat, job: Job, interrupted: bool)
    requires Inv(s) && s.holder == Some(t) && !s.dev.locked && s.Pc(t) == SeekingEnd(job)
    ensures !Silent(SeekEndCall(s, t, job, Maybe(interrupted, Llseek(SHARED, 0, 2))))
  {
    var op := Maybe(interrupted, Llseek(SHARED, 0, 2));
    FreeCall(s, op);
    SeekEndUnlocked(s, op);
    var (s', r) := Call(s, op);
    hide Inv, Call, Step, FileStep, SEEK_WORD;
    SilentPlace(s', t, SeekingStart(job, CInt(r.ret)));
  }

  /** The file is too short for the seek to its end to wrap below zero. */
  lemma SeekEndUnlocked(s: Sys, op: Op)
    requires Inv(s) && !s.dev.locked && (op == Interrupted(SHARED) || op == Llseek(SHARED, 0, 2))
    ensures !FileStep(s.file, op).0.locked && FileStep(s.file, op).1.Done?
  {
    hide EchoesOk, ReplaysOk, HolderOk, Exclusive, SEEK_WORD;
    SameLock(s.dev, s.file);
    ShortFile(s.file.hist);
    hide Refines, Short, Last, Flat;
    var n := |s.file.Content()|;
    assert Signed(n + 0, 0x1_0000_0000_0000_0000) == n;
  }

  /** Starting to read silences exactly when the size is refused. */
  lemma StartSilences(s: Sys, t: nat, job: Job, size: int)
    requires s.holder == Some(t)
    ensures Silent(StartReading(s, t, job, size)) <==> size <= 0 || s.dev.locked
  {
  }

  lemma SeekStartSilences(s: Sys, t: nat, job: Job, end: int, interrupted: bool)
    requires Inv(s) && s.holder == Some(t) && !s.dev.locked && s.Pc(t) == SeekingStart(job, end)
    ensures Silent(SeekStartCall(s, t, job, end, Maybe(interrupted, Llseek(SHARED, 0, 0)))) <==>
            !job.packet.IsSeek() && end + (if interrupted then 1 else 0) <= 0
  {
    var op := Maybe(interrupted, Llseek(SHARED, 0, 0));
    FreeCall(s, op);
    SeekStartUnlocked(s.file, op);
    var (s', r) := Call(s, op);
    hide Inv, Call, Step, FileStep, SEEK_WORD;
    SilentPlace(s', t, Controlling(job, end - CInt(r.ret)));
    StartSilences(s', t, job, end - CInt(r.ret));
    hide Silent, StartReading, CInt;
  }

  lemma SeekStartUnlocked(a: File, op: Op)
    requires !a.locked && (op == Interrupted(SHARED) || op == Llseek(SHARED, 0, 0))
    ensures var (b, r) := FileStep(a, op);
            !b.locked && r.Done? && CInt(r.ret) == if op.Interrupted? then -1 else 0
  {
  }

  lemma IoctlSilences(s: Sys, t: nat, job: Job, size: int, interrupted: bool, fault: bool)
    requires Inv(s) && s.holder == Some(t) && !s.dev.locked && s.Pc(t) == Controlling(job, size)
    ensures var request := if fault then BadArg else SeekTo(job.packet.cmd, job.packet.off);
            Silent(IoctlCall(s, t, job, size, Maybe(interrupted, Ioctl(SHARED, request)))) <==>
            size <= 0 || (!interrupted && !fault && Refused(s.dev, job.packet))
  {
    var op := Maybe(interrupted, Ioctl(SHARED, if fault then BadArg else SeekTo(job.packet.cmd, job.packet.off)));
    hide Inv;
    IoctlAnswer(s.dev, job.packet, interrupted, fault);
    var (s', r) := Call(s, op);
    hide Step, Refused, FileStep, Silent, StartReading, SEEK_WORD;
    StartSilences(s', t, job.(sought := r == Done(0, [])), size);
  }

  lemma IoctlAnswer(s: Device, p: Packet, interrupted: bool, fault: bool)
    requires !s.locked
    ensures var (s', r) := Step(s, Maybe(interrupted, Ioctl(SHARED, if fault then BadArg else SeekTo(p.cmd, p.off))));
            r.Done? && (s'.locked <==> !interrupted && !fault && Refused(s, p))
  {
  }

  lemma ReadSilences(s: Sys, t: nat, job: Job, left: nat, out: seq<byte>, interrupted: bool, fault: bool)
    requires Inv(s) && s.holder == Some(t) && !s.dev.locked && s.Pc(t) == Reading(job, left, out)
    ensures Silent(ReadCall(s, t, job, left, out, Maybe(interrupted, Read(SHARED, left, fault)))) <==>
            ReadFails(out, Ahead(s.file, SHARED, left), interrupted, fault)
  {
    var op := Maybe(interrupted, Read(SHARED, left, fault));
    FreeCall(s, op);
    ReadAnswer(s, left, interrupted, fault);
    var (s', r) := Call(s, op);
    hide Inv, Call, Step, FileStep, SEEK_WORD, Ahead, CStr, ChunkFits, BUFFER_SIZE;
    SilentPlace(s', t, AfterRead(job, left, out, r));
    hide Silent;
  }

  lemma ReadAnswer(s: Sys, left: nat, interrupted: bool, fault: bool)
    requires Inv(s) && !s.dev.locked
    ensures var (b, r) := FileStep(s.file, Maybe(interrupted, Read(SHARED, left, fault)));
            var ahead := Ahead(s.file, SHARED, left);
            !b.locked && r.Done?
            && (r.ret < 0 <==> interrupted || (ahead != [] && fault))
            && (r.ret == 0 <==> !interrupted && ahead == [])
            && (r.ret > 0 ==> r.data == ahead[0] && r.ret <= left)
  {
    hide EchoesOk, ReplaysOk, HolderOk, Exclusive, Short, SEEK_WORD;
    var op := Maybe(interrupted, Read(SHARED, left, fault));
    SameLock(s.dev, s.file);
    ReadAnswers(s.dev, s.file, op, left, fault);
    ValidFile(s.dev, s.file);
    ReadTakesChunk(s.file, SHARED, left);
    FaultyRead(s.file, SHARED, left);
    hide Refines, Ahead;
  }

  lemma SendSilences(s: Sys, t: nat, job: Job, out: seq<byte>, ok: bool)
    requires s.holder == Some(t)
    ensures Silent(SendStep(s, t, job, out, ok)) <==> !ok || out == [] || s.dev.locked
  {
    hide SEEK_WORD;
  }

  lemma OutsideSilences(s: Sys, op: Op)
    requires Inv(s) && !Silent(s) && op.h != SHARED && !op.Write?
    ensures Silent(Call(s, op).0) <==> Locking.SkipsUnlock(s.dev, op) && !Answering(s)
  {
    Locking.StepLock(s.dev, op);
  }

  lemma LockSilencesNot(s: Sys, t: nat)
    requires Inv(s) && !Silent(s) && s.Pc(t).WantLock?
    ensures !Silent(SysStep(s, t, Lock))
  {
    hide Refines, Short, EchoesOk, ReplaysOk, SEEK_WORD;
  }

  /** While the server is not silent, a thread inside the loop holds the mutex and finds the driver free, or has no more
      use for it. */
  lemma ActorServes(s: Sys, t: nat)
    requires Inv(s) && !Silent(s) && !s.Pc(t).WantLock? && !s.Pc(t).Ended?
    ensures s.holder == Some(t) && (!s.dev.locked || s.Pc(t).Sending?)
  {
    hide Refines, Short, EchoesOk, ReplaysOk, PcOk;
    ActorHolds(s, t);
  }

  /** A step leaves the server silent exactly when it was so before or the call meets one of the guards. */
  lemma StepSilentIff(s: Sys, t: nat, act: Act)
    requires Inv(s)
    ensures Silent(SysStep(s, t, act)) <==> Silent(s) || Silences(s, t, act)
  {
    hide Inv, Silent, ReceiveStep, WriteCall, SeekEndCall, SeekStartCall, IoctlCall, ReadCall, SendStep, SEEK_WORD;
    hide BUFFER_SIZE, Locking.SkipsUnlock, Answering, ReadFails, Refused, Possible, Ahead;
    if Silent(s) {
      SilentStep(s, t, act);
    } else {
      NewlySilentIff(s, t, act);
    }
  }

  lemma CallSilentIff(s: Sys, t: nat, act: Act)
    requires Inv(s) && !Silent(s) && DriverCall(act)
    ensures Silent(SysStep(s, t, act)) <==> Silences(s, t, act)
  {
    hide Inv, Silent, WriteCall, SeekEndCall, SeekStartCall, IoctlCall, ReadCall, SEEK_WORD;
    hide ReadFails, Refused, Possible, Ahead, Maybe;
    if !s.Pc(t).WantLock? && !s.Pc(t).Ended? {
      ActorServes(s, t);
    }
    match (s.Pc(t), act)
    case (Writing(p), DoWrite(alloc, interrupted, fault)) => WriteSilences(s, t, p, alloc, interrupted, fault);
    case (SeekingEnd(job), DoSeekEnd(interrupted)) => SeekEndSilences(s, t, job, interrupted);
    case (SeekingStart(job, end), DoSeekStart(interrupted)) => SeekStartSilences(s, t, job, end, interrupted);
    case (Controlling(job, size), DoIoctl(interrupted, fault)) => IoctlSilences(s, t, job, size, interrupted, fault);
    case (Reading(job, left, out), DoRead(interrupted, fault)) => ReadSilences(s, t, job, left, out, interrupted, fault);
    case _ =>
  }

  lemma NewlySilentIff(s: Sys, t: nat, act: Act)
    requires Inv(s) && !Silent(s)
    ensures Silent(SysStep(s, t, act)) <==> Silences(s, t, act)
  {
    hide Inv, Silent, ReceiveStep, SendStep, SEEK_WORD, Call, BUFFER_SIZE, Locking.SkipsUnlock, Answering;
    if !s.Pc(t).WantLock? && !s.Pc(t).Ended? {
      ActorServes(s, t);
    }
    if DriverCall(act) {
      CallSilentIff(s, t, act);
    } else if act.Outside? {
      if act.op.h != SHARED && !act.op.Write? {
        OutsideSilences(s, act.op);
      }
    } else {
      match (s.Pc(t), act)
      case (WantLock, Lock) => LockSilencesNot(s, t);
      case (Receiving, Receive(event)) => ReceiveSilences(s, t, event);
      case (Sending(job, out), DoSend(ok)) => SendSilences(s, t, job, out, ok);
      case _ =>
    }
  }

  /** Step `i` of a run meets a guard. */
  predicate SilencedAt(s: Sys, steps: seq<(nat, Act)>, i: nat)
    requires i < |steps|
  {
    Silences(SysRun(s, steps[..i]), steps[i].0, steps[i].1)
  }

  lemma {:induction false} RunSnoc(s: Sys, steps: seq<(nat, Act)>, t: nat, act: Act)
    ensures SysRun(s, steps + [(t, act)]) == SysStep(SysRun(s, steps), t, act)
    decreases |steps|
  {
    hide SysStep;
    var all := steps + [(t, act)];
    if steps == [] {
      assert all[1..] == [];
    } else {
      assert all[0] == steps[0] && all[1..] == steps[1..] + [(t, act)];
      RunSnoc(SysStep(s, steps[0].0, steps[0].1), steps[1..], t, act);
    }
  }

  lemma {:induction false} SilentRunIff(s: Sys, steps: seq<(nat, Act)>)
    requires Inv(s)
    ensures Silent(SysRun(s, steps)) <==>
            Silent(s) || exists i :: 0 <= i < |steps| && SilencedAt(s, steps, i)
    decreases |steps|
  {
    hide SysStep, Silences, Inv, Silent;
    if steps != [] {
      var n := |steps| - 1;
      var front := steps[..n];
      var (t, act) := steps[n];
      assert steps == front + [(t, act)];
      RunSnoc(s, front, t, act);
      RunInv(s, front);
      StepSilentIff(SysRun(s, front), t, act);
      SilentRunIff(s, front);
      forall i | 0 <= i < n
        ensures SilencedAt(s, front, i) == SilencedAt(s, steps, i)
      {
        assert front[..i] == steps[..i];
      }
      assert SilencedAt(s, steps, n) == Silences(SysRun(s, front), t, act);
    }
  }

  /** Whatever the interleaving and the environment: a server has fallen silent exactly when some call since it was started
      met one of the guards. */
  lemma SilentIff(steps: seq<(nat, Act)>)
    ensures Silent(SysRun(START, steps)) <==> exists i :: 0 <= i < |steps| && SilencedAt(START, steps, i)
  {
    StartInv();
    hide Inv, SysRun, SilencedAt;
    SilentRunIff(START, steps);
  }

  /** A seek packet that names a byte no slot stores silences the server: the driver keeps its lock on the refusal, and
      the thread goes on to read. */
  lemma RefusedSeekSilences(s: Sys, t: nat, job: Job, size: int, steps: seq<(nat, Act)>)
    requires Inv(s) && s.Pc(t) == Controlling(job, size) && Refused(s.dev, job.packet)
    ensures var s1 := SysStep(s, t, DoIoctl(false, false));
            Silent(SysRun(s1, steps)) && SameService(s, SysRun(s1, steps))
  {
    hide Inv, Silent, SysRun, Refused, SEEK_WORD, IoctlCall;
    var s1 := SysStep(s, t, DoIoctl(false, false));
    StepInv(s, t, DoIoctl(false, false));
    StepSilentIff(s, t, DoIoctl(false, false));
    IoctlTellsNothing(s, t, job, size, Ioctl(SHARED, SeekTo(job.packet.cmd, job.packet.off)));
    SilentForEver(s1, steps);
  }

  lemma IoctlTellsNothing(s: Sys, t: nat, job: Job, size: int, op: Op)
    requires !op.Write?
    ensures SameService(s, IoctlCall(s, t, job, size, op))
  {
    KeepsHistory(s.file, op);
    hide FileStep, Step;
  }

  // ---- what was measured ----

  /** Where a thread goes on with a measured size: a seek packet to its ioctl, another to reading, which a size that is not
      positive refuses. */
  function PlaceMeasured(job: Job, size: int, from: nat): Place {
    if job.packet.IsSeek() then Controlling(job, size)
    else if size <= 0 then Dead
    else Reading(job.(from := from, total := size), size, [])
  }

  /** The two seeks of file_size, either of which a signal may interrupt: the size the thread goes on with, and where it
      will read from. */
  lemma Measured(s: Sys, t: nat, job: Job, interruptEnd: bool, interruptStart: bool)
    requires Inv(s) && !s.dev.locked && s.Pc(t) == SeekingEnd(job)
    ensures var s' := SysStep(SysStep(s, t, DoSeekEnd(interruptEnd)), t, DoSeekStart(interruptStart));
            var n := |Flat(Last(s.file.hist, 10))|;
            var size := (if interruptEnd then -1 else n) + (if interruptStart then 1 else 0);
            var from := if !interruptStart then 0 else if interruptEnd then s.file.Pos(SHARED) else n;
            s'.file.hist == s.file.hist && s'.holder == s.holder && s'.file.Pos(SHARED) == from
            && s'.Pc(t) == PlaceMeasured(job, size, from)
  {
    hide *;
    MeasuredToEnd(s, t, job, interruptEnd);
    MeasuredFromStart(SysStep(s, t, DoSeekEnd(interruptEnd)), t, job,
                      if interruptEnd then -1 else |Flat(Last(s.file.hist, 10))|, interruptStart);
  }

  lemma MeasuredToEnd(s: Sys, t: nat, job: Job, interrupted: bool)
    requires Inv(s) && !s.dev.locked && s.Pc(t) == SeekingEnd(job)
    ensures var s' := SysStep(s, t, DoSeekEnd(interrupted));
            var n := |Flat(Last(s.file.hist, 10))|;
            Inv(s') && !s'.dev.locked && s'.file.hist == s.file.hist && s'.holder == s.holder
            && s'.file.Pos(SHARED) == (if interrupted then s.file.Pos(SHARED) else n)
            && s'.Pc(t) == SeekingStart(job, if interrupted then -1 else n)
  {
    var op := Maybe(interrupted, Llseek(SHARED, 0, 2));
    assert SysStep(s, t, DoSeekEnd(interrupted)) == SeekEndCall(s, t, job, op) by {
      hide Inv, SeekEndCall;
    }
    EndMeasured(s, op);
    FreeCall(s, op);
    StepInv(s, t, DoSeekEnd(interrupted));
    hide Inv, Step, FileStep, SEEK_WORD, CInt, SysStep, Call;
  }

  lemma MeasuredFromStart(s: Sys, t: nat, job: Job, end: int, interrupted: bool)
    requires Inv(s) && !s.dev.locked && s.Pc(t) == SeekingStart(job, end)
    ensures var s' := SysStep(s, t, DoSeekStart(interrupted));
            var size := end + (if interrupted then 1 else 0);
            var from := if interrupted then s.file.Pos(SHARED) else 0;
            s'.file.hist == s.file.hist && s'.holder == s.holder && s'.file.Pos(SHARED) == from
            && s'.Pc(t) == PlaceMeasured(job, size, from)
  {
    hide *;
    SeekStartIsCall(s, t, job, end, interrupted);
    SeekStartGoes(s, t, job, end, interrupted, Maybe(interrupted, Llseek(SHARED, 0, 0)));
  }

  lemma SeekStartGoes(s: Sys, t: nat, job: Job, end: int, interrupted: bool, op: Op)
    requires Inv(s) && !s.dev.locked && op == Maybe(interrupted, Llseek(SHARED, 0, 0))
    ensures var s' := SeekStartCall(s, t, job, end, op);
            var size := end + (if interrupted then 1 else 0);
            var from := if interrupted then s.file.Pos(SHARED) else 0;
            s'.file.hist == s.file.hist && s'.holder == s.holder && s'.file.Pos(SHARED) == from
            && s'.Pc(t) == PlaceMeasured(job, size, from)
  {
    hide *;
    StartAnswered(s, interrupted, op);
    AfterSeekStart(s, t, job, end, op);
  }

  lemma StartAnswered(s: Sys, interrupted: bool, op: Op)
    requires Inv(s) && !s.dev.locked && op == Maybe(interrupted, Llseek(SHARED, 0, 0))
    ensures var (s', r) := Call(s, op);
            r.Done? && CInt(r.ret) == (if interrupted then -1 else 0)
            && s'.file.hist == s.file.hist && s'.holder == s.holder
            && s'.file.Pos(SHARED) == if interrupted then s.file.Pos(SHARED) else 0
  {
    FreeCall(s, op);
    StartMeasured(s.file, op);
    hide Inv, Step, FileStep, Call, CInt;
  }

  lemma SeekStartIsCall(s: Sys, t: nat, job: Job, end: int, interrupted: bool)
    requires s.Pc(t) == SeekingStart(job, end)
    ensures SysStep(s, t, DoSeekStart(interrupted)) == SeekStartCall(s, t, job, end, Maybe(interrupted, Llseek(SHARED, 0, 0)))
  {
    hide SeekStartCall;
  }

  lemma AfterSeekStart(s: Sys, t: nat, job: Job, end: int, op: Op)
    requires Call(s, op).1.Done?
    ensures var (s1, r) := Call(s, op);
            var s' := SeekStartCall(s, t, job, end, op);
            var size := end - CInt(r.ret);
            s'.file == s1.file && s'.holder == s1.holder
            && s'.Pc(t) == PlaceMeasured(job, size, s1.file.Pos(SHARED))
  {
    hide Call, SEEK_WORD, CInt;
    var (s1, r) := Call(s, op);
    Started(s1, t, job, end - CInt(r.ret));
    hide StartReading;
  }

  lemma Started(s: Sys, t: nat, job: Job, size: int)
    ensures var s' := StartReading(s, t, job, size);
            s'.file == s.file && s'.holder == s.holder
            && s'.Pc(t) == if size <= 0 then Dead else Reading(job.(from := s.file.Pos(SHARED), total := size), size, [])
  {
  }

  lemma EndMeasured(s: Sys, op: Op)
    requires Inv(s) && !s.dev.locked && (op == Interrupted(SHARED) || op == Llseek(SHARED, 0, 2))
    ensures var (b, r) := FileStep(s.file, op);
            var n := |Flat(Last(s.file.hist, 10))|;
            !b.locked && r.Done? && b.hist == s.file.hist
            && CInt(r.ret) == (if op.Interrupted? then -1 else n)
            && b.Pos(SHARED) == if op.Interrupted? then s.file.Pos(SHARED) else n
  {
    hide EchoesOk, ReplaysOk, HolderOk, Exclusive, SEEK_WORD;
    SameLock(s.dev, s.file);
    ShortFile(s.file.hist);
    hide Refines, Short, Last, Flat;
    var n := |s.file.Content()|;
    assert Signed(n + 0, 0x1_0000_0000_0000_0000) == n && Signed(n, INT_RANGE) == n;
  }

  lemma StartMeasured(a: File, op: Op)
    requires !a.locked && (op == Interrupted(SHARED) || op == Llseek(SHARED, 0, 0))
    ensures var (b, r) := FileStep(a, op);
            !b.locked && r.Done? && b.hist == a.hist && CInt(r.ret) == (if op.Interrupted? then -1 else 0)
            && b.Pos(SHARED) == if op.Interrupted? then a.Pos(SHARED) else 0
  {
  }
}
