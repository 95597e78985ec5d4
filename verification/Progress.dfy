/** The mutex comes back: a thread inside the session loop, left alone, gives it back or has silenced the server. */
module Progress {
  import opened Bytes
  import opened Driver
  import opened FileSpec
  import opened Refinement
  import opened FileClient
  import opened Server
  import opened Silence
  import opened Service
  import opened Session

  /** What a thread does next when nothing fails; a thread that waits for a packet is left by its client. */
  ghost function NextCall(s: Sys, t: nat): Act {
    match s.Pc(t)
    case Receiving => Receive(Closed)
    case Writing(_) => DoWrite(Moved(FreshBlock(s.dev.heap), 0), false, false)
    case SeekingEnd(_) => DoSeekEnd(false)
    case SeekingStart(_, _) => DoSeekStart(false)
    case Controlling(_, _) => DoIoctl(false, false)
    case Reading(_, _, _) => DoRead(false, false)
    case Sending(_, _) => DoSend(true)
    case _ => Lock
  }

  ghost function Onward(s: Sys, t: nat, n: nat): Sys
    decreases n
  {
    if n == 0 then s else Onward(SysStep(s, t, NextCall(s, t)), t, n - 1)
  }

  /** The calls still to come, but for the reads. */
  function Stage(p: Place): nat {
    match p
    case Writing(_) => 6
    case SeekingEnd(_) => 5
    case SeekingStart(_, _) => 4
    case Controlling(_, _) => 3
    case Reading(_, _, _) => 2
    case Receiving => 1
    case Sending(_, _) => 1
    case _ => 0
  }

  /** The reads still to come. */
  function Turns(s: Sys, t: nat): nat {
    var p := s.Pc(t);
    if p.Reading? then |Ahead(s.file, SHARED, p.left)| else 0
  }

  /** A thread came closer to the end of its transaction, or reached it. */
  ghost predicate Closer(s: Sys, s': Sys, t: nat) {
    || Silent(s')
    || Ready(s')
    || (s'.holder == Some(t)
        && (Stage(s'.Pc(t)) < Stage(s.Pc(t)) || (Stage(s'.Pc(t)) == Stage(s.Pc(t)) && Turns(s', t) < Turns(s, t))))
  }

  /** The thread keeps the mutex and is at an earlier stage, or has left the loop with it. */
  lemma ComesCloser(s: Sys, s': Sys, t: nat)
    requires s'.holder == Some(t)
    requires s'.Pc(t).Dead? || s'.Pc(t).Undefined? || Stage(s'.Pc(t)) < Stage(s.Pc(t))
    ensures Closer(s, s', t)
  {
    hide Turns;
  }

  lemma HangUpEnds(s: Sys, t: nat)
    requires Inv(s) && !s.dev.locked && s.Pc(t).Receiving?
    ensures Ready(SysStep(s, t, Receive(Closed)))
  {
    HangUpReleases(s, t, Closed);
    SameLock(s.dev, s.file);
    hide Refines;
  }

  lemma WriteMovesOn(s: Sys, t: nat, p: Packet, q: nat)
    requires Inv(s) && !s.dev.locked && s.holder == Some(t) && s.Pc(t) == Writing(p) && IsBlock(q) && q !in s.dev.heap
    ensures var s' := WriteCall(s, t, p, Write(SHARED, p.bytes, Moved(q, 0), false));
            s'.holder == s.holder && (s'.Pc(t).Dead? || s'.Pc(t).SeekingEnd?)
  {
    var op := Write(SHARED, p.bytes, Moved(q, 0), false);
    MayWrite(s.dev, s.file, op);
    FreeCall(s, op);
    WriteAnswer(s, t, p, op);
    hide Inv, Step, FileStep, Possible;
  }

  lemma IoctlMovesOn(s: Sys, t: nat, job: Job, size: int)
    requires !s.dev.locked && s.Pc(t) == Controlling(job, size)
    ensures var s' := IoctlCall(s, t, job, size, Ioctl(SHARED, SeekTo(job.packet.cmd, job.packet.off)));
            s'.holder == s.holder && (s'.Pc(t).Dead? || s'.Pc(t).Reading?)
  {
    IoctlAnswer(s.dev, job.packet, false, false);
    hide Step, FileStep, SEEK_WORD;
  }

  lemma ServingDevice(s: Sys)
    requires Inv(s) && !s.dev.locked
    ensures Refines(s.dev, s.file) && !s.file.locked
  {
    SameLock(s.dev, s.file);
    hide Refines;
  }

  lemma ReadMovesOn(s: Sys, t: nat, job: Job, left: nat, out: seq<byte>)
    requires Inv(s) && !s.dev.locked && s.holder == Some(t) && s.Pc(t) == Reading(job, left, out)
    ensures Closer(s, SysStep(s, t, DoRead(false, false)), t)
  {
    hide *;
    ServingDevice(s);
    ReadOnce(s, t, job, left, out);
    var s' := SysStep(s, t, DoRead(false, false));
    KeepsMutex(s, s');
    if Ahead(s.file, SHARED, left) == [] || s'.Pc(t) == Undefined {
      LeavesReading(s, s', t);
    } else {
      OneTurnLess(s, s', t, left);
    }
  }

  lemma KeepsMutex(s: Sys, s': Sys)
    requires Stays(s, s')
    ensures s'.holder == s.holder
  {
    hide Refines;
  }

  lemma LeavesReading(s: Sys, s': Sys, t: nat)
    requires s.Pc(t).Reading? && s'.holder == Some(t) && (s'.Pc(t).Sending? || s'.Pc(t).Undefined?)
    ensures Closer(s, s', t)
  {
    ComesCloser(s, s', t);
  }

  lemma OneTurnLess(s: Sys, s': Sys, t: nat, left: nat)
    requires s.Pc(t).Reading? && s.Pc(t).left == left && s'.holder == Some(t) && s'.Pc(t).Reading?
    requires |Ahead(s'.file, SHARED, s'.Pc(t).left)| < |Ahead(s.file, SHARED, left)|
    ensures Closer(s, s', t)
  {
    hide Ahead, Silent, Ready;
  }

  lemma SendMovesOn(s: Sys, t: nat, job: Job, out: seq<byte>)
    requires Inv(s) && s.holder == Some(t)
    ensures Silent(SendStep(s, t, job, out, true)) || Ready(SendStep(s, t, job, out, true))
  {
    SameLock(s.dev, s.file);
    hide Refines, SEEK_WORD, EchoesOk, ReplaysOk;
  }

  lemma MovesOn(s: Sys, t: nat)
    requires Inv(s) && !s.dev.locked && s.holder == Some(t)
    ensures var p := s.Pc(t);
            p.Writing? || p.SeekingEnd? || p.SeekingStart? || p.Controlling? ==>
              var s' := SysStep(s, t, NextCall(s, t));
              s'.holder == Some(t) && (s'.Pc(t).Dead? || Stage(s'.Pc(t)) < Stage(s.Pc(t)))
  {
    hide Inv, WriteCall, IoctlCall, FreshBlock, SEEK_WORD, SeekEndCall, SeekStartCall;
    match s.Pc(t)
    case Writing(p) => WriteMovesOn(s, t, p, FreshBlock(s.dev.heap));
    case SeekingEnd(job) => MeasuredToEnd(s, t, job, false);
    case SeekingStart(job, end) => MeasuredFromStart(s, t, job, end, false);
    case Controlling(job, size) => IoctlMovesOn(s, t, job, size);
    case _ =>
  }

  lemma SendEnds(s: Sys, t: nat)
    requires Inv(s) && s.holder == Some(t) && s.Pc(t).Sending?
    ensures var s' := SysStep(s, t, NextCall(s, t)); Silent(s') || Ready(s')
  {
    hide Inv, SendStep, Silent, Ready, SEEK_WORD;
    SendMovesOn(s, t, s.Pc(t).job, s.Pc(t).out);
  }

  lemma CallMovesOn(s: Sys, t: nat)
    requires Inv(s) && !Silent(s) && s.holder == Some(t)
    ensures Closer(s, SysStep(s, t, NextCall(s, t)), t)
  {
    NotEnded(s, t);
    hide Inv, Closer, Ready, SysStep, Stage, FreshBlock;
    var s' := SysStep(s, t, NextCall(s, t));
    match s.Pc(t)
    case Receiving =>
      HangUpEnds(s, t);
      EndsIt(s, s', t);
    case Reading(job, left, out) =>
      ReadMovesOn(s, t, job, left, out);
    case Sending(job, out) =>
      SendEnds(s, t);
      EndsIt(s, s', t);
    case _ =>
      MovesOn(s, t);
      ComesCloser(s, s', t);
  }

  lemma EndsIt(s: Sys, s': Sys, t: nat)
    requires Ready(s') || Silent(s')
    ensures Closer(s, s', t)
  {
    hide Ready, Silent, Stage, Turns;
  }

  lemma NotEnded(s: Sys, t: nat)
    requires Inv(s) && s.holder == Some(t) && !Silent(s)
    ensures !s.Pc(t).Ended? && !s.Pc(t).WantLock? && !s.Pc(t).Dead? && !s.Pc(t).Undefined?
    ensures !s.dev.locked || s.Pc(t).Sending?
  {
    hide Refines, Short, EchoesOk, ReplaysOk, Exclusive, SEEK_WORD;
  }

  /** Some number of calls brings a thread that holds the mutex to the end of its transaction. */
  lemma {:induction false} HolderFinishes(s: Sys, t: nat)
    requires Inv(s) && s.holder == Some(t)
    ensures exists n: nat :: Ready(Onward(s, t, n)) || Silent(Onward(s, t, n))
    decreases Stage(s.Pc(t)), Turns(s, t)
  {
    hide Inv, Silent, SysStep, NextCall, Stage, Turns, SEEK_WORD;
    assert Onward(s, t, 0) == s;
    if !Silent(s) {
      var s1 := SysStep(s, t, NextCall(s, t));
      CallMovesOn(s, t);
      StepInv(s, t, NextCall(s, t));
      assert Onward(s1, t, 0) == s1;
      var n: nat := 0;
      if !Silent(s1) && !Ready(s1) {
        HolderFinishes(s1, t);
        n :| Ready(Onward(s1, t, n)) || Silent(Onward(s1, t, n));
      }
      assert Onward(s, t, n + 1) == Onward(s1, t, n);
    }
  }

  /** In every reachable state the mutex and the driver are free, or the server is silent for good, or the thread that holds
      the mutex, left alone, reaches one of these after finitely many calls. */
  lemma MutexComesBack(steps: seq<(nat, Act)>)
    ensures var s := SysRun(START, steps);
            Ready(s) || Silent(s)
            || (s.holder.Some? && exists n: nat :: var s' := Onward(s, s.holder.value, n); Ready(s') || Silent(s'))
  {
    StartInv();
    RunInv(START, steps);
    var s := SysRun(START, steps);
    hide SysRun, Onward;
    if s.holder.Some? {
      HolderFinishes(s, s.holder.value);
    } else {
      FreeMutex(s);
    }
  }

  lemma FreeMutex(s: Sys)
    requires Inv(s) && s.holder == None
    ensures Ready(s) || Silent(s)
  {
    SameLock(s.dev, s.file);
  }
}
