/** The driver mutex over whole runs: which returns keep it, and what is left of the device once one has. */
module Locking {
  import opened Bytes
  import opened CircularBuffer
  import opened Driver

  /** The guards of the early returns that skip the unlock, as a caller can check them. */
  predicate SkipsUnlock(s: Device, op: Op) {
    match op
    case Llseek(h, off, whence) =>
      whence > 2
      || (whence == 0 && off < 0)
      || (whence == 1 && Signed(s.Pos(h) + off, 0x1_0000_0000_0000_0000) < 0)
      || (whence == 2 && Signed(Sum(s.ring.slots) + off, 0x1_0000_0000_0000_0000) < 0)
    case Ioctl(h, NullArg) => true
    case Ioctl(h, SeekTo(cmd, off)) => cmd > 9 || off >= s.ring.slots[cmd].size
    case _ => false
  }

  /** The states a run passes through before each of its operations. */
  function StateBefore(s: Device, ops: seq<Op>, i: nat): Device
    requires i <= |ops|
  {
    Run(s, ops[..i])
  }

  lemma {:induction false} RunSplit(s: Device, first: seq<Op>, second: seq<Op>)
    ensures Run(s, first + second) == Run(Run(s, first), second)
    decreases |first|
  {
    if first == [] {
      assert first + second == second;
    } else {
      assert (first + second)[0] == first[0] && (first + second)[1..] == first[1..] + second;
      RunSplit(Step(s, first[0]).0, first[1..], second);
    }
  }

  lemma StepLock(s: Device, op: Op)
    ensures Step(s, op).0.locked <==> s.locked || SkipsUnlock(s, op)
  {
  }

  /** After any run the mutex is held exactly when it was held at the start or some operation of the run met the guard
      of a return that skips the unlock. */
  lemma {:induction false} LockedIff(s: Device, ops: seq<Op>)
    ensures Run(s, ops).locked <==>
            s.locked || exists i :: 0 <= i < |ops| && SkipsUnlock(StateBefore(s, ops, i), ops[i])
    decreases |ops|
  {
    if ops != [] {
      var n := |ops| - 1;
      var front := ops[..n];
      assert ops == front + [ops[n]];
      RunSplit(s, front, [ops[n]]);
      var before := Run(s, front);
      assert Run(before, [ops[n]]) == Step(before, ops[n]).0;
      StepLock(before, ops[n]);
      LockedIff(s, front);
      forall i | 0 <= i < n
        ensures StateBefore(s, front, i) == StateBefore(s, ops, i) && front[i] == ops[i]
      {
        assert front[..i] == ops[..i];
      }
      assert StateBefore(s, ops, n) == before;
    }
  }

  /** Once it is held, nothing moves any more: no operation by any handle changes the ring, the pending command, an
      allocation or a position, and every one that is not interrupted waits for ever. */
  lemma {:induction false} HeldForEver(s: Device, ops: seq<Op>)
    requires s.locked
    ensures Run(s, ops) == s
    ensures forall i :: 0 <= i < |ops| ==>
              Results(s, ops)[i] == if ops[i].Interrupted? then Fail(ERESTARTSYS) else Blocked
    decreases |ops|
  {
    if ops != [] {
      HeldForEver(s, ops[1..]);
    }
  }
}
