/** What the device is meant to be: the last ten commands of everything ever written, read as one file. It knows no
    ring, no buffers and no addresses. */
module FileSpec {
  import opened Bytes
  import opened Driver

  /** `hist` is every command ever completed; `pending` is the unterminated rest. */
  datatype File = File(hist: seq<seq<byte>>, pending: seq<byte>, locked: bool, pos: map<Handle, nat>) {
    function Pos(h: Handle): nat {
      if h in pos then pos[h] else 0
    }

    function MoveTo(h: Handle, p: nat): File {
      this.(pos := pos[h := p])
    }

    /** The commands still readable, oldest first. */
    function Commands(): seq<seq<byte>> {
      Last(hist, 10)
    }

    function Content(): seq<byte> {
      Flat(Commands())
    }

    /** Bytes of completed commands that have dropped out of the file. */
    function Evicted(): nat {
      |Flat(hist[..|hist| - |Commands()|])|
    }

    /** Completed commands are terminated, and the pending one is not. */
    ghost predicate Valid() {
      NEWLINE !in pending && forall i :: 0 <= i < |hist| ==> NEWLINE in hist[i]
    }
  }

  const EMPTY_FILE := File([], [], false, map[])

  /** The command a storage slot holds: the latest one whose number is congruent to the slot's. */
  function Slot(hist: seq<seq<byte>>, i: nat): seq<byte>
    requires i < 10
  {
    var n := |hist|;
    var latest := n - 1 - (n + 9 - i) % 10;
    if latest < 0 then [] else hist[latest]
  }

  function Slots(hist: seq<seq<byte>>): (r: seq<seq<byte>>)
    ensures |r| == 10
  {
    seq(10, i requires 0 <= i < 10 => Slot(hist, i))
  }

  /** A read delivers from the one command that holds the position. */
  function ReadFile(a: File, h: Handle, count: nat, fault: bool): (File, Result) {
    var rest := Pieces(a.Commands(), a.Pos(h));
    if rest == [] then (a, Done(0, []))
    else
      var n := Min(count, |rest[0]|);
      if n == 0 then (a, Done(0, []))
      else if fault then (a, Fail(EFAULT))
      else (a.MoveTo(h, a.Pos(h) + n), Done(n, rest[0][..n]))
  }

  function WriteFile(a: File, h: Handle, data: seq<byte>, denied: bool, fault: bool): (File, Result) {
    var whole := a.pending + data;
    if denied && whole != [] then (a, Fail(EFAULT))
    else if fault && data != [] then (a, Fail(EFAULT))
    else
      var b := a.MoveTo(h, a.Pos(h) + |data|);
      (if NEWLINE in whole then b.(hist := a.hist + [whole], pending := []) else b.(pending := whole), Done(|data|, []))
  }

  function SeekFile(a: File, h: Handle, off: loff, whence: nat): (File, Result) {
    match SeekTarget(a.Pos(h), |a.Content()|, off, whence)
    case None => (a.(locked := true), Fail(EINVAL))
    case Some(p) =>
      if p < 0 then (a.(locked := true), Fail(EINVAL)) else (a.MoveTo(h, p), Done(p, []))
  }

  function ControlFile(a: File, h: Handle, request: Request): (File, Result) {
    match request
    case NullArg => (a.(locked := true), Fail(EFAULT))
    case BadArg => (a, Fail(EFAULT))
    case Other => (a, Done(0, []))
    case SeekTo(cmd, off) =>
      if cmd > 9 || off >= |Slot(a.hist, cmd)| then (a.(locked := true), Fail(EINVAL))
      else (a.MoveTo(h, |Flat(Slots(a.hist)[..cmd])| + off), Done(0, []))
  }

  function FileStep(a: File, op: Op): (File, Result) {
    if op.Interrupted? then (a, Fail(ERESTARTSYS))
    else if a.locked then (a, Blocked)
    else
      match op
      case Read(h, count, fault) => ReadFile(a, h, count, fault)
      case Write(h, data, alloc, fault) => WriteFile(a, h, data, alloc.NoMemory?, fault)
      case Llseek(h, off, whence) => SeekFile(a, h, off, whence)
      case Ioctl(h, request) => ControlFile(a, h, request)
  }

  function FileRun(a: File, ops: seq<Op>): File
    decreases |ops|
  {
    if ops == [] then a else FileRun(FileStep(a, ops[0]).0, ops[1..])
  }

  function FileResults(a: File, ops: seq<Op>): (rs: seq<Result>)
    ensures |rs| == |ops|
    decreases |ops|
  {
    if ops == [] then [] else [FileStep(a, ops[0]).1] + FileResults(FileStep(a, ops[0]).0, ops[1..])
  }

  /** Every readable command is terminated, so none is empty. */
  lemma CommandsNonEmpty(a: File)
    requires a.Valid()
    ensures NoneEmpty(a.Commands())
  {
  }

  /** Completed commands are never taken back: the evicted bytes followed by the readable ones are all of them. */
  lemma HistorySplits(a: File)
    ensures a.Evicted() + |a.Content()| == |Flat(a.hist)|
    ensures Flat(a.hist)[a.Evicted()..] == a.Content()
  {
    FlatSplit(a.hist, |a.hist| - |a.Commands()|);
  }

  /** In terms of the flat file, a read takes a slice at the position and moves past it. */
  lemma ReadIsSlice(a: File, h: Handle, count: nat)
    ensures var p := a.Pos(h);
            var (b, r) := ReadFile(a, h, count, false);
            r.Done? && r.ret == |r.data| <= count
            && b == (if r.data == [] then a else a.MoveTo(h, p + |r.data|))
            && p + |r.data| <= (if r.data == [] then p else |a.Content()|)
            && (r.data != [] ==> r.data == a.Content()[p..p + |r.data|])
            && (r.data == [] <==> count == 0 || p >= |a.Content()|)
  {
    var p := a.Pos(h);
    PiecesAreTheRest(a.Commands(), p);
    var rest := Pieces(a.Commands(), p);
    if rest != [] {
      assert Flat(rest) == rest[0] + Flat(rest[1..]);
      var n := Min(count, |rest[0]|);
      assert a.Content()[p..p + n] == a.Content()[p..][..n] == rest[0][..n];
    }
  }
}
