/** The driver object and its file operations, updated in place (aesd-char-driver/main.c). */
module CharDevice {
  import opened Bytes
  import opened CircularBuffer
  import opened Driver

  class Aesd {
    const ring: Buffer
    var pending: Entry
    var heap: Heap
    var locked: bool
    var pos: map<Handle, nat>

    ghost predicate Valid()
      reads this, ring, ring.entry
    {
      ring.Valid()
    }

    /** The value of the whole device. */
    ghost function State(): Device
      reads this, ring, ring.entry
      requires Valid()
    {
      Dev(ring.Value(), pending, heap, locked, pos)
    }

    /** aesd_init_module */
    constructor ()
      ensures Valid() && fresh(ring) && fresh(ring.entry) && State() == INITIAL
    {
      ring := new Buffer();
      pending, heap, locked, pos := Entry(NULL, 0), map[], false, map[];
    }

    /** The position of an open file. */
    function Pos(h: Handle): nat
      reads this
    {
      if h in pos then pos[h] else 0
    }

    /** aesd_read. Every way out of the locked section unlocks, so the lock bit is as before. */
    method Read(h: Handle, count: nat, interrupted: bool, fault: bool) returns (r: Result)
      requires Valid()
      modifies this`pos
      ensures Valid()
      ensures (State(), r) == Step(old(State()), if interrupted then Interrupted(h) else Driver.Read(h, count, fault))
    {
      hide ReadStep;
      if interrupted {
        return Fail(ERESTARTSYS);
      }
      if locked {
        return Blocked;
      }
      r := CopyOut(h, count, fault);
    }

    /** The locked section of aesd_read */
    method CopyOut(h: Handle, count: nat, fault: bool) returns (r: Result)
      requires Valid()
      modifies this`pos
      ensures Valid()
      ensures (State(), r) == ReadStep(old(State()), h, count, fault)
    {
      hide BytesBefore, Find;
      var found := ring.FindEntryOffset(Pos(h));
      if found == None {
        return Done(0, []);
      }
      var e := ring.entry[found.value.0];
      var offset := found.value.1;
      var n := count;
      if n > e.size - offset {
        n := e.size - offset;
      }
      if n == 0 {
        return Done(0, []);
      }
      if e.ptr !in heap || offset + n > |heap[e.ptr]| {
        return BadMemory;
      }
      if fault {
        return Fail(EFAULT);
      }
      r := Done(n, heap[e.ptr][offset..offset + n]);
      pos := pos[h := Pos(h) + n];
    }

    /** aesd_write. Every way out of the locked section unlocks, so the lock bit is as before. */
    method Write(h: Handle, data: seq<byte>, alloc: Alloc, interrupted: bool, fault: bool) returns (r: Result)
      requires Valid()
      modifies this`pos, this`heap, this`pending, ring, ring.entry
      ensures Valid()
      ensures (State(), r) == Step(old(State()), if interrupted then Interrupted(h) else Driver.Write(h, data, alloc, fault))
    {
      hide Driver.Store;
      if interrupted {
        return Fail(ERESTARTSYS);
      }
      if locked {
        return Blocked;
      }
      var size := pending.size + |data|;
      var grant := Krealloc(heap, pending.ptr, size, alloc);
      match grant
      case BadPointer =>
        r := BadMemory;
      case Denied =>
        r := Fail(EFAULT);
      case Block(buffer, heap') =>
        if fault && data != [] {
          heap := heap';
          r := Fail(EFAULT);
        } else if size == 0 {
          heap, pending, pos := heap', Entry(buffer, 0), pos[h := Pos(h)];
          r := Done(0, []);
        } else {
          r := Store(h, data, buffer, heap');
        }
    }

    /** The part of aesd_write after the caller's bytes have been copied */
    method Store(h: Handle, data: seq<byte>, buffer: nat, grown: Heap) returns (r: Result)
      requires Valid() && buffer in grown && pending.size <= |grown[buffer]|
      modifies this`pos, this`heap, this`pending, ring, ring.entry
      ensures Valid()
      ensures (State(), r) == Driver.Store(old(State()), h, data, buffer, grown)
    {
      var bytes := grown[buffer][..pending.size] + data;
      var entry := Entry(buffer, |bytes|);
      if NEWLINE in bytes {
        var freed := Kfree(grown[buffer := bytes], ring.entry[ring.inOffs].ptr);
        if freed == None {
          return BadMemory;
        }
        var replaced := ring.AddEntry(entry);
        heap, pending := freed.value, Entry(NULL, 0);
      } else {
        heap, pending := grown[buffer := bytes], entry;
      }
      pos := pos[h := Pos(h) + |data|];
      r := Done(|data|, []);
    }

    /** aesd_llseek; `size` is added up before `whence` is looked at. */
    method Llseek(h: Handle, off: loff, whence: nat, interrupted: bool) returns (r: Result)
      requires Valid()
      modifies this
      ensures Valid()
      ensures (State(), r) == Step(old(State()), if interrupted then Interrupted(h) else Driver.Llseek(h, off, whence))
    {
      if interrupted {
        return Fail(ERESTARTSYS);
      }
      if locked {
        return Blocked;
      }
      locked := true;
      var size := ring.SumOfSizes(SLOTS);
      assert ring.entry[..SLOTS] == ring.entry[..];
      var newpos: int;
      if whence == 0 {
        newpos := off;
      } else if whence == 1 {
        newpos := Signed(Pos(h) + off, 0x1_0000_0000_0000_0000);
      } else if whence == 2 {
        newpos := Signed(size + off, 0x1_0000_0000_0000_0000);
      } else {
        return Fail(EINVAL);
      }
      if newpos < 0 {
        return Fail(EINVAL);
      }
      pos := pos[h := newpos];
      locked := false;
      r := Done(newpos, []);
    }

    /** aesd_ioctl, from taking the lock on */
    method Ioctl(h: Handle, request: Request, interrupted: bool) returns (r: Result)
      requires Valid()
      modifies this
      ensures Valid()
      ensures (State(), r) == Step(old(State()), if interrupted then Interrupted(h) else Driver.Ioctl(h, request))
    {
      if interrupted {
        return Fail(ERESTARTSYS);
      }
      if locked {
        return Blocked;
      }
      locked := true;
      match request
      case NullArg =>
        r := Fail(EFAULT);
      case BadArg =>
        locked := false;
        r := Fail(EFAULT);
      case Other =>
        locked := false;
        r := Done(0, []);
      case SeekTo(cmd, off) =>
        if cmd > 9 {
          return Fail(EINVAL);
        }
        if off >= ring.entry[cmd].size {
          return Fail(EINVAL);
        }
        var size := ring.SumOfSizes(cmd);
        assert ring.entry[..cmd] == ring.entry[..][..cmd];
        pos := pos[h := size + off];
        locked := false;
        r := Done(0, []);
    }

    /** aesd_cleanup_module: frees every slot's buffer; `ok` is false if one was not live. */
    method Cleanup() returns (ok: bool)
      requires Valid()
      modifies this`heap
      ensures Valid()
      ensures ok <==> FreeSlots(old(heap), ring.entry[..]).Some?
      ensures ok ==> FreeSlots(old(heap), ring.entry[..]) == Some(heap)
    {
      ok := true;
      ghost var left := Some(heap);
      var before := heap;
      for i := 0 to SLOTS
        invariant left == FreeSlots(before, ring.entry[..i])
        invariant ok <==> left.Some?
        invariant ok ==> left == Some(heap)
      {
        assert ring.entry[..i + 1][..i] == ring.entry[..i];
        if ok {
          var freed := Kfree(heap, ring.entry[i].ptr);
          if freed == None {
            ok := false;
          } else {
            heap := freed.value;
          }
        }
        left := FreeSlots(before, ring.entry[..i + 1]);
      }
      assert ring.entry[..SLOTS] == ring.entry[..];
    }
  }
}
