/** The ring of the ten most recent commands (aesd-circular-buffer.c and .h). */
module CircularBuffer {
  import opened Bytes

  /** AESDCHAR_MAX_WRITE_OPERATIONS_SUPPORTED */
  const SLOTS: nat := 10

  const NULL: nat := 0

  /** A buffer address and the number of bytes stored there. */
  datatype Entry = Entry(ptr: nat, size: nat)

  /** The value of the ring structure. */
  datatype Ring = Ring(slots: seq<Entry>, inOffs: nat, outOffs: nat, full: bool) {
    ghost predicate Valid() {
      |slots| == SLOTS && inOffs < SLOTS && outOffs < SLOTS
    }
  }

  const EMPTY_RING := Ring(seq(SLOTS, _ => Entry(NULL, 0)), 0, 0, false)

  /** The ring after an entry is stored at the input offset, and the address it displaced. */
  function Add(r: Ring, e: Entry): (Ring, nat)
    requires r.Valid()
  {
    var next := (r.inOffs + 1) % SLOTS;
    (Ring(r.slots[r.inOffs := e], next,
          if r.full then (r.outOffs + 1) % SLOTS else r.outOffs,
          r.full || next == r.outOffs),
     r.slots[r.inOffs].ptr)
  }

  /** The scan for byte `k` that still has to visit slots `index`, `index + 1`, ... with `count` already passed. */
  function FindFrom(slots: seq<Entry>, index: nat, count: nat, k: nat): Option<(nat, nat)>
    requires |slots| == SLOTS && index < SLOTS && count <= SLOTS
    decreases SLOTS - count
  {
    if count == SLOTS then None
    else if k < slots[index].size then Some((index, k))
    else FindFrom(slots, (index + 1) % SLOTS, count + 1, k - slots[index].size)
  }

  function Find(r: Ring, k: nat): Option<(nat, nat)>
    requires r.Valid()
  {
    FindFrom(r.slots, r.outOffs, 0, k)
  }

  /** The slots in reading order, oldest first. */
  function Rotated(slots: seq<Entry>, o: nat): seq<Entry>
    requires o <= |slots|
  {
    slots[o..] + slots[..o]
  }

  /** The position of slot `i` in reading order. */
  function Rank(o: nat, i: nat): (j: nat)
    requires o < SLOTS && i < SLOTS
    ensures j < SLOTS
  {
    (i + SLOTS - o) % SLOTS
  }

  lemma RankInverse(o: nat, j: nat)
    requires o < SLOTS && j < SLOTS
    ensures Rank(o, (o + j) % SLOTS) == j
    ensures ((o + j) % SLOTS + 1) % SLOTS == (o + j + 1) % SLOTS
  {
    if o + j < SLOTS {
      assert (o + j) % SLOTS == o + j;
    } else {
      assert (o + j) % SLOTS == o + j - SLOTS;
    }
  }

  lemma RankValue(o: nat, i: nat)
    requires o < SLOTS && i < SLOTS
    ensures Rank(o, i) == if i < o then i + SLOTS - o else i - o
  {
  }

  lemma RankInjective(o: nat, i: nat, i': nat)
    requires o < SLOTS && i < SLOTS && i' < SLOTS
    ensures Rank(o, i) == Rank(o, i') <==> i == i'
  {
  }

  lemma RotatedAt(slots: seq<Entry>, o: nat, i: nat)
    requires |slots| == SLOTS && o < SLOTS && i < SLOTS
    ensures Rotated(slots, o)[Rank(o, i)] == slots[i]
  {
    if i < o {
      assert Rank(o, i) == i + SLOTS - o;
    } else {
      assert Rank(o, i) == i - o;
    }
  }

  function Sum(es: seq<Entry>): nat {
    if es == [] then 0 else Sum(es[..|es| - 1]) + es[|es| - 1].size
  }

  lemma SumTake(es: seq<Entry>, j: nat)
    requires j < |es|
    ensures Sum(es[..j + 1]) == Sum(es[..j]) + es[j].size
  {
    assert es[..j + 1][..j] == es[..j];
  }

  lemma {:induction false} SumAppend(a: seq<Entry>, b: seq<Entry>)
    ensures Sum(a + b) == Sum(a) + Sum(b)
  {
    if b == [] {
      assert a + b == a;
    } else {
      var n := |b| - 1;
      assert (a + b)[..|a + b| - 1] == a + b[..n];
      SumAppend(a, b[..n]);
    }
  }

  lemma SumMonotone(es: seq<Entry>, i: nat, j: nat)
    requires i <= j <= |es|
    ensures Sum(es[..i]) <= Sum(es[..j])
  {
    hide Sum;
    assert es[..j] == es[..i] + es[i..j];
    SumAppend(es[..i], es[i..j]);
  }

  /** Reading order and storage order hold the same number of bytes. */
  lemma RotationKeepsSum(slots: seq<Entry>, o: nat)
    requires o <= |slots|
    ensures Sum(Rotated(slots, o)) == Sum(slots)
  {
    hide Sum;
    SumAppend(slots[o..], slots[..o]);
    SumAppend(slots[..o], slots[o..]);
    assert slots == slots[..o] + slots[o..];
  }

  /** How many bytes are read before slot `i` starts. */
  function BytesBefore(r: Ring, i: nat): nat
    requires r.Valid() && i < SLOTS
  {
    Sum(Rotated(r.slots, r.outOffs)[..Rank(r.outOffs, i)])
  }

  lemma AtRank(r: Ring, j: nat)
    requires r.Valid() && j < SLOTS
    ensures var i := (r.outOffs + j) % SLOTS;
            Rotated(r.slots, r.outOffs)[j] == r.slots[i]
            && BytesBefore(r, i) == Sum(Rotated(r.slots, r.outOffs)[..j])
            && (i + 1) % SLOTS == (r.outOffs + j + 1) % SLOTS
  {
    hide Sum;
    RankInverse(r.outOffs, j);
    RotatedAt(r.slots, r.outOffs, (r.outOffs + j) % SLOTS);
  }

  lemma {:induction false} FindFromLocates(r: Ring, count: nat, k: nat, total: nat)
    requires r.Valid() && count <= SLOTS
    requires total == k + Sum(Rotated(r.slots, r.outOffs)[..count])
    ensures match FindFrom(r.slots, (r.outOffs + count) % SLOTS, count, k)
            case None => total >= Sum(r.slots)
            case Some(f) => f.0 < SLOTS && f.1 < r.slots[f.0].size && BytesBefore(r, f.0) + f.1 == total
    decreases SLOTS - count
  {
    hide Sum, BytesBefore;
    var rot := Rotated(r.slots, r.outOffs);
    if count == SLOTS {
      assert rot[..count] == rot;
      RotationKeepsSum(r.slots, r.outOffs);
    } else {
      AtRank(r, count);
      hide Rotated;
      var i := (r.outOffs + count) % SLOTS;
      if k >= r.slots[i].size {
        SumTake(rot, count);
        FindFromLocates(r, count + 1, k - r.slots[i].size, total);
      }
    }
  }

  /** The lookup finds byte `k` in reading order exactly when there is one: it answers the slot and the offset
      within it, and fails only past the last byte. */
  lemma FindLocates(r: Ring, k: nat)
    requires r.Valid()
    ensures Find(r, k) == None <==> k >= Sum(r.slots)
    ensures Find(r, k).Some? ==>
              var f := Find(r, k).value;
              f.0 < SLOTS && f.1 < r.slots[f.0].size && BytesBefore(r, f.0) + f.1 == k
  {
    hide BytesBefore;
    assert (r.outOffs + 0) % SLOTS == r.outOffs;
    assert Sum(Rotated(r.slots, r.outOffs)[..0]) == 0;
    FindFromLocates(r, 0, k, k);
    if Find(r, k).Some? {
      SlotEndsInside(r, Find(r, k).value.0);
    }
  }

  lemma SlotEndsInside(r: Ring, i: nat)
    requires r.Valid() && i < SLOTS
    ensures BytesBefore(r, i) + r.slots[i].size <= Sum(r.slots)
  {
    var rot := Rotated(r.slots, r.outOffs);
    var j := Rank(r.outOffs, i);
    RotatedAt(r.slots, r.outOffs, i);
    SumTake(rot, j);
    SumMonotone(rot, j + 1, SLOTS);
    assert rot[..SLOTS] == rot;
    RotationKeepsSum(r.slots, r.outOffs);
  }

  /** No other slot and offset denote the same byte. */
  lemma LocationUnique(r: Ring, i: nat, off: nat, i': nat, off': nat)
    requires r.Valid() && i < SLOTS && i' < SLOTS
    requires off < r.slots[i].size && off' < r.slots[i'].size
    requires BytesBefore(r, i) + off == BytesBefore(r, i') + off'
    ensures i == i' && off == off'
  {
    hide Rank;
    var rot := Rotated(r.slots, r.outOffs);
    var j, j' := Rank(r.outOffs, i), Rank(r.outOffs, i');
    RotatedAt(r.slots, r.outOffs, i);
    RotatedAt(r.slots, r.outOffs, i');
    RankInjective(r.outOffs, i, i');
    SumTake(rot, j);
    SumTake(rot, j');
    if j < j' {
      SumMonotone(rot, j + 1, j');
    } else if j' < j {
      SumMonotone(rot, j' + 1, j);
    }
  }

  /** The lookup answers a given location exactly when asked for that location's flat position. */
  lemma FindIff(r: Ring, k: nat, i: nat, off: nat)
    requires r.Valid() && i < SLOTS && off < r.slots[i].size
    ensures Find(r, k) == Some((i, off)) <==> k == BytesBefore(r, i) + off
  {
    FindLocates(r, k);
    SlotEndsInside(r, i);
    if k == BytesBefore(r, i) + off {
      var f := Find(r, k).value;
      LocationUnique(r, i, off, f.0, f.1);
    }
  }

  /** The ring in memory: a fixed array of entries and three fields, updated in place. */
  class Buffer {
    const entry: array<Entry>
    var inOffs: nat
    var outOffs: nat
    var full: bool

    ghost predicate Valid()
      reads this, entry
    {
      entry.Length == SLOTS && Value().Valid()
    }

    ghost function Value(): Ring
      reads this, entry
    {
      Ring(entry[..], inOffs, outOffs, full)
    }

    /** aesd_circular_buffer_init */
    constructor ()
      ensures Valid() && fresh(entry) && Value() == EMPTY_RING
    {
      entry := new Entry[SLOTS](_ => Entry(NULL, 0));
      inOffs, outOffs, full := 0, 0, false;
    }

    /** aesd_circular_buffer_add_entry: stores the entry and hands back the address it displaced. */
    method AddEntry(e: Entry) returns (replaced: nat)
      requires Valid()
      modifies this, entry
      ensures Valid() && (Value(), replaced) == Add(old(Value()), e)
    {
      replaced := entry[inOffs].ptr;
      entry[inOffs] := e;
      inOffs := (inOffs + 1) % SLOTS;
      if full {
        outOffs := (outOffs + 1) % SLOTS;
      } else if inOffs == outOffs {
        full := true;
      }
    }

    /** aesd_circular_buffer_find_entry_offset_for_fpos */
    method FindEntryOffset(charOffset: nat) returns (r: Option<(nat, nat)>)
      requires Valid()
      ensures r == Find(Value(), charOffset)
      ensures r == None <==> charOffset >= Sum(entry[..])
      ensures r.Some? ==> r.value.0 < SLOTS && r.value.1 < entry[r.value.0].size
                          && BytesBefore(Value(), r.value.0) + r.value.1 == charOffset
    {
      FindLocates(Value(), charOffset);
      var count: nat, index: nat, left: nat := 0, outOffs, charOffset;
      while count < SLOTS
        invariant count <= SLOTS && index < SLOTS
        invariant FindFrom(entry[..], index, count, left) == Find(Value(), charOffset)
      {
        if left < entry[index].size {
          return Some((index, left));
        }
        left := left - entry[index].size;
        count, index := count + 1, (index + 1) % SLOTS;
      }
      r := None;
    }

    /** The storage-order walk of AESD_CIRCULAR_BUFFER_FOREACH that adds up the first `upTo` sizes. */
    method SumOfSizes(upTo: nat) returns (size: nat)
      requires Valid() && upTo <= SLOTS
      ensures size == Sum(entry[..upTo])
    {
      size := 0;
      for i := 0 to upTo
        invariant size == Sum(entry[..i])
      {
        assert entry[..i + 1][..i] == entry[..i];
        size := size + entry[i].size;
      }
    }
  }
}
