/** Byte strings, their concatenation, and the C-string view the server takes of them. */
module Bytes {
  type byte = b: int | 0 <= b < 256

  const NEWLINE: byte := 10
  const NUL: byte := 0

  datatype Option<+T> = None | Some(value: T)

  function Min(a: nat, b: nat): nat {
    if a <= b then a else b
  }

  /** The two's-complement value of `x` in a signed word of the given range. */
  function Signed(x: int, modulus: int): int
    requires modulus > 0
  {
    var r := x % modulus;
    if r < modulus / 2 then r else r - modulus
  }

  lemma SliceOfSlice(b: seq<byte>, lo: nat, hi: nat, n: nat)
    requires lo + n <= hi <= |b|
    ensures b[lo..lo + n] == b[lo..hi][..n]
  {
  }

  lemma SliceOfSuffix(b: seq<byte>, from: nat, lo: nat, hi: nat)
    requires lo <= hi && from + hi <= |b|
    ensures b[from + lo..from + hi] == b[from..][lo..hi]
  {
  }

  /** All parts end to end. */
  function Flat(parts: seq<seq<byte>>): seq<byte> {
    if parts == [] then [] else parts[0] + Flat(parts[1..])
  }

  lemma {:induction false} FlatAppend(a: seq<seq<byte>>, b: seq<seq<byte>>)
    ensures Flat(a + b) == Flat(a) + Flat(b)
  {
    if a == [] {
      assert a + b == b;
    } else {
      assert (a + b)[1..] == a[1..] + b;
      FlatAppend(a[1..], b);
    }
  }

  lemma FlatSnoc(a: seq<seq<byte>>, x: seq<byte>)
    ensures Flat(a + [x]) == Flat(a) + x
  {
    FlatAppend(a, [x]);
    assert Flat([x]) == x;
  }

  /** Splitting the parts at `j` splits the bytes. */
  lemma FlatSplit(parts: seq<seq<byte>>, j: nat)
    requires j <= |parts|
    ensures Flat(parts) == Flat(parts[..j]) + Flat(parts[j..])
  {
    assert parts == parts[..j] + parts[j..];
    FlatAppend(parts[..j], parts[j..]);
  }

  lemma FlatTake(parts: seq<seq<byte>>, j: nat)
    requires j < |parts|
    ensures Flat(parts[..j + 1]) == Flat(parts[..j]) + parts[j]
  {
    assert parts[..j + 1] == parts[..j] + [parts[j]];
    FlatSnoc(parts[..j], parts[j]);
  }

  lemma {:induction false} FlatEmpties(parts: seq<seq<byte>>)
    requires forall i :: 0 <= i < |parts| ==> parts[i] == []
    ensures Flat(parts) == []
  {
    if parts != [] {
      FlatEmpties(parts[1..]);
    }
  }

  /** What is left of the parts from byte `k` on: the rest of the part holding byte `k`, then the later parts. */
  function Pieces(parts: seq<seq<byte>>, k: nat): seq<seq<byte>> {
    if parts == [] then []
    else if k < |parts[0]| then [parts[0][k..]] + parts[1..]
    else Pieces(parts[1..], k - |parts[0]|)
  }

  lemma {:induction false} PiecesAreTheRest(parts: seq<seq<byte>>, k: nat)
    ensures Pieces(parts, k) == [] <==> k >= |Flat(parts)|
    ensures k <= |Flat(parts)| ==> Flat(Pieces(parts, k)) == Flat(parts)[k..]
    ensures Pieces(parts, k) != [] ==> Pieces(parts, k)[0] != []
  {
    if parts != [] {
      var first, rest := parts[0], parts[1..];
      if k < |first| {
        assert ([first[k..]] + rest)[1..] == rest;
        assert (first + Flat(rest))[k..] == first[k..] + Flat(rest);
      } else {
        PiecesAreTheRest(rest, k - |first|);
        assert k <= |first + Flat(rest)| ==> (first + Flat(rest))[k..] == Flat(rest)[k - |first|..];
      }
    }
  }

  /** Byte `off` of part `j` is the start of what is left from the flat position of that byte. */
  lemma {:induction false} PiecesAt(parts: seq<seq<byte>>, j: nat, off: nat)
    requires j < |parts| && off < |parts[j]|
    ensures Pieces(parts, |Flat(parts[..j])| + off) == [parts[j][off..]] + parts[j + 1..]
  {
    if j > 0 {
      assert parts[..j][1..] == parts[1..][..j - 1];
      PiecesAt(parts[1..], j - 1, off);
    }
  }

  predicate NoneEmpty(parts: seq<seq<byte>>) {
    forall i :: 0 <= i < |parts| ==> parts[i] != []
  }

  /** Consuming `n` bytes of the first piece. */
  lemma {:induction false} PiecesAdvance(parts: seq<seq<byte>>, k: nat, n: nat)
    requires NoneEmpty(parts)
    requires Pieces(parts, k) != [] && n <= |Pieces(parts, k)[0]|
    ensures Pieces(parts, k + n) ==
            var ps := Pieces(parts, k);
            if n < |ps[0]| then [ps[0][n..]] + ps[1..] else ps[1..]
  {
    if k < |parts[0]| {
      var ps := Pieces(parts, k);
      assert ps[0] == parts[0][k..] && ps[1..] == parts[1..];
      if k + n < |parts[0]| {
        assert parts[0][k + n..] == ps[0][n..];
      } else {
        PiecesFromStart(parts[1..]);
      }
    } else {
      PiecesAdvance(parts[1..], k - |parts[0]|, n);
    }
  }

  lemma PiecesFromStart(parts: seq<seq<byte>>)
    requires NoneEmpty(parts)
    ensures Pieces(parts, 0) == parts
  {
    if parts != [] {
      assert parts[0][0..] == parts[0];
      assert parts == [parts[0]] + parts[1..];
    }
  }

  /** The C string that starts `s`: everything before the first NUL. */
  function CStr(s: seq<byte>): (r: seq<byte>)
    ensures r <= s && NUL !in r
    ensures r == s <==> NUL !in s
    ensures r != s ==> s[|r|] == NUL
  {
    if s == [] || s[0] == NUL then [] else [s[0]] + CStr(s[1..])
  }

  /** It goes on up to the first NUL. */
  lemma {:induction false} CStrReaches(s: seq<byte>, i: nat)
    requires i < |s| && s[i] != NUL && NUL !in s[..i]
    ensures i < |CStr(s)|
  {
    if i > 0 {
      assert s[..i][0] == s[0] && s[1..][..i - 1] == s[..i][1..];
      CStrReaches(s[1..], i - 1);
    }
  }

  /** What `strcat` of each part in turn builds. */
  function CStrs(parts: seq<seq<byte>>): seq<byte> {
    if parts == [] then [] else CStr(parts[0]) + CStrs(parts[1..])
  }

  /** Copying parts as C strings loses nothing exactly when no part holds a NUL. */
  lemma {:induction false} CStrsLossless(parts: seq<seq<byte>>)
    ensures |CStrs(parts)| <= |Flat(parts)|
    ensures CStrs(parts) == Flat(parts) <==> NUL !in Flat(parts)
  {
    if parts != [] {
      CStrsLossless(parts[1..]);
      var head, rest := parts[0], parts[1..];
      if NUL !in head {
        assert CStrs(parts) == head + CStrs(rest);
        if CStrs(parts) == Flat(parts) {
          assert CStrs(rest) == (head + CStrs(rest))[|head|..] == (head + Flat(rest))[|head|..] == Flat(rest);
        }
      } else {
        assert CStr(head) != head && CStr(head) == head[..|CStr(head)|];
      }
    }
  }

  /** The last `n` elements, or all of them when there are fewer. */
  function Last<T>(s: seq<T>, n: nat): seq<T> {
    if |s| <= n then s else s[|s| - n..]
  }
}
