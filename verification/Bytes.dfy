/** memcpy, memset and memmove on one byte array, and 64-bit words stored in it. */
module Bytes {
  import opened Division
  import opened Words

  // ---------------------------------------------------------------- specification

  /** Writing s at position a. */
  function Put(m: seq<Byte>, a: nat, s: seq<Byte>): (r: seq<Byte>)
    requires a + |s| <= |m|
    ensures |r| == |m|
    ensures forall i :: 0 <= i < |m| ==> r[i] == if a <= i < a + |s| then s[i - a] else m[i]
  {
    m[..a] + s + m[a + |s|..]
  }

  function Fill(b: Byte, n: nat): (s: seq<Byte>)
    ensures |s| == n && forall i :: 0 <= i < n ==> s[i] == b
  {
    if n == 0 then [] else Fill(b, n - 1) + [b]
  }

  lemma SliceOfSlice(m: seq<Byte>, a: nat, len: nat, lo: nat, n: nat)
    requires a + len <= |m| && lo + n <= len
    ensures m[a..a + len][lo..lo + n] == m[a + lo..a + lo + n]
  {
    var x, y := m[a..a + len][lo..lo + n], m[a + lo..a + lo + n];
    forall j | 0 <= j < n
      ensures x[j] == y[j]
    {
    }
  }

  /** What the forward byte loop of memcpy leaves after n steps, overlap or not. */
  function CopyForward(m: seq<Byte>, dst: nat, src: nat, n: nat): (r: seq<Byte>)
    requires dst + n <= |m| && src + n <= |m|
    ensures |r| == |m|
  {
    if n == 0 then m
    else
      var before := CopyForward(m, dst, src, n - 1);
      before[dst + n - 1 := before[src + n - 1]]
  }

  /** Copying forward moves the old source bytes whenever the destination does not start inside
      the source range after its first byte. */
  lemma {:induction false} CopyForwardMoves(m: seq<Byte>, dst: nat, src: nat, n: nat)
    requires dst + n <= |m| && src + n <= |m|
    requires dst <= src || src + n <= dst
    ensures CopyForward(m, dst, src, n) == Put(m, dst, m[src..src + n])
  {
    if n > 0 {
      CopyForwardMoves(m, dst, src, n - 1);
    }
  }

  lemma RemBack(i: nat, d: nat)
    requires d > 0
    ensures Rem(i, d) == if i < d then i else Rem(i - d, d)
  {
    if i < d {
      DivModUnique(i, d, 0, i);
    } else {
      DivModUnique(i, d, (i - d) / d + 1, (i - d) % d);
    }
  }

  /** Otherwise it repeats the first dst - src bytes of the source. */
  lemma {:induction false} CopyForwardRepeats(m: seq<Byte>, dst: nat, src: nat, n: nat, i: nat)
    requires src < dst && dst + n <= |m|
    requires i < n
    ensures CopyForward(m, dst, src, n)[dst + i] == m[src + Rem(i, dst - src)]
    decreases i, n
  {
    hide Rem;
    RemBack(i, dst - src);
    if i < n - 1 {
      CopyForwardRepeats(m, dst, src, n - 1, i);
    } else if i < dst - src {
      Untouched(m, dst, src, n - 1, src + i);
    } else {
      CopyForwardRepeats(m, dst, src, n - 1, i - (dst - src));
    }
  }

  lemma {:induction false} Untouched(m: seq<Byte>, dst: nat, src: nat, n: nat, i: nat)
    requires dst + n <= |m| && src + n <= |m| && i < |m|
    requires i < dst || i >= dst + n
    ensures CopyForward(m, dst, src, n)[i] == m[i]
  {
    if n > 0 {
      Untouched(m, dst, src, n - 1, i);
    }
  }

  // ---------------------------------------------------------------- loops of memory.c

  /** memcpy, with a count of the bytes it stores. */
  method MemCpy(m: array<Byte>, dst: nat, src: nat, num: nat) returns (ghost moved: nat)
    requires dst + num <= m.Length && src + num <= m.Length
    modifies m
    ensures m[..] == CopyForward(old(m[..]), dst, src, num) && moved == num
  {
    var i := 0;
    moved := 0;
    while i < num
      invariant i <= num && moved == i
      invariant m[..] == CopyForward(old(m[..]), dst, src, i)
    {
      m[dst + i] := m[src + i];
      moved := moved + 1;
      i := i + 1;
    }
  }

  method MemSet(m: array<Byte>, ptr: nat, value: int, num: nat)
    requires ptr + num <= m.Length
    modifies m
    ensures m[..] == Put(old(m[..]), ptr, Fill(value % 256, num))
  {
    var i := 0;
    while i < num
      invariant i <= num
      invariant m[..] == Put(old(m[..]), ptr, Fill(value % 256, i))
    {
      m[ptr + i] := value % 256;
      i := i + 1;
    }
  }

  /** The result is the old source, for every overlap. */
  method MemMove(m: array<Byte>, dest: nat, src: nat, n: nat)
    requires dest + n <= m.Length && src + n <= m.Length
    modifies m
    ensures m[..] == Put(old(m[..]), dest, old(m[..])[src..src + n])
  {
    ghost var was := m[..];
    if src > dest {
      var i := 0;
      while i < n
        invariant i <= n
        invariant forall j :: dest <= j < dest + i ==> m[j] == was[j - dest + src]
        invariant forall j :: 0 <= j < m.Length && (j < dest || j >= dest + i) ==> m[j] == was[j]
      {
        m[dest + i] := m[src + i];
        i := i + 1;
      }
    } else if src < dest {
      var i: nat := n;
      while i > 0
        invariant i <= n
        invariant forall j :: dest + i <= j < dest + n ==> m[j] == was[j - dest + src]
        invariant forall j :: 0 <= j < m.Length && (j < dest + i || j >= dest + n) ==> m[j] == was[j]
      {
        m[dest + i - 1] := m[src + i - 1];
        i := i - 1;
      }
    }
    forall j | 0 <= j < m.Length
      ensures m[j] == Put(was, dest, was[src..src + n])[j]
    {
    }
  }

  // ---------------------------------------------------------------- little-endian words

  /** The low n bytes of x, least significant first. */
  function ToBytes(x: nat, n: nat): (s: seq<Byte>)
    ensures |s| == n
  {
    if n == 0 then [] else [x % 256] + ToBytes(x / 256, n - 1)
  }

  function FromBytes(s: seq<Byte>): nat {
    if s == [] then 0 else s[0] + 256 * FromBytes(s[1..])
  }

  function Pow256(n: nat): nat {
    if n == 0 then 1 else 256 * Pow256(n - 1)
  }

  lemma {:induction false} FromToBytes(x: nat, n: nat)
    requires x < Pow256(n)
    ensures FromBytes(ToBytes(x, n)) == x
  {
    if n > 0 {
      FromToBytes(x / 256, n - 1);
    }
  }

  lemma {:induction false} FromBytesBound(s: seq<Byte>)
    ensures FromBytes(s) < Pow256(|s|)
  {
    if s != [] {
      FromBytesBound(s[1..]);
    }
  }

  lemma {:induction false} ToFromBytes(s: seq<Byte>)
    ensures ToBytes(FromBytes(s), |s|) == s
  {
    if s != [] {
      ToFromBytes(s[1..]);
      assert FromBytes(s) % 256 == s[0] && FromBytes(s) / 256 == FromBytes(s[1..]);
    }
  }

  lemma Pow256Eight()
    ensures Pow256(8) == TWO64
  {
    assert Pow256(2) == 0x1_0000;
    assert Pow256(4) == 0x1_0000_0000;
    assert Pow256(6) == 0x1_0000_0000_0000;
  }

  /** The 64-bit word at address a. */
  function WordAt(m: seq<Byte>, a: nat): Word
    requires a + 8 <= |m|
  {
    FromBytesBound(m[a..a + 8]);
    Pow256Eight();
    FromBytes(m[a..a + 8])
  }

  /** Storing a 64-bit word. */
  function PutWord(m: seq<Byte>, a: nat, w: Word): (r: seq<Byte>)
    requires a + 8 <= |m|
    ensures |r| == |m|
  {
    Put(m, a, ToBytes(w, 8))
  }

  /** A stored word is read back, and words that do not overlap it stay. */
  lemma WordAfterPut(m: seq<Byte>, a: nat, w: Word, b: nat)
    requires a + 8 <= |m| && b + 8 <= |m|
    ensures a == b ==> WordAt(PutWord(m, a, w), b) == w
    ensures b + 8 <= a || a + 8 <= b ==> WordAt(PutWord(m, a, w), b) == WordAt(m, b)
  {
    var r := PutWord(m, a, w);
    Pow256Eight();
    if a == b {
      assert r[b..b + 8] == ToBytes(w, 8);
      FromToBytes(w, 8);
    } else if b + 8 <= a || a + 8 <= b {
      assert r[b..b + 8] == m[b..b + 8];
    }
  }

  lemma {:induction false} ZeroBytes(s: seq<Byte>)
    requires forall i :: 0 <= i < |s| ==> s[i] == 0
    ensures FromBytes(s) == 0
  {
    if s != [] {
      ZeroBytes(s[1..]);
    }
  }

  /** One 64-bit load. */
  method LoadWord(m: array<Byte>, a: nat) returns (w: Word)
    requires a + 8 <= m.Length
    ensures w == WordAt(m[..], a)
  {
    assert m[..][a..a + 8] == m[a..a + 8];
    w := WordAt(m[..], a);
  }

  lemma PutSnoc(m: seq<Byte>, a: nat, s: seq<Byte>, x: Byte)
    requires a + |s| + 1 <= |m|
    ensures Put(m, a, s + [x]) == Put(m, a, s)[a + |s| := x]
  {
  }

  /** One 64-bit store, byte by byte. */
  method StoreWord(m: array<Byte>, a: nat, w: Word)
    requires a + 8 <= m.Length
    modifies m
    ensures m[..] == PutWord(old(m[..]), a, w)
  {
    var x, k := w, 0;
    while k < 8
      invariant k <= 8
      invariant m[..] == Put(old(m[..]), a, ToBytes(w, 8)[..k])
      invariant ToBytes(x, 8 - k) == ToBytes(w, 8)[k..]
    {
      ghost var before, rest := m[..], ToBytes(w, 8)[k..];
      assert rest[0] == x % 256 && rest[1..] == ToBytes(x / 256, 7 - k);
      assert ToBytes(w, 8)[..k + 1] == ToBytes(w, 8)[..k] + [rest[0]] && ToBytes(w, 8)[k + 1..] == rest[1..];
      PutSnoc(old(m[..]), a, ToBytes(w, 8)[..k], rest[0]);
      m[a + k] := x % 256;
      assert m[..] == before[a + k := rest[0]];
      x, k := x / 256, k + 1;
    }
  }
}
