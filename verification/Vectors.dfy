/** The growing byte vector of vector.h on top of krealloc: append, which grows exactly as
    Growth.Grow says, erase with its byte count as written, and what n appends cost. */
module Vectors {
  import opened Words
  import opened Wrappers
  import opened Division
  import opened Bytes
  import opened Frames
  import G = Growth
  import opened Systems
  import opened Runs
  import opened Machine
  import opened Heap

  // ---------------------------------------------------------------- elements

  /** Element i of a flat sequence of z-byte elements. */
  function Element(flat: seq<Byte>, z: nat, i: nat): seq<Byte>
    requires z * i + z <= |flat|
  {
    flat[z * i..z * i + z]
  }

  /** x is an element, and i is its first place. */
  ghost predicate FirstAt(es: seq<seq<Byte>>, i: nat, x: seq<Byte>) {
    i < |es| && es[i] == x && x !in es[..i]
  }

  /** Where an element of a stored flat sequence lies in memory. */
  lemma ElementInside(m: seq<Byte>, start: nat, flat: seq<Byte>, z: nat, n: nat, i: nat)
    requires start + z * n <= |m| && m[start..start + z * n] == flat && i < n
    ensures start + z * i + z <= |m| && z * i + z <= |flat|
    ensures m[start + z * i..start + z * i + z] == Element(flat, z, i)
  {
    ElementFits(z, i, n);
    SliceOfSlice(m, start, z * n, z * i, z);
  }

  lemma ElementFits(z: nat, i: nat, n: nat)
    requires i < n
    ensures z * i + z == z * (i + 1) <= z * n
  {
    MulGrows(z, i + 1, n);
  }

  /** Elements of an appended vector: the old ones, then the new one. */
  lemma ElementsAfterAppend(flat: seq<Byte>, elem: seq<Byte>, z: nat, n: nat, i: nat)
    requires |flat| == z * n && |elem| == z && i <= n
    ensures z * i + z <= |flat + elem|
    ensures i < n ==> z * i + z <= |flat| && Element(flat + elem, z, i) == Element(flat, z, i)
    ensures i == n ==> Element(flat + elem, z, i) == elem
  {
    if i < n {
      ElementFits(z, i, n);
    }
  }

  /** The flat sequence without element e. */
  function DropElement(flat: seq<Byte>, z: nat, e: nat): seq<Byte> {
    if z * e <= z * e + z <= |flat| then flat[..z * e] + flat[z * e + z..] else flat
  }

  /** Elements after dropping element e: those behind it move down by one. */
  lemma ElementsAfterErase(flat: seq<Byte>, z: nat, n: nat, e: nat, i: nat)
    requires |flat| == z * n && e < n && i < n - 1
    ensures var shorter := DropElement(flat, z, e);
      var j := if i < e then i else i + 1;
      && |shorter| == z * (n - 1)
      && z * i + z <= |shorter| && z * j + z <= |flat| && Element(shorter, z, i) == Element(flat, z, j)
  {
    EraseProducts(z, n, e, i);
    var j := if i < e then i else i + 1;
    ErasedAt(flat, z, e, i, j, z * e, z * i, z * j);
    hide DropElement, Element;
  }

  /** The same, with the products by name. */
  lemma ErasedAt(flat: seq<Byte>, z: nat, e: nat, i: nat, j: nat, a: nat, lo: nat, at: nat)
    requires a == z * e && lo == z * i && at == z * j && a + z <= |flat| && lo + z <= |flat| - z
    requires if lo + z <= a then at == lo else a <= lo && at == lo + z
    ensures |DropElement(flat, z, e)| == |flat| - z
    ensures z * i + z <= |DropElement(flat, z, e)| && z * j + z <= |flat|
    ensures Element(DropElement(flat, z, e), z, i) == Element(flat, z, j)
  {
    DropAt(flat, z, e, a);
    hide DropElement, Element;
    DropSlices(flat, a, z, lo);
    ElementAt(DropElement(flat, z, e), z, i, lo);
    ElementAt(flat, z, j, at);
  }

  lemma ElementAt(flat: seq<Byte>, z: nat, i: nat, lo: nat)
    requires lo == z * i && lo + z <= |flat|
    ensures Element(flat, z, i) == flat[lo..lo + z]
  {
  }

  lemma EraseProducts(z: nat, n: nat, e: nat, i: nat)
    requires e < n && i < n - 1
    ensures z * (i + 1) == z * i + z && z * (n - 1) == z * n - z
    ensures z * e + z <= z * n && z * i + z <= z * (n - 1)
    ensures if i < e then z * i + z <= z * e else z * e <= z * i
  {
    ElementFits(z, e, n);
    ElementFits(z, i, n - 1);
    if i < e {
      ElementFits(z, i, e);
    } else {
      MulGrows(z, e, i);
    }
  }

  lemma DropSlices(flat: seq<Byte>, a: nat, z: nat, lo: nat)
    requires a + z <= |flat| && lo + z <= |flat| - z
    requires lo + z <= a || a <= lo
    ensures var t := flat[..a] + flat[a + z..];
      t[lo..lo + z] == if lo + z <= a then flat[lo..lo + z] else flat[lo + z..lo + z + z]
  {
    var t := flat[..a] + flat[a + z..];
    var at := if lo + z <= a then lo else lo + z;
    var x, y := t[lo..lo + z], flat[at..at + z];
    forall j | 0 <= j < z
      ensures x[j] == y[j]
    {
      assert x[j] == t[lo + j] && y[j] == flat[at + j];
    }
  }

  /** A flat sequence of n elements as the sequence it stands for. */
  function Elements(flat: seq<Byte>, z: nat, n: nat): (es: seq<seq<Byte>>)
    requires |flat| == z * n
    ensures |es| == n
  {
    seq(n, i requires 0 <= i < n => (ElementFits(z, i, n); Element(flat, z, i)))
  }

  /** Appending z bytes appends one element. */
  lemma AppendIsAppend(flat: seq<Byte>, elem: seq<Byte>, z: nat, n: nat)
    requires |flat| == z * n && |elem| == z
    ensures z * (n + 1) == z * n + z
    ensures Elements(flat + elem, z, n + 1) == Elements(flat, z, n) + [elem]
  {
    assert z * (n + 1) == z * n + z;
    hide Element;
    forall i: nat | i < n + 1
      ensures Elements(flat + elem, z, n + 1)[i] == (Elements(flat, z, n) + [elem])[i]
    {
      ElementsAfterAppend(flat, elem, z, n, i);
    }
  }

  /** Dropping the bytes of element e removes element e. */
  lemma EraseIsErase(flat: seq<Byte>, z: nat, n: nat, e: nat)
    requires |flat| == z * n && e < n
    ensures |DropElement(flat, z, e)| == z * (n - 1)
    ensures Elements(DropElement(flat, z, e), z, n - 1) == Elements(flat, z, n)[..e] + Elements(flat, z, n)[e + 1..]
  {
    ElementFits(z, e, n);
    assert z * (n - 1) == z * n - z;
    hide Element, DropElement;
    var es, shorter := Elements(flat, z, n), DropElement(flat, z, e);
    assert |shorter| == z * (n - 1) by { DropAt(flat, z, e, z * e); }
    var left, right := Elements(shorter, z, n - 1), es[..e] + es[e + 1..];
    forall i: nat | i < n - 1
      ensures left[i] == right[i]
    {
      ElementsAfterErase(flat, z, n, e, i);
    }
  }

  // ---------------------------------------------------------------- the erase macro

  /** Bytes vector_erase copies: sizeof * length - index - 1, not the length of the tail. */
  function EraseCount(z: nat, n: nat, i: nat): int {
    z * n - i - 1
  }

  /** Memory after the copy of vector_erase on a vector at `start`. */
  function EraseCopy(m: seq<Byte>, start: nat, z: nat, n: nat, i: nat): (r: seq<Byte>)
    ensures |r| == |m|
  {
    var count := EraseCount(z, n, i);
    if count >= 0 && start + z * i + count <= |m| && start + z * (i + 1) + count <= |m| then
      CopyForward(m, start + z * i, start + z * (i + 1), count)
    else m
  }

  /** The copy reads inside a buffer of `room` bytes exactly when the buffer has this much
      spare room; the tail alone would always fit. */
  lemma EraseReadsInside(z: nat, n: nat, i: nat, room: nat)
    requires z > 0 && i < n
    ensures z * (n - 1 - i) <= EraseCount(z, n, i)
    ensures z * (i + 1) + EraseCount(z, n, i) <= room <==> z * n + (z - 1) * (i + 1) <= room
  {
    assert z * (n - 1 - i) == z * n - z * (i + 1);
    assert z * (i + 1) == (z - 1) * (i + 1) + (i + 1);
    assert (z - 1) * (i + 1) >= 0;
  }

  /** A forward copy to a lower address leaves all bytes from `limit` on as they are, for every
      memory content, exactly when it ends at or below `limit`. */
  lemma CopyConfined(size: nat, limit: nat, dst: nat, src: nat, count: nat)
    requires dst < src && src + count <= size && dst <= limit
    ensures (forall m: seq<Byte>, x: nat :: |m| == size && limit <= x < size ==>
               CopyForward(m, dst, src, count)[x] == m[x])
       <==> dst + count <= limit
  {
    if dst + count <= limit {
      forall m: seq<Byte>, x: nat | |m| == size && limit <= x < size
        ensures CopyForward(m, dst, src, count)[x] == m[x]
      {
        Untouched(m, dst, src, count, x);
      }
    } else {
      var last := dst + count - 1;
      var m := Put(Fill(0, size), src + count - 1, [1]);
      CopyForwardMoves(m, dst, src, count);
      assert CopyForward(m, dst, src, count)[last] == 1;
      assert m[last] == 0;
    }
  }

  /** So erasing in a buffer of `room` bytes at `start` stays off its neighbours exactly under
      this condition; with a smaller buffer it shifts bytes of the memory that follows. */
  lemma EraseConfined(size: nat, start: nat, room: nat, z: nat, n: nat, i: nat)
    requires z > 0 && i < n && z * n <= room
    requires start + z * n + (z - 1) * (i + 1) <= size
    ensures var dst, src, count := start + z * i, start + z * (i + 1), EraseCount(z, n, i);
      && count >= 0 && src + count <= size && dst + count <= size
      && ((forall m: seq<Byte>, x: nat :: |m| == size && start + room <= x < size ==>
             CopyForward(m, dst, src, count)[x] == m[x])
          <==> z * n + (z - 1) * i <= room + 1)
  {
    EraseBounds(size, start, room, z, n, i);
    CopyConfined(size, start + room, start + z * i, start + z * (i + 1), EraseCount(z, n, i));
  }

  lemma EraseBounds(size: nat, start: nat, room: nat, z: nat, n: nat, i: nat)
    requires z > 0 && i < n && z * n <= room
    requires start + z * n + (z - 1) * (i + 1) <= size
    ensures var dst, src, count := start + z * i, start + z * (i + 1), EraseCount(z, n, i);
      && count >= 0 && dst < src && src + count <= size && dst + count <= size && dst <= start + room
      && (dst + count <= start + room <==> z * n + (z - 1) * i <= room + 1)
  {
    Products(z, i);
    MulGrows(z, i + 1, n);
    IndexBelow(z, i);
  }

  lemma Products(z: nat, i: nat)
    requires z > 0
    ensures z * (i + 1) == z * i + z
    ensures (z - 1) * (i + 1) == z * i + z - i - 1 && (z - 1) * i == z * i - i
  {
  }

  lemma {:induction false} IndexBelow(z: nat, i: nat)
    requires z > 0
    ensures i <= z * i
  {
    if i > 0 {
      IndexBelow(z, i - 1);
      Products(z, i - 1);
    }
  }

  // ---------------------------------------------------------------- cost of appends

  /** After n appends of z bytes each from empty, in elements: capacity, number of krealloc calls,
      and elements that krealloc copied, which it does only if the page count changes. */
  datatype Cost = Cost(capacity: nat, reallocs: nat, copied: nat)

  function AppendCost(n: nat, z: nat): Cost {
    if n == 0 then Cost(0, 0, 0)
    else
      var c := AppendCost(n - 1, z);
      if c.capacity < n then Cost(n * G.RESIZE, c.reallocs + 1, c.copied + Copied(c.capacity, n * G.RESIZE, z)) else c
  }

  /** Elements that a krealloc from `cap` to `next` elements copies. */
  function Copied(cap: nat, next: nat, z: nat): nat {
    if G.SizePages(z * cap) == G.SizePages(z * next) then 0 else cap
  }

  function Pow4(k: nat): nat {
    if k == 0 then 1 else 4 * Pow4(k - 1)
  }

  /** n appends make k reallocations with (4^k - 1) / 3 <= n <= 4 * (4^k - 1) / 3, and copy
      at most (4 * (4^k - 1) - 12k) / 9 elements, that is, at most 4n / 3. */
  lemma {:induction false} AppendsAreCheap(n: nat, z: nat)
    ensures var c := AppendCost(n, z);
      && 3 * c.capacity == 4 * (Pow4(c.reallocs) - 1)
      && Pow4(c.reallocs) - 1 <= 3 * n && n <= c.capacity
      && 9 * c.copied + 12 * c.reallocs <= 4 * (Pow4(c.reallocs) - 1)
  {
    if n > 0 {
      hide G.SizePages;
      AppendsAreCheap(n - 1, z);
    }
  }

  // ---------------------------------------------------------------- the vector

  /** In bytes, the cost grows as the vector's capacity does. */
  lemma CostStep(z: nat, n: nat)
    requires z > 0
    ensures var c, d := AppendCost(n, z), AppendCost(n + 1, z);
      var cap := z * c.capacity;
      if cap < z * (n + 1) then
        && z * d.capacity == z * (n + 1) * G.RESIZE && cap < z * d.capacity && d.reallocs == c.reallocs + 1
        && z * d.copied == z * c.copied + if G.SizePages(cap) == G.SizePages(z * d.capacity) then 0 else cap
      else d == c
  {
    var c := AppendCost(n, z);
    hide G.SizePages;
    if c.capacity < n + 1 {
      MulGrows(z, c.capacity + 1, n + 1);
      assert z * (c.capacity + 1) == z * c.capacity + z;
      assert z * ((n + 1) * G.RESIZE) == z * (n + 1) * G.RESIZE;
      var more := Copied(c.capacity, (n + 1) * G.RESIZE, z);
      assert z * (c.copied + more) == z * c.copied + z * more;
    } else {
      MulGrows(z, n + 1, c.capacity);
    }
  }

  // ---------------------------------------------------------------- growing, as the page accounting sees it

  /** A fresh block for a vector that has none. */
  lemma FirstBlock(s: System, s': System, len: nat, z: nat, size: Word, address: nat)
    requires BlockAdded(s, s', size, address) && size == G.NextCap(0, len, z) && 0 < size <= TWO64 - PAGE_SIZE
    ensures LiveAt(s', address)
    ensures var c := address / PAGE_SIZE - 1;
      && IsData(s', c) && s'.blocks[c].size == size && s'.blocks[c].Sized() && size <= |s'.blocks[c].payload|
      && s'.blocks - {c} == s.blocks && c !in s.blocks
      && G.Grow(s.st.free, s.st.limit, G.NO_VEC, len, z) == Done((s'.st.free, G.Vec(c, size)))
  {
    NewIsData(s, s', size, address);
    NewPlace(s, s', size, address);
    FirstGrow(s.st.free, s.st.limit, len, z, size);
    hide NumPages, FirstFit, Pages, BlockAdded, G.Grow, G.NextCap;
  }

  lemma NewIsData(s: System, s': System, size: Word, address: nat)
    requires BlockAdded(s, s', size, address) && size <= TWO64 - PAGE_SIZE
    ensures LiveAt(s', address)
    ensures var c := address / PAGE_SIZE - 1;
      && IsData(s', c) && s'.blocks[c].size == size && s'.blocks[c].Sized() && size <= |s'.blocks[c].payload|
      && s'.blocks - {c} == s.blocks && c !in s.blocks
  {
    NumPagesExact(size);
    hide NumPages, FirstFit, Pages, NewBlock;
    var c := address / PAGE_SIZE - 1;
    BlockLength(size, s'.blocks[c].payload);
    assert s'.blocks - {c} == s.blocks;
  }

  lemma FirstGrow(free: set<nat>, limit: nat, len: nat, z: nat, size: Word)
    requires size == G.NextCap(0, len, z) && 0 < size <= TWO64 - PAGE_SIZE
    requires FirstFit(free, NumPages(size) + 1, 0, limit).Some?
    ensures var c := FirstFit(free, NumPages(size) + 1, 0, limit).value / PAGE_SIZE;
      G.Grow(free, limit, G.NO_VEC, len, z) == Done((free - Pages(c, NumPages(size) + 1), G.Vec(c, size)))
  {
    G.SizePagesAre(size);
    assert G.BlockSize(size) == NumPages(size) + 1 && G.BlockSize(0) == 0;
    assert G.VecPages(G.NO_VEC) == {};
    hide NumPages, FirstFit, Pages, G.NextCap, G.SizePages, G.BlockSize, G.VecPages;
    var taken := Pages(FirstFit(free, NumPages(size) + 1, 0, limit).value / PAGE_SIZE, NumPages(size) + 1);
    assert free - taken + {} == free - taken;
  }

  /** Without a run for its new block a vector cannot grow. */
  lemma NoRunHalts(free: set<nat>, limit: nat, vec: G.Vec, len: nat, z: nat, size: Word)
    requires size == G.NextCap(vec.cap, len, z) && vec.cap <= TWO64 - PAGE_SIZE && 0 < size <= TWO64 - PAGE_SIZE
    requires FirstFit(free, NumPages(size) + 1, 0, limit).None?
    requires vec.cap == 0 || NumPages(vec.cap) != NumPages(size)
    ensures !G.Grow(free, limit, vec, len, z).Done?
  {
    G.SizePagesAre(size);
    G.SizePagesAre(vec.cap);
    assert G.BlockSize(size) == NumPages(size) + 1;
    assert vec.cap > 0 ==> G.BlockSize(vec.cap) == NumPages(vec.cap) + 1;
    G.GrowOrHalt(free, limit, vec, len, z);
    hide NumPages, FirstFit, G.NextCap, G.SizePages, G.BlockSize;
  }

  /** Where the new block lies, and what it takes. */
  lemma NewPlace(s: System, s': System, size: Word, address: nat)
    requires BlockAdded(s, s', size, address)
    ensures var c, r := address / PAGE_SIZE - 1, FirstFit(s.st.free, NumPages(size) + 1, 0, s.st.limit);
      r.Some? && r.value / PAGE_SIZE == c && s'.st.free == s.st.free - Pages(c, NumPages(size) + 1)
  {
    hide NumPages, FirstFit, Pages;
    var c := address / PAGE_SIZE - 1;
    var blk := s'.blocks[c];
    BlockLength(size, blk.payload);
    var a := FirstFit(s.st.free, NumPages(size) + 1, 0, s.st.limit).value;
    assert s' == AddBlock(s, a / PAGE_SIZE, Data(size, blk.payload));
    assert a / PAGE_SIZE == c by {
      assert c in s.blocks[a / PAGE_SIZE := blk];
    }
  }

  /** The block of a vector goes on at `address`, with its contents, where Grow puts it. */
  ghost predicate Continued(s: System, s': System, b: nat, len: nat, z: nat, size: Word, address: nat) {
    && LiveAt(s', address) && IsData(s, b) && size >= s.blocks[b].size
    && var c, was := address / PAGE_SIZE - 1, s.blocks[b];
       && IsData(s', c) && s'.blocks[c].size == size && s'.blocks[c].Sized() && size <= |s'.blocks[c].payload|
       && s'.blocks - {c} == s.blocks - {b} && (c == b || c !in s.blocks)
       && was.size <= |was.payload| && s'.blocks[c].payload[..was.size] == was.payload[..was.size]
       && G.Grow(s.st.free, s.st.limit, G.Vec(b, was.size), len, z) == Done((s'.st.free, G.Vec(c, size)))
  }

  /** krealloc of the block of a vector: in place, or to the place that Grow tells. */
  lemma NextBlock(s: System, s': System, b: nat, len: nat, z: nat, size: Word, address: nat)
    requires Reallocated(s, s', b, size, address) && s.blocks[b].Sized()
    requires 0 < s.blocks[b].size < size <= TWO64 - PAGE_SIZE
    requires size == G.NextCap(s.blocks[b].size, len, z)
    ensures Continued(s, s', b, len, z, size, address)
  {
    hide NumPages, FirstFit, Pages, G.NextCap, G.SizePages, G.Grow, NewBlock, DropBlock;
    if NumPages(s.blocks[b].size) == NumPages(size) {
      GrownInPlace(s, s', b, len, z, size, address);
    } else {
      GrownElsewhere(s, s', b, len, z, size, address);
    }
  }

  /** The block keeps its pages. */
  lemma GrownInPlace(s: System, s': System, b: nat, len: nat, z: nat, size: Word, address: nat)
    requires Reallocated(s, s', b, size, address) && s.blocks[b].Sized()
    requires 0 < s.blocks[b].size < size <= TWO64 - PAGE_SIZE && NumPages(s.blocks[b].size) == NumPages(size)
    requires size == G.NextCap(s.blocks[b].size, len, z)
    ensures Continued(s, s', b, len, z, size, address)
  {
    var was := s.blocks[b];
    NumPagesExact(size);
    hide NumPages, FirstFit, Pages, G.NextCap, G.SizePages, G.Grow, NewBlock, DropBlock;
    GrowsTo(s.st.free, s.st.limit, b, was.size, len, z, size);
    assert s.blocks[b := s'.blocks[b]] - {b} == s.blocks - {b};
  }

  /** It moves, with its contents. */
  lemma GrownElsewhere(s: System, s': System, b: nat, len: nat, z: nat, size: Word, address: nat)
    requires Reallocated(s, s', b, size, address) && s.blocks[b].Sized()
    requires 0 < s.blocks[b].size < size <= TWO64 - PAGE_SIZE && NumPages(s.blocks[b].size) != NumPages(size)
    requires size == G.NextCap(s.blocks[b].size, len, z)
    ensures Continued(s, s', b, len, z, size, address)
  {
    var c, was := address / PAGE_SIZE - 1, s.blocks[b];
    NumPagesExact(size);
    NumPagesExact(was.size);
    BlockLength(was.size, was.payload);
    hide NumPages, FirstFit, Pages, G.NextCap, G.SizePages, G.Grow, NewBlock, DropBlock;
    GrowsTo(s.st.free, s.st.limit, b, was.size, len, z, size);
    MovedPlace(s, s', b, c, size, s'.blocks[c].payload);
  }

  /** Where Grow puts the next block of a vector at b. */
  lemma GrowsTo(free: set<nat>, limit: nat, b: nat, cap: nat, len: nat, z: nat, size: Word)
    requires 0 < cap <= size <= TWO64 - PAGE_SIZE && size == G.NextCap(cap, len, z)
    ensures var n, r := NumPages(size) + 1, FirstFit(free, NumPages(size) + 1, 0, limit);
      G.Grow(free, limit, G.Vec(b, cap), len, z)
        == if NumPages(cap) == NumPages(size) then Done((free, G.Vec(b, size)))
           else if r.None? then Halt
           else Done((free - Pages(r.value / PAGE_SIZE, n) + Pages(b, NumPages(cap) + 1),
                      G.Vec(r.value / PAGE_SIZE, size)))
  {
    G.SizePagesAre(size);
    G.SizePagesAre(cap);
    assert G.BlockSize(size) == NumPages(size) + 1 && G.BlockSize(cap) == NumPages(cap) + 1;
    hide NumPages, FirstFit, Pages, G.NextCap, G.SizePages, G.BlockSize;
  }

  lemma MovedPlace(s: System, s': System, b: nat, c: nat, size: Word, payload: seq<Byte>)
    requires IsData(s, b) && b != c && c in s'.blocks && c !in s.blocks
    requires |payload| == PAGE_SIZE * NumPages(size) && NewBlock(s, size, payload).Done?
    requires s' == DropBlock(NewBlock(s, size, payload).value, b)
    ensures s'.blocks - {c} == s.blocks - {b}
    ensures var r := FirstFit(s.st.free, NumPages(size) + 1, 0, s.st.limit);
      && r.Some? && r.value / PAGE_SIZE == c
      && s'.st.free == s.st.free - Pages(c, NumPages(size) + 1) + Pages(b, s.blocks[b].Length())
  {
    BlockLength(size, payload);
    hide NumPages, FirstFit, Pages;
    var a := FirstFit(s.st.free, NumPages(size) + 1, 0, s.st.limit).value;
    var s1 := NewBlock(s, size, payload).value;
    assert s1 == AddBlock(s, a / PAGE_SIZE, Data(size, payload));
    assert a / PAGE_SIZE == c by {
      assert c in s1.blocks;
    }
  }

  /** Sizes of blocks stay far from 2^64. */
  lemma NextSize(z: nat, n: nat, cap: nat)
    requires 0 < z <= PAGE_SIZE && z * n <= cap <= 0x200_0000_0000_0000
    ensures z * (n + 1) * G.RESIZE <= 0x800_0000_0001_0000
  {
    assert z * (n + 1) == z * n + z;
  }

  lemma RunOf(size: nat, limit: nat)
    requires size <= 0x800_0000_0001_0000 && limit <= MAX_LIMIT
    ensures size <= TWO64 - PAGE_SIZE && Unwrapped(NumPages(size) + 1, limit)
  {
    NumPagesExact(size);
  }

  /** Bytes put behind a prefix extend it. */
  lemma PutBehind(payload: seq<Byte>, n: nat, elem: seq<Byte>)
    requires n + |elem| <= |payload|
    ensures |Put(payload, n, elem)| == |payload| && Put(payload, n, elem)[..n + |elem|] == payload[..n] + elem
  {
  }

  lemma Quadruple(y: nat)
    ensures y <= y * G.RESIZE
  {
  }

  lemma NothingMoved(size: Word)
    ensures Heap.MovedBytes(0, size) == 0
  {
  }

  lemma SamePages(a: nat, b: nat)
    requires a <= b <= TWO64 - PAGE_SIZE
    ensures NumPages(a) == NumPages(b) <==> G.SizePages(a) == G.SizePages(b)
  {
    G.SizePagesAre(a);
    G.SizePagesAre(b);
  }

  /** A block of this size can be asked for. */
  predicate RunFits(size: nat, limit: nat) {
    size <= TWO64 - PAGE_SIZE && Unwrapped(NumPages(size) + 1, limit)
  }

  // ---------------------------------------------------------------- the vector

  class Vector {
    const k: KernelMemory
    const z: nat
    var length: nat
    var capacity: Word
    var data: Option<nat>

    /** Calls of krealloc so far, and the bytes they copied. */
    ghost var reallocs: nat
    ghost var copied: nat

    /** vector_new for elements of z bytes. */
    constructor (k: KernelMemory, z: nat)
      requires 0 < z <= PAGE_SIZE
      ensures this.k == k && this.z == z && length == capacity == 0 && data == None && Tallied()
    {
      this.k, this.z, length, capacity, data := k, z, 0, 0, None;
      reallocs, copied := 0, 0;
    }

    /** Capacity, calls of krealloc and bytes copied are those of `length` appends. */
    ghost predicate Tallied()
      reads this
    {
      var c := AppendCost(length, z);
      capacity == z * c.capacity && reallocs == c.reallocs && copied == z * c.copied
    }

    /** Header page of the data block. */
    function Base(): nat
      reads this
    {
      if data.Some? && data.value >= PAGE_SIZE then data.value / PAGE_SIZE - 1 else 0
    }

    /** The data block, as the page accounting sees it. */
    ghost function Block(): G.Vec
      reads this
    {
      G.Vec(Base(), capacity)
    }

    /** The data pointer is null, or leads to a live block of `capacity` bytes. */
    ghost predicate Backed()
      reads this, k`blocks
    {
      && 0 < z <= PAGE_SIZE && z * length <= capacity
      && (data.None? ==> length == 0 && capacity == 0)
      && (data.Some? ==>
            && data.value % PAGE_SIZE == 0 && data.value >= 2 * PAGE_SIZE && capacity > 0
            && Base() in k.blocks && k.blocks[Base()].Data? && k.blocks[Base()].Sized()
            && k.blocks[Base()].size == capacity <= |k.blocks[Base()].payload|)
    }

    ghost predicate Valid()
      reads this, k, k.frames, k.frames.bitmap, k.mem
    {
      k.Valid() && Backed()
    }

    /** The elements, as bytes. */
    ghost function Contents(): (flat: seq<Byte>)
      requires Backed()
      reads this, k`blocks
      ensures |flat| == z * length
    {
      if data.None? then [] else k.blocks[Base()].payload[..z * length]
    }

    /** The elements. */
    ghost function Items(): (es: seq<seq<Byte>>)
      requires Backed()
      reads this, k`blocks
      ensures |es| == length
    {
      Elements(Contents(), z, length)
    }

    /** Bytes of the data block, at least the capacity. */
    ghost function Room(): nat
      requires Backed()
      reads this, k`blocks
    {
      if data.None? then 0 else |k.blocks[Base()].payload|
    }

    /** The blocks of everyone else. */
    ghost function Others(): map<nat, Block>
      reads this, k`blocks
    {
      k.blocks - {Base()}
    }

    /** The capacity of a vector that grows. */
    function NextBytes(): nat
      reads this
    {
      z * (length + 1) * G.RESIZE
    }

    /** The size of the next block does not wrap. */
    lemma GrowthFits()
      requires Valid()
      ensures RunFits(NextBytes(), k.frames.limit)
    {
      hide KernelMemory.Valid, NumPages;
      var size := z * (length + 1) * G.RESIZE;
      LimitIsSmall(k);
      if data.Some? {
        InMemory();
        InMemoryBound();
      }
      assert 0 < z <= PAGE_SIZE && z * length <= capacity && (data.None? ==> capacity == 0);
      hide Backed;
      NextSize(z, length, capacity);
      RunOf(size, k.frames.limit);
    }

    lemma InMemoryBound()
      requires Valid() && data.Some? && Rep(k.mem[..], k.tables, k.blocks)
      ensures capacity <= k.frames.limit + PAGE_SIZE
    {
      PayloadPrefix(k.mem[..], k.Sys(), Base(), |k.blocks[Base()].payload|);
      k.LimitStays();
      hide Rep, KernelMemory.Valid;
    }

    /** The growth step of vector_append: krealloc when the capacity is exceeded. */
    method Grow() returns (ok: bool)
      requires Valid()
      modifies this`capacity, this`data, this`reallocs, this`copied, k.mem, k`blocks, k.frames`freeSize,
               k.frames.bitmap
      ensures ok <==> G.Grow(old(k.frames.Free()), k.frames.limit, old(Block()), length + 1, z).Done?
      ensures ok ==> Valid() && Contents() == old(Contents()) && z * (length + 1) <= capacity && data.Some?
      ensures ok ==>
        G.Grow(old(k.frames.Free()), k.frames.limit, old(Block()), length + 1, z) == Done((k.frames.Free(), Block()))
      ensures ok ==> Others() == old(Others()) && (Base() == old(Base()) || Base() !in old(k.blocks))
      ensures capacity == G.NextCap(old(capacity), length + 1, z)
      ensures ok ==>
        if old(capacity) == capacity then reallocs == old(reallocs) && copied == old(copied)
        else reallocs == old(reallocs) + 1 && copied == old(copied) + Heap.MovedBytes(old(capacity), capacity)
    {
      hide KernelMemory.Valid, FrameAllocator.Free, BlockAdded, Reallocated, NumPages, FirstFit, G.Grow, G.SizePages,
        Heap.MovedBytes;
      NextElement();
      ghost var s, b, was := k.Sys(), Base(), Contents();
      if capacity < z * (length + 1) {
        GrowthFits();
        NoRun(s.st.free, s.st.limit);
        NoHeader();
        Quadruple(z * (length + 1));
        capacity := z * (length + 1) * G.RESIZE;
        var got;
        ghost var moved;
        got, moved := Heap.Krealloc(k, data, capacity, 64);
        reallocs, copied := reallocs + 1, copied + moved;
        if got.None? {
          return false;
        }
        if data.Some? {
          NextBlock(s, k.Sys(), b, length + 1, z, capacity, got.value);
        } else {
          FirstBlock(s, k.Sys(), length + 1, z, capacity, got.value);
          NothingMoved(capacity);
        }
        data := got;
        assert Contents() == was;
      } else {
        Stays(s.st.free, s.st.limit);
      }
      return true;
    }

    lemma NextElement()
      ensures z * (length + 1) == z * length + z && (length + 1) * z == z * (length + 1)
    {
    }

    /** No run for the new block means that growing halts. */
    lemma NoRun(free: set<nat>, limit: Word)
      requires Valid() && capacity < z * (length + 1)
      ensures var size := z * (length + 1) * G.RESIZE;
        && size <= TWO64 - PAGE_SIZE
        && (FirstFit(free, NumPages(size) + 1, 0, limit).None?
               && (data.None? || NumPages(capacity) != NumPages(size)) ==>
              !G.Grow(free, limit, Block(), length + 1, z).Done?)
    {
      hide KernelMemory.Valid, NumPages, FirstFit, G.Grow, G.SizePages, Unwrapped, Pages;
      GrowthFits();
      NextElement();
      Sizes();
      var size := z * (length + 1) * G.RESIZE;
      assert G.NextCap(capacity, length + 1, z) == size;
      assert data.None? ==> capacity == 0;
      hide *;
      if FirstFit(free, NumPages(size) + 1, 0, limit).None? && (capacity == 0 || NumPages(capacity) != NumPages(size)) {
        NoRunHalts(free, limit, Block(), length + 1, z, size);
      }
    }

    lemma NoHeader()
      requires Valid()
      ensures 0 !in k.blocks
    {
    }

    /** The data block has the pages that its capacity calls for. */
    lemma Sizes()
      requires Valid()
      ensures capacity <= TWO64 - PAGE_SIZE
      ensures G.BlockSize(capacity) == if data.None? then 0 else NumPages(capacity) + 1
      ensures data.Some? ==>
        k.blocks[Base()].Length() == G.BlockSize(capacity) && Room() == PAGE_SIZE * G.SizePages(capacity)
    {
      if data.Some? {
        LimitIsSmall(k);
        InMemory();
        InMemoryBound();
        G.SizePagesAre(capacity);
        BlockLength(capacity, k.blocks[Base()].payload);
      }
    }

    /** Growing without a new capacity changes nothing. */
    lemma Stays(free: set<nat>, limit: nat)
      requires z * (length + 1) <= capacity
      ensures G.Grow(free, limit, Block(), length + 1, z) == Done((free, Block()))
    {
      NextElement();
      hide FirstFit, G.SizePages;
    }

    /** In terms of pages, what growing to the capacity at hand copied. */
    lemma TallyStep(was: nat)
      requires Valid() && was <= capacity
      ensures capacity <= TWO64 - PAGE_SIZE
      ensures Heap.MovedBytes(was, capacity) == if G.SizePages(was) == G.SizePages(capacity) then 0 else was
    {
      Sizes();
      hide KernelMemory.Valid, NumPages, G.SizePages;
      SamePages(was, capacity);
    }

    /** vector_append; false is a halt. It appends the element, takes and gives back exactly the
        pages that Growth.Grow tells, and leaves all other blocks alone. A vector that had to
        grow has a capacity of four times its new length. */
    method Append(elem: seq<Byte>) returns (ok: bool)
      requires Valid() && |elem| == z
      modifies this, k.mem, k`blocks, k.frames`freeSize, k.frames.bitmap
      ensures ok <==> G.Grow(old(k.frames.Free()), k.frames.limit, old(Block()), old(length) + 1, z).Done?
      ensures ok ==> Valid() && length == old(length) + 1 && Items() == old(Items()) + [elem]
      ensures ok ==>
        G.Grow(old(k.frames.Free()), k.frames.limit, old(Block()), old(length) + 1, z)
          == Done((k.frames.Free(), Block()))
      ensures ok ==> Others() == old(Others()) && (Base() == old(Base()) || Base() !in old(k.blocks))
      ensures ok && old(Tallied()) ==> Tallied()
    {
      hide KernelMemory.Valid, FrameAllocator.Free, Put, AppendCost, Elements, NumPages, FirstFit, G.Grow, G.SizePages,
        Heap.MovedBytes;
      AppendIsAppend(Contents(), elem, z, length);
      NextElement();
      if Tallied() {
        CostStep(z, length);
      }
      ok := Grow();
      if !ok {
        return;
      }
      TallyStep(old(capacity));
      ghost var was, others := Contents(), Others();
      var b := Base();
      ghost var blocks := k.blocks;
      PutBehind(blocks[b].payload, z * length, elem);
      WritePayload(k, b, z * length, elem);
      length := length + 1;
      ExchangeOne(blocks, b, k.blocks[b]);
      assert Contents() == was + elem;
    }

    /** The copy of vector_erase at `index` stays inside the data block. */
    ghost predicate Spare(index: nat)
      requires Backed()
      reads this, k`blocks
    {
      z * length + (z - 1) * index <= Room() + 1
    }

    /** It reads inside physical memory. */
    ghost predicate Readable(index: nat)
      reads this
    {
      data.Some? && data.value + z * length + (z - 1) * (index + 1) <= k.mem.Length
    }

    /** Both together are what Growth.EraseSafe asks. */
    lemma EraseSafeHere(index: nat)
      requires Valid() && index < length
      ensures data.Some?
      ensures G.EraseSafe(k.frames.limit, Block(), z, length, index) <==> Spare(index) && Readable(index)
    {
      Sizes();
      k.LimitStays();
      ElementFits(z, index, length);
      hide KernelMemory.Valid, G.SizePages, LimitPages;
    }

    /** vector_erase, with the byte count as written, wherever it reads inside physical memory.
        With the spare room that the count asks for, it removes the element and changes no other
        block; without it, memory is what the copy leaves, and nothing more is promised. */
    method Erase(index: nat)
      requires Valid() && index < length && Readable(index)
      modifies this`length, k.mem, k`blocks
      ensures length == old(length) - 1
      ensures k.mem[..] == EraseCopy(old(k.mem[..]), old(data).value, z, old(length), index)
      ensures old(Spare(index)) ==> Valid() && Others() == old(Others())
      ensures old(Spare(index)) ==> Items() == old(Items())[..index] + old(Items())[index + 1..]
    {
      hide KernelMemory.Valid, FrameAllocator.Free, Put, DropElement, Elements, CopyForward, EraseCount, BlockRep,
        TableRep, Rep;
      EraseIsErase(Contents(), z, length, index);
      InMemory();
      Bounds(index);
      ghost var m, was := k.mem[..], Contents();
      var lo, hi, count := z * index, z * (index + 1), z * length - index - 1;
      if Spare(index) {
        ReachIs(m, k.blocks[Base()].payload, index, count);
        ErasedContents(k.blocks[Base()].payload, m[data.value + hi..data.value + hi + count], z, length, index);
      }
      LastIs(index);
      ghost var blocks, b := k.blocks, Base();
      ShiftPayload(k, Base(), lo, hi, count);
      length := length - 1;
      ExchangeOne(blocks, b, k.blocks[b]);
      assert old(Spare(index)) ==> Contents() == DropElement(was, z, index);
    }

    lemma LastIs(index: nat)
      requires Backed() && index < length
      ensures z * (length - 1) == z * length - z
    {
    }

    /** What the copy reads: the tail of the payload, and then whatever follows. */
    lemma ReachIs(m: seq<Byte>, payload: seq<Byte>, index: nat, count: nat)
      requires Backed() && data.Some? && index < length && m == k.mem[..] && payload == k.blocks[Base()].payload
      requires Rep(m, k.tables, k.blocks)
      requires count == z * length - index - 1 && data.value + z * (index + 1) + count <= |m|
      requires z * (index + 1) <= z * length
      ensures data.value + z * length <= |m|
      ensures var bytes := m[data.value + z * (index + 1)..data.value + z * (index + 1) + count];
        z * length - z * (index + 1) <= count
        && bytes[..z * length - z * (index + 1)] == payload[..z * length][z * (index + 1)..]
    {
      PayloadPrefix(m, k.Sys(), Base(), z * length);
      TailFits(z, length, index);
      assert PayloadAt(Base()) == data.value;
      hide Rep;
      TailOf(m, data.value, payload[..z * length], z * (index + 1), count);
    }

    /** vector_erase_value: erase the first element equal to `value`, if there is one. */
    method EraseValue(value: seq<Byte>) returns (found: bool, ghost at: nat)
      requires Valid() && |value| == z
      requires forall i: nat :: i < length && FirstAt(Items(), i, value) ==> Readable(i)
      modifies this`length, k.mem, k`blocks
      ensures found ==> FirstAt(old(Items()), at, value)
      ensures found && old(Spare(at)) ==>
        Valid() && Items() == old(Items())[..at] + old(Items())[at + 1..] && Others() == old(Others())
      ensures !found ==> Valid() && Items() == old(Items()) && value !in old(Items()) && k.blocks == old(k.blocks)
    {
      hide KernelMemory.Valid, FrameAllocator.Free, Items, Room;
      var i := 0;
      while i < length
        invariant Valid() && length == old(length) && k.blocks == old(k.blocks) && k.mem[..] == old(k.mem[..])
        invariant i <= length
        invariant value !in Items()[..i]
      {
        var x := At(i);
        if x == value {
          assert FirstAt(Items(), i, value);
          Erase(i);
          return true, i;
        }
        i := i + 1;
      }
      return false, i;
    }

    /** vector_at. */
    method At(i: nat) returns (x: seq<Byte>)
      requires Valid() && i < length
      ensures x == Items()[i]
    {
      hide KernelMemory.Valid, Backed, Contents, Element, Rep;
      InMemory();
      InData();
      ElementInside(k.mem[..], data.value, Contents(), z, length, i);
      var lo := data.value + z * i;
      x := k.mem[lo..lo + z];
    }

    lemma InMemory()
      requires Valid()
      ensures Rep(k.mem[..], k.tables, k.blocks)
    {
      hide Rep, KernelMemory.Layout, FrameAllocator.Valid, LimitPages;
    }

    lemma InData()
      requires Backed() && Rep(k.mem[..], k.tables, k.blocks) && length > 0
      ensures data.Some? && data.value + z * length <= k.mem.Length
      ensures k.mem[..][data.value..data.value + z * length] == Contents()
    {
      hide Rep, BlockRep;
      if data.Some? {
        PayloadPrefix(k.mem[..], k.Sys(), Base(), z * length);
      }
    }

    lemma Bounds(index: nat)
      requires Backed() && index < length && Readable(index)
      ensures 0 <= z * length - index - 1 == EraseCount(z, length, index) && z * index < z * (index + 1) <= z * length
      ensures data.value + z * (index + 1) + (z * length - index - 1) <= k.mem.Length
      ensures Spare(index) <==> z * index + (z * length - index - 1) <= Room()
      ensures z * (length - 1) == z * length - z && z * (length - 1) - z * index <= z * length - index - 1
    {
      ElementFits(z, index, length);
      EraseReadsInside(z, length, index, k.mem.Length);
      LastElement(z, length, index);
      Products(z, index);
    }
  }

  lemma TailFits(z: nat, n: nat, i: nat)
    requires z > 0 && i < n
    ensures z * n - z * (i + 1) <= z * n - i - 1
  {
    IndexBelow(z, i + 1);
  }

  lemma TailOf(m: seq<Byte>, a: nat, flat: seq<Byte>, lo: nat, count: nat)
    requires a + |flat| <= |m| && m[a..a + |flat|] == flat && lo <= |flat| && |flat| - lo <= count
    requires a + lo + count <= |m|
    ensures m[a + lo..a + lo + count][..|flat| - lo] == flat[lo..]
  {
    var x, y := m[a + lo..a + lo + count][..|flat| - lo], flat[lo..];
    forall j | 0 <= j < |flat| - lo
      ensures x[j] == y[j]
    {
      assert flat[lo + j] == m[a..a + |flat|][lo + j];
    }
  }
  /** The elements after the copy of vector_erase, whatever the bytes behind the tail. */
  lemma ErasedContents(payload: seq<Byte>, bytes: seq<Byte>, z: nat, n: nat, i: nat)
    requires z > 0 && i < n && z * n <= |payload| && z * (i + 1) <= z * n
    requires |bytes| == EraseCount(z, n, i) && z * i + |bytes| <= |payload|
    requires z * n - z * (i + 1) <= |bytes| && bytes[..z * n - z * (i + 1)] == payload[..z * n][z * (i + 1)..]
    ensures z * (n - 1) <= |payload|
    ensures Put(payload, z * i, bytes)[..z * (n - 1)] == DropElement(payload[..z * n], z, i)
  {
    ElementFits(z, i, n);
    LastElement(z, n, i);
    MulGrows(z, i, n - 1);
    DropAt(payload[..z * n], z, i, z * i);
    Products(z, i);
    hide DropElement, EraseCount, Put;
    ShiftedPrefix(payload, bytes, z * i, z * (i + 1), z * n);
    assert z * (n - 1) == z * i + (z * n - z * (i + 1));
  }

  lemma ShiftedPrefix(p: seq<Byte>, bytes: seq<Byte>, lo: nat, hi: nat, end: nat)
    requires lo <= hi <= end <= |p| && lo + |bytes| <= |p| && end - hi <= |bytes|
    requires bytes[..end - hi] == p[..end][hi..]
    ensures Put(p, lo, bytes)[..lo + (end - hi)] == p[..end][..lo] + p[..end][hi..]
  {
    var x, y := Put(p, lo, bytes)[..lo + (end - hi)], p[..end][..lo] + p[..end][hi..];
    forall j | 0 <= j < lo + (end - hi)
      ensures x[j] == y[j]
    {
      if j >= lo {
        assert x[j] == bytes[..end - hi][j - lo];
      }
    }
  }

  lemma DropAt(flat: seq<Byte>, z: nat, e: nat, a: nat)
    requires a == z * e && a + z <= |flat|
    ensures DropElement(flat, z, e) == flat[..a] + flat[a + z..]
  {
  }

  lemma LastElement(z: nat, n: nat, i: nat)
    requires z > 0 && i < n
    ensures z * (n - 1) == z * n - z && z * (n - 1) - z * i <= z * n - i - 1 && 0 <= z * n - i - 1
  {
    IndexBelow(z, i);
    Products(z, n - 1);
    MulGrows(z, i, n - 1);
  }
}
