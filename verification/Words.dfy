/** The unsigned 64-bit arithmetic the memory manager is built on: bitwise operators on
    naturals, the address macros of mmu.h, and the split of a virtual address into the
    four table indices. */
module Words {

  const PAGE_SIZE: nat := 4096
  const TWO64: nat := 0x1_0000_0000_0000_0000

  type Word = x: nat | x < TWO64
  type Byte = x: nat | x < 256

  /** Unsigned wrap-around to 64 bits. */
  function Wrap(x: int): Word {
    x % TWO64
  }

  // ---------------------------------------------------------------- bitwise operators

  /** Bitwise and of two naturals, bit by bit. */
  function BitAnd(x: nat, y: nat): nat
    decreases x
  {
    if x == 0 || y == 0 then 0
    else 2 * BitAnd(x / 2, y / 2) + (if x % 2 == 1 && y % 2 == 1 then 1 else 0)
  }

  /** Bitwise or of two naturals, bit by bit. */
  function BitOr(x: nat, y: nat): nat
    decreases x + y
  {
    if x == 0 then y
    else if y == 0 then x
    else 2 * BitOr(x / 2, y / 2) + (if x % 2 == 1 || y % 2 == 1 then 1 else 0)
  }

  function Pow2(k: nat): nat
    ensures Pow2(k) > 0
  {
    if k == 0 then 1 else 2 * Pow2(k - 1)
  }

  lemma {:induction false} HalfMod(x: nat, m: nat)
    requires m > 0
    ensures x % (2 * m) == 2 * (x / 2 % m) + x % 2
  {
    var h := x / 2;
    var q, r := h / m, h % m;
    assert h == m * q + r;
    assert x == (2 * m) * q + (2 * r + x % 2);
    DivModUnique(x, 2 * m, q, 2 * r + x % 2);
  }

  lemma DivModUnique(x: nat, m: nat, q: nat, r: nat)
    requires m > 0 && r < m && x == m * q + r
    ensures x / m == q && x % m == r
  {
    var q', r' := x / m, x % m;
    assert m * (q' - q) == r - r';
    if q' != q {
      NotBelow(m, q' - q);
      assert false;
    }
  }

  lemma NotBelow(m: int, d: int)
    requires d != 0 && m > 0
    ensures m * d >= m || m * d <= -m
  {
    if d > 0 {
      Grows(m, d);
    } else {
      Grows(m, -d);
      assert m * -d == -(m * d);
    }
  }

  lemma {:induction false} Grows(m: int, d: int)
    requires d > 0 && m > 0
    ensures m * d >= m
  {
    if d > 1 {
      Grows(m, d - 1);
      assert m * d == m * (d - 1) + m;
    }
  }

  /** Masking with k low ones is the remainder modulo 2^k. */
  lemma {:induction false} AndLowOnes(x: nat, k: nat)
    ensures BitAnd(x, Pow2(k) - 1) == x % Pow2(k)
  {
    if k == 0 {
    } else if x == 0 {
    } else {
      AndLowOnes(x / 2, k - 1);
      HalfMod(x, Pow2(k - 1));
      var m := Pow2(k) - 1;
      if m != 0 {
        assert m / 2 == Pow2(k - 1) - 1 && m % 2 == 1;
      }
    }
  }

  /** Masking with n ones of which the low k are cleared rounds an n-bit number down to a
      multiple of 2^k: this is `x & ~(2^k - 1)` on n-bit words. */
  lemma {:induction false} AndHighOnes(x: nat, k: nat, n: nat)
    requires k <= n && x < Pow2(n)
    ensures Pow2(k) <= Pow2(n)
    ensures BitAnd(x, Pow2(n) - Pow2(k)) == x - x % Pow2(k)
    decreases n
  {
    Pow2Monotone(k, n);
    if k == 0 {
      AndAllOnes(x, n);
    } else {
      var high, low := Pow2(n - 1), Pow2(k - 1);
      assert Pow2(n) == 2 * high && Pow2(k) == 2 * low;
      hide BitAnd, Pow2;
      AndHighOnes(x / 2, k - 1, n - 1);
      assert BitAnd(x, Pow2(n) - Pow2(k)) == 2 * BitAnd(x / 2, high - low) by {
        AndEven(x, high - low, Pow2(n) - Pow2(k));
      }
      Halves(x, low);
    }
  }

  lemma AndAllOnes(x: nat, n: nat)
    requires x < Pow2(n)
    ensures BitAnd(x, Pow2(n) - 1) == x
  {
    AndLowOnes(x, n);
    DivModUnique(x, Pow2(n), 0, x);
  }

  lemma Halves(x: nat, low: nat)
    requires low > 0
    ensures 2 * (x / 2 - x / 2 % low) == x - x % (2 * low)
  {
    HalfMod(x, low);
  }

  lemma AndEven(x: nat, m: nat, d: nat)
    requires d == 2 * m
    ensures BitAnd(x, d) == 2 * BitAnd(x / 2, m)
  {
    assert d / 2 == m && d % 2 == 0;
  }

  lemma {:induction false} Pow2Monotone(k: nat, n: nat)
    requires k <= n
    ensures Pow2(k) <= Pow2(n)
  {
    if k < n {
      Pow2Monotone(k, n - 1);
    }
  }

  /** Or-ing a number below 2^k into a multiple of 2^k adds it. */
  lemma {:induction false} OrBelow(x: nat, y: nat, k: nat)
    requires x % Pow2(k) == 0 && y < Pow2(k)
    ensures BitOr(x, y) == x + y
  {
    if x == 0 || y == 0 {
    } else {
      assert k > 0;
      HalfMod(x, Pow2(k - 1));
      OrBelow(x / 2, y / 2, k - 1);
    }
  }

  lemma {:induction false} OrBounded(x: nat, y: nat, n: nat)
    requires x < Pow2(n) && y < Pow2(n)
    ensures BitOr(x, y) < Pow2(n)
  {
    if x != 0 && y != 0 {
      OrBounded(x / 2, y / 2, n - 1);
    }
  }

  lemma OrInWord(x: Word, y: Word)
    ensures BitOr(x, y) < TWO64
  {
    Pow2Values();
    OrBounded(x, y, 64);
  }

  lemma Pow2Values()
    ensures Pow2(9) == 512 && Pow2(12) == 4096 && Pow2(64) == TWO64
  {
    assert Pow2(9) == 512;
    assert Pow2(12) == 4096;
    assert Pow2(20) == 0x10_0000;
    assert Pow2(28) == 0x1000_0000;
    assert Pow2(36) == 0x10_0000_0000;
    assert Pow2(44) == 0x1000_0000_0000;
    assert Pow2(52) == 0x10_0000_0000_0000;
    assert Pow2(60) == 0x1000_0000_0000_0000;
  }

  // ---------------------------------------------------------------- macros of mmu.h

  const MASK_FFF: Word := TWO64 - 4096   // ~(0xFFF), sign-extended to 64 bits
  const MASK_1FF: Word := TWO64 - 512    // ~(0x1FF)

  const VM_PRESENT: Word := 1
  const VM_READ_WRITE: Word := 2
  const VM_USER: Word := 4
  const VM_DEFAULT: Word := 3
  const VM_USERMODE: Word := 7
  const MEM_VIRT_OFFSET: Word := 0xFFFF_8000_0000_0000

  /** NUM_PAGES: the addition wraps at 64 bits. */
  function NumPages(a: Word): Word {
    Wrap(a + PAGE_SIZE - 1) / PAGE_SIZE
  }

  /** PAGE_ALIGN. */
  function PageAlign(a: Word): Word {
    NumPages(a) * PAGE_SIZE
  }

  /** e & ~(0xFFF). */
  function FrameMask(e: Word): Word {
    MaskFFF(e);
    BitAnd(e, MASK_FFF)
  }

  /** e & ~(0x1FF). */
  function ShortMask(e: Word): Word {
    Mask1FF(e);
    BitAnd(e, MASK_1FF)
  }

  /** MAKE_TABLE_ENTRY. */
  function MakeTableEntry(addr: Word, flags: Word): Word {
    OrInWord(FrameMask(addr), flags);
    BitOr(FrameMask(addr), flags)
  }

  /** CHECK_PRESENT. */
  predicate Present(e: Word) {
    BitAnd(e, VM_PRESENT) != 0
  }

  function PhysToVirt(a: Word): Word {
    Wrap(a + MEM_VIRT_OFFSET)
  }

  function VirtToPhys(a: Word): Word {
    Wrap(a - MEM_VIRT_OFFSET)
  }

  function AlignDown(a: nat): (d: nat)
    ensures d <= a
  {
    a - a % PAGE_SIZE
  }

  /** The direct-map macros undo each other on every 64-bit value. */
  lemma DirectMapRoundTrip(a: Word)
    ensures VirtToPhys(PhysToVirt(a)) == a && PhysToVirt(VirtToPhys(a)) == a
  {
  }

  /** NUM_PAGES covers its argument, and is the least number of pages that does, exactly
      when the rounding addition does not wrap. */
  lemma NumPagesExact(a: Word)
    ensures a <= NumPages(a) * PAGE_SIZE <==> a <= TWO64 - PAGE_SIZE
    ensures a <= TWO64 - PAGE_SIZE ==> NumPages(a) * PAGE_SIZE < a + PAGE_SIZE
    ensures a <= TWO64 - PAGE_SIZE ==> PageAlign(a) % PAGE_SIZE == 0
    ensures a > TWO64 - PAGE_SIZE ==> NumPages(a) == 0
  {
  }

  lemma MaskFFF(e: Word)
    ensures BitAnd(e, MASK_FFF) == AlignDown(e)
  {
    Pow2Values();
    AndHighOnes(e, 12, 64);
  }

  lemma FrameMaskAligns(e: Word)
    ensures FrameMask(e) == AlignDown(e) && AlignDown(e) % PAGE_SIZE == 0
  {
    MaskFFF(e);
    AlignDownAligned(e);
  }

  lemma AlignDownAligned(a: nat)
    ensures AlignDown(a) % PAGE_SIZE == 0
  {
    DivModUnique(AlignDown(a), PAGE_SIZE, a / PAGE_SIZE, 0);
  }

  lemma Mask1FF(e: Word)
    ensures BitAnd(e, MASK_1FF) == e - e % 512
  {
    Pow2Values();
    AndHighOnes(e, 9, 64);
  }

  lemma PresentIsOdd(e: Word)
    ensures Present(e) <==> e % 2 == 1
  {
    if e > 0 {
      assert BitAnd(e, 1) == 2 * BitAnd(e / 2, 0) + (if e % 2 == 1 then 1 else 0);
    }
  }

  /** The permission bits fit below the frame, so an entry is the sum of its parts ... */
  lemma EntryIsSum(addr: Word, flags: Word)
    requires flags < PAGE_SIZE
    ensures MakeTableEntry(addr, flags) == AlignDown(addr) + flags
  {
    Pow2Values();
    MaskFFF(addr);
    OrBelow(AlignDown(addr), flags, 12);
  }

  /** ... and splits back into them; the short mask works as long as the flags stay below
      its nine bits. */
  lemma EntryParts(addr: Word, flags: Word)
    requires flags < PAGE_SIZE
    ensures FrameMask(MakeTableEntry(addr, flags)) == AlignDown(addr)
    ensures Present(MakeTableEntry(addr, flags)) <==> flags % 2 == 1
    ensures flags < 512 ==> ShortMask(MakeTableEntry(addr, flags)) == AlignDown(addr)
  {
    EntryIsSum(addr, flags);
    SumParts(AlignDown(addr), flags);
  }

  lemma SumParts(frame: Word, flags: Word)
    requires frame % PAGE_SIZE == 0 && flags < PAGE_SIZE
    ensures frame + flags < TWO64
    ensures BitAnd(frame + flags, MASK_FFF) == frame
    ensures Present(frame + flags) <==> flags % 2 == 1
    ensures flags < 512 ==> BitAnd(frame + flags, MASK_1FF) == frame
  {
    var e, q := frame + flags, frame / PAGE_SIZE;
    assert e < TWO64 by { assert TWO64 == PAGE_SIZE * (TWO64 / PAGE_SIZE); }
    DivModUnique(e, PAGE_SIZE, q, flags);
    MaskFFF(e);
    assert Present(e) <==> flags % 2 == 1 by {
      DivModUnique(e, 2, 2048 * q + flags / 2, flags % 2);
      PresentIsOdd(e);
    }
    if flags < 512 {
      DivModUnique(e, 512, 8 * q, flags);
      Mask1FF(e);
    }
  }

  // ---------------------------------------------------------------- virtual addresses

  /** Number of virtual pages a four-level table can tell apart: bits 12 to 47. */
  const VPN_COUNT: nat := 0x10_0000_0000

  /** The page number the four levels see. */
  function Vpn(v: nat): nat
    ensures Vpn(v) < VPN_COUNT
  {
    v / PAGE_SIZE % VPN_COUNT
  }

  /** Pages covered by one table of the given level (1 = PT, 4 = PML4). */
  function Reach(level: nat): nat
    requires level <= 4
    ensures Reach(level) > 0
  {
    match level
    case 0 => 1
    case 1 => 512
    case 2 => 0x4_0000
    case 3 => 0x800_0000
    case 4 => VPN_COUNT
  }

  /** (virt_addr >> (12 + 9 * (level - 1))) & 0x1FF. */
  function Index(v: Word, level: nat): nat
    requires 1 <= level <= 4
  {
    BitAnd(v / (PAGE_SIZE * Reach(level - 1)), 0x1FF)
  }

  /** The shifted and masked address is the matching base-512 digit of the page number. */
  lemma IndexIsDigit(v: Word, level: nat)
    requires 1 <= level <= 4
    ensures Index(v, level) == Vpn(v) / Reach(level - 1) % 512 < 512
  {
    LowNine(v / (PAGE_SIZE * Reach(level - 1)));
    hide BitAnd, Vpn;
    match level
    case 1 => FirstDigit(v);
    case 2 => SecondDigit(v);
    case 3 => ThirdDigit(v);
    case 4 => FourthDigit(v);
  }

  lemma LowNine(x: nat)
    ensures BitAnd(x, 0x1FF) == x % 512
  {
    Pow2Values();
    AndLowOnes(x, 9);
  }

  lemma FirstDigit(v: nat)
    ensures v / 0x1000 % 512 == Vpn(v) / 1 % 512
  {
    var u, h := Vpn(v), v / PAGE_SIZE / VPN_COUNT;
    DivModUnique(v / PAGE_SIZE, 512, 0x800_0000 * h + u / 512, u % 512);
  }

  lemma SecondDigit(v: nat)
    ensures v / 0x20_0000 % 512 == Vpn(v) / 512 % 512
  {
    var u, h := Vpn(v), v / PAGE_SIZE / VPN_COUNT;
    DivModUnique(v, 0x20_0000, 0x800_0000 * h + u / 512, 4096 * (u % 512) + v % 4096);
    DivModUnique(0x800_0000 * h + u / 512, 512, 0x4_0000 * h + u / 512 / 512, u / 512 % 512);
  }

  lemma ThirdDigit(v: nat)
    ensures v / 0x4000_0000 % 512 == Vpn(v) / 0x4_0000 % 512
  {
    var u, h := Vpn(v), v / PAGE_SIZE / VPN_COUNT;
    DivModUnique(v, 0x4000_0000, 0x4_0000 * h + u / 0x4_0000, 4096 * (u % 0x4_0000) + v % 4096);
    DivModUnique(0x4_0000 * h + u / 0x4_0000, 512, 512 * h + u / 0x4_0000 / 512, u / 0x4_0000 % 512);
  }

  lemma FourthDigit(v: nat)
    ensures v / 0x80_0000_0000 % 512 == Vpn(v) / 0x800_0000 % 512
  {
    var u, h := Vpn(v), v / PAGE_SIZE / VPN_COUNT;
    DivModUnique(v, 0x80_0000_0000, 512 * h + u / 0x800_0000, 4096 * (u % 0x800_0000) + v % 4096);
    DivModUnique(512 * h + u / 0x800_0000, 512, h + u / 0x800_0000 / 512, u / 0x800_0000 % 512);
  }
}
