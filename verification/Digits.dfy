/** The number printers of kprint.c: digit loops that fill a fixed buffer from the back. What
    is written to the log port is the returned string. */
module Digits {
  import opened Division
  import opened Words

  const CONVERSION_TABLE: string := "0123456789ABCDEF"
  const NUL: char := '\0'

  function Power(b: nat, k: nat): nat {
    if k == 0 then 1 else b * Power(b, k - 1)
  }

  function Char(d: nat): (c: char)
    requires d < 16
    ensures c != NUL && DigitOf(c) == d
  {
    assert CONVERSION_TABLE[0] == '0' && CONVERSION_TABLE[9] == '9' && CONVERSION_TABLE[10] == 'A';
    CONVERSION_TABLE[d]
  }

  /** A digit read back. */
  function DigitOf(c: char): nat {
    if '0' <= c <= '9' then c as nat - '0' as nat
    else if 'A' <= c <= 'F' then c as nat - 'A' as nat + 10
    else 0
  }

  /** A numeral read back, most significant digit first. */
  function Value(b: nat, text: string): nat {
    if text == "" then 0 else b * Value(b, text[..|text| - 1]) + DigitOf(text[|text| - 1])
  }

  /** The numeral of n without leading zeros; empty for 0. */
  function Numeral(b: nat, n: nat): (text: string)
    requires 2 <= b <= 16
    ensures forall k :: 0 <= k < |text| ==> text[k] != NUL
  {
    if n == 0 then "" else Numeral(b, Quot(n, b)) + [Char(Rem(n, b))]
  }

  lemma DigitAdded(b: nat, n: nat, c: char)
    requires 2 <= b <= 16 && n > 0 && c == Char(Rem(n, b))
    ensures Numeral(b, n) == Numeral(b, Quot(n, b)) + [c]
  {
  }

  lemma NumeralEmpty(b: nat, n: nat)
    requires 2 <= b <= 16
    ensures Numeral(b, n) == "" <==> n == 0
  {
  }

  lemma NoNul(b: nat, n: nat)
    requires 2 <= b <= 16
    ensures NUL !in Numeral(b, n)
  {
  }

  lemma ValueSnoc(b: nat, text: string, c: char)
    ensures Value(b, text + [c]) == b * Value(b, text) + DigitOf(c)
  {
    assert (text + [c])[..|text|] == text;
  }

  /** Reading a numeral back gives the number. */
  lemma {:induction false} NumeralReadsBack(b: nat, n: nat)
    requires 2 <= b <= 16
    ensures Value(b, Numeral(b, n)) == n
  {
    hide Quot, Rem, Char, DigitOf;
    if n > 0 {
      var q, c := Quot(n, b), Char(Rem(n, b));
      Split(n, b);
      NumeralReadsBack(b, q);
      ValueSnoc(b, Numeral(b, q), c);
    }
  }

  /** A numeral has k digits or fewer exactly when the number is below b^k. */
  lemma {:induction false} NumeralLength(b: nat, n: nat, k: nat)
    requires 2 <= b <= 16
    ensures |Numeral(b, n)| <= k <==> n < Power(b, k)
  {
    hide Quot, Rem, Char;
    if n == 0 {
      PowerPositive(b, k);
    } else if k > 0 {
      var q, m := Quot(n, b), Power(b, k - 1);
      NumeralLength(b, q, k - 1);
      DivBelow(n, b, m);
      assert Power(b, k) == b * m;
    }
  }

  lemma {:induction false} PowerPositive(b: nat, k: nat)
    requires b > 0
    ensures Power(b, k) > 0
  {
    if k > 0 {
      PowerPositive(b, k - 1);
    }
  }

  lemma DivBelow(n: nat, b: nat, m: nat)
    requires b > 0
    ensures Quot(n, b) < m <==> n < b * m
  {
    var q, r := Quot(n, b), Rem(n, b);
    Split(n, b);
    hide Quot, Rem;
    if q < m {
      assert b * (q + 1) <= b * m;
    } else {
      assert b * m <= b * q;
    }
  }

  /** Digit k of n in base b, counted from the last: what remains after k divisions, modulo b. */
  function DigitChar(b: nat, n: nat, k: nat): char
    requires 2 <= b <= 16
  {
    PowerPositive(b, k);
    DigitBelow(n, b, Power(b, k));
    "0123456789ABCDEF"[n / Power(b, k) % b]
  }

  lemma DigitBelow(n: nat, b: nat, m: nat)
    requires 2 <= b <= 16 && m > 0
    ensures 0 <= n / m % b < 16
  {
    DivParts(n, m);
  }

  /** A numeral is its digits. */
  lemma {:induction false} NumeralDigits(b: nat, n: nat, k: nat)
    requires 2 <= b <= 16 && k < |Numeral(b, n)|
    ensures Numeral(b, n)[|Numeral(b, n)| - 1 - k] == DigitChar(b, n, k)
  {
    var q := Quot(n, b);
    if k > 0 {
      NumeralDigits(b, q, k - 1);
      PowerPositive(b, k - 1);
      QuotQuot(n, b, Power(b, k - 1));
      hide Quot, Rem, Char;
    }
  }

  lemma QuotQuot(n: nat, b: nat, m: nat)
    requires b > 0 && m > 0
    ensures b * m > 0 && n / (b * m) == Quot(n, b) / m
  {
    var q, d := Quot(n, b), Rem(n, b);
    Split(n, b);
    Split(q, m);
    Recombine(n, b, m, Quot(q, m), Rem(q, m), d);
    DivModUnique(n, b * m, Quot(q, m), b * Rem(q, m) + d);
  }

  /** The last w digits of a numeral have the value n mod b^w. */
  lemma {:induction false} LastDigits(b: nat, n: nat, w: nat)
    requires 2 <= b <= 16
    ensures Power(b, w) > 0
    ensures Value(b, Suffix(Numeral(b, n), w)) == Rem(n, Power(b, w))
  {
    hide Quot, Rem, Char, DigitOf;
    PowerPositive(b, w);
    if n == 0 || w == 0 {
      NothingLeft(n, Power(b, w));
    } else {
      var q, c, m := Quot(n, b), Char(Rem(n, b)), Power(b, w - 1);
      LastDigits(b, q, w - 1);
      ModParts(n, b, m);
      ValueSnoc(b, Suffix(Numeral(b, q), w - 1), c);
      SuffixSnoc(Numeral(b, q), c, w);
      hide Value, Suffix;
    }
  }

  lemma NothingLeft(n: nat, m: nat)
    requires m > 0 && (n == 0 || m == 1)
    ensures Rem(n, m) == 0
  {
    DivModUnique(n, m, n, 0);
  }

  lemma SuffixSnoc(text: string, c: char, w: nat)
    requires w > 0
    ensures Suffix(text + [c], w) == Suffix(text, w - 1) + [c]
  {
  }

  function Suffix(text: string, w: nat): string {
    if |text| <= w then text else text[|text| - w..]
  }

  lemma ModParts(n: nat, b: nat, m: nat)
    requires b > 0 && m > 0
    ensures b * m > 0 && Rem(n, b * m) == b * Rem(Quot(n, b), m) + Rem(n, b)
  {
    var q, d := Quot(n, b), Rem(n, b);
    Split(n, b);
    Split(q, m);
    Recombine(n, b, m, Quot(q, m), Rem(q, m), d);
    DivModUnique(n, b * m, Quot(q, m), b * Rem(q, m) + d);
  }

  lemma Recombine(n: nat, b: nat, m: nat, q: nat, s: nat, d: nat)
    requires n == b * (m * q + s) + d && d < b && s < m
    ensures n == (b * m) * q + (b * s + d) && b * s + d < b * m
  {
    assert b * (m * q + s) == b * (m * q) + b * s;
    assert b * (s + 1) <= b * m;
  }

  // ---------------------------------------------------------------- kprint

  /** kprint: the characters from `start` up to the first NUL. */
  method Kprint(msg: array<char>, start: nat) returns (out: string)
    requires exists end :: start <= end < msg.Length && msg[end] == NUL
    ensures start + |out| < msg.Length && msg[start + |out|] == NUL
    ensures out == msg[start..start + |out|] && NUL !in out
  {
    ghost var end :| start <= end < msg.Length && msg[end] == NUL;
    out := "";
    var i := start;
    while msg[i] != NUL
      invariant start <= i <= end && out == msg[start..i] && NUL !in out
      decreases end - i
    {
      out := out + [msg[i]];
      i := i + 1;
    }
  }

  lemma NoNulBefore(buf: seq<char>, start: nat, n: nat, k: nat)
    requires start + n <= |buf| && NUL !in buf[start..start + n]
    ensures k < n ==> buf[start + k] != NUL
  {
    if k < n {
      assert buf[start..start + n][k] == buf[start + k];
    }
  }

  /** Two readings of a buffer up to its first NUL are the same. */
  lemma FirstNul(buf: seq<char>, start: nat, n: nat, m: nat)
    requires start + n < |buf| && start + m < |buf| && buf[start + n] == buf[start + m] == NUL
    requires NUL !in buf[start..start + n] && NUL !in buf[start..start + m]
    ensures n == m
  {
    NoNulBefore(buf, start, m, n);
    NoNulBefore(buf, start, n, m);
  }

  // ---------------------------------------------------------------- kprint_dec

  /** kprint_dec writes at least one digit and no leading zero; its 20 digits of room are just
      enough. */
  method KprintDec(num: Word) returns (out: string)
    ensures |out| > 0 && (num == 0 ==> out == "0") && (num > 0 ==> Power(10, |out| - 1) <= num < Power(10, |out|))
    ensures forall k :: 0 <= k < |out| ==> out[|out| - 1 - k] == DigitChar(10, num, k)
    ensures Value(10, out) == num
  {
    NumeralReadsBack(10, num);
    NumeralText(10, num);
    if num == 0 {
      ValueSnoc(10, "", '0');
      assert "" + ['0'] == "0";
      return "0";
    }
    hide Char, DigitOf, Numeral, Value, DigitChar, Power;
    NoNul(10, num);
    var buf := new char[21](_ => NUL);
    var i := FillDec(buf, num);
    out := Kprint(buf, i);
    FirstNul(buf[..], i, |out|, 20 - i);
  }

  /** A numeral has no leading zero, and its characters are the digits of the number. */
  lemma NumeralText(b: nat, n: nat)
    requires 2 <= b <= 16
    ensures n > 0 ==> |Numeral(b, n)| > 0 && Power(b, |Numeral(b, n)| - 1) <= n
    ensures n < Power(b, |Numeral(b, n)|)
    ensures forall k :: 0 <= k < |Numeral(b, n)| ==> Numeral(b, n)[|Numeral(b, n)| - 1 - k] == DigitChar(b, n, k)
    ensures DigitChar(b, 0, 0) == '0'
  {
    NumeralLength(b, n, |Numeral(b, n)|);
    if n > 0 {
      NumeralEmpty(b, n);
      NumeralLength(b, n, |Numeral(b, n)| - 1);
    }
    hide Numeral, Power, DigitChar;
    forall k | 0 <= k < |Numeral(b, n)|
      ensures Numeral(b, n)[|Numeral(b, n)| - 1 - k] == DigitChar(b, n, k)
    {
      NumeralDigits(b, n, k);
    }
    ZeroDigit(b);
  }

  lemma ZeroDigit(b: nat)
    requires 2 <= b <= 16
    ensures DigitChar(b, 0, 0) == '0'
  {
  }

  /** The loop of kprint_dec. */
  method FillDec(buf: array<char>, num: Word) returns (start: nat)
    requires buf.Length == 21 && buf[20] == NUL
    modifies buf
    ensures start <= 20 && buf[20] == NUL && buf[start..20] == Numeral(10, num)
  {
    hide Char, Numeral;
    DecFits(num);
    NumeralEmpty(10, num);
    var n, i := num, 19;
    while n != 0
      invariant -1 <= i <= 19 && buf[20] == NUL
      invariant n == 0 <==> Numeral(10, n) == ""
      invariant Numeral(10, n) + buf[i + 1..20] == Numeral(10, num)
      decreases n
    {
      buf[i] := (n % 10 + 0x30) as char;
      DecChar(n % 10);
      DigitAdded(10, n, buf[i]);
      assert buf[i..20] == [buf[i]] + buf[i + 1..20];
      n := n / 10;
      NumeralEmpty(10, n);
      i := i - 1;
    }
    return i + 1;
  }

  lemma DecChar(d: nat)
    requires d < 10
    ensures (d + 0x30) as char == Char(d)
  {
  }

  lemma HexChar(d: nat)
    requires d < 16
    ensures CONVERSION_TABLE[d] == Char(d)
  {
  }

  lemma DecFits(n: Word)
    ensures |Numeral(10, n)| <= 20
  {
    assert Power(10, 5) == 10_0000;
    PowerSum(10, 5, 5);
    PowerSum(10, 10, 10);
    NumeralLength(10, n, 20);
  }

  lemma {:induction false} PowerSum(b: nat, j: nat, k: nat)
    ensures Power(b, j + k) == Power(b, j) * Power(b, k)
  {
    if k > 0 {
      PowerSum(b, j, k - 1);
      assert Power(b, j + k) == b * Power(b, j + k - 1);
    }
  }

  // ---------------------------------------------------------------- kprint_hex

  const TWO32: nat := 0x1_0000_0000

  /** The test of the counter in the loop of kprint_hex: both sides are unsigned 32-bit. */
  predicate WithinWidth(i: int, width: nat) {
    i % TWO32 >= (16 - width) % TWO32
  }

  /** Digits kprint_hex writes after the prefix. */
  function HexText(num: Word, width: nat): string {
    if num == 0 then "0"
    else if width == 0 then Numeral(16, num)
    else if width <= 16 then Suffix(Numeral(16, num), width)
    else ""
  }

  /** A width above 16 wraps the bound around, and the loop never starts. */
  lemma WidthWraps(i: nat, width: nat)
    requires i <= 15 && 0 < width < TWO32
    ensures WithinWidth(i, width) <==> width <= 16 && i >= 16 - width
  {
    if width > 16 {
      DivModUnique(16 - width + TWO32, TWO32, 0, 16 - width + TWO32);
    }
  }

  /** The digits read back as num mod 16^width (num itself for width 0) exactly when the width
      is at most 16 or num is 0. */
  lemma HexExact(num: Word, width: nat)
    ensures Power(16, width) > 0
    ensures Value(16, HexText(num, width)) == (if width == 0 then num else num % Power(16, width))
       <==> num == 0 || width <= 16
    ensures 0 < width <= 16 && num > 0 ==>
      var digits := |Numeral(16, num)|;
      |HexText(num, width)| == if width < digits then width else digits
  {
    PowerPositive(16, width);
    NumeralReadsBack(16, num);
    LastDigits(16, num, width);
    if num == 0 {
      assert Value(16, "0") == 16 * Value(16, "0"[..0]) + DigitOf('0');
    } else if width > 16 {
      HexFits(num);
      NumeralLength(16, num, width);
    }
  }

  lemma HexFits(n: Word)
    ensures |Numeral(16, n)| <= 16
  {
    assert Power(16, 4) == 0x1_0000;
    PowerSum(16, 4, 4);
    PowerSum(16, 8, 8);
    NumeralLength(16, n, 16);
  }

  /** The loop of kprint_hex for width 0. */
  method FillHex(buf: array<char>, num: Word) returns (start: nat)
    requires buf.Length == 17 && buf[16] == NUL
    modifies buf
    ensures start <= 16 && buf[16] == NUL && buf[start..16] == Numeral(16, num)
  {
    hide Char, Numeral;
    HexFits(num);
    NumeralEmpty(16, num);
    var n, i := num, 15;
    while n != 0
      invariant -1 <= i <= 15 && buf[16] == NUL
      invariant n == 0 <==> Numeral(16, n) == ""
      invariant Numeral(16, n) + buf[i + 1..16] == Numeral(16, num)
      decreases n
    {
      buf[i] := CONVERSION_TABLE[n % 16];
      HexChar(n % 16);
      DigitAdded(16, n, buf[i]);
      assert buf[i..16] == [buf[i]] + buf[i + 1..16];
      n := n / 16;
      NumeralEmpty(16, n);
      i := i - 1;
    }
    return i + 1;
  }

  /** The loop of kprint_hex for a nonzero width. */
  method FillHexWithin(buf: array<char>, num: Word, width: nat) returns (start: nat)
    requires buf.Length == 17 && buf[16] == NUL && 0 < width < TWO32
    modifies buf
    ensures start <= 16 && buf[16] == NUL
    ensures buf[start..16] == if width <= 16 then Suffix(Numeral(16, num), width) else ""
  {
    hide Char, Numeral, WithinWidth;
    HexFits(num);
    NumeralEmpty(16, num);
    WidthWraps(15, width);
    var n, i := num, 15;
    while n != 0 && WithinWidth(i, width)
      invariant -1 <= i <= 15 && buf[16] == NUL
      invariant if width <= 16 then i >= 15 - width else i == 15
      invariant i >= 0 ==> (WithinWidth(i, width) <==> width <= 16 && i >= 16 - width)
      invariant n == 0 <==> Numeral(16, n) == ""
      invariant Numeral(16, n) + buf[i + 1..16] == Numeral(16, num)
      decreases n
    {
      buf[i] := CONVERSION_TABLE[n % 16];
      HexChar(n % 16);
      DigitAdded(16, n, buf[i]);
      assert buf[i..16] == [buf[i]] + buf[i + 1..16];
      if i > 0 {
        WidthWraps(i - 1, width);
      }
      n := n / 16;
      NumeralEmpty(16, n);
      i := i - 1;
    }
    SuffixIs(Numeral(16, n), buf[i + 1..16], width);
    return i + 1;
  }

  lemma SuffixIs(head: string, tail: string, w: nat)
    requires if head == "" then |tail| <= w else |tail| == w || w > 16
    ensures w <= 16 ==> Suffix(head + tail, w) == tail
  {
    if head == "" {
      assert head + tail == tail;
    }
  }

  /** kprint_hex writes the prefix and, up to width 16, at least one digit: the last `width` digits
      of the number, all of them for width 0, without leading zeros unless the width cuts. They
      read back as num mod 16^width, num itself for width 0, exactly when the width is at most 16
      or num is 0. */
  method KprintHex(num: Word, width: nat) returns (out: string)
    requires width < TWO32
    ensures |out| >= 2 && out[..2] == "0x"
    ensures num == 0 ==> out == "0x0"
    ensures width <= 16 ==> |out| > 2
    ensures num > 0 && width > 16 ==> out == "0x"
    ensures num > 0 && width <= 16 ==>
      var d := |out| - 2;
      if width > 0 && num >= Power(16, width) then d == width else Power(16, d - 1) <= num < Power(16, d)
    ensures forall k :: 0 <= k < |out| - 2 ==> out[|out| - 1 - k] == DigitChar(16, num, k)
    ensures Power(16, width) > 0
    ensures Value(16, out[2..]) == (if width == 0 then num else num % Power(16, width)) <==> num == 0 || width <= 16
  {
    if num == 0 {
      HexPrinted(num, width, "0x0");
      return "0x0";
    }
    hide Char, Numeral, DigitChar, Power, Value;
    NoNul(16, num);
    var buf := new char[17];
    buf[16] := NUL;
    var i;
    if width != 0 {
      i := FillHexWithin(buf, num, width);
    } else {
      i := FillHex(buf, num);
    }
    ghost var text := buf[i..16];
    var digits := Kprint(buf, i);
    FirstNul(buf[..], i, |digits|, |text|);
    out := "0x" + digits;
    HexPrinted(num, width, out);
  }

  lemma HexPrinted(num: Word, width: nat, out: string)
    requires out == "0x" + HexText(num, width)
    ensures |out| >= 2 && out[..2] == "0x" && (num == 0 ==> out == "0x0") && (width <= 16 ==> |out| > 2)
    ensures num > 0 && width > 16 ==> out == "0x"
    ensures num > 0 && width <= 16 ==>
      var d := |out| - 2;
      if width > 0 && num >= Power(16, width) then d == width else Power(16, d - 1) <= num < Power(16, d)
    ensures forall k :: 0 <= k < |out| - 2 ==> out[|out| - 1 - k] == DigitChar(16, num, k)
    ensures Power(16, width) > 0
    ensures Value(16, out[2..]) == (if width == 0 then num else num % Power(16, width)) <==> num == 0 || width <= 16
  {
    HexExact(num, width);
    HexDigits(num, width);
    hide Numeral, DigitChar, Power, Value, Suffix;
    var text := HexText(num, width);
    assert out[2..] == text;
    hide HexText;
    forall k | 0 <= k < |out| - 2
      ensures out[|out| - 1 - k] == DigitChar(16, num, k)
    {
      assert out[|out| - 1 - k] == text[|text| - 1 - k];
    }
  }

  lemma HexDigits(num: Word, width: nat)
    ensures var text := HexText(num, width);
      && (width <= 16 ==> |text| > 0)
      && (num > 0 && width <= 16 ==>
            if width > 0 && num >= Power(16, width) then |text| == width
            else Power(16, |text| - 1) <= num < Power(16, |text|))
      && forall k :: 0 <= k < |text| ==> text[|text| - 1 - k] == DigitChar(16, num, k)
  {
    NumeralText(16, num);
    NumeralLength(16, num, width);
    hide Numeral, DigitChar, Power;
    if num > 0 && 0 < width <= 16 {
      SuffixChars(Numeral(16, num), width);
      hide Suffix;
    }
  }

  lemma SuffixChars(text: string, w: nat)
    ensures |Suffix(text, w)| == if |text| <= w then |text| else w
    ensures forall j :: 0 <= j < |Suffix(text, w)| ==> Suffix(text, w)[j] == text[|text| - |Suffix(text, w)| + j]
  {
  }
}
