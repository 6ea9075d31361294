/**
  CRC-32 as `include/mif/common/crc32.h` computes it: a generated table, a compile-time
  recursion over `char`, and a run-time loop over unsigned bytes. The reference is the shift
  register of section 8 of RFC 1952 fed one message bit at a time.

  Machine words are sequences of bits, least significant first: `x[0]` is `x & 1`, dropping k
  bits and appending zeros is `x >> k`.
*/
module Crc32 {

  type Word = w: seq<bool> | |w| == 32 witness seq(32, _ => false)
  type Byte = b: seq<bool> | |b| == 8 witness seq(8, _ => false)

  function Zeros(n: nat): seq<bool> {
    seq(n, _ => false)
  }

  function Xor(a: Word, b: Word): Word {
    seq(32, i requires 0 <= i < 32 => a[i] != b[i])
  }

  function ShiftRight(a: Word, k: nat): Word
    requires k <= 32
  {
    a[k..] + Zeros(k)
  }

  /** The k lowest bits of a number. */
  function Bin(n: nat, k: nat): (w: seq<bool>)
    ensures |w| == k
  {
    if k == 0 then [] else [n % 2 == 1] + Bin(n / 2, k - 1)
  }

  /** The number with the given bits. */
  function Num(w: seq<bool>): nat {
    if w == [] then 0 else (if w[0] then 1 else 0) + 2 * Num(w[1..])
  }

  function Pow2(k: nat): (r: nat)
    ensures r > 0
  {
    if k == 0 then 1 else 2 * Pow2(k - 1)
  }

  predicate BitOf(n: nat, i: nat)
    decreases i
  {
    if i == 0 then n % 2 == 1 else BitOf(n / 2, i - 1)
  }

  /** The bits of the reversed polynomial 0xedb88320. */
  function Poly(): Word {
    seq(32, i requires 0 <= i < 32 => BitOf(0xedb88320, i))
  }

  function Ones(): Word {
    seq(32, _ => true)
  }

  // ---------------------------------------------------------------- reference: one bit at a time

  /** One shift of the register. */
  function Shift(c: Word): Word {
    if c[0] then Xor(Poly(), ShiftRight(c, 1)) else ShiftRight(c, 1)
  }

  /** A bit string, at most 32 bits long, at the low end of a word. */
  function Low(bits: seq<bool>): Word
    requires |bits| <= 32
  {
    bits + Zeros(32 - |bits|)
  }

  /** Feed the message bits, each into the low end of the register. */
  function FeedBits(c: Word, bits: seq<bool>): Word
    decreases |bits|
  {
    if bits == [] then c else FeedBits(Shift(Xor(c, Low(bits[..1]))), bits[1..])
  }

  function AllBits(s: seq<Byte>): seq<bool> {
    if s == [] then [] else s[0] + AllBits(s[1..])
  }

  function ReferenceCrc(s: seq<Byte>): Word {
    Xor(FeedBits(Ones(), AllBits(s)), Ones())
  }

  // ---------------------------------------------------------------- the code

  /** `CalcCrc32K`: 8 - k more shifts. */
  function CalcCrc32K(c: Word, k: nat := 0): Word
    requires k <= 8
    decreases 8 - k
  {
    if k < 8 then CalcCrc32K(if c[0] then Xor(Poly(), ShiftRight(c, 1)) else ShiftRight(c, 1), k + 1) else c
  }

  /** `CalcCrc32Table`: append entries until there are 256. */
  function CalcTable(n: nat, t: seq<Word>): (table: seq<Word>)
    requires |t| <= 256
    ensures |table| == 256
    decreases 256 - |t|
  {
    if |t| == 256 then t else CalcTable(n + 1, t + [CalcCrc32K(Bin(n, 32))])
  }

  function Table(): seq<Word> {
    CalcTable(0, [])
  }

  /** `Table.m_data[w & 0xFF]`. */
  function Entry(w: Word): Word {
    NumBound(w[..8]);
    Table()[Num(w[..8])]
  }

  /** A `char`, signed on the platform, converted to an unsigned 32-bit operand. */
  function SignExtended(b: Byte): Word {
    b + seq(24, _ => b[7])
  }

  /** The compile-time `Crc32<I>(str, crc)`; I counts the remaining characters. */
  function CompileTime(str: seq<Byte>, crc: Word): Word
    decreases |str|
  {
    if str == [] then Xor(crc, Ones())
    else CompileTime(str[1..], Xor(ShiftRight(crc, 8), Entry(Xor(crc, SignExtended(str[0])))))
  }

  /** `Crc32("...")`: the literal without its terminating NUL. */
  function LiteralCrc(str: seq<Byte>): Word {
    CompileTime(str, Ones())
  }

  /** The run-time loop over unsigned bytes computes the reference CRC. */
  method RunTime(data: seq<Byte>) returns (crc: Word)
    ensures crc == ReferenceCrc(data)
  {
    crc := Xor(Zeros(32), Ones());
    assert crc == Ones();
    var i := 0;
    assert data[i..] == data;
    while i < |data|
      invariant 0 <= i <= |data|
      invariant FeedBits(crc, AllBits(data[i..])) == FeedBits(Ones(), AllBits(data))
    {
      UpdateIsEightBits(crc, data[i], AllBits(data[i + 1..]));
      assert data[i..][1..] == data[i + 1..];
      crc := Xor(Entry(Xor(crc, Low(data[i]))), ShiftRight(crc, 8));
      i := i + 1;
    }
    crc := Xor(crc, Ones());
  }

  // ---------------------------------------------------------------- shifts are linear and invertible

  lemma XorSwap(a: Word, b: Word)
    ensures Xor(a, b) == Xor(b, a)
  {
  }

  lemma ShiftLinear(a: Word, b: Word)
    ensures Shift(Xor(a, b)) == Xor(Shift(a), Shift(b))
  {
  }

  function Shifts(c: Word, k: nat): Word
    decreases k
  {
    if k == 0 then c else Shifts(Shift(c), k - 1)
  }

  lemma {:induction false} ShiftsLinear(a: Word, b: Word, k: nat)
    ensures Shifts(Xor(a, b), k) == Xor(Shifts(a, k), Shifts(b, k))
    decreases k
  {
    if k > 0 {
      ShiftLinear(a, b);
      ShiftsLinear(Shift(a), Shift(b), k - 1);
    }
  }

  /** The top bit of the polynomial shows which branch a shift took, so no two words collide. */
  lemma ShiftInjective(a: Word, b: Word)
    requires Shift(a) == Shift(b)
    ensures a == b
  {
    PolyTopBit();
    ShiftBits(a, 31);
    ShiftBits(b, 31);
    forall i | 0 < i < 32 ensures a[i] == b[i] {
      ShiftBits(a, i - 1);
      ShiftBits(b, i - 1);
    }
    assert a == b;
  }

  lemma ShiftBits(c: Word, i: nat)
    requires i < 32
    ensures Shift(c)[i] == ((c[0] && Poly()[i]) != (i < 31 && c[i + 1]))
  {
  }

  lemma PolyTopBit()
    ensures Poly()[31]
  {
    PolyExponents(31);
  }

  lemma {:induction false} ShiftsInjective(a: Word, b: Word, k: nat)
    requires Shifts(a, k) == Shifts(b, k)
    ensures a == b
    decreases k
  {
    if k > 0 {
      ShiftsInjective(Shift(a), Shift(b), k - 1);
      ShiftInjective(a, b);
    }
  }

  // ---------------------------------------------------------------- feeding bits

  lemma ShiftAgain(c: Word, k: nat)
    requires 0 < k <= 32
    ensures ShiftRight(ShiftRight(c, 1), k - 1) == ShiftRight(c, k)
  {
    assert ShiftRight(c, 1)[k - 1..] == c[k..] + Zeros(1);
    assert Zeros(1) + Zeros(k - 1) == Zeros(k);
  }

  /** Shifting out bits that are not set is shifting right. */
  lemma {:induction false} ShiftsClear(c: Word, k: nat)
    requires k <= 32 && forall i :: 0 <= i < k ==> !c[i]
    ensures Shifts(c, k) == ShiftRight(c, k)
    decreases k
  {
    if k == 0 {
      assert ShiftRight(c, 0) == c;
    } else {
      ShiftsClear(ShiftRight(c, 1), k - 1);
      ShiftAgain(c, k);
    }
  }

  lemma ShiftsOfHigh(c: Word, k: nat)
    requires k <= 32 && c[..k] == Zeros(k)
    ensures Shifts(c, k) == ShiftRight(c, k)
  {
    forall i | 0 <= i < k ensures !c[i] {
      assert c[..k][i] == c[i];
    }
    ShiftsClear(c, k);
  }

  /** Feeding up to 32 bits is xoring them in at once and shifting as often. */
  lemma {:induction false} FeedIsShifts(c: Word, bits: seq<bool>)
    requires |bits| <= 32
    ensures FeedBits(c, bits) == Shifts(Xor(c, Low(bits)), |bits|)
    decreases |bits|
  {
    if bits == [] {
      assert Xor(c, Low(bits)) == c;
    } else {
      var first, rest := Xor(c, Low(bits[..1])), bits[1..];
      var high: Word := [false] + rest + Zeros(32 - |bits|);
      assert Xor(c, Low(bits)) == Xor(first, high);
      ShiftLinear(first, high);
      assert Shift(high) == ShiftRight(high, 1) == Low(rest);
      FeedIsShifts(Shift(first), rest);
    }
  }

  lemma {:induction false} FeedConcat(c: Word, a: seq<bool>, b: seq<bool>)
    ensures FeedBits(c, a + b) == FeedBits(FeedBits(c, a), b)
    decreases |a|
  {
    if a == [] {
      assert a + b == b;
    } else {
      assert (a + b)[..1] == a[..1] && (a + b)[1..] == a[1..] + b;
      FeedConcat(Shift(Xor(c, Low(a[..1]))), a[1..], b);
    }
  }

  lemma {:induction false} AllBitsConcat(s: seq<Byte>, t: seq<Byte>)
    ensures AllBits(s + t) == AllBits(s) + AllBits(t)
  {
    if s == [] {
      assert s + t == t;
    } else {
      assert (s + t)[1..] == s[1..] + t;
      AllBitsConcat(s[1..], t);
    }
  }

  // ---------------------------------------------------------------- the table

  lemma {:induction false} NumBound(w: seq<bool>)
    ensures Num(w) < Pow2(|w|)
    ensures |w| == 8 ==> Num(w) < 256
  {
    if w != [] {
      NumBound(w[1..]);
    }
    if |w| == 8 {
      assert Pow2(8) == 256;
    }
  }

  lemma {:induction false} BinOfNum(w: seq<bool>, k: nat)
    requires |w| <= k
    ensures Bin(Num(w), k) == w + Zeros(k - |w|)
    decreases k
  {
    if k > 0 {
      if w == [] {
        BinOfNum(w, k - 1);
        assert Bin(0, k) == [false] + Bin(0, k - 1);
      } else {
        BinOfNum(w[1..], k - 1);
        assert Num(w) % 2 == (if w[0] then 1 else 0) && Num(w) / 2 == Num(w[1..]);
        assert w == [w[0]] + w[1..];
      }
    }
  }

  lemma {:induction false} CalcTableEntry(n: nat, t: seq<Word>, i: nat)
    requires |t| == n <= 256 && i < 256
    requires i < n ==> t[i] == CalcCrc32K(Bin(i, 32))
    ensures CalcTable(n, t)[i] == CalcCrc32K(Bin(i, 32))
    decreases 256 - n
  {
    if n < 256 {
      var more := t + [CalcCrc32K(Bin(n, 32))];
      assert i < n ==> more[i] == t[i];
      assert more[n] == CalcCrc32K(Bin(n, 32));
      CalcTableEntry(n + 1, more, i);
    }
  }

  lemma {:induction false} CalcIsShifts(c: Word, k: nat)
    requires k <= 8
    ensures CalcCrc32K(c, k) == Shifts(c, 8 - k)
    decreases 8 - k
  {
    if k < 8 {
      CalcIsShifts(Shift(c), k + 1);
    }
  }

  /** The entry selected by the low byte of w is that byte, shifted eight times. */
  lemma EntryIsEightShifts(w: Word)
    ensures Entry(w) == Shifts(Low(w[..8]), 8)
  {
    NumBound(w[..8]);
    CalcTableEntry(0, [], Num(w[..8]));
    BinOfNum(w[..8], 32);
    CalcIsShifts(Low(w[..8]), 0);
  }

  /** One table look-up does the work of eight shifts. */
  lemma TableStep(x: Word)
    ensures Xor(Entry(x), ShiftRight(x, 8)) == Shifts(x, 8)
  {
    var lo: Word, hi: Word := Low(x[..8]), Zeros(8) + x[8..];
    assert x == Xor(lo, hi);
    ShiftsLinear(lo, hi, 8);
    assert hi[..8] == Zeros(8) && hi[8..] == x[8..];
    ShiftsOfHigh(hi, 8);
    EntryIsEightShifts(x);
  }

  lemma UpdateIsEightBits(crc: Word, b: Byte, rest: seq<bool>)
    ensures FeedBits(crc, b + rest) == FeedBits(Xor(Entry(Xor(crc, Low(b))), ShiftRight(crc, 8)), rest)
  {
    FeedConcat(crc, b, rest);
    FeedIsShifts(crc, b);
    TableStep(Xor(crc, Low(b)));
    HighUntouched(crc, Low(b), Low(b));
  }

  /** The high 24 bits after xoring in a byte, and the low 8 whether or not it was sign-extended. */
  lemma HighUntouched(crc: Word, b: Word, c: Word)
    requires b[..8] == c[..8] && b[8..] == Zeros(24)
    ensures ShiftRight(Xor(crc, b), 8) == ShiftRight(crc, 8)
    ensures Xor(crc, b)[..8] == Xor(crc, c)[..8]
  {
    var x := Xor(crc, b);
    forall i | 8 <= i < 32 ensures x[i] == crc[i] {
      assert b[8..][i - 8] == b[i];
    }
    assert x[8..] == crc[8..];
    forall i | 0 <= i < 8 ensures b[i] == c[i] {
      assert b[..8][i] == c[..8][i];
    }
  }

  // ---------------------------------------------------------------- results

  /** The compile-time recursion over signed characters computes the reference CRC. */
  lemma {:induction false} CompileTimeIsReference(str: seq<Byte>, crc: Word)
    ensures CompileTime(str, crc) == Xor(FeedBits(crc, AllBits(str)), Ones())
    decreases |str|
  {
    if str != [] {
      var b := str[0];
      HighUntouched(crc, Low(b), SignExtended(b));
      assert Entry(Xor(crc, SignExtended(b))) == Entry(Xor(crc, Low(b)));
      XorSwap(ShiftRight(crc, 8), Entry(Xor(crc, Low(b))));
      UpdateIsEightBits(crc, b, AllBits(str[1..]));
      CompileTimeIsReference(str[1..], Xor(Entry(Xor(crc, Low(b))), ShiftRight(crc, 8)));
    }
  }

  /** A service id written as a literal equals the id computed from the same string at run time. */
  lemma ServiceIdsAgree(name: seq<Byte>)
    ensures LiteralCrc(name) == ReferenceCrc(name)
  {
    CompileTimeIsReference(name, Ones());
  }

  /**
    Every error burst of at most 32 consecutive bits is detected: two messages that agree
    outside such a window and differ inside it have different CRCs.
  */
  lemma BurstsAreDetected(c: Word, before: seq<bool>, x: seq<bool>, y: seq<bool>, after: seq<bool>)
    requires |x| == |y| <= 32 && x != y
    ensures FeedBits(c, before + x + after) != FeedBits(c, before + y + after)
  {
    if FeedBits(c, before + x + after) == FeedBits(c, before + y + after) {
      WindowDetermined(c, before, x, y, after);
    }
  }

  lemma WindowDetermined(c: Word, before: seq<bool>, x: seq<bool>, y: seq<bool>, after: seq<bool>)
    requires |x| == |y| <= 32 && FeedBits(c, before + x + after) == FeedBits(c, before + y + after)
    ensures x == y
  {
    var start := FeedBits(c, before);
    FeedThree(c, before, x, after);
    FeedThree(c, before, y, after);
    FeedInjective(FeedBits(start, x), FeedBits(start, y), after);
    FeedIsShifts(start, x);
    FeedIsShifts(start, y);
    ShiftsInjective(Xor(start, Low(x)), Xor(start, Low(y)), |x|);
    XorCancels(start, Low(x), Low(y));
    assert x == Low(x)[..|x|] == Low(y)[..|y|] == y;
  }

  lemma FeedThree(c: Word, a: seq<bool>, x: seq<bool>, b: seq<bool>)
    ensures FeedBits(c, a + x + b) == FeedBits(FeedBits(FeedBits(c, a), x), b)
  {
    FeedConcat(c, a + x, b);
    FeedConcat(c, a, x);
  }

  lemma XorCancels(c: Word, x: Word, y: Word)
    requires Xor(c, x) == Xor(c, y)
    ensures x == y
  {
    forall i | 0 <= i < 32 ensures x[i] == y[i] {
      assert Xor(c, x)[i] == (c[i] != x[i]) && Xor(c, y)[i] == (c[i] != y[i]);
    }
  }

  lemma {:induction false} FeedInjective(c: Word, d: Word, bits: seq<bool>)
    requires FeedBits(c, bits) == FeedBits(d, bits)
    ensures c == d
    decreases |bits|
  {
    if bits != [] {
      var b := Low(bits[..1]);
      FeedInjective(Shift(Xor(c, b)), Shift(Xor(d, b)), bits[1..]);
      ShiftInjective(Xor(c, b), Xor(d, b));
      XorSwap(c, b);
      XorSwap(d, b);
      XorCancels(b, c, d);
    }
  }

  /** Strings of equal length that differ only inside four consecutive bytes have different CRC-32 values. */
  lemma FourByteWindowDetected(before: seq<Byte>, x: seq<Byte>, y: seq<Byte>, after: seq<Byte>)
    requires |x| == |y| <= 4 && x != y
    ensures ReferenceCrc(before + x + after) != ReferenceCrc(before + y + after)
  {
    AllBitsThree(before, x, after);
    AllBitsThree(before, y, after);
    AllBitsInjective(x, y);
    BurstsAreDetected(Ones(), AllBits(before), AllBits(x), AllBits(y), AllBits(after));
    var p, q := FeedBits(Ones(), AllBits(before + x + after)), FeedBits(Ones(), AllBits(before + y + after));
    if Xor(p, Ones()) == Xor(q, Ones()) {
      XorSwap(p, Ones());
      XorSwap(q, Ones());
      XorCancels(Ones(), p, q);
    }
  }

  lemma AllBitsThree(a: seq<Byte>, x: seq<Byte>, b: seq<Byte>)
    ensures AllBits(a + x + b) == AllBits(a) + AllBits(x) + AllBits(b)
  {
    AllBitsConcat(a + x, b);
    AllBitsConcat(a, x);
  }

  lemma {:induction false} AllBitsInjective(x: seq<Byte>, y: seq<Byte>)
    requires |x| == |y|
    ensures |AllBits(x)| == |AllBits(y)| == 8 * |x|
    ensures AllBits(x) == AllBits(y) ==> x == y
  {
    if x != [] {
      AllBitsInjective(x[1..], y[1..]);
      if AllBits(x) == AllBits(y) {
        assert x[0] == AllBits(x)[..8] == AllBits(y)[..8] == y[0];
        assert AllBits(x[1..]) == AllBits(x)[8..] == AllBits(y)[8..] == AllBits(y[1..]);
        assert x == [x[0]] + x[1..] && y == [y[0]] + y[1..];
      }
    }
  }

  // ---------------------------------------------------------------- the polynomial and a known value

  /** The exponents of the CRC-32 polynomial below 32; the coefficient of x^31 is lowest. */
  predicate Exponent(e: int) {
    e in {0, 1, 2, 4, 5, 7, 8, 10, 11, 12, 16, 22, 23, 26}
  }

  lemma NextByte(n: nat, i: nat)
    requires i >= 8
    ensures BitOf(n, i) == BitOf(n / 0x100, i - 8)
  {
    var a, b := n / 2 / 2, n / 0x10;
    assert BitOf(n, i) == BitOf(a, i - 2) == BitOf(b, i - 4) == BitOf(b / 2 / 2, i - 6) == BitOf(n / 0x100, i - 8);
  }

  /** The constant of the source is x^32 + x^26 + x^23 + x^22 + x^16 + x^12 + x^11 + x^10 + x^8 + x^7 + x^5 + x^4 + x^2 + x + 1. */
  lemma PolyExponents(i: nat)
    requires i < 32
    ensures Poly()[i] <==> Exponent(31 - i)
  {
    if i < 8 {
      assert !BitOf(0xedb88320, 0) && !BitOf(0xedb88320, 1) && !BitOf(0xedb88320, 2) && !BitOf(0xedb88320, 3) && !BitOf(0xedb88320, 4) && BitOf(0xedb88320, 5) && !BitOf(0xedb88320, 6) && !BitOf(0xedb88320, 7);
    } else if i < 16 {
      NextByte(0xedb88320, i);
      assert BitOf(0xedb883, 0) && BitOf(0xedb883, 1) && !BitOf(0xedb883, 2) && !BitOf(0xedb883, 3) && !BitOf(0xedb883, 4) && !BitOf(0xedb883, 5) && !BitOf(0xedb883, 6) && BitOf(0xedb883, 7);
    } else if i < 24 {
      NextByte(0xedb88320, i);
      NextByte(0xedb883, i - 8);
      assert !BitOf(0xedb8, 0) && !BitOf(0xedb8, 1) && !BitOf(0xedb8, 2) && BitOf(0xedb8, 3) && BitOf(0xedb8, 4) && BitOf(0xedb8, 5) && !BitOf(0xedb8, 6) && BitOf(0xedb8, 7);
    } else {
      NextByte(0xedb88320, i);
      NextByte(0xedb883, i - 8);
      NextByte(0xedb8, i - 16);
      assert BitOf(0xed, 0) && !BitOf(0xed, 1) && BitOf(0xed, 2) && BitOf(0xed, 3) && !BitOf(0xed, 4) && BitOf(0xed, 5) && BitOf(0xed, 6) && BitOf(0xed, 7);
    }
  }

  /** A word as the four bytes that it is sent as, the lowest first. */
  function Split(w: Word): seq<Byte> {
    [w[..8], w[8..16], w[16..24], w[24..]]
  }

  lemma SplitBits(w: Word)
    ensures AllBits(Split(w)) == w
  {
    var s := Split(w);
    assert AllBits(s[4..]) == [];
    assert AllBits(s[3..]) == s[3] + AllBits(s[4..]);
    assert AllBits(s[2..]) == s[2] + AllBits(s[3..]);
    assert AllBits(s[1..]) == s[1] + AllBits(s[2..]);
    assert AllBits(s) == s[0] + AllBits(s[1..]);
  }

  lemma FeedWord(c: Word, w: Word)
    ensures FeedBits(c, AllBits(Split(w))) == Shifts(Xor(c, w), 32)
  {
    SplitBits(w);
    FeedIsShifts(c, w);
    assert Low(w) == w;
  }

  /** A message followed by its own CRC has the same CRC, whatever the message is. */
  lemma ResidueIsConstant(s: seq<Byte>)
    ensures ReferenceCrc(s + Split(ReferenceCrc(s))) == Xor(Shifts(Ones(), 32), Ones())
  {
    var c := FeedBits(Ones(), AllBits(s));
    AllBitsConcat(s, Split(ReferenceCrc(s)));
    FeedConcat(Ones(), AllBits(s), AllBits(Split(ReferenceCrc(s))));
    FeedWord(c, ReferenceCrc(s));
    assert Xor(c, Xor(c, Ones())) == Ones();
  }

  lemma OnesToZeros()
    ensures FeedBits(Ones(), AllBits(Split(Ones()))) == Zeros(32)
  {
    FeedWord(Ones(), Ones());
    assert Xor(Ones(), Ones()) == Zeros(32);
    ShiftsClear(Zeros(32), 32);
    assert ShiftRight(Zeros(32), 32) == Zeros(32);
  }

  /** The register starts with ones and is inverted at the end: nothing gives 0, and four bytes 0xff give 0xffffffff. */
  lemma KnownValues()
    ensures ReferenceCrc([]) == Zeros(32) && ReferenceCrc(Split(Ones())) == Ones()
  {
    OnesToZeros();
    assert Xor(Ones(), Ones()) == Zeros(32);
    assert Xor(Zeros(32), Ones()) == Ones();
  }
}
