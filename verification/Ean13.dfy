/**
 EAN-13 symbols: the check digit, the 95 modules, and reading them back
 (GS1 General Specifications, section 5.2 and section 7.9).
 */
module Ean13 {
  import opened Common
  import opened Modules

  type Code = seq<nat>

  predicate Digits(ds: Code) { forall i :: 0 <= i < |ds| ==> ds[i] <= 9 }

  // ---------- the check digit ----------

  function Weight(i: nat): nat { if i % 2 == 0 then 1 else 3 }

  function SumTo(ds: Code, n: nat): nat
    requires n <= |ds|
  {
    if n == 0 then 0 else SumTo(ds, n - 1) + ds[n - 1] * Weight(n - 1)
  }

  method CheckDigit(first12: Code) returns (r: nat)
    requires |first12| == 12
    ensures r <= 9 && (SumTo(first12, 12) + r) % 10 == 0
  {
    var sum := 0;
    for index := 0 to 12
      invariant sum == SumTo(first12, index)
    {
      sum := sum + first12[index] * (if index % 2 == 0 then 1 else 3);
    }
    r := (10 - sum % 10) % 10;
  }

  /** All thirteen digits together weigh a multiple of ten. */
  predicate Valid(code: Code) { |code| == 13 && Digits(code) && SumTo(code, 13) % 10 == 0 }

  /** The digits at odd places count once and those at even places three times. */
  lemma ValidExactly(c: Code)
    requires |c| == 13 && Digits(c)
    ensures Valid(c) <==>
      (c[0] + c[2] + c[4] + c[6] + c[8] + c[10] + c[12] + 3 * (c[1] + c[3] + c[5] + c[7] + c[9] + c[11])) % 10 == 0
  {
    hide Weight, SumTo;
    TwoMore(c, 0);
    TwoMore(c, 2);
    TwoMore(c, 4);
    TwoMore(c, 6);
    TwoMore(c, 8);
    TwoMore(c, 10);
    FirstAndLast(c);
  }

  lemma TwoMore(c: Code, n: nat)
    requires n + 2 <= |c| && n % 2 == 0
    ensures SumTo(c, n + 2) == SumTo(c, n) + c[n] + 3 * c[n + 1]
  {
    assert SumTo(c, n + 1) == SumTo(c, n) + c[n] * Weight(n);
  }

  lemma FirstAndLast(c: Code)
    requires |c| == 13
    ensures SumTo(c, 0) == 0 && SumTo(c, 13) == SumTo(c, 12) + c[12]
  {
  }

  lemma {:induction false} SumUpdate(ds: Code, i: nat, d: nat, n: nat)
    requires i < |ds| && n <= |ds|
    ensures SumTo(ds[i := d], n) == SumTo(ds, n) + (if i < n then (d - ds[i]) * Weight(i) else 0)
  {
    if n > 0 { SumUpdate(ds, i, d, n - 1); }
  }

  lemma SmallShift(sum: nat, e: int, i: nat)
    requires sum % 10 == 0 && -9 <= e <= 9 && e != 0
    ensures (sum + e * Weight(i)) % 10 != 0
  {
  }

  /** Any single wrong digit is noticed. */
  lemma SingleErrorIsFound(code: Code, i: nat, d: nat)
    requires Valid(code) && i < 13 && d <= 9 && d != code[i]
    ensures !Valid(code[i := d])
  {
    hide Weight, SumTo;
    SumUpdate(code, i, d, 13);
    SmallShift(SumTo(code, 13), d - code[i], i);
  }

  lemma SwapShift(sum: nat, a: nat, b: nat, i: nat)
    requires sum % 10 == 0 && a <= 9 && b <= 9
    ensures (sum + (b - a) * Weight(i) + (a - b) * Weight(i + 1)) % 10 == 0 <==> a == b || a == b + 5 || b == a + 5
  {
    var e := a - b;
    if i % 2 == 0 {
      assert (b - a) * Weight(i) + (a - b) * Weight(i + 1) == 2 * e;
      TwiceVanishes(sum, e);
    } else {
      assert (b - a) * Weight(i) + (a - b) * Weight(i + 1) == 2 * -e;
      TwiceVanishes(sum, -e);
    }
  }

  /** Twice a difference of digits is a multiple of ten only for nought and five. */
  lemma TwiceVanishes(sum: nat, e: int)
    requires sum % 10 == 0 && -9 <= e <= 9
    ensures (sum + 2 * e) % 10 == 0 <==> e == 0 || e == 5 || e == -5
  {
    var tens := sum / 10;
    assert sum == 10 * tens;
    if e == 5 || e == -5 {
      assert sum + 2 * e == 10 * (tens + e / 5);
    } else if (sum + 2 * e) % 10 == 0 {
      var k := (sum + 2 * e) / 10;
      assert 2 * e == 10 * (k - tens);
    }
  }

  /** Swapping neighbours is noticed unless they are equal or differ by five. */
  lemma SwapIsFound(code: Code, i: nat)
    requires Valid(code) && i < 12
    ensures var swapped := code[i := code[i + 1]][i + 1 := code[i]];
      Valid(swapped) <==> code[i] == code[i + 1] || code[i] == code[i + 1] + 5 || code[i + 1] == code[i] + 5
  {
    hide Weight, SumTo;
    var a, b := code[i], code[i + 1];
    var once := code[i := b];
    SumUpdate(code, i, b, 13);
    SumUpdate(once, i + 1, a, 13);
    SwapShift(SumTo(code, 13), a, b, i);
  }

  // ---------- the symbol ----------

  const L_CODES := [13, 25, 19, 61, 35, 49, 47, 59, 55, 11]

  const G_CODES := [39, 51, 27, 33, 29, 57, 5, 17, 9, 23]

  const R_CODES := [114, 102, 108, 66, 92, 78, 80, 68, 72, 116]

  /** Which of the left digits are set in G, as six binary digits. */
  const PARITY := [0, 11, 13, 14, 19, 25, 28, 21, 22, 26]

  function ParityOf(code: Code): (r: string)
    requires |code| == 13 && Digits(code)
    ensures |r| == 6
  {
    Bits(PARITY[code[0]], 6)
  }

  function LeftWord(code: Code, j: nat): (v: nat)
    requires |code| == 13 && Digits(code) && j < 6
    ensures v < 128
  {
    if ParityOf(code)[j] == '0' then L_CODES[code[j + 1]] else G_CODES[code[j + 1]]
  }

  function RightWord(code: Code, j: nat): (v: nat)
    requires |code| == 13 && Digits(code) && j < 6
    ensures v < 128
  {
    R_CODES[code[j + 7]]
  }

  function LeftBits(code: Code, n: nat): (r: string)
    requires |code| == 13 && Digits(code) && n <= 6
    ensures |r| == 7 * n
  {
    if n == 0 then "" else LeftBits(code, n - 1) + Bits(LeftWord(code, n - 1), 7)
  }

  function RightBits(code: Code, n: nat): (r: string)
    requires |code| == 13 && Digits(code) && n <= 6
    ensures |r| == 7 * n
  {
    if n == 0 then "" else RightBits(code, n - 1) + Bits(RightWord(code, n - 1), 7)
  }

  function Pattern(code: Code): (r: string)
    requires |code| == 13 && Digits(code)
    ensures |r| == 95
  {
    "101" + LeftBits(code, 6) + "01010" + RightBits(code, 6) + "101"
  }

  lemma WordStep(code: Code, n: nat)
    requires |code| == 13 && Digits(code) && n < 6
    ensures LeftBits(code, n + 1) == LeftBits(code, n) + Bits(LeftWord(code, n), 7)
    ensures RightBits(code, n + 1) == RightBits(code, n) + Bits(RightWord(code, n), 7)
    ensures LeftBits(code, 0) == "" == RightBits(code, 0)
  {
  }

  method DrawPattern(code: Code) returns (bits: string)
    requires |code| == 13 && Digits(code)
    ensures bits == Pattern(code)
  {
    hide Bits, LeftBits, RightBits;
    WordStep(code, 0);
    var parity := ParityOf(code);
    bits := "101";
    for index := 1 to 7
      invariant bits == "101" + LeftBits(code, index - 1)
    {
      WordStep(code, index - 1);
      var digit := code[index];
      bits := bits + Bits(if parity[index - 1] == '0' then L_CODES[digit] else G_CODES[digit], 7);
    }
    bits := bits + "01010";
    ghost var left := bits;
    assert bits + "" == bits;
    for index := 7 to 13
      invariant bits == left + RightBits(code, index - 7)
    {
      WordStep(code, index - 7);
      bits := bits + Bits(R_CODES[code[index]], 7);
    }
    bits := bits + "101";
  }

  // ---------- reading it back ----------

  /** A left word and the set it is from (true for G). */
  function LeftDigit(v: nat): Option<(bool, nat)> {
    match v
    case 13 => Some((false, 0)) case 25 => Some((false, 1)) case 19 => Some((false, 2))
    case 61 => Some((false, 3)) case 35 => Some((false, 4)) case 49 => Some((false, 5))
    case 47 => Some((false, 6)) case 59 => Some((false, 7)) case 55 => Some((false, 8))
    case 11 => Some((false, 9))
    case 39 => Some((true, 0)) case 51 => Some((true, 1)) case 27 => Some((true, 2))
    case 33 => Some((true, 3)) case 29 => Some((true, 4)) case 57 => Some((true, 5))
    case 5 => Some((true, 6)) case 17 => Some((true, 7)) case 9 => Some((true, 8))
    case 23 => Some((true, 9))
    case _ => None
  }

  function RightDigit(v: nat): Option<nat> {
    match v
    case 114 => Some(0) case 102 => Some(1) case 108 => Some(2) case 66 => Some(3) case 92 => Some(4)
    case 78 => Some(5) case 80 => Some(6) case 68 => Some(7) case 72 => Some(8) case 116 => Some(9)
    case _ => None
  }

  function FirstDigit(parity: nat): Option<nat> {
    match parity
    case 0 => Some(0) case 11 => Some(1) case 13 => Some(2) case 14 => Some(3) case 19 => Some(4)
    case 25 => Some(5) case 28 => Some(6) case 21 => Some(7) case 22 => Some(8) case 26 => Some(9)
    case _ => None
  }

  /** The j-th group of seven modules from an offset. */
  function Group(bits: string, offset: nat, j: nat): nat
    requires offset + 7 * j + 7 <= |bits|
  {
    Value(bits[offset + 7 * j..offset + 7 * j + 7])
  }

  function ReadParity(bits: string, n: nat): string
    requires |bits| == 95 && n <= 6 && forall j :: 0 <= j < n ==> LeftDigit(Group(bits, 3, j)).Some?
  {
    if n == 0 then "" else ReadParity(bits, n - 1) + [if LeftDigit(Group(bits, 3, n - 1)).value.0 then '1' else '0']
  }

  /** What a reader makes of 95 modules. */
  function Decode(bits: string): Option<Code> {
    if |bits| != 95 || bits[..3] != "101" || bits[45..50] != "01010" || bits[92..] != "101" then None
    else if !(forall j :: 0 <= j < 6 ==> LeftDigit(Group(bits, 3, j)).Some?) then None
    else if !(forall j :: 0 <= j < 6 ==> RightDigit(Group(bits, 50, j)).Some?) then None
    else
      var first := FirstDigit(Value(ReadParity(bits, 6)));
      if first.None? then None
      else Some([first.value]
                + seq(6, j requires 0 <= j < 6 => LeftDigit(Group(bits, 3, j)).value.1)
                + seq(6, j requires 0 <= j < 6 => RightDigit(Group(bits, 50, j)).value))
  }

  lemma WordsReadBack(d: nat)
    requires d <= 9
    ensures LeftDigit(L_CODES[d]) == Some((false, d)) && LeftDigit(G_CODES[d]) == Some((true, d))
    ensures RightDigit(R_CODES[d]) == Some(d) && FirstDigit(PARITY[d]) == Some(d) && PARITY[d] < 64
  {
  }

  lemma {:induction false} LeftBitsAt(code: Code, n: nat, j: nat)
    requires |code| == 13 && Digits(code) && j < n <= 6
    ensures LeftBits(code, n)[7 * j..7 * j + 7] == Bits(LeftWord(code, j), 7)
  {
    hide LeftWord, Bits;
    if j < n - 1 {
      LeftBitsAt(code, n - 1, j);
      assert LeftBits(code, n)[7 * j..7 * j + 7] == LeftBits(code, n - 1)[7 * j..7 * j + 7];
    }
  }

  lemma {:induction false} RightBitsAt(code: Code, n: nat, j: nat)
    requires |code| == 13 && Digits(code) && j < n <= 6
    ensures RightBits(code, n)[7 * j..7 * j + 7] == Bits(RightWord(code, j), 7)
  {
    hide RightWord, Bits;
    if j < n - 1 {
      RightBitsAt(code, n - 1, j);
      assert RightBits(code, n)[7 * j..7 * j + 7] == RightBits(code, n - 1)[7 * j..7 * j + 7];
    }
  }

  lemma LeftGroup(code: Code, j: nat)
    requires |code| == 13 && Digits(code) && j < 6
    ensures Group(Pattern(code), 3, j) == LeftWord(code, j)
  {
    hide LeftWord, LeftBits, RightBits, Bits;
    LeftBitsAt(code, 6, j);
    assert Pattern(code)[3 + 7 * j..3 + 7 * j + 7] == LeftBits(code, 6)[7 * j..7 * j + 7];
    Pow2Of7And11();
    ValueOfBits(LeftWord(code, j), 7);
  }

  lemma RightGroup(code: Code, j: nat)
    requires |code| == 13 && Digits(code) && j < 6
    ensures Group(Pattern(code), 50, j) == RightWord(code, j)
  {
    hide RightWord, LeftBits, RightBits, Bits;
    RightBitsAt(code, 6, j);
    assert Pattern(code)[50 + 7 * j..50 + 7 * j + 7] == RightBits(code, 6)[7 * j..7 * j + 7];
    Pow2Of7And11();
    ValueOfBits(RightWord(code, j), 7);
  }

  lemma GroupsRead(code: Code, j: nat)
    requires |code| == 13 && Digits(code) && j < 6
    ensures LeftDigit(Group(Pattern(code), 3, j)) == Some((ParityOf(code)[j] != '0', code[j + 1]))
    ensures RightDigit(Group(Pattern(code), 50, j)) == Some(code[j + 7])
  {
    hide Pattern, Group, LeftDigit, RightDigit, ParityOf;
    LeftGroup(code, j);
    RightGroup(code, j);
    WordsReadBack(code[j + 1]);
    WordsReadBack(code[j + 7]);
  }

  lemma {:induction false} BinaryDigits(v: nat, n: nat, j: nat)
    requires j < n
    ensures Bits(v, n)[j] == '0' || Bits(v, n)[j] == '1'
  {
    if j < n - 1 { BinaryDigits(v / 2, n - 1, j); }
  }

  lemma ParityIsBinary(code: Code, j: nat)
    requires |code| == 13 && Digits(code) && j < 6
    ensures ParityOf(code)[j] == '0' || ParityOf(code)[j] == '1'
  {
    BinaryDigits(PARITY[code[0]], 6, j);
  }

  lemma {:induction false} ParityReads(code: Code, n: nat)
    requires |code| == 13 && Digits(code) && n <= 6
    requires forall j :: 0 <= j < 6 ==> LeftDigit(Group(Pattern(code), 3, j)).Some?
    ensures ReadParity(Pattern(code), n) == ParityOf(code)[..n]
  {
    hide Pattern, Group, LeftDigit, RightDigit, ParityOf, Digits;
    if n > 0 {
      ParityReads(code, n - 1);
      GroupsRead(code, n - 1);
      ParityIsBinary(code, n - 1);
    }
  }

  lemma FirstDigitReads(code: Code)
    requires |code| == 13 && Digits(code)
    ensures FirstDigit(Value(ParityOf(code))) == Some(code[0])
  {
    hide Bits;
    WordsReadBack(code[0]);
    Pow2Of6();
    ValueOfBits(PARITY[code[0]], 6);
  }

  /** Every thirteen digits are read back from their 95 modules, so different codes look different. */
  lemma DecodesToItself(code: Code)
    requires |code| == 13 && Digits(code)
    ensures Decode(Pattern(code)) == Some(code)
  {
    hide Pattern, Group, LeftDigit, RightDigit, FirstDigit, ParityOf, Digits, ReadParity;
    var bits := Pattern(code);
    PatternFrame(code);
    forall j | 0 <= j < 6
      ensures LeftDigit(Group(bits, 3, j)) == Some((ParityOf(code)[j] != '0', code[j + 1]))
      ensures RightDigit(Group(bits, 50, j)) == Some(code[j + 7])
    {
      GroupsRead(code, j);
    }
    ParityReads(code, 6);
    FirstDigitReads(code);
    assert ParityOf(code)[..6] == ParityOf(code);
    assert Decode(bits).value == code;
  }

  lemma Pow2Of6()
    ensures Pow2(6) == 64
  {
    assert Pow2(2) == 4 && Pow2(4) == 4 * Pow2(2) && Pow2(6) == 4 * Pow2(4);
  }

  lemma PatternFrame(code: Code)
    requires |code| == 13 && Digits(code)
    ensures var p := Pattern(code); p[..3] == "101" && p[45..50] == "01010" && p[92..] == "101"
  {
    hide LeftBits, RightBits;
  }
}
