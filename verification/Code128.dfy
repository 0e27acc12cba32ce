/**
 Code 128 symbols in code set B: the patterns, the check value modulo 103, and reading them back
 (ISO/IEC 15417, Annex A).
 */
module Code128 {
  import opened Common
  import opened Modules

  /** A text as UTF-16 code units. */
  type Text = seq<nat>

  /** The pattern of a value, as eleven binary digits. */
  function Word(v: nat): nat
    requires v < 107
  {
    match v
    case 0 => 1740 case 1 => 1644 case 2 => 1638 case 3 => 1176 case 4 => 1164 case 5 => 1100 case 6 => 1224
    case 7 => 1220 case 8 => 1124 case 9 => 1608 case 10 => 1604 case 11 => 1572 case 12 => 1436
    case 13 => 1244 case 14 => 1230 case 15 => 1484 case 16 => 1260 case 17 => 1254 case 18 => 1650
    case 19 => 1628 case 20 => 1614 case 21 => 1764 case 22 => 1652 case 23 => 1902 case 24 => 1868
    case 25 => 1836 case 26 => 1830 case 27 => 1892 case 28 => 1844 case 29 => 1842 case 30 => 1752
    case 31 => 1734 case 32 => 1590 case 33 => 1304 case 34 => 1112 case 35 => 1094 case 36 => 1416
    case 37 => 1128 case 38 => 1122 case 39 => 1672 case 40 => 1576 case 41 => 1570 case 42 => 1464
    case 43 => 1422 case 44 => 1134 case 45 => 1496 case 46 => 1478 case 47 => 1142 case 48 => 1910
    case 49 => 1678 case 50 => 1582 case 51 => 1768 case 52 => 1762 case 53 => 1774 case 54 => 1880
    case 55 => 1862 case 56 => 1814 case 57 => 1896 case 58 => 1890 case 59 => 1818 case 60 => 1914
    case 61 => 1602 case 62 => 1930 case 63 => 1328 case 64 => 1292 case 65 => 1200 case 66 => 1158
    case 67 => 1068 case 68 => 1062 case 69 => 1424 case 70 => 1412 case 71 => 1232 case 72 => 1218
    case 73 => 1076 case 74 => 1074 case 75 => 1554 case 76 => 1616 case 77 => 1978 case 78 => 1556
    case 79 => 1146 case 80 => 1340 case 81 => 1212 case 82 => 1182 case 83 => 1508 case 84 => 1268
    case 85 => 1266 case 86 => 1956 case 87 => 1940 case 88 => 1938 case 89 => 1758 case 90 => 1782
    case 91 => 1974 case 92 => 1400 case 93 => 1310 case 94 => 1118 case 95 => 1512 case 96 => 1506
    case 97 => 1960 case 98 => 1954 case 99 => 1502 case 100 => 1518 case 101 => 1886 case 102 => 1966
    case 103 => 1668 case 104 => 1680 case 105 => 1692
    case _ => 1594
  }

  const START_B := 104

  const STOP := "1100011101011"

  /** Code set B prints the characters 32 to 126; the rest is left out of the symbol. */
  predicate Printable(unit: nat) { 32 <= unit <= 126 }

  /** The values drawn for the first n characters. */
  function Values(text: Text, n: nat): (r: seq<nat>)
    requires n <= |text|
    ensures |r| <= n && forall i :: 0 <= i < |r| ==> r[i] <= 94
  {
    if n == 0 then []
    else if Printable(text[n - 1]) then Values(text, n - 1) + [text[n - 1] - 32]
    else Values(text, n - 1)
  }

  /** The drawn sum: a character weighs its place in the text, drawn or not. */
  function DrawnSum(text: Text, n: nat): nat
    requires n <= |text|
  {
    if n == 0 then START_B
    else DrawnSum(text, n - 1) + (if Printable(text[n - 1]) then (text[n - 1] - 32) * n else 0)
  }

  function PatternBits(v: nat): (r: string)
    requires v < 107
    ensures |r| == 11
  {
    Bits(Word(v), 11)
  }

  function SymbolBits(values: seq<nat>): (r: string)
    requires forall i :: 0 <= i < |values| ==> values[i] < 107
    ensures |r| == 11 * |values|
  {
    if values == [] then "" else SymbolBits(values[..|values| - 1]) + PatternBits(values[|values| - 1])
  }

  /** Start, one value per printable character, and the check value. */
  function Symbol(text: Text): (r: seq<nat>)
    ensures |r| >= 2 && forall i :: 0 <= i < |r| ==> r[i] < 107
  {
    [START_B] + Values(text, |text|) + [DrawnSum(text, |text|) % 103]
  }

  function Pattern(text: Text): string { SymbolBits(Symbol(text)) + STOP }

  lemma SymbolBitsAppend(values: seq<nat>, v: nat)
    requires (forall i :: 0 <= i < |values| ==> values[i] < 107) && v < 107
    ensures SymbolBits(values + [v]) == SymbolBits(values) + PatternBits(v)
  {
    assert (values + [v])[..|values|] == values;
  }

  method DrawPattern(text: Text) returns (bits: string)
    ensures bits == Pattern(text)
  {
    hide PatternBits, SymbolBits, DrawnSum, Values;
    var checksum := START_B;
    bits := PatternBits(START_B);
    NothingDrawn(text);
    for index := 0 to |text|
      invariant bits == SymbolBits([START_B] + Values(text, index))
      invariant checksum == DrawnSum(text, index)
    {
      OneMoreCharacter(text, index);
      var value := text[index] as int - 32;
      if value < 0 || value > 94 { continue; }
      SymbolBitsAppend([START_B] + Values(text, index), value);
      assert [START_B] + Values(text, index) + [value] == [START_B] + (Values(text, index) + [value]);
      bits := bits + PatternBits(value);
      checksum := checksum + value * (index + 1);
    }
    SymbolBitsAppend([START_B] + Values(text, |text|), checksum % 103);
    bits := bits + PatternBits(checksum % 103);
    bits := bits + STOP;
  }

  lemma NothingDrawn(text: Text)
    ensures SymbolBits([START_B] + Values(text, 0)) == PatternBits(START_B) && DrawnSum(text, 0) == START_B
  {
    SymbolBitsAppend([], START_B);
    assert [START_B] + Values(text, 0) == [] + [START_B];
  }

  lemma OneMoreCharacter(text: Text, i: nat)
    requires i < |text|
    ensures Values(text, i + 1) == if Printable(text[i]) then Values(text, i) + [text[i] - 32] else Values(text, i)
    ensures DrawnSum(text, i + 1) == DrawnSum(text, i) + (if Printable(text[i]) then (text[i] - 32) * (i + 1) else 0)
  {
  }

  // ---------- the check value ----------

  /** The sum a reader forms: a value weighs its place in the symbol. */
  function ReadSum(values: seq<nat>): nat {
    if values == [] then START_B else ReadSum(values[..|values| - 1]) + values[|values| - 1] * |values|
  }

  /** A reader accepts a start, values, and their sum modulo 103. */
  predicate ChecksOut(symbol: seq<nat>) {
    && |symbol| >= 2 && symbol[0] == START_B
    && symbol[|symbol| - 1] == ReadSum(symbol[1..|symbol| - 1]) % 103
  }

  /** How much too heavy the characters after a skipped one are drawn. */
  function Excess(text: Text, n: nat): int
    requires n <= |text|
  {
    if n == 0 then 0
    else
      Excess(text, n - 1)
        + (if Printable(text[n - 1]) then (text[n - 1] - 32) * (n - 1 - |Values(text, n - 1)|) else 0)
  }

  lemma {:induction false} DrawnIsReadPlusExcess(text: Text, n: nat)
    requires n <= |text|
    ensures DrawnSum(text, n) == ReadSum(Values(text, n)) + Excess(text, n)
  {
    if n > 0 {
      DrawnIsReadPlusExcess(text, n - 1);
      if Printable(text[n - 1]) {
        var v, before := text[n - 1] - 32, Values(text, n - 1);
        assert (before + [v])[..|before|] == before;
        assert v * n == v * (|before| + 1) + v * (n - 1 - |before|);
      }
    }
  }

  lemma SameRemainder(a: int, b: int)
    ensures (a + b) % 103 == a % 103 <==> b % 103 == 0
  {
  }

  lemma SymbolShape(text: Text)
    ensures var symbol := Symbol(text); var last := |symbol| - 1;
      && symbol[0] == START_B && symbol[1..last] == Values(text, |text|) && symbol[last] == DrawnSum(text, |text|) % 103
  {
    hide Values, DrawnSum;
  }

  /** The symbol satisfies its own check exactly when the extra weight is a multiple of 103. */
  lemma ChecksOutExactly(text: Text)
    ensures ChecksOut(Symbol(text)) <==> Excess(text, |text|) % 103 == 0
  {
    hide Symbol, Values, DrawnSum, ReadSum, Excess;
    SymbolShape(text);
    DrawnIsReadPlusExcess(text, |text|);
    SameRemainder(ReadSum(Values(text, |text|)), Excess(text, |text|));
  }

  /** No printable character other than a space (which weighs nothing) stands after one that is skipped. */
  predicate NoGap(text: Text) {
    forall i, j :: 0 <= i < j < |text| && !Printable(text[i]) ==> !Printable(text[j]) || text[j] == 32
  }

  lemma {:induction false} NoGapNoExcess(text: Text, n: nat)
    requires NoGap(text) && n <= |text|
    ensures Excess(text, n) == 0
    ensures (forall i :: 0 <= i < n ==> Printable(text[i])) ==> |Values(text, n)| == n
  {
    if n > 0 { NoGapNoExcess(text, n - 1); }
  }

  /** Every text over the characters 32 to 126, skipped ones at most behind them, gives a readable symbol. */
  lemma PrintableTextChecksOut(text: Text)
    requires NoGap(text)
    ensures ChecksOut(Symbol(text))
  {
    NoGapNoExcess(text, |text|);
    ChecksOutExactly(text);
  }

  /** A skipped letter in front breaks the check: here a Persian letter and then an A. */
  lemma SkippedCharacterBreaksCheck()
    ensures !ChecksOut(Symbol([1601, 65]))
  {
    var text: Text := [1601, 65];
    assert Values(text, 1) == [];
    assert Excess(text, 1) == 0 && Excess(text, 2) == 33;
    ChecksOutExactly(text);
  }

  // ---------- reading it back ----------

  function ValueOf(word: nat): Option<nat> {
    match word
    case 1740 => Some(0) case 1644 => Some(1) case 1638 => Some(2) case 1176 => Some(3) case 1164 => Some(4)
    case 1100 => Some(5) case 1224 => Some(6) case 1220 => Some(7) case 1124 => Some(8) case 1608 => Some(9)
    case 1604 => Some(10) case 1572 => Some(11) case 1436 => Some(12) case 1244 => Some(13)
    case 1230 => Some(14) case 1484 => Some(15) case 1260 => Some(16) case 1254 => Some(17)
    case 1650 => Some(18) case 1628 => Some(19) case 1614 => Some(20) case 1764 => Some(21)
    case 1652 => Some(22) case 1902 => Some(23) case 1868 => Some(24) case 1836 => Some(25)
    case 1830 => Some(26) case 1892 => Some(27) case 1844 => Some(28) case 1842 => Some(29)
    case 1752 => Some(30) case 1734 => Some(31) case 1590 => Some(32) case 1304 => Some(33)
    case 1112 => Some(34) case 1094 => Some(35) case 1416 => Some(36) case 1128 => Some(37)
    case 1122 => Some(38) case 1672 => Some(39) case 1576 => Some(40) case 1570 => Some(41)
    case 1464 => Some(42) case 1422 => Some(43) case 1134 => Some(44) case 1496 => Some(45)
    case 1478 => Some(46) case 1142 => Some(47) case 1910 => Some(48) case 1678 => Some(49)
    case 1582 => Some(50) case 1768 => Some(51) case 1762 => Some(52) case 1774 => Some(53)
    case 1880 => Some(54) case 1862 => Some(55) case 1814 => Some(56) case 1896 => Some(57)
    case 1890 => Some(58) case 1818 => Some(59) case 1914 => Some(60) case 1602 => Some(61)
    case 1930 => Some(62) case 1328 => Some(63) case 1292 => Some(64) case 1200 => Some(65)
    case 1158 => Some(66) case 1068 => Some(67) case 1062 => Some(68) case 1424 => Some(69)
    case 1412 => Some(70) case 1232 => Some(71) case 1218 => Some(72) case 1076 => Some(73)
    case 1074 => Some(74) case 1554 => Some(75) case 1616 => Some(76) case 1978 => Some(77)
    case 1556 => Some(78) case 1146 => Some(79) case 1340 => Some(80) case 1212 => Some(81)
    case 1182 => Some(82) case 1508 => Some(83) case 1268 => Some(84) case 1266 => Some(85)
    case 1956 => Some(86) case 1940 => Some(87) case 1938 => Some(88) case 1758 => Some(89)
    case 1782 => Some(90) case 1974 => Some(91) case 1400 => Some(92) case 1310 => Some(93)
    case 1118 => Some(94) case 1512 => Some(95) case 1506 => Some(96) case 1960 => Some(97)
    case 1954 => Some(98) case 1502 => Some(99) case 1518 => Some(100) case 1886 => Some(101)
    case 1966 => Some(102) case 1668 => Some(103) case 1680 => Some(104) case 1692 => Some(105)
    case 1594 => Some(106)
    case _ => None
  }

  lemma WordsFrom0(v: nat)
    requires 0 <= v < 18
    ensures ValueOf(Word(v)) == Some(v) && Word(v) < 2048
  {
  }

  lemma WordsFrom18(v: nat)
    requires 18 <= v < 36
    ensures ValueOf(Word(v)) == Some(v) && Word(v) < 2048
  {
  }

  lemma WordsFrom36(v: nat)
    requires 36 <= v < 54
    ensures ValueOf(Word(v)) == Some(v) && Word(v) < 2048
  {
  }

  lemma WordsFrom54(v: nat)
    requires 54 <= v < 64
    ensures ValueOf(Word(v)) == Some(v) && Word(v) < 2048
  {
  }

  lemma WordsFrom64(v: nat)
    requires 64 <= v < 74
    ensures ValueOf(Word(v)) == Some(v) && Word(v) < 2048
  {
  }

  lemma WordsFrom74(v: nat)
    requires 74 <= v < 84
    ensures ValueOf(Word(v)) == Some(v) && Word(v) < 2048
  {
  }

  lemma WordsFrom84(v: nat)
    requires 84 <= v < 92
    ensures ValueOf(Word(v)) == Some(v) && Word(v) < 2048
  {
  }

  lemma WordsFrom92(v: nat)
    requires 92 <= v < 100
    ensures ValueOf(Word(v)) == Some(v) && Word(v) < 2048
  {
  }

  lemma WordsFrom100(v: nat)
    requires 100 <= v < 107
    ensures ValueOf(Word(v)) == Some(v) && Word(v) < 2048
  {
  }

  lemma WordsReadBack(v: nat)
    requires v < 107
    ensures ValueOf(Word(v)) == Some(v) && Word(v) < 2048
  {
    hide ValueOf, Word;
    if v < 18 { WordsFrom0(v); return; }
    if v < 36 { WordsFrom18(v); return; }
    if v < 54 { WordsFrom36(v); return; }
    if v < 64 { WordsFrom54(v); return; }
    if v < 74 { WordsFrom64(v); return; }
    if v < 84 { WordsFrom74(v); return; }
    if v < 92 { WordsFrom84(v); return; }
    if v < 100 { WordsFrom92(v); return; }
    WordsFrom100(v);
  }

  /** What a reader makes of some whole words; a word it does not know stops it. */
  function ReadWords(bits: string, n: nat): Option<seq<nat>>
    requires 11 * n <= |bits|
  {
    if n == 0 then Some([])
    else
      var before, v := ReadWords(bits, n - 1), ValueOf(Value(bits[11 * (n - 1)..11 * n]));
      if before.Some? && v.Some? then Some(before.value + [v.value]) else None
  }

  /** The values between the start of set B and a check value that agrees, before the stop. */
  function Decode(bits: string): Option<seq<nat>> {
    if |bits| < 35 || (|bits| - 13) % 11 != 0 || bits[|bits| - 13..] != STOP then None
    else
      var symbol := ReadWords(bits, (|bits| - 13) / 11);
      if symbol.None? || symbol.value[0] != 104 || !ChecksOut(symbol.value) then None
      else Some(symbol.value[1..|symbol.value| - 1])
  }

  lemma {:induction false} SymbolBitsAt(values: seq<nat>, j: nat)
    requires (forall i :: 0 <= i < |values| ==> values[i] < 107) && j < |values|
    ensures SymbolBits(values)[11 * j..11 * j + 11] == PatternBits(values[j])
  {
    hide PatternBits;
    var k := |values| - 1;
    if j < k {
      SymbolBitsAt(values[..k], j);
      assert SymbolBits(values)[11 * j..11 * j + 11] == SymbolBits(values[..k])[11 * j..11 * j + 11];
    }
  }

  lemma PatternBitsRead(v: nat)
    requires v < 107
    ensures ValueOf(Value(PatternBits(v))) == Some(v)
  {
    hide ValueOf, Bits;
    WordsReadBack(v);
    Pow2Of7And11();
    ValueOfBits(Word(v), 11);
  }

  lemma WordAt(values: seq<nat>, rest: string, j: nat)
    requires (forall i :: 0 <= i < |values| ==> values[i] < 107) && j < |values|
    ensures ValueOf(Value((SymbolBits(values) + rest)[11 * j..11 * (j + 1)])) == Some(values[j])
  {
    hide ValueOf, PatternBits, SymbolBits, Value;
    SymbolBitsAt(values, j);
    PatternBitsRead(values[j]);
    assert (SymbolBits(values) + rest)[11 * j..11 * (j + 1)] == SymbolBits(values)[11 * j..11 * j + 11];
  }

  lemma {:induction false} SymbolReadsBack(values: seq<nat>, rest: string, n: nat)
    requires (forall i :: 0 <= i < |values| ==> values[i] < 107) && n <= |values|
    ensures ReadWords(SymbolBits(values) + rest, n) == Some(values[..n])
  {
    hide ValueOf, SymbolBits, Value;
    if n > 0 {
      SymbolReadsBack(values, rest, n - 1);
      WordAt(values, rest, n - 1);
      assert values[..n] == values[..n - 1] + [values[n - 1]];
    }
  }

  lemma SymbolDecodes(symbol: seq<nat>)
    requires |symbol| >= 2 && forall i :: 0 <= i < |symbol| ==> symbol[i] < 107
    ensures Decode(SymbolBits(symbol) + STOP) 
         == if symbol[0] == 104 && ChecksOut(symbol) then Some(symbol[1..|symbol| - 1]) else None
  {
    hide SymbolBits, ReadWords, ChecksOut, Decode;
    var bits := SymbolBits(symbol) + STOP;
    SymbolReadsBack(symbol, STOP, |symbol|);
    StopLength();
    assert bits[|bits| - 13..] == STOP && symbol[..|symbol|] == symbol;
    DecodeWhole(bits, symbol);
  }

  lemma StopLength()
    ensures |STOP| == 13
  {
  }

  lemma DecodeWhole(bits: string, symbol: seq<nat>)
    requires |symbol| >= 2 && |bits| == 11 * |symbol| + 13 && bits[|bits| - 13..] == STOP
    requires ReadWords(bits, |symbol|) == Some(symbol)
    ensures Decode(bits) == if symbol[0] == 104 && ChecksOut(symbol) then Some(symbol[1..|symbol| - 1]) else None
  {
    hide ReadWords, ChecksOut;
    ElevenTimes(|symbol|);
    assert |bits| - 13 == 11 * |symbol|;
  }

  lemma ElevenTimes(k: nat)
    ensures 11 * k % 11 == 0 && 11 * k / 11 == k
  {
  }

  /** Every symbol starts with the word 11010010000 of set B and ends with the stop bars. */
  lemma PatternFrame(text: Text)
    ensures var p := Pattern(text); |p| >= 35 && Value(p[..11]) == 1680 && p[|p| - 13..] == "1100011101011"
  {
    hide Word, Symbol, Bits, SymbolBits, Value, PatternBits;
    SymbolShape(text);
    SymbolBitsAt(Symbol(text), 0);
    PatternBitsRead(104);
    StartWord();
    assert Pattern(text)[..11] == SymbolBits(Symbol(text))[..11];
    StopBehind(SymbolBits(Symbol(text)));
  }

  lemma StopBehind(bits: string)
    ensures var p := bits + STOP; |p| == |bits| + 13 && p[|p| - 13..] == "1100011101011"
  {
  }

  lemma StartWord()
    ensures Word(104) == 1680
  {
  }

  /** A symbol that checks out is read back: the printable characters of the text, in order. */
  lemma DecodesToValues(text: Text)
    ensures Decode(Pattern(text)) == if Excess(text, |text|) % 103 == 0 then Some(Values(text, |text|)) else None
  {
    hide Symbol, SymbolBits, Values, Excess, ChecksOut, Decode;
    SymbolDecodes(Symbol(text));
    SymbolShape(text);
    ChecksOutExactly(text);
  }

  lemma {:induction false} ValuesOfPrintable(text: Text, n: nat)
    requires n <= |text| && forall i :: 0 <= i < |text| ==> Printable(text[i])
    ensures |Values(text, n)| == n && forall i :: 0 <= i < n ==> Values(text, n)[i] + 32 == text[i]
  {
    if n > 0 { ValuesOfPrintable(text, n - 1); }
  }

  /** A printable text can be read off its symbol, so different texts look different. */
  lemma PrintableTextDecodes(text: Text)
    requires forall i :: 0 <= i < |text| ==> Printable(text[i])
    ensures Decode(Pattern(text)).Some?
    ensures var values := Decode(Pattern(text)).value;
      |values| == |text| && forall i :: 0 <= i < |text| ==> values[i] + 32 == text[i]
  {
    hide Decode, Pattern, Values, Excess;
    NoGapNoExcess(text, |text|);
    DecodesToValues(text);
    ValuesOfPrintable(text, |text|);
  }
}
