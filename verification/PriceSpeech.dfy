/**
 Prices read back from spoken or written Persian text.
 */
module PriceSpeech {
  import opened Common

  datatype Unit = TOMAN | RIAL | UNKNOWN

  datatype Warning = NoUnitSpoken | SuspiciouslySmall

  datatype Extracted = Extracted(rial: int, spoken: int, unit: Unit, phrase: string, warnings: seq<Warning>)

  const AND := "و"

  const TOMAN_WORDS := ["تومان", "تومن", "تومون"]

  const RIAL_WORDS := ["ریال"]

  const SUSPICIOUSLY_SMALL := 1000

  // ---------- the dictionaries ----------

  function OnesOf(w: string): Option<int> {
    match w
    case "صفر" => Some(0)
    case "یک" => Some(1)
    case "دو" => Some(2)
    case "سه" => Some(3)
    case "چهار" => Some(4)
    case "پنج" => Some(5)
    case "شش" => Some(6)
    case "شیش" => Some(6)
    case "هفت" => Some(7)
    case "هشت" => Some(8)
    case "نه" => Some(9)
    case "ده" => Some(10)
    case "یازده" => Some(11)
    case "دوازده" => Some(12)
    case "سیزده" => Some(13)
    case "چهارده" => Some(14)
    case "پانزده" => Some(15)
    case "پونزده" => Some(15)
    case "شانزده" => Some(16)
    case "شونزده" => Some(16)
    case "هفده" => Some(17)
    case "هیفده" => Some(17)
    case "هجده" => Some(18)
    case "هیجده" => Some(18)
    case "نوزده" => Some(19)
    case "نونزده" => Some(19)
    case "بیست" => Some(20)
    case "سی" => Some(30)
    case "چهل" => Some(40)
    case "پنجاه" => Some(50)
    case "شصت" => Some(60)
    case "هفتاد" => Some(70)
    case "هشتاد" => Some(80)
    case "نود" => Some(90)
    case _ => None
  }

  function HundredsOf(w: string): Option<int> {
    match w
    case "صد" => Some(100)
    case "یکصد" => Some(100)
    case "دویست" => Some(200)
    case "سیصد" => Some(300)
    case "چهارصد" => Some(400)
    case "پانصد" => Some(500)
    case "ششصد" => Some(600)
    case "شیشصد" => Some(600)
    case "هفتصد" => Some(700)
    case "هشتصد" => Some(800)
    case "نهصد" => Some(900)
    case _ => None
  }

  function ScaleOf(w: string): Option<int> {
    match w
    case "هزار" => Some(1_000)
    case "میلیون" => Some(1_000_000)
    case "ملیون" => Some(1_000_000)
    case "میلیارد" => Some(1_000_000_000)
    case _ => None
  }

  // ---------- characters ----------

  /** White space, Persian and Latin commas, full stop and both semicolons. */
  predicate IsSeparator(c: char) {
    IsSpace(c) || c == '،' || c == ',' || c == '.' || c == '؛' || c == ';'
  }

  predicate IsDigit(c: char) { '0' <= c <= '9' }

  predicate IsWordChar(c: char) { IsDigit(c) || 'a' <= c <= 'z' || 'A' <= c <= 'Z' || c == '_' }

  predicate AllDigits(w: string) { w != "" && forall c :: c in w ==> IsDigit(c) }

  function DigitsValue(w: string): int {
    if w == "" then 0 else 10 * DigitsValue(w[..|w| - 1]) + (w[|w| - 1] as int - '0' as int)
  }

  function Trim(s: string): string {
    if s == "" then s
    else if IsSpace(s[0]) then Trim(s[1..])
    else if IsSpace(s[|s| - 1]) then Trim(s[..|s| - 1])
    else s
  }

  // ---------- normalising digits ----------

  function LatinDigit(c: char): char {
    if '۰' <= c <= '۹' then '0' + (c - '۰')
    else if '٠' <= c <= '٩' then '0' + (c - '٠')
    else c
  }

  function MapDigits(s: string): string {
    if s == "" then "" else [LatinDigit(s[0])] + MapDigits(s[1..])
  }

  /** A digit, a thousands mark, and then exactly three digits. */
  predicate ThousandsMark(s: string) {
    && |s| >= 5 && IsDigit(s[0]) && (s[1] == ',' || s[1] == '،' || s[1] == '٬')
    && IsDigit(s[2]) && IsDigit(s[3]) && IsDigit(s[4]) && (|s| == 5 || !IsWordChar(s[5]))
  }

  function DropThousands(s: string): string {
    if s == "" then ""
    else if ThousandsMark(s) then [s[0]] + DropThousands(s[2..])
    else [s[0]] + DropThousands(s[1..])
  }

  /** The zero-width non-joiner becomes a space. */
  function SpaceJoiners(s: string): string {
    if s == "" then "" else [if s[0] == '\U{200c}' then ' ' else s[0]] + SpaceJoiners(s[1..])
  }

  function NormalizeDigits(s: string): string {
    SpaceJoiners(DropThousands(MapDigits(s)))
  }

  // ---------- tokens ----------

  /** Length of the text up to its first separator. */
  function WordLength(s: string): (k: nat)
    ensures k <= |s| && (forall i :: 0 <= i < k ==> !IsSeparator(s[i])) && (k < |s| ==> IsSeparator(s[k]))
  {
    if s == "" || IsSeparator(s[0]) then 0 else 1 + WordLength(s[1..])
  }

  function SplitWords(s: string): seq<string>
    decreases |s|
  {
    if s == "" then []
    else if IsSeparator(s[0]) then SplitWords(s[1..])
    else var k := WordLength(s); [s[..k]] + SplitWords(s[k..])
  }

  predicate IsNumeric(t: string) {
    AllDigits(t) || OnesOf(t).Some? || HundredsOf(t).Some? || ScaleOf(t).Some?
  }

  // ---------- reading a number ----------

  /** The loop's `total`, `current` and `seen`, or the value it returned early. */
  datatype Reading = Going(total: int, current: int, seen: bool) | Stopped(value: Option<int>)

  function ReadWord(r: Reading, raw: string): Reading {
    if r.Stopped? then r
    else
      var w := Trim(raw);
      if w == "" || w == AND then r
      else if HundredsOf(w).Some? then Going(r.total, r.current + HundredsOf(w).value, true)
      else if OnesOf(w).Some? then Going(r.total, r.current + OnesOf(w).value, true)
      else if ScaleOf(w).Some? then
        Going(r.total + (if r.current == 0 then 1 else r.current) * ScaleOf(w).value, 0, true)
      else if AllDigits(w) then Going(r.total, r.current + DigitsValue(w), true)
      else Stopped(Outcome(r))
  }

  function Outcome(r: Reading): Option<int> {
    match r
    case Stopped(v) => v
    case Going(total, current, seen) => if seen then Some(total + current) else None
  }

  function ReadAll(r: Reading, words: seq<string>): Reading
    decreases words
  {
    if words == [] then r else ReadAll(ReadWord(r, words[0]), words[1..])
  }

  const Start := Going(0, 0, false)

  function WordNumber(words: seq<string>): Option<int> { Outcome(ReadAll(Start, words)) }

  lemma {:induction false} StoppedStays(v: Option<int>, words: seq<string>)
    ensures ReadAll(Stopped(v), words) == Stopped(v)
  {
    if words != [] { StoppedStays(v, words[1..]); }
  }

  method ParseWordNumber(words: seq<string>) returns (r: Option<int>)
    ensures r == WordNumber(words)
  {
    hide OnesOf, HundredsOf, ScaleOf, Trim, AllDigits, DigitsValue;
    var total, current, seen := 0, 0, false;
    for i := 0 to |words|
      invariant ReadAll(Start, words) == ReadAll(Going(total, current, seen), words[i..])
    {
      assert words[i..][1..] == words[i + 1..];
      var w := Trim(words[i]);
      if w == "" || w == AND { continue; }
      var hundreds, ones, scale := HundredsOf(w), OnesOf(w), ScaleOf(w);
      if hundreds.Some? {
        current, seen := current + hundreds.value, true;
      } else if ones.Some? {
        current, seen := current + ones.value, true;
      } else if scale.Some? {
        total := total + (if current == 0 then 1 else current) * scale.value;
        current, seen := 0, true;
      } else if AllDigits(w) {
        current, seen := current + DigitsValue(w), true;
      } else {
        r := if seen then Some(total + current) else None;
        StoppedStays(r, words[i + 1..]);
        return;
      }
    }
    r := if seen then Some(total + current) else None;
  }

  // ---------- units ----------

  predicate Contains(s: string, part: string) {
    exists i: nat | i <= |s| :: StandsAt(s, i, part)
  }

  predicate StandsAt(s: string, i: nat, part: string) {
    i + |part| <= |s| && s[i..i + |part|] == part
  }

  function DetectUnit(context: string): Unit {
    if exists w :: w in TOMAN_WORDS && Contains(context, w) then TOMAN
    else if exists w :: w in RIAL_WORDS && Contains(context, w) then RIAL
    else UNKNOWN
  }

  function JoinSpaced(words: seq<string>): string { Join(words, " ") }

  // ---------- scanning a text ----------

  datatype TokenKind = NumberWord | Connective | Other

  function KindOf(t: string): TokenKind {
    if IsNumeric(t) then NumberWord else if t == AND then Connective else Other
  }

  function Kinds(tokens: seq<string>): (r: seq<TokenKind>)
    ensures |r| == |tokens|
  {
    if tokens == [] then [] else Kinds(tokens[..|tokens| - 1]) + [KindOf(tokens[|tokens| - 1])]
  }

  lemma {:induction false} KindsAt(tokens: seq<string>, i: nat)
    requires i < |tokens|
    ensures Kinds(tokens)[i] == KindOf(tokens[i])
  {
    if i < |tokens| - 1 { KindsAt(tokens[..|tokens| - 1], i); }
  }

  /** A number goes on over numeric words, and over an "and" that has one after it. */
  predicate InBlock(kinds: seq<TokenKind>, i: nat) {
    && i < |kinds|
    && (kinds[i].NumberWord? || (kinds[i].Connective? && i + 1 < |kinds| && kinds[i + 1].NumberWord?))
  }

  function BlockEnd(kinds: seq<TokenKind>, i: nat): (end: nat)
    requires i <= |kinds|
    ensures i <= end <= |kinds|
    ensures forall j :: i <= j < end ==> InBlock(kinds, j)
    ensures !InBlock(kinds, end)
    decreases |kinds| - i
  {
    if InBlock(kinds, i) then BlockEnd(kinds, i + 1) else i
  }

  /** What the words of one block and their surroundings say; nothing for zero. */
  function Extract(tokens: seq<string>, start: nat, end: nat): seq<Extracted>
    requires start <= end <= |tokens|
  {
    var spoken := WordNumber(tokens[start..end]);
    if spoken.None? || spoken.value <= 0 then []
    else
      var after := JoinSpaced(tokens[end..Min(end + 3, |tokens|)]);
      var before := JoinSpaced(tokens[(if start >= 2 then start - 2 else 0)..start]);
      var unit := DetectUnit(before + " " + after);
      var warnings := (if unit.UNKNOWN? then [NoUnitSpoken] else [])
                    + (if spoken.value < SUSPICIOUSLY_SMALL then [SuspiciouslySmall] else []);
      [Extracted(if unit.RIAL? then spoken.value else spoken.value * 10, spoken.value, unit,
                 JoinSpaced(tokens[start..end] + tokens[end..Min(end + 2, |tokens|)]), warnings)]
  }

  function Scan(tokens: seq<string>, kinds: seq<TokenKind>, i: nat): seq<Extracted>
    requires |kinds| == |tokens| && i <= |tokens|
    decreases |tokens| - i
  {
    if i == |tokens| then []
    else if !kinds[i].NumberWord? then Scan(tokens, kinds, i + 1)
    else Extract(tokens, i, BlockEnd(kinds, i)) + Scan(tokens, kinds, BlockEnd(kinds, i))
  }

  function Amounts(text: string): seq<Extracted> {
    var tokens := SplitWords(NormalizeDigits(text));
    Scan(tokens, Kinds(tokens), 0)
  }

  /** The scanning loop; its inner loop finds the end of a block. */
  method ExtractAmounts(text: string) returns (out: seq<Extracted>)
    ensures out == Amounts(text)
  {
    hide SplitWords, NormalizeDigits, Extract;
    var tokens := SplitWords(NormalizeDigits(text));
    var kinds := Kinds(tokens);
    out := [];
    var i := 0;
    while i < |tokens|
      invariant 0 <= i <= |tokens|
      invariant out + Scan(tokens, kinds, i) == Scan(tokens, kinds, 0)
    {
      if !kinds[i].NumberWord? {
        i := i + 1;
        continue;
      }
      var start, end := i, i;
      while end < |tokens|
        invariant start <= end <= |tokens|
        invariant BlockEnd(kinds, start) == BlockEnd(kinds, end)
      {
        if kinds[end].NumberWord? {
          end := end + 1;
          continue;
        }
        if kinds[end].Connective? && end + 1 < |tokens| && kinds[end + 1].NumberWord? {
          end := end + 1;
          continue;
        }
        break;
      }
      assert end == BlockEnd(kinds, start) > start;
      ghost var before := out;
      out := out + Extract(tokens, start, end);
      assert before + (Extract(tokens, start, end) + Scan(tokens, kinds, end)) == out + Scan(tokens, kinds, end);
      i := end;
    }
    assert out + Scan(tokens, kinds, |tokens|) == out;
  }

  // ---------- the blocks of any text ----------

  datatype Span = Span(start: nat, end: nat)

  function Spans(kinds: seq<TokenKind>, i: nat): seq<Span>
    requires i <= |kinds|
    decreases |kinds| - i
  {
    if i == |kinds| then []
    else if !kinds[i].NumberWord? then Spans(kinds, i + 1)
    else [Span(i, BlockEnd(kinds, i))] + Spans(kinds, BlockEnd(kinds, i))
  }

  function ExtractSpans(tokens: seq<string>, spans: seq<Span>): seq<Extracted>
    requires forall s :: s in spans ==> s.start <= s.end <= |tokens|
  {
    if spans == [] then []
    else
      assert forall s :: s in spans[1..] ==> s in spans;
      Extract(tokens, spans[0].start, spans[0].end) + ExtractSpans(tokens, spans[1..])
  }

  ghost predicate InOrder(spans: seq<Span>) {
    forall j, k :: 0 <= j < k < |spans| ==> spans[j].end < spans[k].start
  }

  ghost predicate Covers(spans: seq<Span>, j: nat) {
    exists s :: s in spans && s.start <= j < s.end
  }

  /** A block starts and ends on a numeric word, with only numeric words and "and"s inside. */
  ghost predicate BlockOK(kinds: seq<TokenKind>, s: Span) {
    && s.start < s.end <= |kinds| && kinds[s.start].NumberWord? && kinds[s.end - 1].NumberWord?
    && forall j :: s.start <= j < s.end ==> !kinds[j].Other?
  }

  lemma FirstBlock(kinds: seq<TokenKind>, i: nat)
    requires i < |kinds| && kinds[i].NumberWord?
    ensures BlockOK(kinds, Span(i, BlockEnd(kinds, i)))
    ensures BlockEnd(kinds, i) < |kinds| ==> !kinds[BlockEnd(kinds, i)].NumberWord?
  {
    var end := BlockEnd(kinds, i);
    assert InBlock(kinds, i) && end > i;
    assert InBlock(kinds, end - 1) && !InBlock(kinds, end);
    forall j | i <= j < end ensures !kinds[j].Other? { assert InBlock(kinds, j); }
  }

  lemma {:induction false} SpansAreBlocks(kinds: seq<TokenKind>, i: nat)
    requires i <= |kinds|
    ensures forall s :: s in Spans(kinds, i) ==> i <= s.start && BlockOK(kinds, s)
    decreases |kinds| - i
  {
    if i < |kinds| {
      if !kinds[i].NumberWord? {
        SpansAreBlocks(kinds, i + 1);
      } else {
        FirstBlock(kinds, i);
        SpansAreBlocks(kinds, BlockEnd(kinds, i));
      }
    }
  }

  lemma {:induction false} SpansInOrder(kinds: seq<TokenKind>, i: nat)
    requires i <= |kinds|
    ensures InOrder(Spans(kinds, i))
    decreases |kinds| - i
  {
    if i < |kinds| {
      if !kinds[i].NumberWord? {
        SpansInOrder(kinds, i + 1);
      } else {
        var end := BlockEnd(kinds, i);
        FirstBlock(kinds, i);
        SpansInOrder(kinds, end);
        SpansAreBlocks(kinds, end);
        PrependInOrder(kinds, Span(i, end), Spans(kinds, end));
      }
    }
  }

  lemma PrependInOrder(kinds: seq<TokenKind>, first: Span, rest: seq<Span>)
    requires InOrder(rest) && first.end <= |kinds|
    requires first.end < |kinds| ==> !kinds[first.end].NumberWord?
    requires forall s :: s in rest ==> first.end <= s.start && BlockOK(kinds, s)
    ensures InOrder([first] + rest)
  {
    forall k | 0 <= k < |rest| ensures first.end < rest[k].start {
      assert rest[k] in rest;
    }
  }

  lemma {:induction false} SpansCover(kinds: seq<TokenKind>, i: nat, j: nat)
    requires i <= j < |kinds| && kinds[j].NumberWord?
    ensures Covers(Spans(kinds, i), j)
    decreases |kinds| - i
  {
    if !kinds[i].NumberWord? {
      SpansCover(kinds, i + 1, j);
    } else {
      var end := BlockEnd(kinds, i);
      var first, rest := Span(i, end), Spans(kinds, end);
      FirstBlock(kinds, i);
      assert first in [first] + rest;
      if j >= end {
        SpansCover(kinds, end, j);
        var s :| s in rest && s.start <= j < s.end;
        assert s in [first] + rest;
      }
    }
  }

  lemma {:induction false} ScanReadsSpans(tokens: seq<string>, kinds: seq<TokenKind>, i: nat)
    requires |kinds| == |tokens| && i <= |tokens| && forall s :: s in Spans(kinds, i) ==> s.start <= s.end <= |tokens|
    ensures Scan(tokens, kinds, i) == ExtractSpans(tokens, Spans(kinds, i))
    decreases |tokens| - i
  {
    if i < |tokens| {
      if !kinds[i].NumberWord? {
        ScanReadsSpans(tokens, kinds, i + 1);
      } else {
        var rest := Spans(kinds, BlockEnd(kinds, i));
        assert Spans(kinds, i)[1..] == rest;
        FirstBlock(kinds, i);
        ScanReadsSpans(tokens, kinds, BlockEnd(kinds, i));
      }
    }
  }

  /**
   On any text the scanner reads a list of blocks that come in order, do not overlap, and together
   hold every numeric word; each begins and ends with one, and nothing but numeric words and
   connecting "and"s stands inside (`KindsAt` says what each kind means for its word).
   */
  lemma BlocksPartitionNumbers(text: string)
    ensures
      var tokens := SplitWords(NormalizeDigits(text));
      var kinds := Kinds(tokens);
      var spans := Spans(kinds, 0);
      && InOrder(spans)
      && (forall s :: s in spans ==> BlockOK(kinds, s))
      && (forall j :: 0 <= j < |kinds| && kinds[j].NumberWord? ==> Covers(spans, j))
      && Amounts(text) == ExtractSpans(tokens, spans)
  {
    var tokens := SplitWords(NormalizeDigits(text));
    var kinds := Kinds(tokens);
    SpansInOrder(kinds, 0);
    SpansAreBlocks(kinds, 0);
    forall j | 0 <= j < |kinds| && kinds[j].NumberWord? ensures Covers(Spans(kinds, 0), j) {
      SpansCover(kinds, 0, j);
    }
    forall s | s in Spans(kinds, 0) ensures s.start <= s.end <= |tokens| {
      assert BlockOK(kinds, s);
    }
    ScanReadsSpans(tokens, kinds, 0);
  }
}
