/**
 Reading back what was printed: the words of a cheque amount, and any list of them, give the
 numbers they were printed from.
 */
module SpokenAmounts {
  import opened Common
  import opened NumberWords
  import Speech = PriceSpeech

  // ---------- telling words apart ----------

  function CharAt(w: string, i: nat): int { if i < |w| then w[i] as int else 0 }

  function Code(w: string): int { CharAt(w, 0) + CharAt(w, 1) + CharAt(w, 2) + CharAt(w, 3) + CharAt(w, 4) }

  /** The code points of the first five letters add up differently for every word of the vocabulary. */
  lemma WordCodes()
    ensures Code("صفر") == 4775
    ensures Code("یک") == 3445
    ensures Code("دو") == 3191
    ensures Code("سه") == 3194
    ensures Code("چهار") == 6437
    ensures Code("پنج") == 4848
    ensures Code("شش") == 3176
    ensures Code("شیش") == 4916
    ensures Code("هفت") == 4786
    ensures Code("هشت") == 4773
    ensures Code("نه") == 3213
    ensures Code("ده") == 3190
    ensures Code("یازده") == 8091
    ensures Code("دوازده") == 7935
    ensures Code("سیزده") == 8103
    ensures Code("چهارده") == 8020
    ensures Code("پانزده") == 8012
    ensures Code("پونزده") == 8045
    ensures Code("شانزده") == 7938
    ensures Code("شونزده") == 7971
    ensures Code("هفده") == 6398
    ensures Code("هیفده") == 8138
    ensures Code("هجده") == 6377
    ensures Code("هیجده") == 8117
    ensures Code("نوزده") == 7990
    ensures Code("نونزده") == 7989
    ensures Code("بیست") == 6481
    ensures Code("سی") == 3327
    ensures Code("چهل") == 4881
    ensures Code("پنجاه") == 8030
    ensures Code("شصت") == 4755
    ensures Code("هفتاد") == 7944
    ensures Code("هشتاد") == 7931
    ensures Code("نود") == 4797
    ensures Code("صد") == 3172
    ensures Code("یکصد") == 6617
    ensures Code("دویست") == 8096
    ensures Code("سیصد") == 6499
    ensures Code("چهارصد") == 8026
    ensures Code("پانصد") == 8015
    ensures Code("ششصد") == 6348
    ensures Code("شیشصد") == 8088
    ensures Code("هفتصد") == 7958
    ensures Code("هشتصد") == 7945
    ensures Code("نهصد") == 6385
    ensures Code("هزار") == 6353
    ensures Code("میلیون") == 8297
    ensures Code("ملیون") == 8163
    ensures Code("میلیارد") == 8264
    ensures Code("و") == 1608
    ensures Code("ریال") == 6504
  {
  }

  /** Letters of the vocabulary: none of them separates words or is touched by digit normalisation. */
  predicate Letter(c: char) {
    'ا' <= c <= 'غ' || 'ف' <= c <= 'ي' || c == 'پ' || c == 'چ' || c == 'ک' || c == 'گ' || c == 'ی'
  }

  /** No toman word stands anywhere in the text: they all begin with these two letters. */
  predicate NoToman(s: string) {
    forall i :: 0 <= i < |s| - 1 && s[i] == 'ت' ==> s[i + 1] != 'و'
  }

  predicate Clean(w: string) {
    w != "" && (forall i :: 0 <= i < |w| ==> Letter(w[i])) && NoToman(w)
  }

  function PlainValue(w: string): Option<int> {
    if Speech.HundredsOf(w).Some? then Speech.HundredsOf(w) else Speech.OnesOf(w)
  }

  /** A printed word that adds `v` when read. */
  predicate ValueWord(w: string, v: int) { PlainValue(w) == Some(v) && Clean(w) }

  lemma OnesClean(d: nat)
    requires 1 <= d <= 9
    ensures Clean(ONES[d]) && Clean(HUNDREDS[d])
  {
  }

  lemma TensClean(d: nat)
    requires d <= 9
    ensures Clean(TEENS[d]) && (d >= 2 ==> Clean(TENS[d]))
  {
  }

  lemma OnesRead(d: nat)
    requires 1 <= d <= 9
    ensures ValueWord(ONES[d], d)
  {
    OnesClean(d);
    if d <= 4 { LowOnes(d); } else { HighOnes(d); }
  }

  lemma LowOnes(d: nat)
    requires 1 <= d <= 4
    ensures PlainValue(ONES[d]) == Some(d as int)
  {
    WordCodes();
  }

  lemma HighOnes(d: nat)
    requires 5 <= d <= 9
    ensures PlainValue(ONES[d]) == Some(d as int)
  {
    WordCodes();
  }

  lemma TeensRead(d: nat)
    requires d <= 9
    ensures ValueWord(TEENS[d], 10 + d)
  {
    TensClean(d);
    if d <= 4 { LowTeens(d); } else { HighTeens(d); }
  }

  lemma LowTeens(d: nat)
    requires d <= 4
    ensures PlainValue(TEENS[d]) == Some(10 + d)
  {
    WordCodes();
  }

  lemma HighTeens(d: nat)
    requires 5 <= d <= 9
    ensures PlainValue(TEENS[d]) == Some(10 + d)
  {
    WordCodes();
  }

  lemma TensRead(d: nat)
    requires 2 <= d <= 9
    ensures ValueWord(TENS[d], 10 * d)
  {
    TensClean(d);
    if d <= 5 { LowTens(d); } else { HighTens(d); }
  }

  lemma LowTens(d: nat)
    requires 2 <= d <= 5
    ensures PlainValue(TENS[d]) == Some(10 * d)
  {
    WordCodes();
  }

  lemma HighTens(d: nat)
    requires 6 <= d <= 9
    ensures PlainValue(TENS[d]) == Some(10 * d)
  {
    WordCodes();
  }

  lemma HundredsRead(d: nat)
    requires 1 <= d <= 9
    ensures ValueWord(HUNDREDS[d], 100 * d)
  {
    OnesClean(d);
    HundredsValue(d);
  }

  lemma HundredsValue(d: nat)
    requires 1 <= d <= 9
    ensures PlainValue(HUNDREDS[d]) == Some(100 * d)
  {
    WordCodes();
  }

  /** The spoken forms of a number word, each with the printed one. */
  const VARIANTS := [("شیش", "شش"), ("پونزده", "پانزده"), ("شونزده", "شانزده"), ("هیفده", "هفده"), ("هیجده", "هجده"),
                     ("نونزده", "نوزده"), ("یکصد", "صد"), ("شیشصد", "ششصد")]

  /** A spoken form is worth what the printed one is. */
  lemma VariantsAgree(i: nat)
    requires i < |VARIANTS|
    ensures PlainValue(VARIANTS[i].0) == PlainValue(VARIANTS[i].1) != None
    ensures Speech.ScaleOf("ملیون") == Speech.ScaleOf("میلیون") == Some(1_000_000)
  {
    WordCodes();
  }

  const SCALE_WORDS := ["", "هزار", "میلیون", "میلیارد"]

  lemma ScalesRead(i: nat)
    requires 1 <= i <= 3
    ensures PlainValue(SCALE_WORDS[i]) == None && Speech.ScaleOf(SCALE_WORDS[i]) == Some(Pow1000(i))
  {
    WordCodes();
    assert Pow1000(1) == 1_000 && Pow1000(2) == 1_000_000 && Pow1000(3) == 1_000_000_000;
  }

  lemma ScalesPrint(i: nat)
    requires 1 <= i <= 3
    ensures SCALES[i] == " " + SCALE_WORDS[i] && Clean(SCALE_WORDS[i])
  {
  }

  const UNIT := "ریال"

  lemma UnitAndConnective()
    ensures Clean(Speech.AND) && Clean(UNIT) && Clean(ZERO) && RIAL == " " + UNIT
  {
  }

  lemma UnitIsNoNumber()
    ensures PlainValue(UNIT) == None && Speech.ScaleOf(UNIT) == None && UNIT != Speech.AND
  {
    WordCodes();
  }

  lemma ConnectiveIsNoNumber()
    ensures PlainValue(Speech.AND) == None && Speech.ScaleOf(Speech.AND) == None
  {
    WordCodes();
  }

  lemma ZeroRead()
    ensures PlainValue(ZERO) == Some(0)
  {
    WordCodes();
  }

  // ---------- the tokens of a printed number ----------

  /** Parts joined by "and". */
  function Linked(parts: seq<seq<string>>): seq<string> {
    if parts == [] then []
    else if |parts| == 1 then parts[0]
    else Linked(parts[..|parts| - 1]) + [Speech.AND] + parts[|parts| - 1]
  }

  function Singles(words: seq<string>): (r: seq<seq<string>>)
    ensures |r| == |words| && forall i :: 0 <= i < |r| ==> r[i] == [words[i]]
  {
    seq(|words|, i requires 0 <= i < |words| => [words[i]])
  }

  function TripletTokens(n: nat): seq<string>
    requires n <= 999
  {
    Linked(Singles(TripletParts(n)))
  }

  function ScaleTokens(i: nat): seq<string>
    requires i <= 3
  {
    if i == 0 then [] else [SCALE_WORDS[i]]
  }

  function GroupTokens(groups: seq<nat>, i: nat): seq<seq<string>>
    requires i < |groups| <= 4 && forall g :: g in groups ==> g <= 999
  {
    assert groups[i] in groups;
    if groups[i] == 0 then [] else [TripletTokens(groups[i]) + ScaleTokens(i)]
  }

  function TokensDownTo(groups: seq<nat>, i: nat): seq<seq<string>>
    requires i <= |groups| <= 4 && forall g :: g in groups ==> g <= 999
    decreases |groups| - i
  {
    if i == |groups| then [] else TokensDownTo(groups, i + 1) + GroupTokens(groups, i)
  }

  function NumberTokens(n: nat): seq<string>
    requires n <= MAX_SUPPORTED
  {
    AtMostFourGroups(n);
    if n == 0 then [ZERO] else Linked(TokensDownTo(Groups(n), 0))
  }

  // ---------- the printed text is its tokens, joined by spaces ----------

  /** Each text is the space-joined form of its part. */
  ghost predicate Spelled(parts: seq<seq<string>>, texts: seq<string>) {
    && |parts| == |texts|
    && forall i :: 0 <= i < |parts| ==> parts[i] != [] && texts[i] == Join(parts[i], " ")
  }

  lemma JoinLast(texts: seq<string>, separator: string)
    requires |texts| > 1
    ensures var k := |texts| - 1; Join(texts, separator) == Join(texts[..k], separator) + separator + texts[k]
  {
  }

  lemma JoinOne(text: string, separator: string)
    ensures Join([text], separator) == text
  {
  }

  lemma LinkedLast(parts: seq<seq<string>>)
    requires parts != []
    ensures var k := |parts| - 1;
      Linked(parts) == if k == 0 then parts[0] else Linked(parts[..k]) + [Speech.AND] + parts[k]
  {
  }

  lemma {:induction false} LinkedText(parts: seq<seq<string>>, texts: seq<string>)
    requires Spelled(parts, texts) && parts != []
    ensures Join(texts, SEPARATOR) == Join(Linked(parts), " ") && Linked(parts) != []
  {
    hide Join, Linked;
    var k := |parts| - 1;
    LinkedLast(parts);
    if k == 0 {
      assert texts == [texts[0]];
      JoinOne(texts[0], SEPARATOR);
    } else {
      var before := Linked(parts[..k]);
      LinkedText(parts[..k], texts[..k]);
      JoinLast(texts, SEPARATOR);
      JoinConcat(before, [Speech.AND], " ");
      JoinOne(Speech.AND, " ");
      JoinConcat(before + [Speech.AND], parts[k], " ");
      assert SEPARATOR == " " + Speech.AND + " ";
      assert Join(before, " ") + " " + Speech.AND + " " + texts[k] == Join(before, " ") + SEPARATOR + texts[k];
    }
  }

  lemma SinglesSpelled(words: seq<string>)
    ensures Spelled(Singles(words), words)
  {
    forall i | 0 <= i < |words| ensures words[i] == Join(Singles(words)[i], " ") { JoinOne(words[i], " "); }
  }

  lemma TripletText(n: nat)
    requires 1 <= n <= 999
    ensures TripletToWords(n) == Join(TripletTokens(n), " ") && TripletTokens(n) != []
  {
    assert TripletParts(n) != [];
    SinglesSpelled(TripletParts(n));
    LinkedText(Singles(TripletParts(n)), TripletParts(n));
  }

  lemma GroupText(g: nat, i: nat)
    requires 1 <= g <= 999 && i <= 3
    ensures TripletToWords(g) + SCALES[i] == Join(TripletTokens(g) + ScaleTokens(i), " ")
    ensures TripletTokens(g) + ScaleTokens(i) != []
  {
    TripletText(g);
    if i > 0 {
      ScalesPrint(i);
      JoinConcat(TripletTokens(g), ScaleTokens(i), " ");
      assert Join(ScaleTokens(i), " ") == SCALE_WORDS[i];
    } else {
      assert TripletTokens(g) + [] == TripletTokens(g);
    }
  }

  lemma SpelledAppend(parts: seq<seq<string>>, texts: seq<string>, part: seq<string>, text: string)
    requires Spelled(parts, texts) && part != [] && text == Join(part, " ")
    ensures Spelled(parts + [part], texts + [text])
  {
  }

  lemma {:induction false} GroupsText(groups: seq<nat>, i: nat)
    requires i <= |groups| <= 4 && forall g :: g in groups ==> g <= 999
    ensures Spelled(TokensDownTo(groups, i), PartsDownTo(groups, i))
    ensures TokensDownTo(groups, i) == [] ==> forall j :: i <= j < |groups| ==> groups[j] == 0
    decreases |groups| - i
  {
    if i < |groups| {
      var g, parts, texts := groups[i], TokensDownTo(groups, i + 1), PartsDownTo(groups, i + 1);
      assert g in groups;
      GroupsText(groups, i + 1);
      if g > 0 {
        GroupText(g, i);
        SpelledAppend(parts, texts, TripletTokens(g) + ScaleTokens(i), TripletToWords(g) + SCALES[i]);
      } else {
        assert parts + [] == parts && texts + [] == texts;
      }
    }
  }

  lemma SpellIsTokens(n: nat)
    requires n <= MAX_SUPPORTED
    ensures Spell(n) == Join(NumberTokens(n), " ") && NumberTokens(n) != []
  {
    AtMostFourGroups(n);
    if n > 0 {
      GroupsText(Groups(n), 0);
      LinkedText(TokensDownTo(Groups(n), 0), PartsDownTo(Groups(n), 0));
    }
  }

  // ---------- what reading one word does ----------

  /** One step of a reader: the state and the word it meets. */
  type Reader = (Speech.Reading, string) -> Speech.Reading

  function Fold(f: Reader, r: Speech.Reading, words: seq<string>): Speech.Reading
    decreases words
  {
    if words == [] then r else Fold(f, f(r, words[0]), words[1..])
  }

  ghost predicate Adds(f: Reader, w: string, v: int) {
    forall total, current, seen ::
      f(Speech.Going(total, current, seen), w) == Speech.Going(total, current + v, true)
  }

  ghost predicate Scales(f: Reader, w: string, m: int) {
    forall total, current, seen :: current > 0 ==>
      f(Speech.Going(total, current, seen), w) == Speech.Going(total + current * m, 0, true)
  }

  ghost predicate Skips(f: Reader, w: string) { forall r :: f(r, w) == r }

  /** A reader that knows the printed vocabulary. */
  ghost predicate Knows(f: Reader) {
    && (forall d :: 1 <= d <= 9 ==> Adds(f, ONES[d], d) && Adds(f, HUNDREDS[d], 100 * d))
    && (forall d :: 0 <= d <= 9 ==> Adds(f, TEENS[d], 10 + d))
    && (forall d :: 2 <= d <= 9 ==> Adds(f, TENS[d], 10 * d))
    && (forall i :: 1 <= i <= 3 ==> Scales(f, SCALE_WORDS[i], Pow1000(i)))
    && Adds(f, ZERO, 0) && Skips(f, Speech.AND)
  }

  lemma TrimClean(w: string)
    requires Clean(w)
    ensures Speech.Trim(w) == w
  {
    assert Letter(w[0]) && Letter(w[|w| - 1]);
  }

  lemma ReadWordAdds(w: string, v: int)
    requires ValueWord(w, v)
    ensures Adds(Speech.ReadWord, w, v)
  {
    TrimClean(w);
    ConnectiveIsNoNumber();
  }

  lemma ReadWordScales(i: nat)
    requires 1 <= i <= 3
    ensures Scales(Speech.ReadWord, SCALE_WORDS[i], Pow1000(i))
  {
    var w := SCALE_WORDS[i];
    ScalesPrint(i);
    ScalesRead(i);
    TrimClean(w);
    assert w != Speech.AND by { ConnectiveIsNoNumber(); }
    ReadScaleWord(w, Pow1000(i));
  }

  lemma ReadScaleWord(w: string, m: int)
    requires Speech.Trim(w) == w && w != "" && w != Speech.AND && PlainValue(w) == None && Speech.ScaleOf(w) == Some(m)
    ensures Scales(Speech.ReadWord, w, m)
  {
  }

  lemma ReadWordSkips()
    ensures Skips(Speech.ReadWord, Speech.AND)
  {
    UnitAndConnective();
    TrimClean(Speech.AND);
  }

  lemma ReadWordKnows()
    ensures Knows(Speech.ReadWord)
  {
    forall d | 1 <= d <= 9 ensures Adds(Speech.ReadWord, ONES[d], d) && Adds(Speech.ReadWord, HUNDREDS[d], 100 * d) {
      OnesRead(d);
      HundredsRead(d);
      ReadWordAdds(ONES[d], d);
      ReadWordAdds(HUNDREDS[d], 100 * d);
    }
    forall d | 0 <= d <= 9 ensures Adds(Speech.ReadWord, TEENS[d], 10 + d) {
      TeensRead(d);
      ReadWordAdds(TEENS[d], 10 + d);
    }
    forall d | 2 <= d <= 9 ensures Adds(Speech.ReadWord, TENS[d], 10 * d) {
      TensRead(d);
      ReadWordAdds(TENS[d], 10 * d);
    }
    forall i | 1 <= i <= 3 ensures Scales(Speech.ReadWord, SCALE_WORDS[i], Pow1000(i)) { ReadWordScales(i); }
    ZeroRead();
    UnitAndConnective();
    ReadWordAdds(ZERO, 0);
    ReadWordSkips();
  }

  lemma {:induction false} ReadAllIsFold(r: Speech.Reading, words: seq<string>)
    ensures Speech.ReadAll(r, words) == Fold(Speech.ReadWord, r, words)
    decreases words
  {
    if words != [] { ReadAllIsFold(Speech.ReadWord(r, words[0]), words[1..]); }
  }

  // ---------- reading several words ----------

  lemma {:induction false} FoldAppend(f: Reader, r: Speech.Reading, a: seq<string>, b: seq<string>)
    ensures Fold(f, r, a + b) == Fold(f, Fold(f, r, a), b)
    decreases a
  {
    if a == [] {
      assert a + b == b;
    } else {
      assert (a + b)[1..] == a[1..] + b;
      FoldAppend(f, f(r, a[0]), a[1..], b);
    }
  }

  lemma FoldOne(f: Reader, r: Speech.Reading, w: string)
    ensures Fold(f, r, [w]) == f(r, w)
  {
    assert [w][1..] == [];
  }

  /** Reading past an "and" is reading the rest. */
  lemma FoldLink(f: Reader, r: Speech.Reading, a: seq<string>, b: seq<string>)
    requires Skips(f, Speech.AND)
    ensures Fold(f, r, a + [Speech.AND] + b) == Fold(f, Fold(f, r, a), b)
  {
    FoldAppend(f, r, a + [Speech.AND], b);
    FoldAppend(f, r, a, [Speech.AND]);
    FoldOne(f, Fold(f, r, a), Speech.AND);
  }

  // ---------- reading one group ----------

  function SumOf(values: seq<int>): int {
    if values == [] then 0 else SumOf(values[..|values| - 1]) + values[|values| - 1]
  }

  ghost predicate Worth(f: Reader, words: seq<string>, values: seq<int>) {
    |words| == |values| && forall i :: 0 <= i < |words| ==> Adds(f, words[i], values[i])
  }

  lemma {:induction false} ReadSingles(f: Reader, total: int, current: int, seen: bool, words: seq<string>,
      values: seq<int>)
    requires words != [] && Worth(f, words, values) && Skips(f, Speech.AND)
    ensures Fold(f, Speech.Going(total, current, seen), Linked(Singles(words)))
         == Speech.Going(total, current + SumOf(values), true)
  {
    var k, r := |words| - 1, Speech.Going(total, current, seen);
    var before := Singles(words)[..k];
    if k == 0 {
      assert Linked(Singles(words)) == [words[0]] && SumOf(values) == values[0];
      FoldOne(f, r, words[0]);
    } else {
      assert before == Singles(words[..k]);
      ReadSingles(f, total, current, seen, words[..k], values[..k]);
      FoldLink(f, r, Linked(before), [words[k]]);
      FoldOne(f, Speech.Going(total, current + SumOf(values[..k]), true), words[k]);
    }
  }

  function HundredsValues(h: nat): seq<int> { if h > 0 then [100 * h] else [] }

  function RestValues(rest: nat): seq<int> {
    if 10 <= rest <= 19 then [rest]
    else (if rest / 10 > 0 then [10 * (rest / 10)] else []) + (if rest % 10 > 0 then [rest % 10] else [])
  }

  lemma RestWorth(f: Reader, rest: nat)
    requires Knows(f) && rest <= 99
    ensures Worth(f, RestParts(rest), RestValues(rest)) && SumOf(RestValues(rest)) == rest
  {
    if !(10 <= rest <= 19) {
      var t, o := rest / 10, rest % 10;
      SumOfTwo(if t > 0 then [10 * t] else [], if o > 0 then [o as int] else []);
    }
  }

  lemma {:induction false} SumOfTwo(a: seq<int>, b: seq<int>)
    ensures SumOf(a + b) == SumOf(a) + SumOf(b)
  {
    if b == [] {
      assert a + b == a;
    } else {
      assert (a + b)[..|a + b| - 1] == a + b[..|b| - 1];
      SumOfTwo(a, b[..|b| - 1]);
    }
  }

  lemma TripletWorth(f: Reader, n: nat)
    requires Knows(f) && 1 <= n <= 999
    ensures var values := HundredsValues(n / 100) + RestValues(n % 100);
      Worth(f, TripletParts(n), values) && SumOf(values) == n && TripletParts(n) != []
  {
    hide Worth, HundredsPart, RestParts, HundredsValues, RestValues, SumOf, Knows;
    HundredsWorth(f, n / 100);
    RestWorth(f, n % 100);
    WorthAppend(f, HundredsPart(n / 100), RestParts(n % 100), HundredsValues(n / 100), RestValues(n % 100));
    SumOfTwo(HundredsValues(n / 100), RestValues(n % 100));
    SomePart(n);
  }

  lemma HundredsWorth(f: Reader, h: nat)
    requires Knows(f) && h <= 9
    ensures Worth(f, HundredsPart(h), HundredsValues(h)) && SumOf(HundredsValues(h)) == 100 * h
  {
  }

  lemma WorthAppend(f: Reader, a: seq<string>, b: seq<string>, x: seq<int>, y: seq<int>)
    requires Worth(f, a, x) && Worth(f, b, y)
    ensures Worth(f, a + b, x + y)
  {
    hide Adds;
  }

  lemma SomePart(n: nat)
    requires 1 <= n <= 999
    ensures TripletParts(n) != []
  {
  }

  lemma TripletReads(f: Reader, total: int, seen: bool, n: nat)
    requires Knows(f) && 1 <= n <= 999
    ensures Fold(f, Speech.Going(total, 0, seen), TripletTokens(n)) == Speech.Going(total, n, true)
  {
    hide Fold, Linked, TripletParts, HundredsValues, RestValues, Worth, SumOf;
    var h, rest := n / 100, n % 100;
    TripletWorth(f, n);
    ReadSingles(f, total, 0, seen, TripletParts(n), HundredsValues(h) + RestValues(rest));
  }

  lemma GroupReads(f: Reader, total: int, seen: bool, g: nat, i: nat)
    requires Knows(f) && 1 <= g <= 999 && i <= 3
    ensures Fold(f, Speech.Going(total, 0, seen), TripletTokens(g) + ScaleTokens(i))
         == if i == 0 then Speech.Going(total, g, true) else Speech.Going(total + g * Pow1000(i), 0, true)
  {
    TripletReads(f, total, seen, g);
    if i == 0 {
      assert TripletTokens(g) + [] == TripletTokens(g);
    } else {
      FoldAppend(f, Speech.Going(total, 0, seen), TripletTokens(g), ScaleTokens(i));
      FoldOne(f, Speech.Going(total, g, true), SCALE_WORDS[i]);
    }
  }

  // ---------- reading the whole number ----------

  function ValueDownTo(groups: seq<nat>, i: nat): nat
    requires i <= |groups|
    decreases |groups| - i
  {
    if i == |groups| then 0 else ValueDownTo(groups, i + 1) + GroupValue(groups[i], i)
  }

  function GroupValue(g: nat, i: nat): nat { if g == 0 then 0 else g * Pow1000(i) }

  lemma ValueStep(groups: seq<nat>, i: nat)
    requires i < |groups|
    ensures ValueDownTo(groups, i) == ValueDownTo(groups, i + 1) + GroupValue(groups[i], i)
  {
  }

  lemma LinkedAppend(parts: seq<seq<string>>, last: seq<string>)
    ensures Linked(parts + [last]) == if parts == [] then last else Linked(parts) + [Speech.AND] + last
  {
    assert (parts + [last])[..|parts|] == parts;
  }

  /** Down to group i > 0 everything read is in the total; the last group stays in `current`. */
  ghost predicate ReadDownTo(r: Speech.Reading, parts: seq<seq<string>>, i: nat, value: int) {
    && r.Going? && r.total + r.current == value
    && (i > 0 ==> r.current == 0) && (parts != [] ==> r.seen) && (parts == [] ==> r == Speech.Start)
  }

  lemma GroupsBelowThousand(g: nat)
    ensures GroupValue(g, 0) == g
  {
  }

  lemma NothingRead(f: Reader, i: nat)
    ensures ReadDownTo(Fold(f, Speech.Start, Linked([])), [], i, 0)
  {
  }

  lemma ReadNextGroup(f: Reader, before: seq<seq<string>>, g: nat, i: nat, value: int)
    requires Knows(f) && 1 <= g <= 999 && i <= 3
    requires ReadDownTo(Fold(f, Speech.Start, Linked(before)), before, i + 1, value)
    ensures var parts := before + [TripletTokens(g) + ScaleTokens(i)];
      ReadDownTo(Fold(f, Speech.Start, Linked(parts)), parts, i, value + GroupValue(g, i))
  {
    hide Fold, Linked, TripletTokens, ScaleTokens, Adds, Scales, Pow1000;
    var r, last := Fold(f, Speech.Start, Linked(before)), TripletTokens(g) + ScaleTokens(i);
    LinkedAppend(before, last);
    GroupReads(f, r.total, r.seen, g, i);
    if before != [] { FoldLink(f, Speech.Start, Linked(before), last); }
    GroupsBelowThousand(g);
  }

  lemma TokensStep(groups: seq<nat>, i: nat)
    requires i < |groups| <= 4 && forall g :: g in groups ==> g <= 999
    ensures groups[i] <= 999
    ensures TokensDownTo(groups, i) ==
      if groups[i] == 0 then TokensDownTo(groups, i + 1)
      else TokensDownTo(groups, i + 1) + [TripletTokens(groups[i]) + ScaleTokens(i)]
  {
    assert groups[i] in groups;
    assert TokensDownTo(groups, i + 1) + [] == TokensDownTo(groups, i + 1);
  }

  lemma {:induction false} GroupsRead(f: Reader, groups: seq<nat>, i: nat)
    requires Knows(f) && i <= |groups| <= 4 && forall g :: g in groups ==> g <= 999
    ensures var parts := TokensDownTo(groups, i);
      ReadDownTo(Fold(f, Speech.Start, Linked(parts)), parts, i, ValueDownTo(groups, i))
    decreases |groups| - i
  {
    hide Fold, Linked, TripletTokens, ScaleTokens, Knows;
    if i == |groups| {
      NothingRead(f, i);
    } else {
      var before, value := TokensDownTo(groups, i + 1), ValueDownTo(groups, i + 1);
      GroupsRead(f, groups, i + 1);
      TokensStep(groups, i);
      ValueStep(groups, i);
      if groups[i] > 0 { ReadNextGroup(f, before, groups[i], i, value); }
    }
  }

  function LittleEndian(groups: seq<nat>): nat {
    if groups == [] then 0 else groups[0] + 1000 * LittleEndian(groups[1..])
  }

  lemma {:induction false} GroupsValue(n: nat)
    ensures LittleEndian(Groups(n)) == n
  {
    if n > 0 {
      GroupsValue(n / 1000);
      assert Groups(n)[1..] == Groups(n / 1000);
    }
  }

  lemma {:induction false} ValueIsLittleEndian(groups: seq<nat>, i: nat)
    requires i <= |groups|
    ensures ValueDownTo(groups, i) == Pow1000(i) * LittleEndian(groups[i..])
    decreases |groups| - i
  {
    if i < |groups| {
      ValueIsLittleEndian(groups, i + 1);
      var rest := LittleEndian(groups[i + 1..]);
      assert groups[i..][1..] == groups[i + 1..];
      assert Pow1000(i + 1) * rest == Pow1000(i) * (1000 * rest);
      assert Pow1000(i) * (groups[i] + 1000 * rest) == Pow1000(i) * groups[i] + Pow1000(i) * (1000 * rest);
    }
  }

  lemma GroupsTotal(n: nat)
    ensures ValueDownTo(Groups(n), 0) == n
  {
    ValueIsLittleEndian(Groups(n), 0);
    assert Groups(n)[0..] == Groups(n);
    GroupsValue(n);
  }

  lemma ReadToEnd(r: Speech.Reading, parts: seq<seq<string>>, value: int)
    requires ReadDownTo(r, parts, 0, value) && parts != []
    ensures Speech.Outcome(r) == Some(value)
  {
  }

  lemma TokensRead(f: Reader, n: nat)
    requires Knows(f) && n <= MAX_SUPPORTED
    ensures Speech.Outcome(Fold(f, Speech.Start, NumberTokens(n))) == Some(n as int)
  {
    AtMostFourGroups(n);
    if n == 0 {
      FoldOne(f, Speech.Start, ZERO);
      assert f(Speech.Going(0, 0, false), ZERO) == Speech.Going(0, 0, true);
    } else {
      PositiveRead(f, n);
    }
  }

  lemma PositiveRead(f: Reader, n: nat)
    requires Knows(f) && 0 < n <= MAX_SUPPORTED && |Groups(n)| <= 4
    ensures Speech.Outcome(Fold(f, Speech.Start, Linked(TokensDownTo(Groups(n), 0)))) == Some(n as int)
  {
    var parts := TokensDownTo(Groups(n), 0);
    GroupsText(Groups(n), 0);
    GroupsRead(f, Groups(n), 0);
    GroupsTotal(n);
    ReadToEnd(Fold(f, Speech.Start, Linked(parts)), parts, n);
  }

  /** The printed words of n, read as the speech side reads them, give n. */
  lemma TokensReadBack(n: nat)
    requires n <= MAX_SUPPORTED
    ensures Speech.WordNumber(NumberTokens(n)) == Some(n as int)
  {
    ReadWordKnows();
    ReadAllIsFold(Speech.Start, NumberTokens(n));
    TokensRead(Speech.ReadWord, n);
  }
}
