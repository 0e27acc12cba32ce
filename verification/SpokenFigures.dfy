/**
 Prices written in figures: in any of three scripts, with or without thousands marks, and with or
 without a scale word behind them.
 */
module SpokenFigures {
  import opened Common
  import opened NumberWords
  import opened SpokenAmounts
  import opened SpokenLists
  import opened SpokenUnits
  import opened SpokenPrices
  import Speech = PriceSpeech

  // ---------- writing a figure ----------

  /** The decimal figure of n, in Latin digits. */
  function Figure(n: nat): string {
    (if n < 10 then "" else Figure(n / 10)) + ['0' + (n % 10) as char]
  }

  predicate IsMark(c: char) { c == ',' || c == '،' || c == '٬' }

  /** The figure with a mark before every third digit from the end. */
  function Marked(s: string, mark: char): string {
    if |s| <= 3 then s else Marked(s[..|s| - 3], mark) + [mark] + s[|s| - 3..]
  }

  /** Zero in the Latin, the Persian and the Arabic script. */
  predicate IsZero(c: char) { c == '0' || c == '۰' || c == '٠' }

  function DigitIn(zero: char, c: char): char
    requires IsZero(zero)
  {
    if '0' <= c <= '9' then zero + (c - '0') else c
  }

  function InScript(zero: char, s: string): string
    requires IsZero(zero)
  {
    if s == "" then "" else [DigitIn(zero, s[0])] + InScript(zero, s[1..])
  }

  lemma {:induction false} FigureRead(n: nat)
    ensures Speech.AllDigits(Figure(n)) && Speech.DigitsValue(Figure(n)) == n
  {
    if n >= 10 { FigureRead(n / 10); }
    var s := Figure(n);
    assert s[|s| - 1] == '0' + (n % 10) as char && s[..|s| - 1] == if n < 10 then "" else Figure(n / 10);
  }

  // ---------- normalising gives the Latin figure back ----------

  predicate DigitsAndMarks(s: string) { forall i :: 0 <= i < |s| ==> Speech.IsDigit(s[i]) || IsMark(s[i]) }

  lemma {:induction false} ScriptIsUndone(zero: char, s: string)
    requires IsZero(zero) && DigitsAndMarks(s)
    ensures Speech.MapDigits(InScript(zero, s)) == s
  {
    if s != "" {
      ScriptIsUndone(zero, s[1..]);
      assert InScript(zero, s)[1..] == InScript(zero, s[1..]);
      assert Speech.LatinDigit(DigitIn(zero, s[0])) == s[0];
    }
  }

  /** A mark with three digits behind it goes, and does not disturb those before it. */
  lemma {:induction false} LastMarkGoes(x: string, mark: char, b: string)
    requires IsMark(mark) && |b| == 3 && Speech.AllDigits(b) && x != "" && Speech.IsDigit(x[|x| - 1])
    ensures Speech.DropThousands(x + [mark] + b) == Speech.DropThousands(x) + b
    decreases |x|
  {
    hide Speech.ThousandsMark;
    var s := x + [mark] + b;
    if |x| == 1 {
      MarkFound(x, mark, b);
      DigitsStay(b);
      assert s[2..] == b && x[1..] == "";
      ShortHasNoMark(x);
    } else {
      MarkUnseen(x, mark, b);
      if Speech.ThousandsMark(x) {
        ShortHasNoMark(x);
        assert s[2..] == x[2..] + [mark] + b;
        LastMarkGoes(x[2..], mark, b);
      } else {
        assert s[1..] == x[1..] + [mark] + b;
        LastMarkGoes(x[1..], mark, b);
      }
    }
  }

  lemma MarkFound(x: string, mark: char, b: string)
    requires |x| == 1 && Speech.IsDigit(x[0]) && IsMark(mark) && |b| == 3 && Speech.AllDigits(b)
    ensures Speech.ThousandsMark(x + [mark] + b)
  {
    assert b[0] in b && b[1] in b && b[2] in b;
  }

  lemma ShortHasNoMark(x: string)
    ensures Speech.ThousandsMark(x) ==> |x| >= 5
  {
  }

  lemma MarkUnseen(x: string, mark: char, b: string)
    requires |x| >= 2 && IsMark(mark) && Speech.IsDigit(x[|x| - 1])
    ensures Speech.ThousandsMark(x + [mark] + b) <==> Speech.ThousandsMark(x)
  {
    var s := x + [mark] + b;
    assert s[|x|] == mark && forall i :: 0 <= i < |x| ==> s[i] == x[i];
  }

  lemma {:induction false} DigitsStay(s: string)
    requires forall i :: 0 <= i < |s| ==> Speech.IsDigit(s[i])
    ensures Speech.DropThousands(s) == s && Speech.SpaceJoiners(s) == s
  {
    if s != "" { DigitsStay(s[1..]); }
  }

  lemma {:induction false} MarksGo(s: string, mark: char)
    requires Speech.AllDigits(s) && IsMark(mark)
    ensures Speech.DropThousands(Marked(s, mark)) == s && DigitsAndMarks(Marked(s, mark))
    ensures Marked(s, mark) != "" && Speech.IsDigit(Marked(s, mark)[|Marked(s, mark)| - 1])
  {
    hide Speech.DropThousands, Speech.IsDigit, IsMark, DigitsAndMarks;
    var k := |s| - 3;
    if k > 0 {
      var x := Marked(s[..k], mark);
      DigitsSplit(s, k);
      MarksGo(s[..k], mark);
      LastMarkGoes(x, mark, s[k..]);
      MarkedOn(x, mark, s[k..]);
    } else {
      DigitsAre(s);
      DigitsStay(s);
    }
  }

  lemma DigitsSplit(s: string, k: nat)
    requires Speech.AllDigits(s) && 0 < k < |s|
    ensures Speech.AllDigits(s[..k]) && Speech.AllDigits(s[k..])
  {
    assert forall c :: c in s[..k] ==> c in s;
    assert forall c :: c in s[k..] ==> c in s;
  }

  lemma DigitsAre(s: string)
    requires Speech.AllDigits(s)
    ensures DigitsAndMarks(s) && forall i :: 0 <= i < |s| ==> Speech.IsDigit(s[i])
  {
    assert forall i :: 0 <= i < |s| ==> s[i] in s;
  }

  lemma MarkedOn(x: string, mark: char, b: string)
    requires DigitsAndMarks(x) && IsMark(mark) && Speech.AllDigits(b)
    ensures DigitsAndMarks(x + [mark] + b) && Speech.IsDigit((x + [mark] + b)[|x| + |b|])
  {
    var s := x + [mark] + b;
    DigitsAre(b);
    forall i | 0 <= i < |s| ensures Speech.IsDigit(s[i]) || IsMark(s[i]) {
      if i > |x| { assert s[i] == b[i - |x| - 1]; }
    }
    assert s[|x| + |b|] == b[|b| - 1];
  }

  /** However a figure is written, the scanner sees its Latin digits. */
  lemma FigureIsSeen(n: nat, zero: char, mark: char)
    requires IsZero(zero) && IsMark(mark)
    ensures Speech.NormalizeDigits(InScript(zero, Figure(n))) == Figure(n)
    ensures Speech.NormalizeDigits(InScript(zero, Marked(Figure(n), mark))) == Figure(n)
    ensures Token(Figure(n))
  {
    hide Speech.NormalizeDigits, Token, InScript, Marked, IsMark, IsZero, Speech.AllDigits, DigitsAndMarks;
    var s := Figure(n);
    FigureRead(n);
    DigitsAre(s);
    DigitsStay(s);
    DigitsToken(s);
    MarksGo(s, mark);
    ScriptIsUndone(zero, s);
    ScriptIsUndone(zero, Marked(s, mark));
    SeenAs(InScript(zero, s), s, s);
    SeenAs(InScript(zero, Marked(s, mark)), Marked(s, mark), s);
  }

  lemma SeenAs(written: string, marked: string, s: string)
    requires Speech.MapDigits(written) == marked && Speech.DropThousands(marked) == s && Speech.SpaceJoiners(s) == s
    ensures Speech.NormalizeDigits(written) == s
  {
  }

  lemma DigitsToken(s: string)
    requires Speech.AllDigits(s)
    ensures Token(s)
  {
    DigitsAre(s);
  }

  // ---------- a figure is a numeral ----------

  lemma FigureIsNoWord(w: string)
    requires w != "" && Speech.IsDigit(w[0])
    ensures PlainValue(w) == None && Speech.ScaleOf(w) == None && w != Speech.AND
  {
  }

  lemma FigureSilent(w: string)
    requires Speech.AllDigits(w)
    ensures Silent(w)
  {
    forall u, i: nat | u in Speech.TOMAN_WORDS + Speech.RIAL_WORDS ensures !Speech.StandsAt(w, i, u) {
      if i + |u| <= |w| {
        assert w[i..i + |u|][0] == w[i] && w[i] in w;
        assert !Speech.IsDigit(u[0]);
      }
    }
  }

  lemma FigureTrims(w: string)
    requires Speech.AllDigits(w)
    ensures Speech.Trim(w) == w
  {
    assert w[0] in w && w[|w| - 1] in w;
  }

  lemma ReadFigure(r: Speech.Reading, w: string)
    requires r.Going? && Speech.AllDigits(w)
    ensures Speech.ReadWord(r, w) == Speech.Going(r.total, r.current + Speech.DigitsValue(w), true)
  {
    hide Speech.OnesOf, Speech.HundredsOf, Speech.ScaleOf, Speech.Trim;
    FigureTrims(w);
    assert w[0] in w;
    FigureIsNoWord(w);
  }

  /** What a figure and its scale word come to; a zero counts as one before a scale word. */
  function Worth(n: nat, i: nat): nat { if i == 0 then n else (if n == 0 then 1 else n) * Pow1000(i) }

  function FigureTokens(n: nat, i: nat): seq<string>
    requires i <= 3
  {
    [Figure(n)] + ScaleTokens(i)
  }

  lemma ReadScale(r: Speech.Reading, i: nat)
    requires r.Going? && r.current >= 0 && 1 <= i <= 3
    ensures Speech.ReadWord(r, SCALE_WORDS[i])
         == Speech.Going(r.total + (if r.current == 0 then 1 else r.current) * Pow1000(i), 0, true)
  {
    hide Speech.OnesOf, Speech.HundredsOf, Speech.ScaleOf, Speech.Trim, Pow1000;
    ScalesPrint(i);
    ScalesRead(i);
    TrimClean(SCALE_WORDS[i]);
    assert SCALE_WORDS[i] != Speech.AND by { ConnectiveIsNoNumber(); }
  }

  lemma FigureWorth(n: nat, i: nat)
    requires i <= 3
    ensures Speech.WordNumber(FigureTokens(n, i)) == Some(Worth(n, i) as int)
  {
    hide Speech.ReadWord, Figure, Pow1000;
    var tokens := FigureTokens(n, i);
    FigureRead(n);
    ReadFigure(Speech.Start, Figure(n));
    assert tokens[1..] == ScaleTokens(i);
    assert Speech.ReadAll(Speech.Start, tokens) == Speech.ReadAll(Speech.Going(0, n, true), ScaleTokens(i));
    if i > 0 {
      ReadScale(Speech.Going(0, n, true), i);
      assert tokens[1..][1..] == [];
    }
  }

  lemma FigureKinds(n: nat, i: nat)
    requires i <= 3
    ensures OneBlock(Speech.Kinds(FigureTokens(n, i)))
  {
    hide Speech.KindOf, Figure;
    FigureRead(n);
    KindsConcat([Figure(n)], ScaleTokens(i));
    KindsOne(Figure(n));
    assert Speech.KindOf(Figure(n)) == Speech.NumberWord by { FigureKind(Figure(n)); }
    if i > 0 {
      ScaleKind(i);
      KindsOne(SCALE_WORDS[i]);
    }
  }

  lemma FigureKind(w: string)
    requires Speech.AllDigits(w)
    ensures Speech.KindOf(w) == Speech.NumberWord
  {
  }

  lemma FigureIsNumeral(n: nat, i: nat)
    requires i <= 3
    ensures Numeral(FigureTokens(n, i), Worth(n, i))
  {
    hide Silent, Speech.WordNumber, OneBlock, Figure;
    FigureRead(n);
    FigureSilent(Figure(n));
    if i > 0 {
      ScaleVocabulary(i);
      VocabularySilent(SCALE_WORDS[i]);
    }
    FigureKinds(n, i);
    FigureWorth(n, i);
  }

  // ---------- a list of written prices in tomans ----------

  /** A figure in one of the scripts, perhaps with marks, a scale word or none, and a toman word. */
  datatype Tag = Tag(n: nat, scale: nat, zero: char, mark: Option<char>, word: string)

  predicate Tagged(tags: seq<Tag>) {
    forall i :: 0 <= i < |tags| ==> TagOK(tags[i])
  }

  predicate TagOK(t: Tag) {
    t.scale <= 3 && IsZero(t.zero) && (t.mark.Some? ==> IsMark(t.mark.value)) && InTomans(t.word)
  }

  function TagText(t: Tag): string
    requires TagOK(t)
  {
    InScript(t.zero, if t.mark.Some? then Marked(Figure(t.n), t.mark.value) else Figure(t.n))
  }

  function TagWords(tags: seq<Tag>): seq<string>
    requires Tagged(tags)
  {
    if tags == [] then []
    else [TagText(tags[0])] + ScaleTokens(tags[0].scale) + [tags[0].word] + TagWords(tags[1..])
  }

  function SaidTags(tags: seq<Tag>): (said: seq<Said>)
    requires Tagged(tags)
    ensures |said| == |tags|
    ensures forall i :: 0 <= i < |said| ==>
              said[i] == Said(FigureTokens(tags[i].n, tags[i].scale), Worth(tags[i].n, tags[i].scale), [tags[i].word])
  {
    seq(|tags|, i requires 0 <= i < |tags| =>
      Said(FigureTokens(tags[i].n, tags[i].scale), Worth(tags[i].n, tags[i].scale), [tags[i].word]))
  }

  lemma TagWritten(t: Tag)
    requires TagOK(t)
    ensures Written([TagText(t)] + ScaleTokens(t.scale) + [t.word], FigureTokens(t.n, t.scale) + [t.word])
  {
    hide Figure, InScript, Marked, Speech.NormalizeDigits, Token, InTomans, UnitWord, Clean;
    FigureIsSeen(t.n, t.zero, t.mark.GetOr(','));
    TomanWords(t.word);
    UnitIsWord(t.word);
    if t.scale > 0 {
      ScalesPrint(t.scale);
      CleanIsPlain(SCALE_WORDS[t.scale]);
    }
  }

  lemma WrittenAppend(a: seq<string>, b: seq<string>, x: seq<string>, y: seq<string>)
    requires Written(a, x) && Written(b, y)
    ensures Written(a + b, x + y)
  {
    hide Speech.NormalizeDigits, Token;
  }

  lemma {:induction false} TagsWritten(tags: seq<Tag>)
    requires Tagged(tags)
    ensures Written(TagWords(tags), TokensOf(SaidTags(tags)))
  {
    hide TagOK, TagText, ScaleTokens, FigureTokens, Written;
    if tags == [] {
      NothingWritten();
    } else {
      var t := tags[0];
      assert t.scale <= 3 by { TagScale(t); }
      TagWritten(t);
      TagsWritten(tags[1..]);
      assert SaidTags(tags)[1..] == SaidTags(tags[1..]);
      WrittenAppend([TagText(t)] + ScaleTokens(t.scale) + [t.word], TagWords(tags[1..]),
                    FigureTokens(t.n, t.scale) + [t.word], TokensOf(SaidTags(tags[1..])));
    }
  }

  lemma TagScale(t: Tag)
    requires TagOK(t)
    ensures t.scale <= 3
  {
  }

  lemma NothingWritten()
    ensures Written([], [])
  {
  }

  lemma TagsWellSaid(tags: seq<Tag>)
    requires Tagged(tags)
    ensures WellSaid(SaidTags(tags)) && TomanBehind(SaidTags(tags))
  {
    hide Numeral, FigureTokens, Worth, InTomans, UnitWord, Speech.KindOf;
    forall i | 0 <= i < |tags|
      ensures Numeral(FigureTokens(tags[i].n, tags[i].scale), Worth(tags[i].n, tags[i].scale))
           && AllOther([tags[i].word]) && TomanTail([tags[i].word])
    {
      assert TagOK(tags[i]);
      FigureIsNumeral(tags[i].n, tags[i].scale);
      TomanWords(tags[i].word);
      UnitKind(tags[i].word);
      assert InTomans([tags[i].word][0]);
    }
  }

  /** The positive figures of a list, times their scale, in tomans. */
  function TagAmounts(tags: seq<Tag>): seq<Amount> {
    if tags == [] then []
    else
      var n := Worth(tags[0].n, tags[0].scale);
      (if n > 0 then [Amount(n, Speech.TOMAN)] else []) + TagAmounts(tags[1..])
  }

  lemma {:induction false} TagsInTomans(tags: seq<Tag>)
    requires Tagged(tags)
    ensures InTomanOnly(SaidTags(tags)) == TagAmounts(tags)
  {
    hide Worth, FigureTokens, TagOK;
    if tags != [] {
      assert SaidTags(tags)[1..] == SaidTags(tags[1..]);
      TagsInTomans(tags[1..]);
    }
  }

  /**
   Any list of prices in figures is read with every figure in order and ten rials to the toman:
   in Latin, Persian or Arabic digits, with or without thousands marks, and times its scale word.
   */
  lemma TagsAreRead(tags: seq<Tag>)
    requires Tagged(tags)
    ensures ReadAs(Speech.Amounts(Join(TagWords(tags), " ")), TagAmounts(tags))
  {
    hide Speech.Amounts, Join, WellSaid, Written, TomanBehind, ReadAs, Tagged;
    TagsWritten(tags);
    TagsWellSaid(tags);
    TomanTextIsRead(TagWords(tags), SaidTags(tags));
    TagsInTomans(tags);
  }
}
