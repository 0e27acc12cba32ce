/**
 Lists of prices with their units: which come out as they were said, for prices in words and in
 figures, with any of the unit words, with other words between them, or with no unit at all.
 */
module SpokenPrices {
  import opened Common
  import opened NumberWords
  import opened SpokenAmounts
  import opened SpokenLists
  import opened SpokenUnits
  import Speech = PriceSpeech

  /** What an amount comes to: the figure said and the unit it is taken to be in. */
  datatype Amount = Amount(n: nat, unit: Speech.Unit)

  /** The amounts extracted, in order, with ten rials to a toman, and to a unit nobody named. */
  ghost predicate ReadAs(out: seq<Speech.Extracted>, amounts: seq<Amount>) {
    && |out| == |amounts|
    && forall i :: 0 <= i < |out| ==>
         && out[i].spoken == amounts[i].n && out[i].unit == amounts[i].unit
         && out[i].rial == (if amounts[i].unit == Speech.RIAL then amounts[i].n else 10 * amounts[i].n)
         && (Speech.NoUnitSpoken in out[i].warnings <==> amounts[i].unit == Speech.UNKNOWN)
         && (Speech.SuspiciouslySmall in out[i].warnings <==> amounts[i].n < 1000)
  }

  function Figures(told: seq<Told>): (r: seq<Amount>)
    ensures |r| == |told| && forall i :: 0 <= i < |r| ==> r[i] == Amount(told[i].n, told[i].unit)
  {
    seq(|told|, i requires 0 <= i < |told| => Amount(told[i].n, told[i].unit))
  }

  lemma ToldIsRead(out: seq<Speech.Extracted>, told: seq<Told>)
    requires TellsAll(out, told)
    ensures ReadAs(out, Figures(told))
  {
    forall i | 0 <= i < |out| ensures Tells(out[i], told[i]) {}
  }

  // ---------- the unit words ----------

  predicate UnitWord(w: string) { w in Speech.TOMAN_WORDS || w in Speech.RIAL_WORDS }

  predicate InTomans(w: string) { w == "تومان" || w == "تومن" || w == "تومون" }

  lemma TomanIsNoNumber(w: string)
    requires InTomans(w)
    ensures PlainValue(w) == None && Speech.ScaleOf(w) == None && w != Speech.AND
  {
    WordCodes();
    assert Code("تومان") == 7972 && Code("تومن") == 6397 && Code("تومون") == 8005;
  }

  lemma UnitCodes(w: string)
    requires UnitWord(w)
    ensures PlainValue(w) == None && Speech.ScaleOf(w) == None && w != Speech.AND
  {
    hide Speech.OnesOf, Speech.HundredsOf, Speech.ScaleOf;
    if w in Speech.TOMAN_WORDS { TomanIsNoNumber(w); } else { UnitIsNoNumber(); }
  }

  lemma UnitLetters(w: string)
    requires UnitWord(w)
    ensures w != "" && Untouched(w) && ' ' !in w
  {
  }

  lemma UnitKind(w: string)
    requires UnitWord(w)
    ensures Speech.KindOf(w) == Speech.Other
  {
    hide UnitWord, Speech.OnesOf, Speech.HundredsOf, Speech.ScaleOf, Untouched;
    UnitCodes(w);
    UnitLetters(w);
    assert !Speech.AllDigits(w) by { UnitIsNoFigure(w); }
  }

  lemma UnitIsNoFigure(w: string)
    requires UnitWord(w)
    ensures !Speech.AllDigits(w)
  {
    UnitLetters(w);
    assert w[0] in w;
  }

  lemma UnitIsWord(w: string)
    requires UnitWord(w)
    ensures Token(w) && Speech.NormalizeDigits(w) == w
  {
    hide UnitWord, Speech.NormalizeDigits;
    UnitLetters(w);
    NormalizeUntouched(w);
    forall i | 0 <= i < |w| ensures !Speech.IsSeparator(w[i]) {
      assert w[i] in w;
      assert Letter(w[i]);
    }
  }

  lemma RialIsNoToman()
    ensures forall u :: u in Speech.TOMAN_WORDS ==> !Speech.Contains("ریال", u)
  {
    NoTomanMeans("ریال");
  }

  lemma ContainsItself(w: string)
    ensures Speech.Contains(w, w)
  {
    assert Speech.StandsAt(w, 0, w);
  }

  lemma TomanNamed(words: seq<string>, w: string)
    requires w in words && w in Speech.TOMAN_WORDS
    ensures UnitOf(words) == Speech.TOMAN
  {
    hide Speech.Contains;
    ContainsItself(w);
  }

  lemma RialNamed(words: seq<string>)
    requires "ریال" in words && forall w :: w in words ==> Silent(w) || w == "ریال"
    ensures UnitOf(words) == Speech.RIAL
  {
    hide Speech.Contains;
    ContainsItself("ریال");
    RialIsNoToman();
    assert "ریال" == Speech.RIAL_WORDS[0];
  }

  lemma TomanWords(w: string)
    ensures (InTomans(w) <==> w in Speech.TOMAN_WORDS) && (InTomans(w) ==> UnitWord(w))
    ensures UnitWord(w) && !InTomans(w) <==> w == "ریال"
  {
    assert Speech.TOMAN_WORDS[0] == "تومان" && Speech.TOMAN_WORDS[1] == "تومن" && Speech.TOMAN_WORDS[2] == "تومون";
    assert Speech.RIAL_WORDS[0] == "ریال";
    RialIsNoToman();
    ContainsItself("ریال");
  }

  // ---------- numbers in words ----------

  lemma NumberIsNumeral(n: nat)
    requires n <= MAX_SUPPORTED
    ensures Numeral(NumberTokens(n), n)
  {
    NumberSilent(n);
    NumberIsBlock(n);
    TokensReadBack(n);
  }

  /** A number said in one word: up to twenty, a multiple of ten, or a multiple of a hundred. */
  predicate Round(n: nat) { n <= 20 || (n < 100 && n % 10 == 0) || (n < 1000 && n % 100 == 0) }

  lemma {:induction false} SinglesLength(words: seq<string>)
    requires words != []
    ensures |Linked(Singles(words))| == 2 * |words| - 1
  {
    var k := |words| - 1;
    LinkedLast(Singles(words));
    if k > 0 {
      assert Singles(words)[..k] == Singles(words[..k]);
      SinglesLength(words[..k]);
    }
  }

  lemma TripletLength(n: nat)
    requires 1 <= n <= 999
    ensures TripletTokens(n) != [] && (|TripletTokens(n)| == 1 <==> Round(n))
  {
    SinglesLength(TripletParts(n));
  }

  /** A number with a scale word is at least two words long. */
  lemma {:induction false} LongNumber(groups: seq<nat>, i: nat)
    requires 1 < |groups| <= 4 && i < |groups| && (forall g :: g in groups ==> g <= 999) && groups[|groups| - 1] > 0
    ensures TokensDownTo(groups, i) != [] && |Linked(TokensDownTo(groups, i))| >= 2
    decreases |groups| - i
  {
    hide Linked, TripletTokens;
    var before := TokensDownTo(groups, i + 1);
    TokensStep(groups, i);
    if i + 1 < |groups| {
      LongNumber(groups, i + 1);
    } else {
      NoGroupsLeft(groups);
      TripletLength(groups[i]);
    }
    if groups[i] > 0 { LinkedAppend(before, TripletTokens(groups[i]) + ScaleTokens(i)); }
  }

  lemma OneWordExactly(n: nat)
    requires n <= MAX_SUPPORTED
    ensures NumberTokens(n) != [] && (|NumberTokens(n)| == 1 <==> Round(n))
  {
    AtMostFourGroups(n);
    if n >= 1000 {
      LongNumber(Groups(n), 0);
    } else if n > 0 {
      assert Groups(n) == [n];
      TokensStep([n], 0);
      NoGroupsLeft([n]);
      LinkedAppend([], TripletTokens(n) + []);
      TripletLength(n);
    }
  }

  // ---------- prices with the unit right behind them ----------

  /** A number and the unit word said after it. */
  datatype Price = Price(n: nat, word: string)

  predicate Spoken(prices: seq<Price>) {
    forall i :: 0 <= i < |prices| ==> prices[i].n <= MAX_SUPPORTED && UnitWord(prices[i].word)
  }

  function SaidPrices(prices: seq<Price>): (said: seq<Said>)
    requires Spoken(prices)
    ensures |said| == |prices|
    ensures forall i :: 0 <= i < |said| ==> said[i] == Said(NumberTokens(prices[i].n), prices[i].n, [prices[i].word])
  {
    seq(|prices|, i requires 0 <= i < |prices| => Said(NumberTokens(prices[i].n), prices[i].n, [prices[i].word]))
  }

  /** The prices as text: the words of each number, and its unit word. */
  function Pronounced(prices: seq<Price>): (r: seq<string>)
    requires Spoken(prices)
    ensures |r| == |prices| && forall i :: 0 <= i < |r| ==> r[i] == Spell(prices[i].n) + " " + prices[i].word
  {
    seq(|prices|, i requires 0 <= i < |prices| => Spell(prices[i].n) + " " + prices[i].word)
  }

  /** The unit that was said. */
  function OwnUnit(p: Price): Speech.Unit { if InTomans(p.word) then Speech.TOMAN else Speech.RIAL }

  /** A toman word stands near: right before the number, or after it and a next number of one word. */
  predicate TomanNear(prices: seq<Price>, i: nat)
    requires i < |prices|
  {
    || (i > 0 && InTomans(prices[i - 1].word))
    || (i + 1 < |prices| && InTomans(prices[i + 1].word) && Round(prices[i + 1].n))
  }

  function HeardUnit(prices: seq<Price>, i: nat): Speech.Unit
    requires i < |prices|
  {
    if TomanNear(prices, i) then Speech.TOMAN else OwnUnit(prices[i])
  }

  function HeardPrices(prices: seq<Price>, i: nat): seq<Amount>
    requires i <= |prices|
    decreases |prices| - i
  {
    if i == |prices| then []
    else (if prices[i].n > 0 then [Amount(prices[i].n, HeardUnit(prices, i))] else []) + HeardPrices(prices, i + 1)
  }

  /** What was said: every positive price in its own unit. */
  function OwnPrices(prices: seq<Price>, i: nat): seq<Amount>
    requires i <= |prices|
    decreases |prices| - i
  {
    if i == |prices| then []
    else (if prices[i].n > 0 then [Amount(prices[i].n, OwnUnit(prices[i]))] else []) + OwnPrices(prices, i + 1)
  }

  lemma PricesWellSaid(prices: seq<Price>)
    requires Spoken(prices)
    ensures WellSaid(SaidPrices(prices))
  {
    hide Numeral, NumberTokens, UnitWord, Speech.KindOf;
    forall i | 0 <= i < |prices|
      ensures Numeral(NumberTokens(prices[i].n), prices[i].n) && AllOther([prices[i].word])
    {
      NumberIsNumeral(prices[i].n);
      UnitKind(prices[i].word);
    }
  }

  /** The words around price i: where it stands in the list is all that matters. */
  ghost predicate Preceded(before: seq<string>, prices: seq<Price>, i: nat)
    requires i <= |prices|
  {
    if i == 0 then before == []
    else |before| >= 2 && before[|before| - 1] == prices[i - 1].word && Silent(before[|before| - 2])
  }

  lemma SaidStep(prices: seq<Price>, i: nat)
    requires Spoken(prices) && i < |prices|
    ensures var said := SaidPrices(prices)[i..];
      && said != [] && said[0] == Said(NumberTokens(prices[i].n), prices[i].n, [prices[i].word])
      && said[1..] == SaidPrices(prices)[i + 1..]
  {
  }

  lemma PrecededNext(before: seq<string>, prices: seq<Price>, i: nat)
    requires Spoken(prices) && i < |prices|
    ensures Preceded(before + NumberTokens(prices[i].n) + [prices[i].word], prices, i + 1)
  {
    hide Silent;
    var words := NumberTokens(prices[i].n);
    OneWordExactly(prices[i].n);
    NumberSilent(prices[i].n);
    assert words[|words| - 1] in words;
  }

  /** The two words in front of price i and the three behind it. */
  ghost function Around(before: seq<string>, prices: seq<Price>, i: nat): seq<string>
    requires Spoken(prices) && i < |prices|
  {
    LastTwo(before) + First([prices[i].word] + TokensOf(SaidPrices(prices)[i + 1..]), 3)
  }

  lemma BehindLast(prices: seq<Price>, i: nat)
    requires Spoken(prices) && i + 1 == |prices|
    ensures First([prices[i].word] + TokensOf(SaidPrices(prices)[i + 1..]), 3) == [prices[i].word]
  {
  }

  lemma BehindOthers(prices: seq<Price>, i: nat)
    requires Spoken(prices) && i + 1 < |prices|
    ensures var after := First([prices[i].word] + TokensOf(SaidPrices(prices)[i + 1..]), 3);
      && |after| == 3 && after[0] == prices[i].word && Silent(after[1])
      && (Round(prices[i + 1].n) ==> after[2] == prices[i + 1].word)
      && (!Round(prices[i + 1].n) ==> Silent(after[2]))
  {
    hide Silent, NumberTokens;
    var words, rest := NumberTokens(prices[i + 1].n), TokensOf(SaidPrices(prices)[i + 2..]);
    SaidStep(prices, i + 1);
    OneWordExactly(prices[i + 1].n);
    NumberSilent(prices[i + 1].n);
    var all := [prices[i].word] + (words + [prices[i + 1].word] + rest);
    assert TokensOf(SaidPrices(prices)[i + 1..]) == words + [prices[i + 1].word] + rest;
    assert words[0] in words && all[1] == words[0];
    if |words| > 1 { assert words[1] in words && all[2] == words[1]; }
  }

  /** The units named around price i. */
  lemma UnitAround(before: seq<string>, prices: seq<Price>, i: nat)
    requires Spoken(prices) && i < |prices| && Preceded(before, prices, i)
    ensures UnitOf(Around(before, prices, i)) == HeardUnit(prices, i)
  {
    hide Silent, UnitOf, UnitWord, InTomans, NumberTokens, Round;
    var words := Around(before, prices, i);
    var front, after := LastTwo(before), First([prices[i].word] + TokensOf(SaidPrices(prices)[i + 1..]), 3);
    TomanWords(prices[i].word);
    if i > 0 { TomanWords(prices[i - 1].word); assert front[1] == prices[i - 1].word; }
    if i + 1 < |prices| {
      BehindOthers(prices, i);
      TomanWords(prices[i + 1].word);
    } else {
      BehindLast(prices, i);
    }
    assert after[0] == prices[i].word;
    if HeardUnit(prices, i) == Speech.TOMAN {
      var w := if InTomans(prices[i].word) then prices[i].word
               else if i > 0 && InTomans(prices[i - 1].word) then prices[i - 1].word else prices[i + 1].word;
      assert w in words;
      TomanNamed(words, w);
    } else {
      RialNamed(words);
    }
  }

  lemma {:induction false} HeardInPlace(before: seq<string>, prices: seq<Price>, i: nat)
    requires Spoken(prices) && i <= |prices| && Preceded(before, prices, i)
    ensures Figures(Heard(before, SaidPrices(prices)[i..])) == HeardPrices(prices, i)
    decreases |prices| - i
  {
    hide NumberTokens, HeardUnit, Preceded, UnitOf, LastTwo, First, UnitWord, Heard, TokensOf, Figures;
    var said := SaidPrices(prices)[i..];
    if i < |prices| {
      var next := before + NumberTokens(prices[i].n) + [prices[i].word];
      SaidStep(prices, i);
      HeardFigures(before, said);
      UnitAround(before, prices, i);
      PrecededNext(before, prices, i);
      HeardInPlace(next, prices, i + 1);
    } else {
      NothingHeard(before);
      assert said == [];
    }
  }

  lemma NothingSaid()
    ensures TokensOf([]) == []
  {
  }

  lemma NothingHeard(before: seq<string>)
    ensures Figures(Heard(before, [])) == []
  {
  }

  /** What the first number adds to the figures. */
  lemma HeardFigures(before: seq<string>, said: seq<Said>)
    requires said != []
    ensures var x := said[0];
      Figures(Heard(before, said))
      == (if x.n > 0 then [Amount(x.n, UnitOf(LastTwo(before) + First(x.tail + TokensOf(said[1..]), 3)))] else [])
         + Figures(Heard(before + x.words + x.tail, said[1..]))
  {
    hide Join, UnitOf, LastTwo, First, Heard, TokensOf;
    var x, after := said[0], said[0].tail + TokensOf(said[1..]);
    var told := Told(x.n, UnitOf(LastTwo(before) + First(after, 3)), Join(x.words + First(after, 2), " "));
    HeardStep(before, said);
    FiguresJoin(if x.n > 0 then [told] else [], Heard(before + x.words + x.tail, said[1..]));
  }

  lemma FiguresJoin(a: seq<Told>, b: seq<Told>)
    ensures Figures(a + b) == Figures(a) + Figures(b)
  {
  }

  // ---------- the text ----------

  lemma {:induction false} TextOfSaid(said: seq<Said>, texts: seq<string>)
    requires |texts| == |said|
    requires forall i :: 0 <= i < |said| ==>
               said[i].words + said[i].tail != [] && texts[i] == Join(said[i].words + said[i].tail, " ")
    ensures Join(texts, " ") == Join(TokensOf(said), " ") && (said != [] ==> TokensOf(said) != [])
  {
    hide Join;
    if said == [] {
      assert texts == [];
    } else {
      var first := said[0].words + said[0].tail;
      TextOfSaid(said[1..], texts[1..]);
      JoinOne(texts[0], " ");
      assert texts == [texts[0]] + texts[1..];
      if |said| > 1 {
        JoinConcat([texts[0]], texts[1..], " ");
        JoinConcat(first, TokensOf(said[1..]), " ");
      } else {
        assert texts == [texts[0]] && TokensOf(said) == first + [] == first;
      }
    }
  }

  lemma PriceText(p: Price)
    requires p.n <= MAX_SUPPORTED
    ensures Spell(p.n) + " " + p.word == Join(NumberTokens(p.n) + [p.word], " ")
  {
    hide Spell, NumberTokens, Join;
    SpellIsTokens(p.n);
    JoinOne(p.word, " ");
    JoinConcat(NumberTokens(p.n), [p.word], " ");
  }

  lemma PricesText(prices: seq<Price>)
    requires Spoken(prices)
    ensures Join(Pronounced(prices), " ") == Join(TokensOf(SaidPrices(prices)), " ")
  {
    hide Spell, NumberTokens, Join, UnitWord;
    var said := SaidPrices(prices);
    forall i | 0 <= i < |said|
      ensures said[i].words + said[i].tail != []
           && Pronounced(prices)[i] == Join(said[i].words + said[i].tail, " ")
    {
      PriceText(prices[i]);
    }
    TextOfSaid(said, Pronounced(prices));
  }

  ghost predicate Plain(w: string) { Token(w) && Speech.NormalizeDigits(w) == w }

  lemma CleanIsPlain(w: string)
    requires Clean(w)
    ensures Plain(w)
  {
    NormalizeUntouched(w);
    CleanIsToken([w]);
    assert w in [w];
  }

  lemma {:induction false} PlainTokens(said: seq<Said>)
    requires forall i :: 0 <= i < |said| ==> forall w :: w in said[i].words + said[i].tail ==> Plain(w)
    ensures forall w :: w in TokensOf(said) ==> Plain(w)
  {
    hide Plain;
    if said != [] { PlainTokens(said[1..]); }
  }

  lemma PlainIsWritten(tokens: seq<string>)
    requires forall w :: w in tokens ==> Plain(w)
    ensures Written(tokens, tokens)
  {
    hide Token, Speech.NormalizeDigits;
    forall i | 0 <= i < |tokens| ensures Plain(tokens[i]) { assert tokens[i] in tokens; }
  }

  lemma PricesWritten(prices: seq<Price>)
    requires Spoken(prices)
    ensures Written(TokensOf(SaidPrices(prices)), TokensOf(SaidPrices(prices)))
  {
    hide NumberTokens, UnitWord, Clean, Token, Speech.NormalizeDigits;
    var said := SaidPrices(prices);
    forall i, w | 0 <= i < |said| && w in said[i].words + said[i].tail ensures Plain(w) {
      NumberClean(prices[i].n);
      if w in said[i].words { CleanIsPlain(w); } else { UnitIsWord(prices[i].word); }
    }
    PlainTokens(said);
    PlainIsWritten(TokensOf(said));
  }

  /**
   Any list of numbers in words, each with a toman or rial word behind it, is read back with every
   figure in order and with the unit said, except that a toman word near a rial price wins.
   */
  lemma PricesAreRead(prices: seq<Price>)
    requires Spoken(prices)
    ensures ReadAs(Speech.Amounts(Join(Pronounced(prices), " ")), HeardPrices(prices, 0))
  {
    hide Speech.Amounts, Join, Written, WellSaid, Heard;
    var said := SaidPrices(prices);
    PricesText(prices);
    PricesWritten(prices);
    PricesWellSaid(prices);
    assert [] + TokensOf(said) == TokensOf(said);
    AmountsAreHeard(TokensOf(said), [], said);
    assert said[0..] == said;
    HeardInPlace([], prices, 0);
    ToldIsRead(Speech.Amounts(Join(TokensOf(said), " ")), Heard([], said));
  }

  // ---------- when every price keeps its own unit ----------

  lemma {:induction false} SameFigures(prices: seq<Price>, i: nat)
    requires i <= |prices|
    ensures HeardPrices(prices, i) == OwnPrices(prices, i)
        <==> forall j :: i <= j < |prices| && prices[j].n > 0 ==> HeardUnit(prices, j) == OwnUnit(prices[j])
    decreases |prices| - i
  {
    hide HeardUnit, OwnUnit, HeardPrices, OwnPrices;
    if i < |prices| {
      SameFigures(prices, i + 1);
      FirstFigure(prices, i);
    } else {
      NoFigures(prices);
    }
  }

  lemma NoFigures(prices: seq<Price>)
    ensures HeardPrices(prices, |prices|) == OwnPrices(prices, |prices|) == []
  {
  }

  lemma FirstFigure(prices: seq<Price>, i: nat)
    requires i < |prices|
    ensures HeardPrices(prices, i) == OwnPrices(prices, i)
        <==> (prices[i].n > 0 ==> HeardUnit(prices, i) == OwnUnit(prices[i]))
             && HeardPrices(prices, i + 1) == OwnPrices(prices, i + 1)
  {
    hide HeardUnit, OwnUnit;
    var p, heard, own := prices[i], HeardPrices(prices, i + 1), OwnPrices(prices, i + 1);
    if p.n > 0 {
      assert HeardPrices(prices, i) == [Amount(p.n, HeardUnit(prices, i))] + heard;
      assert OwnPrices(prices, i) == [Amount(p.n, OwnUnit(p))] + own;
      SameHead(Amount(p.n, HeardUnit(prices, i)), Amount(p.n, OwnUnit(p)), heard, own);
    } else {
      assert HeardPrices(prices, i) == heard && OwnPrices(prices, i) == own;
    }
  }

  lemma SameHead<T>(a: T, b: T, x: seq<T>, y: seq<T>)
    ensures [a] + x == [b] + y <==> a == b && x == y
  {
    assert ([a] + x)[0] == a && ([b] + y)[0] == b && ([a] + x)[1..] == x && ([b] + y)[1..] == y;
  }

  lemma {:induction false} OwnIsRead(out: seq<Speech.Extracted>, a: seq<Amount>, b: seq<Amount>)
    requires ReadAs(out, a) && ReadAs(out, b)
    ensures a == b
  {
    forall i | 0 <= i < |a| ensures a[i] == b[i] { assert out[i].unit == a[i].unit == b[i].unit; }
  }

  /**
   Every price comes out in the unit it was said in if and only if no positive rial price stands
   right behind a toman price, or right before a toman price whose number is a single word.
   */
  lemma OwnUnitExactly(prices: seq<Price>)
    requires Spoken(prices)
    ensures ReadAs(Speech.Amounts(Join(Pronounced(prices), " ")), OwnPrices(prices, 0))
        <==> forall i :: 0 <= i < |prices| && prices[i].n > 0 && prices[i].word == "ریال" ==> !TomanNear(prices, i)
  {
    hide Speech.Amounts, Join, TomanNear;
    var out := Speech.Amounts(Join(Pronounced(prices), " "));
    PricesAreRead(prices);
    SameFigures(prices, 0);
    forall i | 0 <= i < |prices|
      ensures HeardUnit(prices, i) == OwnUnit(prices[i]) <==> (prices[i].word == "ریال" ==> !TomanNear(prices, i))
    {
      TomanWords(prices[i].word);
    }
    if ReadAs(out, OwnPrices(prices, 0)) { OwnIsRead(out, HeardPrices(prices, 0), OwnPrices(prices, 0)); }
  }

  /** Prices in tomans, whichever of the three words is said: ten rials to each, in order. */
  lemma TomansAreRead(prices: seq<Price>)
    requires Spoken(prices) && forall i :: 0 <= i < |prices| ==> InTomans(prices[i].word)
    ensures ReadAs(Speech.Amounts(Join(Pronounced(prices), " ")), OwnPrices(prices, 0))
    ensures forall a :: a in OwnPrices(prices, 0) ==> a.unit == Speech.TOMAN
  {
    hide Speech.Amounts, Join, Pronounced, Spoken, InTomans, TomanNear, ReadAs, OwnPrices;
    OwnUnitExactly(prices);
    forall i | 0 <= i < |prices| ensures prices[i].word != "ریال" { TomanIsNotRial(prices[i].word); }
    OwnInTomans(prices, 0);
  }

  lemma TomanIsNotRial(w: string)
    requires InTomans(w)
    ensures w != "ریال"
  {
  }

  lemma {:induction false} OwnInTomans(prices: seq<Price>, i: nat)
    requires i <= |prices| && forall j :: 0 <= j < |prices| ==> InTomans(prices[j].word)
    ensures forall a :: a in OwnPrices(prices, i) ==> a.unit == Speech.TOMAN
    decreases |prices| - i
  {
    if i < |prices| { OwnInTomans(prices, i + 1); }
  }

  /** "Fifty thousand tomans, a hundred rials": the rials are read as tomans. */
  lemma RialBehindToman()
    ensures var prices := [Price(50_000, "تومان"), Price(100, "ریال")];
      && Spoken(prices)
      && ReadAs(Speech.Amounts(Join(Pronounced(prices), " ")),
                [Amount(50_000, Speech.TOMAN), Amount(100, Speech.TOMAN)])
  {
    hide Speech.Amounts, Join, Pronounced;
    var prices := [Price(50_000, "تومان"), Price(100, "ریال")];
    TomanWords("تومان");
    TomanWords("ریال");
    PricesAreRead(prices);
    assert HeardPrices(prices, 2) == [];
  }

  // ---------- prices with other words between them ----------

  /** What was said: every positive number in the unit named by the words after it. */
  ghost function OwnSaid(said: seq<Said>): seq<Amount> {
    if said == [] then []
    else (if said[0].n > 0 then [Amount(said[0].n, UnitOf(said[0].tail))] else []) + OwnSaid(said[1..])
  }

  /** At least three words after each number but the last, and of all of them only the first may name a unit. */
  ghost predicate Apart(said: seq<Said>) {
    && (forall i :: 0 <= i < |said| ==> forall w :: w in said[i].tail[Min(1, |said[i].tail|)..] ==> Silent(w))
    && (forall i :: 0 <= i < |said| - 1 ==> |said[i].tail| >= 3)
  }

  lemma ApartRest(said: seq<Said>)
    requires Apart(said) && said != []
    ensures Apart(said[1..]) && (said[1..] != [] ==> |said[0].tail| >= 3)
    ensures forall w :: w in said[0].tail[Min(1, |said[0].tail|)..] ==> Silent(w)
  {
    hide Silent;
  }

  lemma ApartUnit(before: seq<string>, tail: seq<string>, rest: seq<string>)
    requires AllSilent(LastTwo(before)) && (rest != [] ==> |tail| >= 3)
    requires forall w :: w in tail[Min(1, |tail|)..] ==> Silent(w)
    ensures UnitOf(LastTwo(before) + First(tail + rest, 3)) == UnitOf(tail)
  {
    hide Silent, UnitOf;
    var telling, words := tail[..Min(1, |tail|)], LastTwo(before) + First(tail + rest, 3);
    assert tail == telling + tail[Min(1, |tail|)..];
    SilenceChangesNothing(tail, telling);
    assert First(tail + rest, 3) == tail[..Min(3, |tail|)] by { if rest == [] { assert tail + rest == tail; } }
    if tail != [] { assert tail[0] == tail[..Min(3, |tail|)][0]; }
    SilenceChangesNothing(words, telling);
  }

  lemma QuietEnd(before: seq<string>, tail: seq<string>)
    requires |tail| >= 3 && forall w :: w in tail[1..] ==> Silent(w)
    ensures AllSilent(LastTwo(before + tail))
  {
    hide Silent;
    var k := |tail|;
    assert LastTwo(before + tail) == [tail[k - 2], tail[k - 1]];
    assert tail[k - 2] == tail[1..][k - 3] && tail[k - 1] == tail[1..][k - 2];
  }

  lemma {:induction false} HeardApart(before: seq<string>, said: seq<Said>)
    requires Apart(said) && (said != [] ==> AllSilent(LastTwo(before)))
    ensures Figures(Heard(before, said)) == OwnSaid(said)
    decreases said
  {
    hide UnitOf, LastTwo, First, Silent, Apart, AllSilent, Heard, TokensOf, Figures;
    if said == [] {
      NothingHeard(before);
    } else {
      var x, next := said[0], before + said[0].words + said[0].tail;
      ApartRest(said);
      HeardFigures(before, said);
      if said[1..] != [] { QuietEnd(before + x.words, x.tail); } else { NothingSaid(); }
      ApartUnit(before, x.tail, TokensOf(said[1..]));
      HeardApart(next, said[1..]);
    }
  }

  lemma NothingBefore()
    ensures AllSilent(LastTwo([]))
  {
  }

  /**
   With three words or more between the numbers, and no unit named but right behind a number, every
   amount comes out in its own unit, whichever units are mixed.
   */
  lemma ApartIsRead(raw: seq<string>, said: seq<Said>)
    requires WellSaid(said) && Written(raw, TokensOf(said)) && Apart(said)
    ensures ReadAs(Speech.Amounts(Join(raw, " ")), OwnSaid(said))
  {
    hide Speech.Amounts, Join, Written, WellSaid, Heard, Apart;
    assert [] + TokensOf(said) == TokensOf(said);
    AmountsAreHeard(raw, [], said);
    NothingBefore();
    HeardApart([], said);
    ToldIsRead(Speech.Amounts(Join(raw, " ")), Heard([], said));
  }

  // ---------- prices without a unit ----------

  ghost function Unnamed(said: seq<Said>): seq<Amount> {
    if said == [] then []
    else (if said[0].n > 0 then [Amount(said[0].n, Speech.UNKNOWN)] else []) + Unnamed(said[1..])
  }

  lemma {:induction false} TokensSilent(said: seq<Said>)
    requires forall i :: 0 <= i < |said| ==> AllSilent(said[i].words) && AllSilent(said[i].tail)
    ensures AllSilent(TokensOf(said))
  {
    hide Silent;
    if said != [] { TokensSilent(said[1..]); }
  }

  lemma SilentAround(before: seq<string>, after: seq<string>)
    requires AllSilent(before) && AllSilent(after)
    ensures UnitOf(LastTwo(before) + First(after, 3)) == Speech.UNKNOWN
  {
    hide Silent, UnitOf;
    SilentNamesNothing(LastTwo(before) + First(after, 3));
  }

  lemma {:induction false} HeardUnnamed(before: seq<string>, said: seq<Said>)
    requires AllSilent(before)
    requires forall i :: 0 <= i < |said| ==> AllSilent(said[i].words) && AllSilent(said[i].tail)
    ensures Figures(Heard(before, said)) == Unnamed(said)
    decreases said
  {
    hide UnitOf, LastTwo, First, Silent, Heard, TokensOf, Figures;
    if said == [] {
      NothingHeard(before);
    } else {
      var x, next := said[0], before + said[0].words + said[0].tail;
      TokensSilent(said[1..]);
      HeardFigures(before, said);
      SilentAround(before, x.tail + TokensOf(said[1..]));
      HeardUnnamed(next, said[1..]);
    }
  }

  /** Where no unit is named, tomans are taken to be meant, and every amount is warned about. */
  lemma UnnamedIsToman(raw: seq<string>, said: seq<Said>)
    requires WellSaid(said) && Written(raw, TokensOf(said))
    requires forall i :: 0 <= i < |said| ==> AllSilent(said[i].tail)
    ensures ReadAs(Speech.Amounts(Join(raw, " ")), Unnamed(said))
  {
    hide Speech.Amounts, Join, Written, OneBlock, Silent, Heard, Speech.WordNumber;
    assert [] + TokensOf(said) == TokensOf(said);
    AmountsAreHeard(raw, [], said);
    HeardUnnamed([], said);
    ToldIsRead(Speech.Amounts(Join(raw, " ")), Heard([], said));
  }

  /** A number alone in its text: tomans, with a warning that no unit was said. */
  lemma LoneNumberIsToman(n: nat)
    requires n <= MAX_SUPPORTED
    ensures ReadAs(Speech.Amounts(Spell(n)), if n > 0 then [Amount(n, Speech.UNKNOWN)] else [])
  {
    hide Speech.Amounts, Join, Numeral, NumberTokens, Spell, Plain;
    var tokens := NumberTokens(n);
    var said := [Said(tokens, n, [])];
    NumberIsNumeral(n);
    NumberClean(n);
    SpellIsTokens(n);
    forall w | w in tokens ensures Plain(w) { CleanIsPlain(w); }
    assert TokensOf(said) == tokens;
    PlainIsWritten(tokens);
    UnnamedIsToman(tokens, said);
    assert Unnamed(said[1..]) == [];
  }

  // ---------- tomans near every number ----------

  ghost function InTomanOnly(said: seq<Said>): seq<Amount> {
    if said == [] then []
    else (if said[0].n > 0 then [Amount(said[0].n, Speech.TOMAN)] else []) + InTomanOnly(said[1..])
  }

  /** A toman word within three words behind every number. */
  ghost predicate TomanBehind(said: seq<Said>) {
    forall i :: 0 <= i < |said| ==> TomanTail(said[i].tail)
  }

  ghost predicate TomanTail(tail: seq<string>) { exists k :: 0 <= k < Min(3, |tail|) && InTomans(tail[k]) }

  lemma TomanAround(before: seq<string>, tail: seq<string>, rest: seq<string>)
    requires TomanTail(tail)
    ensures UnitOf(LastTwo(before) + First(tail + rest, 3)) == Speech.TOMAN
  {
    hide UnitOf, InTomans;
    var k :| 0 <= k < Min(3, |tail|) && InTomans(tail[k]);
    TomanWords(tail[k]);
    assert First(tail + rest, 3)[k] == tail[k];
    TomanNamed(LastTwo(before) + First(tail + rest, 3), tail[k]);
  }

  lemma {:induction false} HeardInTomans(before: seq<string>, said: seq<Said>)
    requires TomanBehind(said)
    ensures Figures(Heard(before, said)) == InTomanOnly(said)
    decreases said
  {
    hide UnitOf, LastTwo, First, TomanTail, Heard, TokensOf, Figures;
    if said == [] {
      NothingHeard(before);
    } else {
      var x, next := said[0], before + said[0].words + said[0].tail;
      HeardFigures(before, said);
      TomanAround(before, x.tail, TokensOf(said[1..]));
      HeardInTomans(next, said[1..]);
    }
  }

  lemma TomanTextIsRead(raw: seq<string>, said: seq<Said>)
    requires WellSaid(said) && Written(raw, TokensOf(said)) && TomanBehind(said)
    ensures ReadAs(Speech.Amounts(Join(raw, " ")), InTomanOnly(said))
  {
    hide Speech.Amounts, Join, Written, WellSaid, Heard, TomanBehind;
    assert [] + TokensOf(said) == TokensOf(said);
    AmountsAreHeard(raw, [], said);
    HeardInTomans([], said);
    ToldIsRead(Speech.Amounts(Join(raw, " ")), Heard([], said));
  }
}
