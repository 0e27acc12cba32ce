/**
 A bargaining call from its transcript to the products asked about: the names found in the text, and
 the prices said after them.
 */
module QuoteText {
  import opened Common
  import opened NumberWords
  import opened SpokenAmounts
  import opened SpokenLists
  import opened SpokenUnits
  import opened SpokenPrices
  import opened QuoteMatching
  import Speech = PriceSpeech

  // ---------- searching the text ----------

  /** `indexOf`: the first place from `from` on. */
  function FirstAt(s: string, part: string, from: nat): (r: Option<nat>)
    ensures r.Some? ==> from <= r.value && Speech.StandsAt(s, r.value, part)
    ensures forall i: nat :: from <= i && (r.Some? ==> i < r.value) ==> !Speech.StandsAt(s, i, part)
    decreases |s| - from
  {
    if from > |s| then None
    else if Speech.StandsAt(s, from, part) then Some(from)
    else FirstAt(s, part, from + 1)
  }

  /** The text between white space. */
  function SplitName(name: string, word: string): seq<string> {
    if name == "" then [word]
    else if IsSpace(name[0]) then [word] + SplitName(name[1..], "")
    else SplitName(name[1..], word + [name[0]])
  }

  predicate Telling(w: string) { |w| >= 3 && !Speech.AllDigits(w) }

  function TellingOnes(ws: seq<string>): (r: seq<string>)
    ensures forall w :: w in r <==> w in ws && Telling(w)
  {
    if ws == [] then []
    else TellingOnes(ws[..|ws| - 1]) + (if Telling(ws[|ws| - 1]) then [ws[|ws| - 1]] else [])
  }

  /** The words of a product's name worth looking for. */
  function TellingWords(name: string): seq<string> { TellingOnes(SplitName(name, "")) }

  /** The word is in the text, and the phrase of the amount stands at or after its first place. */
  predicate HeardIn(clean: string, amounts: seq<Speech.Extracted>, word: string, a: nat) {
    && a < |amounts|
    && var at := FirstAt(clean, word, 0); at.Some? && FirstAt(clean, amounts[a].phrase, at.value).Some?
  }

  function Ear(clean: string, amounts: seq<Speech.Extracted>): (string, nat) -> bool {
    (word: string, a: nat) => HeardIn(clean, amounts, word, a)
  }

  // ---------- the suggestion for a transcript ----------

  /** What a product is shown with: a price, and whether only the order speaks for it. */
  datatype Quote = NoQuote | Quoted(price: Speech.Extracted, guessed: bool)

  function QuoteOf(m: Match, amounts: seq<Speech.Extracted>): Quote
    requires m.Given().Some? ==> m.Given().value < |amounts|
  {
    match m
    case NoAmount => NoQuote
    case ByName(a) => Quoted(amounts[a], false)
    case ByOrder(a) => Quoted(amounts[a], true)
  }

  function AllTelling(names: seq<string>): (r: seq<seq<string>>)
    ensures |r| == |names| && forall p :: 0 <= p < |r| ==> r[p] == TellingWords(names[p])
  {
    seq(|names|, p requires 0 <= p < |names| => TellingWords(names[p]))
  }

  /** The quotes are those of the one suggestion that names and order allow. */
  ghost predicate Quotes(transcript: string, names: seq<string>, quotes: seq<Quote>) {
    var amounts := Speech.Amounts(transcript);
    exists matches: seq<Match> ::
      && Suggested(matches, AllTelling(names), |amounts|, Ear(Speech.NormalizeDigits(transcript), amounts))
      && |quotes| == |names|
      && forall p :: 0 <= p < |names| ==>
           && (matches[p].Given().Some? ==> matches[p].Given().value < |amounts|)
           && quotes[p] == QuoteOf(matches[p], amounts)
  }

  method QuotesFor(transcript: string, names: seq<string>) returns (quotes: seq<Quote>)
    ensures Quotes(transcript, names, quotes)
  {
    hide Speech.Amounts, Speech.NormalizeDigits, Suggested, UsedOnce, NothingLeftOver;
    var clean := Speech.NormalizeDigits(transcript);
    var amounts := Speech.ExtractAmounts(transcript);
    var matches := SuggestQuotes(AllTelling(names), |amounts|, Ear(clean, amounts));
    quotes := seq(|names|, p requires 0 <= p < |names| => QuoteOf(matches[p], amounts));
  }

  // ---------- where a word stands ----------

  /** Where the words behind `before` begin. */
  function Place(before: seq<string>): nat { if before == [] then 0 else |Join(before, " ")| + 1 }

  lemma FoundOnASide(a: string, b: string, part: string, i: nat)
    requires ' ' !in part && part != "" && Speech.StandsAt(a + " " + b, i, part)
    ensures (i + |part| <= |a| && Speech.StandsAt(a, i, part)) || (i > |a| && Speech.StandsAt(b, i - |a| - 1, part))
  {
    var s := a + " " + b;
    assert s[|a|] == ' ' && forall k :: 0 <= k < |part| ==> s[i + k] == s[i..i + |part|][k] && part[k] in part;
    if i + |part| <= |a| {
      assert a[i..i + |part|] == s[i..i + |part|];
    } else if i > |a| {
      assert b[i - |a| - 1..i - |a| - 1 + |part|] == s[i..i + |part|];
    } else {
      assert false;
    }
  }

  lemma NowhereIn(words: seq<string>, part: string, i: nat)
    requires ' ' !in part && part != "" && forall w :: w in words ==> !Speech.Contains(w, part)
    ensures !Speech.StandsAt(Join(words, " "), i, part)
  {
    ContainsJoined(words, part);
  }

  /** A word that is part of no other stands in the text in one place only. */
  lemma OnlyPlace(before: seq<string>, part: string, after: seq<string>, i: nat)
    requires ' ' !in part && part != "" && forall w :: w in before + after ==> !Speech.Contains(w, part)
    requires Speech.StandsAt(Join(before + [part] + after, " "), i, part)
    ensures i == Place(before)
  {
    hide Join, Speech.Contains;
    var left := Join(before + [part], " ");
    if after != [] {
      JoinConcat(before + [part], after, " ");
      FoundOnASide(left, Join(after, " "), part, i);
      if i > |left| { NowhereIn(after, part, i - |left| - 1); }
    } else {
      assert before + [part] + after == before + [part];
    }
    assert Speech.StandsAt(left, i, part);
    JoinOne(part, " ");
    if before != [] {
      JoinConcat(before, [part], " ");
      FoundOnASide(Join(before, " "), part, part, i);
      NowhereIn(before, part, i);
    } else {
      assert before + [part] == [part];
    }
  }

  /** Words stand in the text where they were put. */
  lemma StandsInPlace(before: seq<string>, words: seq<string>, after: seq<string>)
    requires words != []
    ensures Speech.StandsAt(Join(before + words + after, " "), Place(before), Join(words, " "))
  {
    hide Join;
    var own, i := Join(words, " "), Place(before);
    var left := Join(before + words, " ");
    if before != [] {
      JoinConcat(before, words, " ");
      assert left == Join(before, " ") + " " + own;
    } else {
      assert before + words == words;
    }
    assert left[i..i + |own|] == own && i + |own| <= |left|;
    if after != [] {
      JoinConcat(before + words, after, " ");
      assert Join(before + words + after, " ")[i..i + |own|] == left[i..i + |own|];
    } else {
      assert before + words + after == before + words;
    }
  }

  lemma PlaceGrows(before: seq<string>, more: seq<string>)
    requires more != [] && forall w :: w in more ==> w != ""
    ensures Place(before) < Place(before + more)
  {
    hide Join;
    LastIsLong(more);
    if before != [] {
      JoinConcat(before, more, " ");
    } else {
      assert before + more == more;
    }
  }

  lemma LastIsLong(words: seq<string>)
    requires words != [] && forall w :: w in words ==> w != ""
    ensures |Join(words, " ")| > 0
  {
    assert words[|words| - 1] in words;
  }

  // ---------- a call that names each product before its price ----------

  /** A name, the number said after it, and its unit word. */
  datatype Item = Item(name: string, n: nat, unit: string)

  /** A word of the name fit to be looked for, and a positive amount. */
  ghost predicate ItemOK(x: Item) {
    && Plain(x.name) && Speech.KindOf(x.name) == Speech.Other && ' ' !in x.name
    && 0 < x.n <= MAX_SUPPORTED && UnitWord(x.unit)
  }

  ghost predicate ItemsOK(items: seq<Item>) { forall i :: 0 <= i < |items| ==> ItemOK(items[i]) }

  function ItemTokens(x: Item): seq<string>
    requires x.n <= MAX_SUPPORTED
  {
    [x.name] + NumberTokens(x.n) + [x.unit]
  }

  function Call(items: seq<Item>): seq<string>
    requires forall x :: x in items ==> x.n <= MAX_SUPPORTED
  {
    if items == [] then [] else ItemTokens(items[0]) + Call(items[1..])
  }

  function SaidIn(items: seq<Item>): seq<Said>
    requires forall x :: x in items ==> x.n <= MAX_SUPPORTED
  {
    if items == [] then []
    else [Said(NumberTokens(items[0].n), items[0].n,
               [items[0].unit] + if |items| > 1 then [items[1].name] else [])] + SaidIn(items[1..])
  }

  lemma {:induction false} CallIsSaid(items: seq<Item>)
    requires ItemsOK(items) && items != []
    ensures Call(items) == [items[0].name] + TokensOf(SaidIn(items))
  {
    hide NumberTokens, ItemOK, SaidIn, Call, TokensOf;
    ItemsInside(items);
    var x, rest := items[0], items[1..];
    var next := if |items| > 1 then [items[1].name] else [];
    CallUnfolds(items);
    TokensUnfold(Said(NumberTokens(x.n), x.n, [x.unit] + next), SaidIn(rest));
    if |items| > 1 { CallIsSaid(rest); } else { NothingCalled(); }
  }

  lemma CallUnfolds(items: seq<Item>)
    requires items != [] && forall x :: x in items ==> x.n <= MAX_SUPPORTED
    ensures Call(items) == [items[0].name] + NumberTokens(items[0].n) + [items[0].unit] + Call(items[1..])
    ensures SaidIn(items) == [Said(NumberTokens(items[0].n), items[0].n,
        [items[0].unit] + if |items| > 1 then [items[1].name] else [])] + SaidIn(items[1..])
  {
    hide NumberTokens;
  }

  lemma TokensUnfold(x: Said, rest: seq<Said>)
    ensures TokensOf([x] + rest) == x.words + x.tail + TokensOf(rest)
  {
    assert ([x] + rest)[1..] == rest;
  }

  lemma NothingCalled()
    ensures Call([]) == [] && TokensOf(SaidIn([])) == []
  {
  }

  lemma ItemsInside(items: seq<Item>)
    requires ItemsOK(items)
    ensures forall x :: x in items ==> ItemOK(x) && x.n <= MAX_SUPPORTED
    ensures items != [] ==> ItemsOK(items[1..])
    ensures forall i :: 0 <= i <= |items| ==> ItemsOK(items[..i]) && ItemsOK(items[i..])
  {
  }

  lemma {:induction false} SaidAt(items: seq<Item>, i: nat)
    requires ItemsOK(items) && i < |items|
    ensures forall x :: x in items ==> x.n <= MAX_SUPPORTED
    ensures |SaidIn(items)| == |items|
    ensures SaidIn(items)[i] == Said(NumberTokens(items[i].n), items[i].n,
                                     [items[i].unit] + if i + 1 < |items| then [items[i + 1].name] else [])
  {
    hide NumberTokens, ItemOK;
    ItemsInside(items);
    if i > 0 {
      SaidAt(items[1..], i - 1);
    } else if |items| > 1 {
      SaidAt(items[1..], 0);
    } else {
      assert SaidIn(items[1..]) == [];
    }
  }

  lemma CallWellSaid(items: seq<Item>)
    requires ItemsOK(items)
    ensures forall x :: x in items ==> x.n <= MAX_SUPPORTED
    ensures WellSaid(SaidIn(items))
  {
    hide Numeral, NumberTokens, Speech.KindOf, UnitWord, Plain;
    ItemsInside(items);
    var said := SaidIn(items);
    if items != [] { SaidAt(items, 0); }
    forall i | 0 <= i < |said|
      ensures Numeral(said[i].words, said[i].n) && AllOther(said[i].tail) && said[i].tail != []
    {
      SaidAt(items, i);
      NumberIsNumeral(items[i].n);
      UnitKind(items[i].unit);
    }
  }

  lemma {:induction false} CallPlain(items: seq<Item>)
    requires ItemsOK(items)
    ensures forall x :: x in items ==> x.n <= MAX_SUPPORTED
    ensures forall w :: w in Call(items) ==> Plain(w)
  {
    hide NumberTokens, Plain, Clean, Speech.KindOf, UnitWord;
    ItemsInside(items);
    if items != [] {
      var x := items[0];
      CallPlain(items[1..]);
      NumberClean(x.n);
      forall w | w in NumberTokens(x.n) ensures Plain(w) { CleanIsPlain(w); }
      UnitIsPlain(x.unit);
    }
  }

  lemma UnitIsPlain(w: string)
    requires UnitWord(w)
    ensures Plain(w)
  {
    hide UnitWord;
    UnitIsWord(w);
  }

  /** With nothing but positive numbers there is one amount for each, with its words and what follows. */
  lemma {:induction false} HeardEach(before: seq<string>, said: seq<Said>)
    requires forall i :: 0 <= i < |said| ==>
               said[i].n > 0 && |said[i].tail| <= 2 && (i + 1 < |said| ==> |said[i].tail| == 2)
    ensures var told := Heard(before, said);
      |told| == |said| && forall i :: 0 <= i < |told| ==>
        && told[i].n == said[i].n && told[i].phrase == Join(said[i].words + said[i].tail, " ")
        && (TomanTail(said[i].tail) ==> told[i].unit == Speech.TOMAN)
    decreases said
  {
    hide Join, UnitOf, TomanTail;
    if said != [] {
      var x, after := said[0], said[0].tail + TokensOf(said[1..]);
      HeardStep(before, said);
      HeardEach(before + x.words + x.tail, said[1..]);
      if TomanTail(x.tail) { TomanAround(before, x.tail, TokensOf(said[1..])); }
      assert First(after, 2) == x.tail by { if |said| == 1 { assert TokensOf(said[1..]) == []; } }
    }
  }

  /** The words an amount is remembered by: its own, and the name behind them. */
  function PhraseWords(items: seq<Item>, i: nat): seq<string>
    requires i < |items| && items[i].n <= MAX_SUPPORTED
  {
    NumberTokens(items[i].n) + ([items[i].unit] + if i + 1 < |items| then [items[i + 1].name] else [])
  }

  /** The amounts of a call: one for each item, in order, with the words that tell them apart. */
  ghost predicate AmountsOf(items: seq<Item>, out: seq<Speech.Extracted>)
    requires forall x :: x in items ==> x.n <= MAX_SUPPORTED
  {
    |out| == |items| && forall i :: 0 <= i < |items| ==>
      && out[i].spoken == items[i].n && out[i].phrase == Join(PhraseWords(items, i), " ")
      && (InTomans(items[i].unit) ==> out[i].rial == 10 * items[i].n)
  }

  lemma CallIsHeard(items: seq<Item>)
    requires ItemsOK(items)
    ensures forall x :: x in items ==> x.n <= MAX_SUPPORTED
    ensures Speech.NormalizeDigits(Join(Call(items), " ")) == Join(Call(items), " ")
    ensures AmountsOf(items, Speech.Amounts(Join(Call(items), " ")))
  {
    hide Speech.Amounts, Speech.NormalizeDigits, Join, WellSaid, Heard, NumberTokens, Plain, Speech.KindOf;
    ItemsInside(items);
    CallPlain(items);
    PlainIsWritten(Call(items));
    NormalizeJoined(Call(items), Call(items));
    var lead := if items == [] then [] else [items[0].name];
    var said := SaidIn(items);
    if items != [] { CallIsSaid(items); }
    assert Call(items) == lead + TokensOf(said);
    CallWellSaid(items);
    AmountsAreHeard(Call(items), lead, said);
    if items != [] { SaidAt(items, 0); }
    forall i | 0 <= i < |said|
      ensures said[i].n > 0 && |said[i].tail| <= 2 && (i + 1 < |said| ==> |said[i].tail| == 2)
    {
      SaidAt(items, i);
    }
    HeardEach(lead, said);
    TellsEach(items, said, Speech.Amounts(Join(Call(items), " ")), Heard(lead, said));
  }

  lemma TellsEach(items: seq<Item>, said: seq<Said>, out: seq<Speech.Extracted>, told: seq<Told>)
    requires ItemsOK(items) && (forall x :: x in items ==> x.n <= MAX_SUPPORTED) && said == SaidIn(items)
    requires TellsAll(out, told) && |told| == |said| && |said| == |items|
    requires forall i :: 0 <= i < |told| ==>
               && told[i].n == said[i].n && told[i].phrase == Join(said[i].words + said[i].tail, " ")
               && (TomanTail(said[i].tail) ==> told[i].unit == Speech.TOMAN)
    ensures AmountsOf(items, out)
  {
    hide Join, NumberTokens, SaidIn, ItemOK, Tells, InTomans, TomanTail;
    forall i | 0 <= i < |items|
      ensures out[i].spoken == items[i].n && out[i].phrase == Join(PhraseWords(items, i), " ")
      ensures InTomans(items[i].unit) ==> out[i].rial == 10 * items[i].n
    {
      SaidAt(items, i);
      if InTomans(items[i].unit) { TomanFirst(said[i].tail); }
      ToldPhrase(out[i], told[i]);
    }
  }

  lemma ToldPhrase(x: Speech.Extracted, t: Told)
    requires Tells(x, t)
    ensures x.spoken == t.n && x.phrase == t.phrase && (t.unit == Speech.TOMAN ==> x.rial == 10 * t.n)
  {
  }

  lemma TomanFirst(tail: seq<string>)
    requires tail != [] && InTomans(tail[0])
    ensures TomanTail(tail)
  {
    hide InTomans;
  }

  // ---------- each name hears its own price, and those after it ----------

  lemma {:induction false} CallConcat(a: seq<Item>, b: seq<Item>)
    requires forall x :: x in a + b ==> x.n <= MAX_SUPPORTED
    ensures Call(a + b) == Call(a) + Call(b)
  {
    hide NumberTokens;
    assert forall x :: x in a || x in b ==> x in a + b;
    if a == [] {
      assert a + b == b;
    } else {
      assert (a + b)[1..] == a[1..] + b;
      CallConcat(a[1..], b);
    }
  }

  /** What is said before the name of item i, and after it. */
  function BeforeName(items: seq<Item>, i: nat): seq<string>
    requires ItemsFit(items) && i < |items|
  {
    Call(items[..i])
  }

  function AfterName(items: seq<Item>, i: nat): seq<string>
    requires ItemsFit(items) && i < |items|
  {
    NumberTokens(items[i].n) + [items[i].unit] + Call(items[i + 1..])
  }

  predicate ItemsFit(items: seq<Item>) { forall x :: x in items ==> x.n <= MAX_SUPPORTED }

  lemma CallAround(items: seq<Item>, i: nat)
    requires ItemsFit(items) && i < |items|
    ensures Call(items) == BeforeName(items, i) + [items[i].name] + AfterName(items, i)
  {
    hide NumberTokens, Call, SaidIn;
    var front, rear := items[..i], items[i..];
    assert items == front + rear && rear[1..] == items[i + 1..] && rear[0] == items[i];
    CallConcat(front, rear);
    CallUnfolds(rear);
    Regrouped(Call(front), items[i].name, NumberTokens(items[i].n), items[i].unit, Call(items[i + 1..]));
  }

  lemma Regrouped(a: seq<string>, x: string, b: seq<string>, y: string, c: seq<string>)
    ensures a + ([x] + b + [y] + c) == a + [x] + (b + [y] + c)
  {
  }

  /** The name is part of no other word of the call. */
  ghost predicate Distinctive(items: seq<Item>, i: nat)
    requires ItemsFit(items) && i < |items|
  {
    forall w :: w in BeforeName(items, i) + AfterName(items, i) ==> !Speech.Contains(w, items[i].name)
  }

  function PlaceOf(items: seq<Item>, i: nat): nat
    requires ItemsFit(items) && i < |items|
  {
    Place(BeforeName(items, i))
  }

  lemma NameIsWord(x: Item)
    requires ItemOK(x)
    ensures x.name != "" && ' ' !in x.name && x.n <= MAX_SUPPORTED
  {
  }

  lemma NameStandsOnce(items: seq<Item>, i: nat, at: nat)
    requires ItemsFit(items) && i < |items| && ItemOK(items[i]) && Distinctive(items, i)
    ensures Speech.StandsAt(Join(Call(items), " "), at, items[i].name) <==> at == PlaceOf(items, i)
  {
    hide Join, Call, AfterName, BeforeName, Speech.Contains, ItemOK, Speech.StandsAt;
    NameIsWord(items[i]);
    CallAround(items, i);
    var name, text := items[i].name, Join(Call(items), " ");
    StandsInPlace(BeforeName(items, i), [name], AfterName(items, i));
    JoinOne(name, " ");
    if Speech.StandsAt(text, at, name) { OnlyPlace(BeforeName(items, i), name, AfterName(items, i), at); }
  }

  lemma NameIsFound(items: seq<Item>, i: nat)
    requires ItemsFit(items) && i < |items| && ItemOK(items[i]) && Distinctive(items, i)
    ensures FirstAt(Join(Call(items), " "), items[i].name, 0) == Some(PlaceOf(items, i))
  {
    hide Join, Call, Distinctive, PlaceOf, ItemOK, Speech.StandsAt;
    var text, name := Join(Call(items), " "), items[i].name;
    var r := FirstAt(text, name, 0);
    NameStandsOnce(items, i, PlaceOf(items, i));
    if r.Some? { NameStandsOnce(items, i, r.value); }
  }

  lemma PlacesRise(items: seq<Item>, i: nat, j: nat)
    requires ItemsFit(items) && i <= j < |items| && ItemsOK(items)
    ensures PlaceOf(items, i) <= PlaceOf(items, j) < Place(BeforeName(items, j) + [items[j].name])
  {
    hide Join, Call, ItemOK, NumberTokens;
    NameIsWord(items[j]);
    PlaceGrows(BeforeName(items, j), [items[j].name]);
    if i < j {
      assert items[..j] == items[..i] + items[i..j];
      CallConcat(items[..i], items[i..j]);
      CallUnfolds(items[i..j]);
      ItemsInside(items);
      WordsNotEmpty(items[i..j]);
      PlaceGrows(BeforeName(items, i), Call(items[i..j]));
    }
  }

  lemma WordsNotEmpty(items: seq<Item>)
    requires ItemsFit(items) && ItemsOK(items)
    ensures forall w :: w in Call(items) ==> w != ""
  {
    hide Speech.NormalizeDigits;
    CallPlain(items);
  }

  /** What is said behind the phrase of item j. */
  lemma PhraseInCall(items: seq<Item>, j: nat) returns (rest: seq<string>)
    requires ItemsFit(items) && j < |items|
    ensures Call(items) == BeforeName(items, j) + [items[j].name] + PhraseWords(items, j) + rest
  {
    hide NumberTokens, Call, SaidIn;
    var before, words, unit := BeforeName(items, j) + [items[j].name], NumberTokens(items[j].n), items[j].unit;
    var after := Call(items[j + 1..]);
    CallAround(items, j);
    if j + 1 < |items| {
      var next := items[j + 1..];
      assert next[0] == items[j + 1];
      CallUnfolds(next);
      rest := NumberTokens(next[0].n) + [next[0].unit] + Call(next[1..]);
      Regrouped(before, "", words, unit, after);
      PhraseGroups(before, words, unit, [next[0].name], rest);
      assert after == [next[0].name] + rest;
    } else {
      NothingCalled();
      assert items[j + 1..] == [];
      rest := [];
      PhraseGroups(before, words, unit, [], rest);
      assert after == [] + rest;
    }
  }

  lemma PhraseGroups(before: seq<string>, words: seq<string>, unit: string, name: seq<string>, rest: seq<string>)
    ensures before + (words + [unit] + (name + rest)) == before + (words + ([unit] + name)) + rest
  {
  }

  /** The phrase of item j stands right behind its name. */
  lemma PhraseStands(items: seq<Item>, j: nat)
    requires ItemsFit(items) && j < |items|
    ensures Speech.StandsAt(Join(Call(items), " "), Place(BeforeName(items, j) + [items[j].name]),
                            Join(PhraseWords(items, j), " "))
  {
    hide Join, Call, BeforeName, NumberTokens, Speech.StandsAt;
    var rest := PhraseInCall(items, j);
    StandsInPlace(BeforeName(items, j) + [items[j].name], PhraseWords(items, j), rest);
  }

  lemma PartStands(s: string, i: nat, a: string, b: string)
    requires Speech.StandsAt(s, i, a + " " + b)
    ensures Speech.StandsAt(s, i + |a| + 1, b)
  {
    var whole := a + " " + b;
    assert s[i..i + |whole|][|a| + 1..] == b;
  }

  /** The phrase of an earlier item holds the name of the next, so it stands before the later ones. */
  lemma PhraseIsBefore(items: seq<Item>, j: nat, i: nat, at: nat)
    requires ItemsFit(items) && ItemsOK(items) && j < i < |items| && Distinctive(items, j + 1)
    requires at >= PlaceOf(items, i)
    ensures !Speech.StandsAt(Join(Call(items), " "), at, Join(PhraseWords(items, j), " "))
  {
    hide Join, Call, BeforeName, NumberTokens, Speech.StandsAt, ItemOK, Distinctive, PlaceOf;
    var text, name := Join(Call(items), " "), items[j + 1].name;
    var own := NumberTokens(items[j].n) + [items[j].unit];
    assert PhraseWords(items, j) == own + [name];
    JoinConcat(own, [name], " ");
    JoinOne(name, " ");
    PlacesRise(items, j + 1, i);
    if Speech.StandsAt(text, at, Join(own, " ") + " " + name) {
      PartStands(text, at, Join(own, " "), name);
      NameStandsOnce(items, j + 1, at + |Join(own, " ")| + 1);
    }
  }

  /** After the name of item i exactly the amounts from the i-th on are heard. */
  lemma HeardFromThere(items: seq<Item>, out: seq<Speech.Extracted>, i: nat, a: nat)
    requires ItemsFit(items) && ItemsOK(items) && AmountsOf(items, out) && i < |items|
    requires forall k :: 0 <= k < |items| ==> Distinctive(items, k)
    ensures HeardIn(Join(Call(items), " "), out, items[i].name, a) <==> i <= a < |items|
  {
    hide Join, Call, BeforeName, PhraseWords, Speech.StandsAt, ItemOK, Distinctive;
    var text := Join(Call(items), " ");
    NameIsFound(items, i);
    if a < |items| {
      var r := FirstAt(text, out[a].phrase, PlaceOf(items, i));
      if i <= a {
        PhraseStands(items, a);
        PlacesRise(items, i, a);
      } else if r.Some? {
        PhraseIsBefore(items, a, i, r.value);
      }
    }
  }

  // ---------- every product gets the price said after its name ----------

  /** The first word of the product's name that is anywhere in the call is the name of item i. */
  ghost predicate AsksFor(items: seq<Item>, words: seq<string>, i: nat)
    requires ItemsFit(items) && i < |items|
  {
    exists k :: 0 <= k < |words| && words[k] == items[i].name
      && forall j :: 0 <= j < k ==> Unsaid(items, words[j])
  }

  ghost predicate Unsaid(items: seq<Item>, word: string)
    requires ItemsFit(items)
  {
    ' ' !in word && word != "" && forall w :: w in Call(items) ==> !Speech.Contains(w, word)
  }

  lemma UnsaidIsUnheard(items: seq<Item>, out: seq<Speech.Extracted>, word: string, a: nat)
    requires ItemsFit(items) && Unsaid(items, word)
    ensures !HeardIn(Join(Call(items), " "), out, word, a)
  {
    hide Join, Call, Speech.Contains, Speech.StandsAt;
    var r := FirstAt(Join(Call(items), " "), word, 0);
    if r.Some? { NowhereIn(Call(items), word, r.value); }
  }

  /** What a name is matched with, when it is heard before its own amount and those after it. */
  lemma NamedIsOwn(
      matches: seq<Match>, p: nat, words: seq<string>, amounts: nat, heard: (string, nat) -> bool, k: nat, i: nat)
    requires p < |matches| && NamedRight(matches, p, words, amounts, heard) && Free(matches, p, i)
    requires k < |words| && i < amounts && forall a :: 0 <= a < amounts ==> (heard(words[k], a) <==> i <= a)
    requires forall j, a: nat :: 0 <= j < k ==> !heard(words[j], a)
    ensures matches[p] == ByName(i)
  {
    assert !Deaf(matches, p, words[k], amounts, heard);
    if matches[p].ByName? {
      var j :| 0 <= j < |words| && QuoteMatching.Gives(matches, p, words[j], matches[p].amount, amounts, heard)
          && forall l :: 0 <= l < j ==> Deaf(matches, p, words[l], amounts, heard);
      assert j == k;
    }
  }

  ghost predicate Each(matches: seq<Match>, own: seq<nat>, p: nat)
    requires p <= |matches| == |own|
  {
    forall q :: 0 <= q < p ==> matches[q] == ByName(own[q])
  }

  /** Which item each product asks for, no two for the same. */
  ghost predicate Assigned(items: seq<Item>, words: seq<seq<string>>, own: seq<nat>)
    requires ItemsFit(items)
  {
    && |own| == |words|
    && (forall p :: 0 <= p < |own| ==> own[p] < |items| && AsksFor(items, words[p], own[p]))
    && (forall p, q :: 0 <= p < q < |own| ==> own[p] != own[q])
  }

  lemma OwnAtP(items: seq<Item>, out: seq<Speech.Extracted>, matches: seq<Match>, words: seq<string>, p: nat, i: nat)
    requires ItemsFit(items) && ItemsOK(items) && AmountsOf(items, out) && i < |items|
    requires forall k :: 0 <= k < |items| ==> Distinctive(items, k)
    requires p < |matches| && AsksFor(items, words, i) && Free(matches, p, i) && |out| == |items|
    requires NamedRight(matches, p, words, |out|, Ear(Join(Call(items), " "), out))
    ensures matches[p] == ByName(i)
  {
    hide Join, Call, HeardIn, Unsaid, Distinctive, ItemsOK, AmountsOf, NamedRight, Free;
    var heard := Ear(Join(Call(items), " "), out);
    var k :| 0 <= k < |words| && words[k] == items[i].name && forall j :: 0 <= j < k ==> Unsaid(items, words[j]);
    forall a | 0 <= a < |out| ensures heard(words[k], a) <==> i <= a { HeardFromThere(items, out, i, a); }
    forall j, a: nat | 0 <= j < k ensures !heard(words[j], a) { UnsaidIsUnheard(items, out, words[j], a); }
    NamedIsOwn(matches, p, words, |out|, heard, k, i);
  }

  lemma {:induction false} EachByName(
      items: seq<Item>, out: seq<Speech.Extracted>, matches: seq<Match>, words: seq<seq<string>>, own: seq<nat>, p: nat)
    requires ItemsFit(items) && ItemsOK(items) && AmountsOf(items, out) && Assigned(items, words, own)
    requires forall k :: 0 <= k < |items| ==> Distinctive(items, k)
    requires |matches| == |words| && p <= |words|
    requires AllNamedRight(matches, words, |out|, Ear(Join(Call(items), " "), out))
    ensures Each(matches, own, p)
  {
    hide Join, Call, Distinctive, ItemOK, NamedRight, AsksFor;
    if p > 0 {
      EachByName(items, out, matches, words, own, p - 1);
      assert Free(matches, p - 1, own[p - 1]);
      OwnAtP(items, out, matches, words[p - 1], p - 1, own[p - 1]);
    }
  }

  /**
   A call that says each name right before its price: whatever the order in which the products are
   listed, every one gets the price said after its own name, none is guessed, and a price in tomans
   comes to ten rials each. The names must tell the items apart: none is part of another word said.
   */
  lemma EachGetsItsOwn(items: seq<Item>, names: seq<string>, own: seq<nat>, quotes: seq<Quote>)
    requires ItemsOK(items) && ItemsFit(items) && forall k :: 0 <= k < |items| ==> Distinctive(items, k)
    requires Assigned(items, AllTelling(names), own)
    requires Quotes(Join(Call(items), " "), names, quotes)
    ensures |quotes| == |names| == |own|
    ensures forall p :: 0 <= p < |names| ==>
      && own[p] < |items| && quotes[p].Quoted? && !quotes[p].guessed && quotes[p].price.spoken == items[own[p]].n
      && (InTomans(items[own[p]].unit) ==> quotes[p].price.rial == 10 * items[own[p]].n)
  {
    hide Join, Call, Distinctive, ItemsOK, Assigned, AllNamedRight, GuessedRight, GuessesRise, UsedOnce,
         Speech.Amounts, Speech.NormalizeDigits, InTomans, AmountsOf, Ear, AllTelling, QuoteOf;
    var text := Join(Call(items), " ");
    var out := Speech.Amounts(text);
    CallIsHeard(items);
    var matches: seq<Match> :| Suggested(matches, AllTelling(names), |out|, Ear(text, out)) && |quotes| == |names|
      && forall p :: 0 <= p < |names| ==>
           && (matches[p].Given().Some? ==> matches[p].Given().value < |out|)
           && quotes[p] == QuoteOf(matches[p], out);
    assert |own| == |names| by { AssignedLength(items, AllTelling(names), own); }
    EachByName(items, out, matches, AllTelling(names), own, |names|);
    forall p | 0 <= p < |names|
      ensures own[p] < |items| && quotes[p].Quoted? && !quotes[p].guessed && quotes[p].price.spoken == items[own[p]].n
      ensures InTomans(items[own[p]].unit) ==> quotes[p].price.rial == 10 * items[own[p]].n
    {
      OwnQuote(items, out, AllTelling(names), own, p);
    }
  }

  lemma AssignedLength(items: seq<Item>, words: seq<seq<string>>, own: seq<nat>)
    requires ItemsFit(items) && Assigned(items, words, own)
    ensures |own| == |words|
  {
    hide ItemsFit, AsksFor;
  }

  lemma OwnQuote(items: seq<Item>, out: seq<Speech.Extracted>, words: seq<seq<string>>, own: seq<nat>, p: nat)
    requires ItemsFit(items) && Assigned(items, words, own) && p < |own| && AmountsOf(items, out)
    ensures own[p] < |items| == |out|
    ensures QuoteOf(ByName(own[p]), out) == Quoted(out[own[p]], false) && out[own[p]].spoken == items[own[p]].n
    ensures InTomans(items[own[p]].unit) ==> out[own[p]].rial == 10 * items[own[p]].n
  {
    hide AsksFor, PhraseWords, Join, InTomans;
  }

  // ---------- "rice, thirty-two thousand" ----------

  const RICE := "برنج"

  /** The first two letters of the word never follow each other in the words of a number. */
  predicate NoRice(s: string) { forall i :: 0 <= i < |s| - 1 && s[i] == 'ب' ==> s[i + 1] != 'ر' }

  lemma OnesNoRice(d: nat)
    requires 1 <= d <= 9
    ensures NoRice(ONES[d]) && NoRice(HUNDREDS[d])
  {
  }

  lemma TensNoRice(d: nat)
    requires d <= 9
    ensures NoRice(TEENS[d]) && (d >= 2 ==> NoRice(TENS[d]))
  {
  }

  lemma LinksNoRice(i: nat)
    requires 1 <= i <= 3
    ensures NoRice(SCALE_WORDS[i]) && NoRice(Speech.AND) && NoRice(ZERO) && NoRice("تومان")
  {
  }

  lemma VocabularyNoRice(w: string)
    requires Vocabulary(w)
    ensures NoRice(w)
  {
    hide NoRice;
    LinksNoRice(1);
    if d :| 1 <= d <= 9 && (w == ONES[d] || w == HUNDREDS[d]) {
      OnesNoRice(d);
    } else if d :| 0 <= d <= 9 && w == TEENS[d] {
      TensNoRice(d);
    } else if d :| 2 <= d <= 9 && w == TENS[d] {
      TensNoRice(d);
    } else if i :| 1 <= i <= 3 && w == SCALE_WORDS[i] {
      LinksNoRice(i);
    }
  }

  lemma NoRiceMeans(s: string)
    requires NoRice(s)
    ensures !Speech.Contains(s, RICE)
  {
    forall i: nat ensures !Speech.StandsAt(s, i, RICE) {
      if i + |RICE| <= |s| {
        var t := s[i..i + |RICE|];
        assert t[0] == s[i] && t[1] == s[i + 1] && RICE[0] == 'ب' && RICE[1] == 'ر';
      }
    }
  }

  lemma RiceIsClean()
    ensures Clean(RICE) && ' ' !in RICE
  {
  }

  lemma RiceIsOther()
    ensures Speech.KindOf(RICE) == Speech.Other
  {
    WordCodes();
    assert Code(RICE) == 6347;
    assert !Speech.AllDigits(RICE) by { assert RICE[0] in RICE; }
  }

  lemma RiceItem(n: nat)
    requires 0 < n <= MAX_SUPPORTED
    ensures var items := [Item(RICE, n, "تومان")];
      ItemsOK(items) && ItemsFit(items) && Distinctive(items, 0)
      && Join(Call(items), " ") == RICE + " " + Spell(n) + " تومان"
  {
    hide Speech.KindOf, Clean, Plain, NumberTokens, Spell, Join, Speech.Contains, NoRice, Vocabulary;
    var items := [Item(RICE, n, "تومان")];
    RiceIsClean();
    RiceIsOther();
    CleanIsPlain(RICE);
    TomanWords("تومان");
    LinksNoRice(1);
    NumberVocabulary(n);
    CallAround(items, 0);
    NothingCalled();
    assert items[..0] == [] && items[1..] == [];
    forall w | w in BeforeName(items, 0) + AfterName(items, 0) ensures !Speech.Contains(w, RICE) {
      if w in NumberTokens(n) { VocabularyNoRice(w); }
      NoRiceMeans(w);
    }
    RiceText(n);
    assert Call(items) == [RICE] + (NumberTokens(n) + ["تومان"]);
  }

  lemma RiceText(n: nat)
    requires n <= MAX_SUPPORTED
    ensures Join([RICE] + (NumberTokens(n) + ["تومان"]), " ") == RICE + " " + Spell(n) + " تومان"
  {
    hide Join, NumberTokens, Spell;
    SpellIsTokens(n);
    JoinOne(RICE, " ");
    JoinOne("تومان", " ");
    JoinConcat(NumberTokens(n), ["تومان"], " ");
    JoinConcat([RICE], NumberTokens(n) + ["تومان"], " ");
    assert " تومان" == " " + "تومان";
    assert RICE + " " + (Spell(n) + " " + "تومان") == RICE + " " + Spell(n) + (" " + "تومان");
  }

  lemma SplitOne(a: string, b: string, c: char)
    requires IsSpace(c) && forall i :: 0 <= i < |a| ==> !IsSpace(a[i])
    ensures SplitName(a + [c] + b, "") == [a] + SplitName(b, "")
  {
    SplitFrom("", a, b, c);
    assert "" + a == a;
  }

  lemma {:induction false} SplitFrom(word: string, a: string, b: string, c: char)
    requires IsSpace(c) && forall i :: 0 <= i < |a| ==> !IsSpace(a[i])
    ensures SplitName(a + [c] + b, word) == [word + a] + SplitName(b, "")
    decreases |a|
  {
    var s := a + [c] + b;
    if a == "" {
      assert s[0] == c && s[1..] == b && word + a == word;
    } else {
      assert s[0] == a[0] && s[1..] == a[1..] + [c] + b && word + a == word + [a[0]] + a[1..];
      SplitFrom(word + [a[0]], a[1..], b, c);
    }
  }

  lemma {:induction false} TellingFirst(ws: seq<string>)
    requires ws != [] && Telling(ws[0])
    ensures TellingOnes(ws) != [] && TellingOnes(ws)[0] == ws[0]
  {
    hide Telling;
    if |ws| > 1 {
      TellingFirst(ws[..|ws| - 1]);
    } else {
      assert ws[..0] == [];
    }
  }

  lemma RiceTells(rest: string)
    ensures var words := TellingWords(RICE + " " + rest); words != [] && words[0] == RICE
  {
    hide SplitName, TellingOnes;
    RiceIsClean();
    assert forall i :: 0 <= i < |RICE| ==> !IsSpace(RICE[i]);
    SplitOne(RICE, rest, ' ');
    assert RICE + " " + rest == RICE + [' '] + rest;
    assert Telling(RICE) by { assert RICE[0] in RICE; }
    TellingFirst([RICE] + SplitName(rest, ""));
  }

  /** Whatever else its name holds, rice is quoted at the price said after it: n tomans, ten rials each. */
  lemma RiceIsQuoted(n: nat, rest: string, quotes: seq<Quote>)
    requires 0 < n <= MAX_SUPPORTED
    requires Quotes(RICE + " " + Spell(n) + " تومان", [RICE + " " + rest], quotes)
    ensures |quotes| == 1 && quotes[0].Quoted? && !quotes[0].guessed
    ensures quotes[0].price.spoken == n && quotes[0].price.rial == 10 * n
  {
    hide Join, Call, Distinctive, ItemOK, Quotes, Spell, TellingWords, InTomans;
    var items, names := [Item(RICE, n, "تومان")], [RICE + " " + rest];
    RiceItem(n);
    RiceTells(rest);
    assert AsksFor(items, TellingWords(names[0]), 0);
    assert AllTelling(names)[0] == TellingWords(names[0]);
    assert InTomans("تومان") by { TomanWords("تومان"); }
    EachGetsItsOwn(items, names, [0], quotes);
  }
}
