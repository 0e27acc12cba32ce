/**
 Tomans and rials: which unit the scanner takes each amount of a text to be in, and so which
 amounts come out ten times what was said.
 */
module SpokenUnits {
  import opened Common
  import opened NumberWords
  import opened SpokenAmounts
  import opened SpokenLists
  import Speech = PriceSpeech

  // ---------- the unit named by a list of words ----------

  ghost predicate Names(words: seq<string>, units: seq<string>) {
    exists w, u :: w in words && u in units && Speech.Contains(w, u)
  }

  /** A toman word decides, wherever it stands. */
  ghost function UnitOf(words: seq<string>): Speech.Unit {
    if Names(words, Speech.TOMAN_WORDS) then Speech.TOMAN
    else if Names(words, Speech.RIAL_WORDS) then Speech.RIAL
    else Speech.UNKNOWN
  }

  lemma FoundInSpaced(a: string, b: string, part: string, i: nat)
    requires ' ' !in part && part != "" && Speech.StandsAt(a + " " + b, i, part)
    ensures Speech.Contains(a, part) || Speech.Contains(b, part)
  {
    var s := a + " " + b;
    assert s[|a|] == ' ' && forall k :: 0 <= k < |part| ==> s[i + k] == s[i..i + |part|][k] && part[k] in part;
    if i + |part| <= |a| {
      assert a[i..i + |part|] == s[i..i + |part|];
      assert Speech.StandsAt(a, i, part);
    } else if i > |a| {
      var j := i - |a| - 1;
      assert b[j..j + |part|] == s[i..i + |part|];
      assert Speech.StandsAt(b, j, part);
    } else {
      assert false;
    }
  }

  lemma SpacedHolds(a: string, b: string, part: string)
    requires Speech.Contains(a, part) || Speech.Contains(b, part)
    ensures Speech.Contains(a + " " + b, part)
  {
    var s := a + " " + b;
    if i: nat :| i <= |a| && Speech.StandsAt(a, i, part) {
      assert s[i..i + |part|] == a[i..i + |part|];
      assert Speech.StandsAt(s, i, part);
    } else {
      var i: nat :| i <= |b| && Speech.StandsAt(b, i, part);
      var j := |a| + 1 + i;
      assert s[j..j + |part|] == b[i..i + |part|];
      assert Speech.StandsAt(s, j, part);
    }
  }

  lemma ContainsSpaced(a: string, b: string, part: string)
    requires ' ' !in part && part != ""
    ensures Speech.Contains(a + " " + b, part) <==> Speech.Contains(a, part) || Speech.Contains(b, part)
  {
    var s := a + " " + b;
    if i: nat :| i <= |s| && Speech.StandsAt(s, i, part) { FoundInSpaced(a, b, part, i); }
    if Speech.Contains(a, part) || Speech.Contains(b, part) { SpacedHolds(a, b, part); }
  }

  lemma {:induction false} ContainsJoined(words: seq<string>, part: string)
    requires ' ' !in part && part != ""
    ensures Speech.Contains(Join(words, " "), part) <==> exists w :: w in words && Speech.Contains(w, part)
  {
    hide Speech.Contains;
    var k := |words| - 1;
    if k < 0 {
      NothingContained(part);
    } else if k == 0 {
      assert words == [words[0]] && words[0] in words;
    } else {
      var init := words[..k];
      assert words == init + [words[k]];
      ContainsJoined(init, part);
      ContainsSpaced(Join(init, " "), words[k], part);
      if w :| w in words && Speech.Contains(w, part) { assert w in init || w == words[k]; }
      assert forall w :: w in init ==> w in words;
      assert words[k] in words;
    }
  }

  lemma NothingContained(part: string)
    requires part != ""
    ensures !Speech.Contains("", part)
  {
  }

  lemma UnitWordsAreWords()
    ensures forall u :: u in Speech.TOMAN_WORDS + Speech.RIAL_WORDS ==> ' ' !in u && u != ""
  {
  }

  /** Whether a word stands in the text around an amount is whether it stands in one of the words. */
  lemma ContextNames(before: seq<string>, after: seq<string>, units: seq<string>)
    requires forall u :: u in units ==> ' ' !in u && u != ""
    ensures (exists u :: u in units && Speech.Contains(Join(before, " ") + " " + Join(after, " "), u))
        <==> Names(before + after, units)
  {
    hide Speech.Contains, Join;
    var text := Join(before, " ") + " " + Join(after, " ");
    forall u | u in units
      ensures Speech.Contains(text, u) <==> exists w :: w in before + after && Speech.Contains(w, u)
    {
      ContainsSpaced(Join(before, " "), Join(after, " "), u);
      ContainsJoined(before, u);
      ContainsJoined(after, u);
    }
  }

  lemma ContextUnit(before: seq<string>, after: seq<string>)
    ensures Speech.DetectUnit(Join(before, " ") + " " + Join(after, " ")) == UnitOf(before + after)
  {
    hide Speech.Contains, Join, Names;
    UnitWordsAreWords();
    ContextNames(before, after, Speech.TOMAN_WORDS);
    ContextNames(before, after, Speech.RIAL_WORDS);
  }

  // ---------- words that name no unit ----------

  predicate NoRial(s: string) {
    forall i :: 0 <= i < |s| - 1 && s[i] == 'ر' ==> s[i + 1] != 'ی'
  }

  ghost predicate Silent(w: string) {
    forall u :: u in Speech.TOMAN_WORDS + Speech.RIAL_WORDS ==> !Speech.Contains(w, u)
  }

  ghost predicate AllSilent(words: seq<string>) { forall w :: w in words ==> Silent(w) }

  lemma OnesNoRial(d: nat)
    requires 1 <= d <= 9
    ensures NoRial(ONES[d]) && NoRial(HUNDREDS[d])
  {
  }

  lemma TensNoRial(d: nat)
    requires d <= 9
    ensures NoRial(TEENS[d]) && (d >= 2 ==> NoRial(TENS[d]))
  {
  }

  lemma LinksNoRial(i: nat)
    requires 1 <= i <= 3
    ensures NoRial(SCALE_WORDS[i]) && NoRial(Speech.AND) && NoRial(ZERO)
  {
  }

  lemma VocabularyNoRial(w: string)
    requires Vocabulary(w)
    ensures NoRial(w)
  {
    hide NoRial;
    LinksNoRial(1);
    if d :| 1 <= d <= 9 && (w == ONES[d] || w == HUNDREDS[d]) {
      OnesNoRial(d);
    } else if d :| 0 <= d <= 9 && w == TEENS[d] {
      TensNoRial(d);
    } else if d :| 2 <= d <= 9 && w == TENS[d] {
      TensNoRial(d);
    } else if i :| 1 <= i <= 3 && w == SCALE_WORDS[i] {
      LinksNoRial(i);
    }
  }

  lemma NoRialMeans(s: string)
    requires NoRial(s)
    ensures forall u :: u in Speech.RIAL_WORDS ==> !Speech.Contains(s, u)
  {
    forall u, i: nat | u in Speech.RIAL_WORDS ensures !Speech.StandsAt(s, i, u) {
      if i + |u| <= |s| {
        var t := s[i..i + |u|];
        assert t[0] == s[i] && t[1] == s[i + 1];
        assert u[0] == 'ر' && u[1] == 'ی';
      }
    }
  }

  lemma VocabularySilent(w: string)
    requires Vocabulary(w)
    ensures Silent(w)
  {
    hide Speech.Contains, Vocabulary, NoRial, NoToman;
    VocabularyClean(w);
    VocabularyNoRial(w);
    NoTomanMeans(w);
    NoRialMeans(w);
  }

  lemma NumberSilent(n: nat)
    requires n <= MAX_SUPPORTED
    ensures AllSilent(NumberTokens(n))
  {
    hide Vocabulary, Silent;
    NumberVocabulary(n);
    forall w | w in NumberTokens(n) ensures Silent(w) { VocabularySilent(w); }
  }

  lemma SilentNamesNothing(words: seq<string>)
    requires AllSilent(words)
    ensures UnitOf(words) == Speech.UNKNOWN
  {
    hide Speech.Contains;
  }

  /** Silent words around the others do not change the unit. */
  lemma SilenceChangesNothing(words: seq<string>, telling: seq<string>)
    requires forall w :: w in telling ==> w in words
    requires forall w :: w in words && w !in telling ==> Silent(w)
    ensures UnitOf(words) == UnitOf(telling)
  {
    hide Speech.Contains;
  }

  // ---------- a text that says amounts ----------

  /** The words of a number worth n, and what is said after it, up to the next number. */
  datatype Said = Said(words: seq<string>, n: nat, tail: seq<string>)

  /** One unbroken number, worth n to the parser, that names no unit itself. */
  ghost predicate Numeral(words: seq<string>, n: nat) {
    AllSilent(words) && OneBlock(Speech.Kinds(words)) && Speech.WordNumber(words) == Some(n as int)
  }

  ghost predicate AllOther(words: seq<string>) { forall w :: w in words ==> Speech.KindOf(w) == Speech.Other }

  /** Numerals with other words between them. */
  ghost predicate WellSaid(said: seq<Said>) {
    && (forall i :: 0 <= i < |said| ==> Numeral(said[i].words, said[i].n) && AllOther(said[i].tail))
    && (forall i :: 0 <= i < |said| - 1 ==> said[i].tail != [])
  }

  function TokensOf(said: seq<Said>): seq<string> {
    if said == [] then [] else said[0].words + said[0].tail + TokensOf(said[1..])
  }

  /** What one amount is heard as. */
  datatype Told = Told(n: nat, unit: Speech.Unit, phrase: string)

  function LastTwo(words: seq<string>): seq<string> { words[if |words| >= 2 then |words| - 2 else 0..] }

  function First(words: seq<string>, k: nat): seq<string> { words[..if |words| <= k then |words| else k] }

  /**
   The amounts heard after the words `before`: zero is passed over, and the unit is the one named
   by the two words in front of a number and the three behind it.
   */
  ghost function Heard(before: seq<string>, said: seq<Said>): seq<Told>
    decreases said
  {
    if said == [] then []
    else
      var x, after := said[0], said[0].tail + TokensOf(said[1..]);
      var told := Told(x.n, UnitOf(LastTwo(before) + First(after, 3)), Join(x.words + First(after, 2), " "));
      (if x.n > 0 then [told] else []) + Heard(before + x.words + x.tail, said[1..])
  }

  /** In rials the figure as said, otherwise ten times it; a warning for what was not clear. */
  ghost predicate Tells(x: Speech.Extracted, t: Told) {
    && x.spoken == t.n && x.unit == t.unit && x.phrase == t.phrase
    && x.rial == (if t.unit == Speech.RIAL then t.n else 10 * t.n)
    && (Speech.NoUnitSpoken in x.warnings <==> t.unit == Speech.UNKNOWN)
    && (Speech.SuspiciouslySmall in x.warnings <==> t.n < 1000)
  }

  ghost predicate TellsAll(out: seq<Speech.Extracted>, told: seq<Told>) {
    |out| == |told| && forall i :: 0 <= i < |out| ==> Tells(out[i], told[i])
  }

  // ---------- the scanner hears exactly that ----------

  lemma ScanOneBlock(tokens: seq<string>, kinds: seq<Speech.TokenKind>, start: nat, end: nat)
    requires |kinds| == |tokens| && start <= end <= |tokens| && OneBlock(kinds[start..end])
    requires end < |kinds| ==> kinds[end].Other?
    ensures Speech.Scan(tokens, kinds, start) == Speech.Extract(tokens, start, end) + Speech.Scan(tokens, kinds, end)
  {
    var own := kinds[start..end];
    forall j | start <= j < end ensures Speech.InBlock(kinds, j) { assert Speech.InBlock(own, j - start); }
    assert own[0] == kinds[start];
    BlockEndIs(kinds, start, end);
  }

  lemma {:induction false} ScanSkips(tokens: seq<string>, kinds: seq<Speech.TokenKind>, i: nat, j: nat)
    requires |kinds| == |tokens| && i <= j <= |tokens| && forall k :: i <= k < j ==> kinds[k].Other?
    ensures Speech.Scan(tokens, kinds, i) == Speech.Scan(tokens, kinds, j)
    decreases j - i
  {
    if i < j { ScanSkips(tokens, kinds, i + 1, j); }
  }

  lemma WarningsMean(spoken: int, unit: Speech.Unit)
    ensures var warnings := (if unit.UNKNOWN? then [Speech.NoUnitSpoken] else [])
        + (if spoken < Speech.SUSPICIOUSLY_SMALL then [Speech.SuspiciouslySmall] else []);
      && (Speech.NoUnitSpoken in warnings <==> unit == Speech.UNKNOWN)
      && (Speech.SuspiciouslySmall in warnings <==> spoken < 1000)
  {
  }

  lemma ExtractTells(tokens: seq<string>, start: nat, end: nat, n: nat)
    requires start <= end <= |tokens| && Speech.WordNumber(tokens[start..end]) == Some(n as int)
    ensures var after := tokens[end..];
      var t := Told(n, UnitOf(LastTwo(tokens[..start]) + First(after, 3)),
                    Join(tokens[start..end] + First(after, 2), " "));
      TellsAll(Speech.Extract(tokens, start, end), if n > 0 then [t] else [])
  {
    hide UnitOf, Speech.DetectUnit, Speech.WordNumber, Join;
    var after := tokens[end..];
    var before := tokens[(if start >= 2 then start - 2 else 0)..start];
    assert LastTwo(tokens[..start]) == before;
    assert First(after, 3) == tokens[end..Min(end + 3, |tokens|)];
    assert First(after, 2) == tokens[end..Min(end + 2, |tokens|)];
    ContextUnit(before, First(after, 3));
    WarningsMean(n, UnitOf(before + First(after, 3)));
  }

  lemma KindsOfSlice(tokens: seq<string>, i: nat, j: nat)
    requires i <= j <= |tokens|
    ensures Speech.Kinds(tokens)[i..j] == Speech.Kinds(tokens[i..j])
  {
    hide Speech.KindOf, Speech.Kinds;
    forall k | 0 <= k < j - i ensures Speech.Kinds(tokens)[i + k] == Speech.Kinds(tokens[i..j])[k] {
      KindInSlice(tokens, i, j, k);
    }
    SliceIs(Speech.Kinds(tokens), i, j, Speech.Kinds(tokens[i..j]));
  }

  lemma KindInSlice(tokens: seq<string>, i: nat, j: nat, k: nat)
    requires i <= j <= |tokens| && k < j - i
    ensures Speech.Kinds(tokens)[i + k] == Speech.Kinds(tokens[i..j])[k]
  {
    hide Speech.KindOf, Speech.Kinds;
    Speech.KindsAt(tokens, i + k);
    Speech.KindsAt(tokens[i..j], k);
  }

  lemma SliceIs<T>(all: seq<T>, i: nat, j: nat, part: seq<T>)
    requires i <= j <= |all| && |part| == j - i && forall k :: 0 <= k < |part| ==> all[i + k] == part[k]
    ensures all[i..j] == part
  {
  }

  lemma TellsAppend(a: seq<Speech.Extracted>, b: seq<Speech.Extracted>, x: seq<Told>, y: seq<Told>)
    requires TellsAll(a, x) && TellsAll(b, y)
    ensures TellsAll(a + b, x + y)
  {
    hide Tells;
  }

  lemma TokensSplit(tokens: seq<string>, start: nat, words: seq<string>, tail: seq<string>, rest: seq<string>)
    requires start <= |tokens| && tokens[start..] == words + tail + rest
    ensures var end := start + |words|; var next := end + |tail|;
      && next <= |tokens| && tokens[start..end] == words && tokens[end..next] == tail && tokens[next..] == rest
      && tokens[end..] == tail + rest && tokens[..next] == tokens[..start] + words + tail
  {
    var own := tokens[start..];
    var end := start + |words|;
    var next := end + |tail|;
    assert own[..|words|] == words && own[|words|..|words| + |tail|] == tail && own[|words| + |tail|..] == rest;
    assert own[|words|..] == tail + rest;
    assert tokens[..next] == tokens[..start] + own[..|words| + |tail|];
    assert own[..|words| + |tail|] == words + tail;
  }

  lemma WellSaidRest(said: seq<Said>)
    requires WellSaid(said) && said != []
    ensures WellSaid(said[1..]) && (said[0].tail == [] ==> said[1..] == [])
  {
    hide Numeral, AllOther;
  }

  lemma TailKinds(tokens: seq<string>, end: nat, next: nat)
    requires end <= next <= |tokens| && AllOther(tokens[end..next])
    ensures forall k :: end <= k < next ==> Speech.Kinds(tokens)[k].Other?
  {
    hide Speech.KindOf, Speech.Kinds;
    forall k | end <= k < next ensures Speech.Kinds(tokens)[k].Other? {
      assert tokens[k] == tokens[end..next][k - end];
      assert tokens[k] in tokens[end..next];
      Speech.KindsAt(tokens, k);
    }
  }

  lemma {:induction false} ScanSaid(tokens: seq<string>, start: nat, said: seq<Said>)
    requires start <= |tokens| && tokens[start..] == TokensOf(said) && WellSaid(said)
    ensures TellsAll(Speech.Scan(tokens, Speech.Kinds(tokens), start), Heard(tokens[..start], said))
    decreases said
  {
    hide Speech.KindOf, Speech.Kinds, Speech.Extract, Speech.WordNumber, OneBlock, AllSilent, UnitOf, Tells, LastTwo,
         First, Join, Speech.Scan, TellsAll, AllOther;
    if said == [] {
      NothingLeft(tokens, Speech.Kinds(tokens));
    } else {
      var x, rest, kinds := said[0], TokensOf(said[1..]), Speech.Kinds(tokens);
      var end := start + |x.words|;
      var next := end + |x.tail|;
      TokensSplit(tokens, start, x.words, x.tail, rest);
      WellSaidRest(said);
      KindsOfSlice(tokens, start, end);
      TailKinds(tokens, end, next);
      ScanOneBlock(tokens, kinds, start, end);
      ScanSkips(tokens, kinds, end, next);
      ExtractTells(tokens, start, end, x.n);
      ScanSaid(tokens, next, said[1..]);
      HeardStep(tokens[..start], said);
      var t := Told(x.n, UnitOf(LastTwo(tokens[..start]) + First(x.tail + rest, 3)),
                    Join(x.words + First(x.tail + rest, 2), " "));
      TellsAppend(Speech.Extract(tokens, start, end), Speech.Scan(tokens, kinds, next),
                  if x.n > 0 then [t] else [], Heard(tokens[..next], said[1..]));
    }
  }

  lemma NothingLeft(tokens: seq<string>, kinds: seq<Speech.TokenKind>)
    requires |kinds| == |tokens|
    ensures TellsAll(Speech.Scan(tokens, kinds, |tokens|), [])
  {
  }

  lemma HeardStep(before: seq<string>, said: seq<Said>)
    requires said != []
    ensures var x, after := said[0], said[0].tail + TokensOf(said[1..]);
      var t := Told(x.n, UnitOf(LastTwo(before) + First(after, 3)), Join(x.words + First(after, 2), " "));
      Heard(before, said) == (if x.n > 0 then [t] else []) + Heard(before + x.words + x.tail, said[1..])
  {
  }

  // ---------- from text to tokens ----------

  /** Each word of the text is a token once its digits are normalised. */
  ghost predicate Written(raw: seq<string>, tokens: seq<string>) {
    && |raw| == |tokens|
    && forall i :: 0 <= i < |raw| ==> Speech.NormalizeDigits(raw[i]) == tokens[i] && Token(tokens[i])
  }

  lemma {:induction false} MapSpaced(a: string, b: string)
    ensures Speech.MapDigits(a + " " + b) == Speech.MapDigits(a) + " " + Speech.MapDigits(b)
  {
    if a == "" {
      assert (a + " " + b)[1..] == b;
    } else {
      assert (a + " " + b)[1..] == a[1..] + " " + b;
      MapSpaced(a[1..], b);
    }
  }

  lemma {:induction false} JoinersSpaced(a: string, b: string)
    ensures Speech.SpaceJoiners(a + " " + b) == Speech.SpaceJoiners(a) + " " + Speech.SpaceJoiners(b)
  {
    if a == "" {
      assert (a + " " + b)[1..] == b;
    } else {
      assert (a + " " + b)[1..] == a[1..] + " " + b;
      JoinersSpaced(a[1..], b);
    }
  }

  /** A space ends a group of three digits as the end of the text does. */
  lemma MarkSpaced(a: string, b: string)
    requires a != ""
    ensures Speech.ThousandsMark(a + " " + b) <==> Speech.ThousandsMark(a)
  {
    var s := a + " " + b;
    assert forall i :: 0 <= i < |a| ==> s[i] == a[i];
    assert s[|a|] == ' ';
  }

  lemma {:induction false} DropSpaced(a: string, b: string)
    ensures Speech.DropThousands(a + " " + b) == Speech.DropThousands(a) + " " + Speech.DropThousands(b)
    decreases |a|
  {
    hide Speech.ThousandsMark;
    var s := a + " " + b;
    if a == "" {
      assert s[0] == ' ' && s[1..] == b;
      SpaceIsNoMark(s);
    } else {
      MarkSpaced(a, b);
      MarkIsLong(a);
      if Speech.ThousandsMark(a) {
        assert s[2..] == a[2..] + " " + b;
        DropSpaced(a[2..], b);
      } else {
        assert s[1..] == a[1..] + " " + b;
        DropSpaced(a[1..], b);
      }
    }
  }

  lemma SpaceIsNoMark(s: string)
    requires s != "" && s[0] == ' '
    ensures !Speech.ThousandsMark(s)
  {
  }

  lemma MarkIsLong(s: string)
    ensures Speech.ThousandsMark(s) ==> |s| >= 5
  {
  }

  lemma NormalizeSpaced(a: string, b: string)
    ensures Speech.NormalizeDigits(a + " " + b) == Speech.NormalizeDigits(a) + " " + Speech.NormalizeDigits(b)
  {
    hide Speech.MapDigits, Speech.DropThousands, Speech.SpaceJoiners;
    MapSpaced(a, b);
    DropSpaced(Speech.MapDigits(a), Speech.MapDigits(b));
    JoinersSpaced(Speech.DropThousands(Speech.MapDigits(a)), Speech.DropThousands(Speech.MapDigits(b)));
  }

  lemma {:induction false} NormalizeJoined(raw: seq<string>, tokens: seq<string>)
    requires Written(raw, tokens)
    ensures Speech.NormalizeDigits(Join(raw, " ")) == Join(tokens, " ")
  {
    hide Speech.NormalizeDigits, Token;
    var k := |raw| - 1;
    if k < 0 {
      NormalizeNothing();
    } else if k > 0 {
      NormalizeJoined(raw[..k], tokens[..k]);
      NormalizeSpaced(Join(raw[..k], " "), raw[k]);
    }
  }

  lemma NormalizeNothing()
    ensures Speech.NormalizeDigits("") == ""
  {
  }

  /**
   The amounts of any text that says numbers with other words before, between and behind them: each in
   order, with the unit named around it, and ten rials to the toman; without a unit it is warned about.
   */
  lemma AmountsAreHeard(raw: seq<string>, lead: seq<string>, said: seq<Said>)
    requires AllOther(lead) && WellSaid(said) && Written(raw, lead + TokensOf(said))
    ensures TellsAll(Speech.Amounts(Join(raw, " ")), Heard(lead, said))
  {
    hide Speech.NormalizeDigits, Speech.Scan, Speech.SplitWords, WellSaid, Heard, TellsAll;
    var tokens := lead + TokensOf(said);
    NormalizeJoined(raw, tokens);
    assert AllTokens(tokens);
    SplitUndoesJoin(tokens);
    assert tokens[|lead|..] == TokensOf(said) && tokens[..|lead|] == lead && tokens[0..|lead|] == lead;
    TailKinds(tokens, 0, |lead|);
    ScanSkips(tokens, Speech.Kinds(tokens), 0, |lead|);
    ScanSaid(tokens, |lead|, said);
  }
}
