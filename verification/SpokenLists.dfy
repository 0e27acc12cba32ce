/**
 From characters back to amounts: the text of any list of printed cheque amounts, scanned for
 prices, gives those amounts in order, all in rials.
 */
module SpokenLists {
  import opened Common
  import opened NumberWords
  import opened SpokenAmounts
  import Speech = PriceSpeech

  ghost predicate AllClean(words: seq<string>) { forall w :: w in words ==> Clean(w) }

  // ---------- the printed tokens are words of the vocabulary ----------

  /** The words a printed number is made of. */
  ghost predicate Vocabulary(w: string) {
    || w == Speech.AND || w == ZERO
    || (exists d :: 1 <= d <= 9 && (w == ONES[d] || w == HUNDREDS[d]))
    || (exists d :: 0 <= d <= 9 && w == TEENS[d])
    || (exists d :: 2 <= d <= 9 && w == TENS[d])
    || (exists i :: 1 <= i <= 3 && w == SCALE_WORDS[i])
  }

  ghost predicate AllVocabulary(words: seq<string>) { forall w :: w in words ==> Vocabulary(w) }

  lemma {:induction false} LinkedVocabulary(parts: seq<seq<string>>)
    requires forall p :: p in parts ==> AllVocabulary(p)
    ensures AllVocabulary(Linked(parts))
  {
    hide Vocabulary;
    ConnectiveIsVocabulary();
    if parts != [] { assert parts[|parts| - 1] in parts; }
    if |parts| > 1 {
      assert forall p :: p in parts[..|parts| - 1] ==> p in parts;
      LinkedVocabulary(parts[..|parts| - 1]);
    }
  }

  lemma ConnectiveIsVocabulary()
    ensures Vocabulary(Speech.AND) && Vocabulary(ZERO)
  {
  }

  lemma TripletVocabulary(n: nat)
    requires n <= 999
    ensures AllVocabulary(TripletTokens(n))
  {
    forall p | p in Singles(TripletParts(n)) ensures AllVocabulary(p) {
      var i :| 0 <= i < |TripletParts(n)| && p == [TripletParts(n)[i]];
    }
    LinkedVocabulary(Singles(TripletParts(n)));
  }

  lemma ScaleVocabulary(i: nat)
    requires 1 <= i <= 3
    ensures Vocabulary(SCALE_WORDS[i])
  {
  }

  lemma GroupVocabulary(g: nat, i: nat)
    requires g <= 999 && i <= 3
    ensures AllVocabulary(TripletTokens(g) + ScaleTokens(i))
  {
    hide TripletTokens, Vocabulary;
    TripletVocabulary(g);
    if i > 0 { ScaleVocabulary(i); }
  }

  lemma {:induction false} GroupsVocabulary(groups: seq<nat>, i: nat)
    requires i <= |groups| <= 4 && forall g :: g in groups ==> g <= 999
    ensures forall p :: p in TokensDownTo(groups, i) ==> AllVocabulary(p)
    decreases |groups| - i
  {
    hide TokensDownTo, TripletTokens, ScaleTokens, AllVocabulary;
    if i < |groups| {
      GroupsVocabulary(groups, i + 1);
      TokensStep(groups, i);
      if groups[i] > 0 { GroupVocabulary(groups[i], i); }
    } else {
      NoGroupsLeft(groups);
    }
  }

  lemma NumberVocabulary(n: nat)
    requires n <= MAX_SUPPORTED
    ensures AllVocabulary(NumberTokens(n))
  {
    hide Vocabulary;
    AtMostFourGroups(n);
    ConnectiveIsVocabulary();
    GroupsVocabulary(Groups(n), 0);
    LinkedVocabulary(TokensDownTo(Groups(n), 0));
  }

  lemma VocabularyClean(w: string)
    requires Vocabulary(w)
    ensures Clean(w)
  {
    UnitAndConnective();
    if d :| 1 <= d <= 9 && (w == ONES[d] || w == HUNDREDS[d]) {
      OnesClean(d);
    } else if d :| 0 <= d <= 9 && w == TEENS[d] {
      TensClean(d);
    } else if d :| 2 <= d <= 9 && w == TENS[d] {
      TensClean(d);
    } else if i :| 1 <= i <= 3 && w == SCALE_WORDS[i] {
      ScalesPrint(i);
    }
  }

  lemma NumberClean(n: nat)
    requires n <= MAX_SUPPORTED
    ensures AllClean(NumberTokens(n))
  {
    NumberVocabulary(n);
    forall w | w in NumberTokens(n) ensures Clean(w) { VocabularyClean(w); }
  }

  // ---------- normalising leaves printed text alone ----------

  predicate Untouched(s: string) { forall i :: 0 <= i < |s| ==> Letter(s[i]) || s[i] == ' ' }

  lemma {:induction false} NormalizeUntouched(s: string)
    requires Untouched(s)
    ensures Speech.NormalizeDigits(s) == s
  {
    MapUntouched(s);
    DropUntouched(s);
    JoinersUntouched(s);
  }

  lemma {:induction false} MapUntouched(s: string)
    requires Untouched(s)
    ensures Speech.MapDigits(s) == s
  {
    if s != "" { MapUntouched(s[1..]); }
  }

  lemma {:induction false} DropUntouched(s: string)
    requires Untouched(s)
    ensures Speech.DropThousands(s) == s
  {
    if s != "" { DropUntouched(s[1..]); }
  }

  lemma {:induction false} JoinersUntouched(s: string)
    requires Untouched(s)
    ensures Speech.SpaceJoiners(s) == s
  {
    if s != "" { JoinersUntouched(s[1..]); }
  }

  lemma {:induction false} JoinClean(words: seq<string>)
    requires AllClean(words)
    ensures Untouched(Join(words, " ")) && NoToman(Join(words, " "))
  {
    var k := |words| - 1;
    if k >= 0 { assert words[k] in words && forall w :: w in words[..k] ==> w in words; }
    if k >= 1 {
      JoinClean(words[..k]);
      NoTomanSpaced(Join(words[..k], " "), words[k]);
    }
  }

  lemma NoTomanSpaced(a: string, b: string)
    requires NoToman(a) && NoToman(b)
    ensures NoToman(a + " " + b)
  {
    var s := a + " " + b;
    forall i | 0 <= i < |s| - 1 && s[i] == 'ت' ensures s[i + 1] != 'و' {
      if i > |a| { assert s[i] == b[i - |a| - 1] && s[i + 1] == b[i - |a|]; }
    }
  }

  // ---------- splitting undoes joining ----------

  lemma {:induction false} WordLengthBefore(a: string, b: string)
    requires a == "" || !Speech.IsSeparator(a[0])
    ensures Speech.WordLength(a + " " + b) == Speech.WordLength(a)
  {
    if a == "" {
      assert (a + " " + b)[0] == ' ';
    } else if |a| == 1 || !Speech.IsSeparator(a[1]) {
      assert (a + " " + b)[1..] == a[1..] + " " + b;
      WordLengthBefore(a[1..], b);
    } else {
      assert (a + " " + b)[1..][0] == a[1];
    }
  }

  lemma {:induction false} SplitSpaced(a: string, b: string)
    ensures Speech.SplitWords(a + " " + b) == Speech.SplitWords(a) + Speech.SplitWords(b)
    decreases |a|
  {
    hide Speech.WordLength;
    var s := a + " " + b;
    if a == "" {
      assert s[0] == ' ' && s[1..] == b;
    } else if Speech.IsSeparator(a[0]) {
      assert s[0] == a[0] && s[1..] == a[1..] + " " + b;
      SplitSpaced(a[1..], b);
    } else {
      var k := Speech.WordLength(a);
      WordLengthBefore(a, b);
      assert s[0] == a[0] && s[..k] == a[..k] && s[k..] == a[k..] + " " + b;
      SplitSpaced(a[k..], b);
      assert Speech.SplitWords(s) == [a[..k]] + Speech.SplitWords(a[k..] + " " + b);
      assert Speech.SplitWords(a) == [a[..k]] + Speech.SplitWords(a[k..]);
    }
  }

  /** Not empty, and without anything that separates words. */
  predicate Token(w: string) { w != "" && forall i :: 0 <= i < |w| ==> !Speech.IsSeparator(w[i]) }

  ghost predicate AllTokens(words: seq<string>) { forall w :: w in words ==> Token(w) }

  lemma CleanIsToken(words: seq<string>)
    requires AllClean(words)
    ensures AllTokens(words)
  {
    forall w | w in words ensures Token(w) {
      forall i | 0 <= i < |w| ensures !Speech.IsSeparator(w[i]) { assert Letter(w[i]); }
    }
  }

  lemma SplitWord(w: string)
    requires Token(w)
    ensures Speech.SplitWords(w) == [w]
  {
    var k := Speech.WordLength(w);
    assert k == |w|;
    assert w[..k] == w && w[k..] == "";
  }

  lemma {:induction false} SplitUndoesJoin(words: seq<string>)
    requires AllTokens(words)
    ensures Speech.SplitWords(Join(words, " ")) == words
  {
    hide Token, Join, Speech.SplitWords;
    var k := |words| - 1;
    if k < 0 {
      NothingToSplit();
    } else {
      var before, w := words[..k], words[k];
      assert words == before + [w] && w in words;
      SplitWord(w);
      if k == 0 {
        JoinOne(w, " ");
      } else {
        SplitUndoesJoin(before);
        SplitJoined(before, w);
      }
    }
  }

  lemma NothingToSplit()
    ensures Speech.SplitWords(Join([], " ")) == []
  {
  }

  lemma SplitJoined(before: seq<string>, w: string)
    requires before != [] && Speech.SplitWords(Join(before, " ")) == before && Speech.SplitWords(w) == [w]
    ensures Speech.SplitWords(Join(before + [w], " ")) == before + [w]
  {
    hide Speech.SplitWords;
    assert (before + [w])[..|before|] == before;
    SplitSpaced(Join(before, " "), w);
  }

  // ---------- one number ----------

  /** Splitting the printed words of n and parsing them gives n, for every supported n. */
  lemma ParseUndoesPrint(n: nat)
    requires n <= MAX_SUPPORTED
    ensures Speech.WordNumber(Speech.SplitWords(Spell(n))) == Some(n as int)
  {
    SpellIsTokens(n);
    NumberClean(n);
    CleanIsToken(NumberTokens(n));
    SplitUndoesJoin(NumberTokens(n));
    TokensReadBack(n);
  }

  /** The words pin down the figure: no two amounts are spelled alike. */
  lemma SpellingIsInjective(m: nat, n: nat)
    requires m <= MAX_SUPPORTED && n <= MAX_SUPPORTED && Spell(m) == Spell(n)
    ensures m == n
  {
    ParseUndoesPrint(m);
    ParseUndoesPrint(n);
  }

  // ---------- what the scanner sees ----------

  /** One unbroken number: numeric words, and "and"s with a numeric word after them. */
  ghost predicate OneBlock(kinds: seq<Speech.TokenKind>) {
    && kinds != [] && kinds[0].NumberWord?
    && forall i :: 0 <= i < |kinds| ==> Speech.InBlock(kinds, i)
  }

  lemma {:induction false} KindsConcat(a: seq<string>, b: seq<string>)
    ensures Speech.Kinds(a + b) == Speech.Kinds(a) + Speech.Kinds(b)
  {
    if b == [] {
      assert a + b == a;
    } else {
      assert (a + b)[..|a + b| - 1] == a + b[..|b| - 1];
      KindsConcat(a, b[..|b| - 1]);
    }
  }

  lemma KindsOne(w: string)
    ensures Speech.Kinds([w]) == [Speech.KindOf(w)]
  {
    assert [w][..0] == [];
  }

  lemma ValueWordKind(w: string, v: int)
    requires ValueWord(w, v)
    ensures Speech.KindOf(w) == Speech.NumberWord
  {
  }

  lemma OtherKinds()
    ensures Speech.KindOf(Speech.AND) == Speech.Connective && Speech.KindOf(UNIT) == Speech.Other
  {
    ConnectiveIsNoNumber();
    UnitIsNoNumber();
    assert !Speech.AllDigits(Speech.AND) by { assert Speech.AND[0] in Speech.AND; }
    assert !Speech.AllDigits(UNIT) by { assert UNIT[0] in UNIT; }
  }

  lemma LinkKinds()
    ensures Speech.Kinds([Speech.AND]) == [Speech.Connective] && Speech.Kinds([UNIT]) == [Speech.Other]
  {
    OtherKinds();
    KindsOne(Speech.AND);
    KindsOne(UNIT);
  }

  lemma ScaleKind(i: nat)
    requires 1 <= i <= 3
    ensures Speech.KindOf(SCALE_WORDS[i]) == Speech.NumberWord
  {
    ScalesRead(i);
  }

  lemma {:induction false} LinkedIsBlock(parts: seq<seq<string>>)
    requires parts != [] && forall i :: 0 <= i < |parts| ==> OneBlock(Speech.Kinds(parts[i]))
    ensures OneBlock(Speech.Kinds(Linked(parts)))
  {
    hide Speech.KindOf;
    var k := |parts| - 1;
    if k >= 1 {
      LinkedIsBlock(parts[..k]);
      LinkKinds();
      var a, b := Linked(parts[..k]), parts[k];
      KindsConcat(a, [Speech.AND]);
      KindsConcat(a + [Speech.AND], b);
      BlockLink(Speech.Kinds(a), Speech.Kinds(b));
    } else {
      assert Linked(parts) == parts[0] && OneBlock(Speech.Kinds(parts[0]));
    }
  }

  lemma BlockLink(a: seq<Speech.TokenKind>, b: seq<Speech.TokenKind>)
    requires OneBlock(a) && OneBlock(b)
    ensures OneBlock(a + [Speech.Connective] + b) && OneBlock(a + [Speech.NumberWord])
  {
    var c, d := a + [Speech.Connective] + b, a + [Speech.NumberWord];
    forall i | 0 <= i < |c| ensures Speech.InBlock(c, i) {
      if i < |a| {
        assert Speech.InBlock(a, i);
      } else if i > |a| {
        assert Speech.InBlock(b, i - |a| - 1);
      }
    }
    forall i | 0 <= i < |d| ensures Speech.InBlock(d, i) {
      if i < |a| { assert Speech.InBlock(a, i); }
    }
  }

  lemma SinglesAreBlocks(words: seq<string>)
    requires forall w :: w in words ==> Speech.KindOf(w) == Speech.NumberWord
    ensures forall i :: 0 <= i < |words| ==> OneBlock(Speech.Kinds(Singles(words)[i]))
  {
    forall i | 0 <= i < |words| ensures OneBlock(Speech.Kinds(Singles(words)[i])) {
      assert words[i] in words;
      KindsOne(words[i]);
    }
  }

  lemma TripletIsBlock(n: nat)
    requires 1 <= n <= 999
    ensures OneBlock(Speech.Kinds(TripletTokens(n)))
  {
    var h, rest := n / 100, n % 100;
    if h > 0 { HundredsRead(h); ValueWordKind(HUNDREDS[h], 100 * h); }
    RestKinds(rest);
    SinglesAreBlocks(TripletParts(n));
    assert TripletParts(n) != [];
    LinkedIsBlock(Singles(TripletParts(n)));
  }

  lemma RestKinds(rest: nat)
    requires rest <= 99
    ensures forall w :: w in RestParts(rest) ==> Speech.KindOf(w) == Speech.NumberWord
  {
    if 10 <= rest <= 19 {
      TeensRead(rest - 10);
      ValueWordKind(TEENS[rest - 10], rest);
    } else {
      var t, o := rest / 10, rest % 10;
      if t > 0 { TensOrOneKind(t); }
      if o > 0 { OnesRead(o); ValueWordKind(ONES[o], o); }
    }
  }

  lemma TensOrOneKind(t: nat)
    requires 2 <= t <= 9
    ensures Speech.KindOf(TENS[t]) == Speech.NumberWord
  {
    TensRead(t);
    ValueWordKind(TENS[t], 10 * t);
  }

  lemma GroupIsBlock(g: nat, i: nat)
    requires 1 <= g <= 999 && i <= 3
    ensures OneBlock(Speech.Kinds(TripletTokens(g) + ScaleTokens(i)))
  {
    hide TripletTokens, Speech.KindOf;
    TripletIsBlock(g);
    KindsConcat(TripletTokens(g), ScaleTokens(i));
    if i > 0 {
      ScaleKind(i);
      KindsOne(SCALE_WORDS[i]);
      BlockLink(Speech.Kinds(TripletTokens(g)), Speech.Kinds(TripletTokens(g)));
    } else {
      assert TripletTokens(g) + [] == TripletTokens(g);
    }
  }

  lemma NoGroupsLeft(groups: seq<nat>)
    requires |groups| <= 4 && forall g :: g in groups ==> g <= 999
    ensures TokensDownTo(groups, |groups|) == []
  {
  }

  lemma {:induction false} GroupsAreBlocks(groups: seq<nat>, i: nat)
    requires i <= |groups| <= 4 && forall g :: g in groups ==> g <= 999
    ensures var parts := TokensDownTo(groups, i); forall j :: 0 <= j < |parts| ==> OneBlock(Speech.Kinds(parts[j]))
    decreases |groups| - i
  {
    hide TripletTokens, Speech.KindOf, Speech.Kinds, OneBlock, TokensDownTo;
    if i == |groups| {
      NoGroupsLeft(groups);
    } else {
      GroupsAreBlocks(groups, i + 1);
      TokensStep(groups, i);
      var rest, parts := TokensDownTo(groups, i + 1), TokensDownTo(groups, i);
      if groups[i] > 0 { GroupIsBlock(groups[i], i); }
      forall j | 0 <= j < |parts| ensures OneBlock(Speech.Kinds(parts[j])) {
        if j < |rest| { assert parts[j] == rest[j]; }
      }
    }
  }

  lemma NumberIsBlock(n: nat)
    requires n <= MAX_SUPPORTED
    ensures OneBlock(Speech.Kinds(NumberTokens(n)))
  {
    AtMostFourGroups(n);
    if n == 0 {
      ZeroRead();
      UnitAndConnective();
      ValueWordKind(ZERO, 0);
      KindsOne(ZERO);
    } else {
      GroupsText(Groups(n), 0);
      var top := |Groups(n)| - 1;
      assert Groups(n)[top] > 0;
      assert TokensDownTo(Groups(n), 0) != [];
      GroupsAreBlocks(Groups(n), 0);
      LinkedIsBlock(TokensDownTo(Groups(n), 0));
    }
  }

  // ---------- one amount inside a text ----------

  lemma {:induction false} BlockEndIs(kinds: seq<Speech.TokenKind>, i: nat, end: nat)
    requires i <= end <= |kinds| && (forall j :: i <= j < end ==> Speech.InBlock(kinds, j))
        && !Speech.InBlock(kinds, end)
    ensures Speech.BlockEnd(kinds, i) == end
    decreases end - i
  {
    if i < end { BlockEndIs(kinds, i + 1, end); }
  }

  /** The scanner takes exactly the block up to the next word that is neither number nor "and". */
  lemma ScanBlock(tokens: seq<string>, kinds: seq<Speech.TokenKind>, start: nat, end: nat)
    requires |kinds| == |tokens| && start <= end < |tokens| && OneBlock(kinds[start..end]) && kinds[end].Other?
    ensures Speech.Scan(tokens, kinds, start) == Speech.Extract(tokens, start, end)
        + Speech.Scan(tokens, kinds, end + 1)
  {
    var own := kinds[start..end];
    forall j | start <= j < end ensures Speech.InBlock(kinds, j) {
      assert Speech.InBlock(own, j - start);
    }
    assert own[0] == kinds[start];
    BlockEndIs(kinds, start, end);
  }

  lemma SliceOfConcat<T>(x: seq<T>, y: seq<T>, z: seq<T>)
    ensures (x + y + z)[|x|..|x| + |y|] == y
  {
  }

  lemma KindsOfMiddle(a: seq<string>, b: seq<string>, c: seq<string>)
    ensures Speech.Kinds(a + b + c)[|a|..|a| + |b|] == Speech.Kinds(b)
  {
    hide *;
    KindsConcat(a, b);
    KindsConcat(a + b, c);
    SliceOfConcat(Speech.Kinds(a), Speech.Kinds(b), Speech.Kinds(c));
  }

  lemma NoTomanMeans(s: string)
    requires NoToman(s)
    ensures forall w :: w in Speech.TOMAN_WORDS ==> !Speech.Contains(s, w)
  {
    forall w, i: nat | w in Speech.TOMAN_WORDS ensures !Speech.StandsAt(s, i, w) {
      if i + |w| <= |s| {
        var t := s[i..i + |w|];
        assert t[0] == s[i] && t[1] == s[i + 1];
        assert w[0] == 'ت' && w[1] == 'و';
      }
    }
  }

  lemma JoinStarts(words: seq<string>)
    requires words != []
    ensures |words[0]| <= |Join(words, " ")| && Join(words, " ")[..|words[0]|] == words[0]
  {
    if |words| > 1 {
      assert words == [words[0]] + words[1..];
      JoinConcat([words[0]], words[1..], " ");
    }
  }

  /** The unit right after a printed amount is seen, and nothing near it looks like tomans. */
  lemma UnitIsRial(before: seq<string>, after: seq<string>)
    requires AllClean(before) && AllClean(after) && after != [] && after[0] == UNIT
    ensures Speech.DetectUnit(Join(before, " ") + " " + Join(after, " ")) == Speech.RIAL
  {
    var a, b := Join(before, " "), Join(after, " ");
    JoinClean(before);
    JoinClean(after);
    NoTomanSpaced(a, b);
    NoTomanMeans(a + " " + b);
    JoinStarts(after);
    var i := |a| + 1;
    assert (a + " " + b)[i..i + |UNIT|] == b[..|UNIT|];
    assert Speech.StandsAt(a + " " + b, i, UNIT) && Speech.Contains(a + " " + b, UNIT);
    assert UNIT == Speech.RIAL_WORDS[0] && UNIT in Speech.RIAL_WORDS;
  }

  lemma SliceClean(words: seq<string>, i: nat, j: nat)
    requires AllClean(words) && i <= j <= |words|
    ensures AllClean(words[i..j])
  {
    assert forall w :: w in words[i..j] ==> w in words;
  }

  /** The extracted list is these amounts, in order, all said in rials. */
  ghost predicate Gives(out: seq<Speech.Extracted>, amounts: seq<nat>) {
    && |out| == |amounts|
    && forall i :: 0 <= i < |out| ==>
         out[i].rial == amounts[i] && out[i].spoken == amounts[i] && out[i].unit == Speech.RIAL
  }

  /** What is extracted from a block that is worth n and has the unit right behind it. */
  lemma ExtractBlock(tokens: seq<string>, start: nat, end: nat, n: nat)
    requires AllClean(tokens) && start <= end < |tokens| && tokens[end] == UNIT
    requires Speech.WordNumber(tokens[start..end]) == Some(n as int)
    ensures Gives(Speech.Extract(tokens, start, end), if n > 0 then [n] else [])
  {
    var lo, hi := if start >= 2 then start - 2 else 0, Min(end + 3, |tokens|);
    SliceClean(tokens, lo, start);
    SliceClean(tokens, end, hi);
    assert tokens[end..hi][0] == UNIT;
    UnitIsRial(tokens[lo..start], tokens[end..hi]);
  }

  // ---------- the list round trip ----------

  predicate Supported(amounts: seq<nat>) { forall i :: 0 <= i < |amounts| ==> amounts[i] <= MAX_SUPPORTED }

  function Printed(amounts: seq<nat>): (r: seq<string>)
    requires Supported(amounts)
    ensures |r| == |amounts| && forall i :: 0 <= i < |r| ==> r[i] == AmountInWords(amounts[i])
  {
    seq(|amounts|, i requires 0 <= i < |amounts| => AmountInWords(amounts[i]))
  }

  function ListTokens(amounts: seq<nat>): seq<string>
    requires Supported(amounts)
  {
    if amounts == [] then [] else NumberTokens(amounts[0]) + [UNIT] + ListTokens(amounts[1..])
  }

  lemma AmountText(n: nat)
    requires n <= MAX_SUPPORTED
    ensures AmountInWords(n) == Join(NumberTokens(n) + [UNIT], " ") && AllClean(NumberTokens(n) + [UNIT])
  {
    hide NumberTokens, Spell, Join;
    SpellIsTokens(n);
    NumberClean(n);
    UnitAndConnective();
    JoinOne(UNIT, " ");
    JoinConcat(NumberTokens(n), [UNIT], " ");
    assert Spell(n) + (" " + UNIT) == Spell(n) + " " + UNIT;
  }

  lemma {:induction false} ListText(amounts: seq<nat>)
    requires Supported(amounts)
    ensures Join(Printed(amounts), " ") == Join(ListTokens(amounts), " ") && AllClean(ListTokens(amounts))
    ensures amounts != [] ==> ListTokens(amounts) != []
    decreases amounts
  {
    hide NumberTokens, AmountInWords, Join;
    if amounts == [] {
      assert Printed(amounts) == [];
    } else {
      var first, rest := NumberTokens(amounts[0]) + [UNIT], amounts[1..];
      AmountText(amounts[0]);
      ListText(rest);
      JoinOne(AmountInWords(amounts[0]), " ");
      assert Printed(amounts) == [AmountInWords(amounts[0])] + Printed(rest);
      if rest == [] {
        assert first + [] == first && Printed(amounts) == [AmountInWords(amounts[0])];
      } else {
        JoinConcat([AmountInWords(amounts[0])], Printed(rest), " ");
        JoinConcat(first, ListTokens(rest), " ");
      }
    }
  }

  function Positive(amounts: seq<nat>): seq<nat> {
    if amounts == [] then []
    else (if amounts[0] > 0 then [amounts[0]] else []) + Positive(amounts[1..])
  }

  lemma TokensOfFirst<T>(tokens: seq<T>, start: nat, block: seq<T>, x: T, rest: seq<T>)
    requires start <= |tokens| && tokens[start..] == block + [x] + rest
    ensures var end := start + |block|;
      && end < |tokens| && tokens[start..end] == block && tokens[end] == x && tokens[end + 1..] == rest
      && tokens == tokens[..start] + block + ([x] + rest)
  {
    var end, own := start + |block|, tokens[start..];
    assert tokens[end] == own[|block|] && tokens[start..end] == own[..|block|]
        && tokens[end + 1..] == own[|block| + 1..];
    assert own == block + ([x] + rest);
    assert tokens == tokens[..start] + own;
  }

  /** The first amount of a list, where it stands in the text. */
  lemma FirstAmount(tokens: seq<string>, start: nat, amounts: seq<nat>) returns (end: nat)
    requires Supported(amounts) && amounts != [] && AllClean(tokens)
    requires start <= |tokens| && tokens[start..] == ListTokens(amounts)
    ensures start < end < |tokens| && tokens[end] == UNIT && tokens[end + 1..] == ListTokens(amounts[1..])
    ensures OneBlock(Speech.Kinds(tokens)[start..end]) && Speech.Kinds(tokens)[end].Other?
    ensures Speech.WordNumber(tokens[start..end]) == Some(amounts[0] as int)
  {
    hide Speech.Kinds, Speech.KindOf, Speech.WordNumber, NumberTokens, OneBlock;
    var block, rest := NumberTokens(amounts[0]), ListTokens(amounts[1..]);
    end := start + |block|;
    TokensOfFirst(tokens, start, block, UNIT, rest);
    SpellIsTokens(amounts[0]);
    TokensReadBack(amounts[0]);
    NumberIsBlock(amounts[0]);
    KindsOfMiddle(tokens[..start], block, [UNIT] + rest);
    Speech.KindsAt(tokens, end);
    OtherKinds();
  }

  lemma GivesPrepend(first: seq<Speech.Extracted>, rest: seq<Speech.Extracted>, n: nat, amounts: seq<nat>)
    requires Gives(rest, amounts) && Gives(first, if n > 0 then [n] else [])
    ensures Gives(first + rest, (if n > 0 then [n] else []) + amounts)
  {
  }

  lemma ScanStep(tokens: seq<string>, kinds: seq<Speech.TokenKind>, start: nat, end: nat, n: nat, amounts: seq<nat>)
    requires AllClean(tokens) && |kinds| == |tokens| && start <= end < |tokens| && tokens[end] == UNIT
    requires OneBlock(kinds[start..end]) && kinds[end].Other?
    requires Speech.WordNumber(tokens[start..end]) == Some(n as int)
    requires Gives(Speech.Scan(tokens, kinds, end + 1), amounts)
    ensures Gives(Speech.Scan(tokens, kinds, start), (if n > 0 then [n] else []) + amounts)
  {
    ScanBlock(tokens, kinds, start, end);
    ExtractBlock(tokens, start, end, n);
    GivesPrepend(Speech.Extract(tokens, start, end), Speech.Scan(tokens, kinds, end + 1), n, amounts);
  }

  lemma {:induction false} ScanList(tokens: seq<string>, kinds: seq<Speech.TokenKind>, start: nat, amounts: seq<nat>)
    requires Supported(amounts) && AllClean(tokens) && kinds == Speech.Kinds(tokens)
    requires start <= |tokens| && tokens[start..] == ListTokens(amounts)
    ensures Gives(Speech.Scan(tokens, kinds, start), Positive(amounts))
    decreases amounts
  {
    hide Speech.KindOf, Speech.Extract, NumberTokens;
    if amounts != [] {
      var end := FirstAmount(tokens, start, amounts);
      ScanList(tokens, kinds, end + 1, amounts[1..]);
      ScanStep(tokens, kinds, start, end, amounts[0], Positive(amounts[1..]));
    }
  }

  /**
   Printing any list of supported amounts as cheque words, one after another, and scanning the text
   for prices gives back exactly those amounts in order (zero is never a price), all in rials.
   */
  lemma ListRoundTrip(amounts: seq<nat>)
    requires Supported(amounts)
    ensures Gives(Speech.Amounts(Join(Printed(amounts), " ")), Positive(amounts))
  {
    var tokens := ListTokens(amounts);
    ListText(amounts);
    JoinClean(tokens);
    NormalizeUntouched(Join(tokens, " "));
    CleanIsToken(tokens);
    SplitUndoesJoin(tokens);
    assert tokens[0..] == tokens;
    ScanList(tokens, Speech.Kinds(tokens), 0, amounts);
  }
}
