/**
 Which spoken amount goes to which product: by name first, then by order.
 */
module QuoteMatching {
  import opened Common

  /** The amount a product was given, and whether its name was heard or the order was guessed from. */
  datatype Match = NoAmount | ByName(amount: nat) | ByOrder(amount: nat) {
    function Given(): Option<nat> {
      match this
      case NoAmount => None
      case ByName(a) => Some(a)
      case ByOrder(a) => Some(a)
    }
  }

  /** No amount goes to two products, and exactly the used ones are given. */
  ghost predicate UsedOnce(matches: seq<Match>, used: set<nat>) {
    && (forall p :: 0 <= p < |matches| && matches[p].Given().Some? ==> matches[p].Given().value in used)
    && (forall p, q :: 0 <= p < q < |matches| && matches[p].Given().Some? ==> matches[p].Given() != matches[q].Given())
    && (forall a :: a in used ==> exists p :: 0 <= p < |matches| && matches[p].Given() == Some(a))
  }

  /** Guesses follow the order of the products. */
  ghost predicate GuessesRise(matches: seq<Match>) {
    forall p, q :: 0 <= p < q < |matches| && matches[p].ByOrder? && matches[q].ByOrder? ==>
        matches[p].amount < matches[q].amount
  }

  lemma GiveKeepsUsedOnce(matches: seq<Match>, used: set<nat>, p: nat, m: Match)
    requires UsedOnce(matches, used) && p < |matches| && matches[p].NoAmount? && m.Given().Some?
        && m.Given().value !in used
    ensures UsedOnce(matches[p := m], used + {m.Given().value})
  {
    var t := matches[p := m];
    forall a | a in used ensures exists q :: 0 <= q < |t| && t[q].Given() == Some(a) {
      var q :| 0 <= q < |matches| && matches[q].Given() == Some(a);
      assert t[q].Given() == Some(a);
    }
    assert t[p].Given() == m.Given();
  }

  /** The first unused amount that `heard` accepts. */
  method FindUnused(used: set<nat>, amounts: nat, heard: nat -> bool) returns (r: Option<nat>)
    ensures r.Some? ==> r.value < amounts && r.value !in used && heard(r.value)
    ensures forall a :: 0 <= a < (if r.Some? then r.value else amounts) ==> a in used || !heard(a)
  {
    for a := 0 to amounts
      invariant forall b :: 0 <= b < a ==> b in used || !heard(b)
    {
      if a !in used && heard(a) { return Some(a); }
    }
    r := None;
  }

  /** No product before p was given this amount by its name. */
  ghost predicate Free(matches: seq<Match>, p: nat, a: nat)
    requires p <= |matches|
  {
    forall q :: 0 <= q < p ==> matches[q] != ByName(a)
  }

  /** No free amount is heard after the word. */
  ghost predicate Deaf(matches: seq<Match>, p: nat, word: string, amounts: nat, heard: (string, nat) -> bool)
    requires p <= |matches|
  {
    forall a :: 0 <= a < amounts && Free(matches, p, a) ==> !heard(word, a)
  }

  /** The word gives the product the first free amount heard after it. */
  ghost predicate Gives(matches: seq<Match>, p: nat, word: string, a: nat, amounts: nat, heard: (string, nat) -> bool)
    requires p <= |matches|
  {
    && a < amounts && Free(matches, p, a) && heard(word, a)
    && forall b :: 0 <= b < a && Free(matches, p, b) ==> !heard(word, b)
  }

  /** The first word of a name that gives anything decides, and without one the name gives nothing. */
  ghost predicate NamedRight(
    matches: seq<Match>, p: nat, words: seq<string>, amounts: nat, heard: (string, nat) -> bool)
    requires p < |matches|
  {
    if matches[p].ByName? then
      exists i :: 0 <= i < |words| && Gives(matches, p, words[i], matches[p].amount, amounts, heard)
        && forall j :: 0 <= j < i ==> Deaf(matches, p, words[j], amounts, heard)
    else forall j :: 0 <= j < |words| ==> Deaf(matches, p, words[j], amounts, heard)
  }

  ghost predicate AllNamedRight(
    matches: seq<Match>, words: seq<seq<string>>, amounts: nat, heard: (string, nat) -> bool)
    requires |matches| == |words|
  {
    forall p :: 0 <= p < |matches| ==> NamedRight(matches, p, words[p], amounts, heard)
  }

  /** What names gave is what was used, so far. */
  ghost predicate FreeIsUnused(matches: seq<Match>, p: nat, used: set<nat>)
    requires p <= |matches|
  {
    forall a: nat :: Free(matches, p, a) <==> a !in used
  }

  lemma NamesSeen(matches: seq<Match>, used: set<nat>, p: nat)
    requires UsedOnce(matches, used) && p <= |matches|
    requires forall q :: 0 <= q < |matches| ==> !matches[q].ByOrder? && (q >= p ==> matches[q].NoAmount?)
    ensures FreeIsUnused(matches, p, used)
  {
    forall a: nat ensures Free(matches, p, a) <==> a !in used {
      if a in used {
        var q :| 0 <= q < |matches| && matches[q].Given() == Some(a);
        assert matches[q] == ByName(a);
      }
      if q :| 0 <= q < p && matches[q] == ByName(a) { assert matches[q].Given() == Some(a); }
    }
  }

  /** Whether a name was matched right depends on the products before it alone. */
  lemma SameNames(m: seq<Match>, n: seq<Match>, p: nat, words: seq<string>, amounts: nat, heard: (string, nat) -> bool)
    requires p < |m| && p < |n| && NamedRight(m, p, words, amounts, heard)
    requires forall q :: 0 <= q <= p ==> n[q] == m[q] || (!m[q].ByName? && !n[q].ByName?)
    ensures NamedRight(n, p, words, amounts, heard)
  {
    forall a: nat ensures Free(m, p, a) <==> Free(n, p, a) {
      if !Free(m, p, a) {
        var q :| 0 <= q < p && m[q] == ByName(a);
        assert n[q] == ByName(a);
      }
      if !Free(n, p, a) {
        var q :| 0 <= q < p && n[q] == ByName(a);
        assert m[q] == ByName(a);
      }
    }
    forall w ensures Deaf(m, p, w, amounts, heard) <==> Deaf(n, p, w, amounts, heard) {}
    if m[p].ByName? {
      var i :| 0 <= i < |words| && Gives(m, p, words[i], m[p].amount, amounts, heard)
          && forall j :: 0 <= j < i ==> Deaf(m, p, words[j], amounts, heard);
      assert Gives(n, p, words[i], n[p].amount, amounts, heard);
    }
  }

  lemma KeepsNames(
      m: seq<Match>, n: seq<Match>, k: nat, words: seq<seq<string>>, amounts: nat, heard: (string, nat) -> bool)
    requires |m| == |n| == |words| && k <= |m|
    requires forall p :: 0 <= p < k ==> NamedRight(m, p, words[p], amounts, heard)
    requires forall q :: 0 <= q < k ==> n[q] == m[q] || (!m[q].ByName? && !n[q].ByName?)
    ensures forall p :: 0 <= p < k ==> NamedRight(n, p, words[p], amounts, heard)
  {
    hide NamedRight;
    forall p | 0 <= p < k ensures NamedRight(n, p, words[p], amounts, heard) {
      SameNames(m, n, p, words[p], amounts, heard);
    }
  }

  lemma SameFree(m: seq<Match>, n: seq<Match>, p: nat)
    requires p <= |m| && p <= |n| && forall q :: 0 <= q < p ==> m[q] == n[q]
    ensures forall a: nat :: Free(m, p, a) <==> Free(n, p, a)
  {
  }

  /** The words of one name, in order; the first that has an unused amount after it decides. */
  method MatchName(ghost matches: seq<Match>, ghost p: nat, words: seq<string>, used: set<nat>, amounts: nat,
      heard: (string, nat) -> bool) returns (r: Option<nat>)
    requires p < |matches| && FreeIsUnused(matches, p, used)
    ensures r.Some? ==> r.value < amounts && r.value !in used
    ensures NamedRight(matches[p := if r.Some? then ByName(r.value) else NoAmount], p, words, amounts, heard)
  {
    ghost var none := matches[p := NoAmount];
    SameFree(none, matches, p);
    for i := 0 to |words|
      invariant forall j :: 0 <= j < i ==> Deaf(none, p, words[j], amounts, heard)
    {
      r := FindUnused(used, amounts, (a: nat) => heard(words[i], a));
      if r.Some? {
        ghost var given := matches[p := ByName(r.value)];
        SameFree(given, matches, p);
        assert Gives(given, p, words[i], r.value, amounts, heard);
        forall j | 0 <= j < i ensures Deaf(given, p, words[j], amounts, heard) {
          assert Deaf(none, p, words[j], amounts, heard);
        }
        return;
      }
      assert Deaf(none, p, words[i], amounts, heard);
    }
    r := None;
  }

  /** The names of the products, one after another. */
  method MatchNames(words: seq<seq<string>>, amounts: nat, heard: (string, nat) -> bool)
    returns (matches: seq<Match>, used: set<nat>)
    ensures |matches| == |words| && UsedOnce(matches, used) && (forall a :: a in used ==> a < amounts)
    ensures AllNamedRight(matches, words, amounts, heard) && forall p :: 0 <= p < |matches| ==> !matches[p].ByOrder?
  {
    hide NamedRight, UsedOnce, FreeIsUnused;
    matches := seq(|words|, _ => NoAmount);
    used := {};
    NothingUsed(matches);
    for p := 0 to |words|
      invariant |matches| == |words| && UsedOnce(matches, used) && (forall a :: a in used ==> a < amounts)
      invariant forall q :: 0 <= q < |matches| ==> !matches[q].ByOrder? && (q >= p ==> matches[q].NoAmount?)
      invariant forall q :: 0 <= q < p ==> NamedRight(matches, q, words[q], amounts, heard)
    {
      NamesSeen(matches, used, p);
      var found := MatchName(matches, p, words[p], used, amounts, heard);
      ghost var before := matches;
      if found.Some? {
        GiveKeepsUsedOnce(matches, used, p, ByName(found.value));
        matches, used := matches[p := ByName(found.value)], used + {found.value};
      } else {
        assert matches[p := NoAmount] == matches;
      }
      KeepsNames(before, matches, p, words, amounts, heard);
    }
  }

  lemma NothingUsed(matches: seq<Match>)
    requires forall p :: 0 <= p < |matches| ==> matches[p].NoAmount?
    ensures UsedOnce(matches, {})
  {
  }

  /** Nothing is left over while a product has nothing. */
  ghost predicate NothingLeftOver(matches: seq<Match>, amounts: nat) {
    || (forall p :: 0 <= p < |matches| ==> !matches[p].NoAmount?)
    || (forall a :: 0 <= a < amounts ==> exists p :: 0 <= p < |matches| && matches[p].Given() == Some(a))
  }

  method NextUnused(used: set<nat>, cursor: nat, amounts: nat) returns (next: nat)
    requires cursor <= amounts
    ensures cursor <= next <= amounts && (forall a :: cursor <= a < next ==> a in used)
    ensures next < amounts ==> next !in used
  {
    next := cursor;
    while next < amounts && next in used
      invariant cursor <= next <= amounts && forall a :: cursor <= a < next ==> a in used
    {
      next := next + 1;
    }
  }

  lemma GivenAreUsed(matches: seq<Match>, used: set<nat>)
    requires UsedOnce(matches, used)
    ensures forall p :: 0 <= p < |matches| && matches[p].ByOrder? ==> matches[p].amount in used
    ensures forall a :: a in used ==> exists p :: 0 <= p < |matches| && matches[p].Given() == Some(a)
  {
    forall p | 0 <= p < |matches| && matches[p].ByOrder? ensures matches[p].amount in used {
      assert matches[p].Given().value in used;
    }
  }

  /** A guess leaves no smaller amount over, and a product with nothing comes when nothing is left. */
  ghost predicate GuessedRight(matches: seq<Match>, amounts: nat) {
    && (forall p :: 0 <= p < |matches| && matches[p].ByOrder? ==>
          matches[p].amount < amounts && forall a :: 0 <= a < matches[p].amount ==> GivenBefore(matches, p, a))
    && (forall p :: 0 <= p < |matches| && matches[p].NoAmount? ==>
          forall a :: 0 <= a < amounts ==> GivenBefore(matches, p, a))
  }

  /** Given to a name, or guessed for an earlier product. */
  ghost predicate GivenBefore(matches: seq<Match>, p: nat, a: nat) {
    exists q :: 0 <= q < |matches| && (matches[q] == ByName(a) || (q < p && matches[q] == ByOrder(a)))
  }

  lemma GivenStays(m: seq<Match>, n: seq<Match>, p: nat, k: nat, a: nat)
    requires |m| == |n| && p <= k && GivenBefore(m, p, a)
    requires forall q :: 0 <= q < |m| ==> n[q] == m[q] || m[q].NoAmount?
    ensures GivenBefore(n, k, a)
  {
    var q :| 0 <= q < |m| && (m[q] == ByName(a) || (q < p && m[q] == ByOrder(a)));
    assert n[q] == m[q];
  }

  lemma UsedIsGiven(matches: seq<Match>, used: set<nat>, p: nat, a: nat)
    requires UsedOnce(matches, used) && a in used
    requires forall q :: p <= q < |matches| ==> !matches[q].ByOrder?
    ensures GivenBefore(matches, p, a)
  {
    var q :| 0 <= q < |matches| && matches[q].Given() == Some(a);
    assert matches[q] == ByName(a) || matches[q] == ByOrder(a);
  }

  /** The state of the second pass before product p. */
  ghost predicate GuessedTo(matches: seq<Match>, p: nat, amounts: nat)
    requires p <= |matches|
  {
    && (forall q :: 0 <= q < p && matches[q].ByOrder? ==>
          matches[q].amount < amounts && forall a :: 0 <= a < matches[q].amount ==> GivenBefore(matches, q, a))
    && (forall q :: 0 <= q < p && matches[q].NoAmount? ==> forall a :: 0 <= a < amounts ==> GivenBefore(matches, q, a))
  }

  lemma GuessedNext(m: seq<Match>, n: seq<Match>, p: nat, amounts: nat, cursor: nat)
    requires |m| == |n| && p < |m| && GuessedTo(m, p, amounts)
    requires forall q :: 0 <= q < |m| ==> n[q] == m[q] || (q == p && m[q].NoAmount? && n[q] == ByOrder(cursor))
    requires n[p].NoAmount? ==> cursor == amounts
    requires n[p].ByOrder? ==> n[p].amount == cursor < amounts
    requires !n[p].ByName? ==> forall a :: 0 <= a < cursor ==> GivenBefore(m, p, a)
    ensures GuessedTo(n, p + 1, amounts)
  {
    hide GivenBefore;
    forall q, a | 0 <= q <= p && GivenBefore(m, q, a) ensures GivenBefore(n, q, a) { GivenStays(m, n, q, q, a); }
  }

  /** Products without a name match take the unused amounts in order. */
  method MatchOrder(named: seq<Match>, spent: set<nat>, amounts: nat) returns (matches: seq<Match>, used: set<nat>)
    requires UsedOnce(named, spent) && (forall a :: a in spent ==> a < amounts)
    requires forall p :: 0 <= p < |named| ==> !named[p].ByOrder?
    ensures |matches| == |named| && UsedOnce(matches, used) && (forall a :: a in used ==> a < amounts)
    ensures forall p :: 0 <= p < |named| ==> matches[p] == named[p] || (named[p].NoAmount? && matches[p].ByOrder?)
    ensures GuessesRise(matches) && NothingLeftOver(matches, amounts) && GuessedRight(matches, amounts)
  {
    hide UsedOnce, GivenBefore, GuessedTo;
    matches, used := named, spent;
    var cursor := 0;
    NothingGuessed(matches, amounts);
    for p := 0 to |named|
      invariant |matches| == |named| && UsedOnce(matches, used) && (forall a :: a in used ==> a < amounts)
          && cursor <= amounts
      invariant forall q :: 0 <= q < p ==> matches[q] == named[q] || (named[q].NoAmount? && matches[q].ByOrder?)
      invariant forall q :: p <= q < |named| ==> matches[q] == named[q]
      invariant forall q :: 0 <= q < p && matches[q].NoAmount? ==> cursor == amounts
      invariant forall a :: 0 <= a < cursor ==> a in used
      invariant GuessesRise(matches) && forall q :: 0 <= q < |matches| && matches[q].ByOrder? ==>
          matches[q].amount <= cursor
      invariant GuessedTo(matches, p, amounts)
    {
      ghost var before := matches;
      if matches[p].NoAmount? {
        cursor := NextUnused(used, cursor, amounts);
        forall a | 0 <= a < cursor ensures GivenBefore(before, p, a) { UsedIsGiven(before, used, p, a); }
        if cursor < amounts {
          GivenAreUsed(matches, used);
          GiveKeepsUsedOnce(matches, used, p, ByOrder(cursor));
          matches, used := matches[p := ByOrder(cursor)], used + {cursor};
        }
      }
      GuessedNext(before, matches, p, amounts, cursor);
    }
    GivenAreUsed(matches, used);
    AllGuessed(matches, amounts);
  }

  lemma NothingGuessed(matches: seq<Match>, amounts: nat)
    ensures GuessedTo(matches, 0, amounts)
  {
  }

  lemma AllGuessed(matches: seq<Match>, amounts: nat)
    requires GuessedTo(matches, |matches|, amounts)
    ensures GuessedRight(matches, amounts)
  {
  }

  /** Names first, then the order; both leave nothing to choice. */
  ghost predicate Suggested(matches: seq<Match>, words: seq<seq<string>>, amounts: nat, heard: (string, nat) -> bool) {
    && |matches| == |words| && AllNamedRight(matches, words, amounts, heard)
    && GuessesRise(matches) && GuessedRight(matches, amounts)
    && exists used :: UsedOnce(matches, used)
  }

  /** The same names were matched, up to product p. */
  ghost predicate SameNamed(m: seq<Match>, n: seq<Match>, p: nat)
    requires p <= |m| == |n|
  {
    forall q :: 0 <= q < p ==> m[q] == n[q] || (!m[q].ByName? && !n[q].ByName?)
  }

  lemma SameFreeNames(m: seq<Match>, n: seq<Match>, p: nat)
    requires p <= |m| == |n| && SameNamed(m, n, p)
    ensures forall a: nat :: Free(m, p, a) <==> Free(n, p, a)
  {
    forall a: nat ensures Free(m, p, a) <==> Free(n, p, a) {
      if q :| 0 <= q < p && m[q] == ByName(a) { assert n[q] == ByName(a); }
      if q :| 0 <= q < p && n[q] == ByName(a) { assert m[q] == ByName(a); }
    }
  }

  lemma OneNameMatch(
      m: seq<Match>, n: seq<Match>, p: nat, words: seq<string>, amounts: nat, heard: (string, nat) -> bool)
    requires p < |m| == |n| && SameNamed(m, n, p)
    requires NamedRight(m, p, words, amounts, heard) && NamedRight(n, p, words, amounts, heard)
    requires m[p].ByName?
    ensures n[p] == m[p]
  {
    SameFreeNames(m, n, p);
    var i :| 0 <= i < |words| && Gives(m, p, words[i], m[p].amount, amounts, heard)
        && forall j :: 0 <= j < i ==> Deaf(m, p, words[j], amounts, heard);
    assert !Deaf(n, p, words[i], amounts, heard);
    if n[p].ByName? {
      var k :| 0 <= k < |words| && Gives(n, p, words[k], n[p].amount, amounts, heard)
          && forall j :: 0 <= j < k ==> Deaf(n, p, words[j], amounts, heard);
      assert !Deaf(m, p, words[i], amounts, heard) && !Deaf(m, p, words[k], amounts, heard);
      assert i == k;
    }
  }

  lemma {:induction false} NamesAreDetermined(
      m: seq<Match>, n: seq<Match>, p: nat, words: seq<seq<string>>, amounts: nat, heard: (string, nat) -> bool)
    requires p <= |m| == |n| == |words|
    requires AllNamedRight(m, words, amounts, heard) && AllNamedRight(n, words, amounts, heard)
    ensures SameNamed(m, n, p)
  {
    hide NamedRight;
    if p > 0 {
      NamesAreDetermined(m, n, p - 1, words, amounts, heard);
      if m[p - 1].ByName? {
        OneNameMatch(m, n, p - 1, words[p - 1], amounts, heard);
      } else if n[p - 1].ByName? {
        OneNameMatch(n, m, p - 1, words[p - 1], amounts, heard);
      }
    }
  }

  lemma SameGivenBefore(m: seq<Match>, n: seq<Match>, p: nat, a: nat)
    requires p <= |m| == |n| && SameNamed(m, n, |m|) && m[..p] == n[..p] && GivenBefore(m, p, a)
    ensures GivenBefore(n, p, a)
  {
    var q :| 0 <= q < |m| && (m[q] == ByName(a) || (q < p && m[q] == ByOrder(a)));
    if q < p { assert m[..p][q] == n[..p][q]; }
    assert n[q] == m[q];
  }

  lemma NotGivenTwice(matches: seq<Match>, used: set<nat>, p: nat)
    requires UsedOnce(matches, used) && p < |matches| && matches[p].ByOrder?
    ensures !GivenBefore(matches, p, matches[p].amount)
  {
    var a := matches[p].amount;
    forall q | 0 <= q < |matches| && q != p ensures matches[q].Given() != Some(a) {
      assert matches[p].Given() == Some(a);
    }
    assert forall q :: 0 <= q < |matches| && (matches[q] == ByName(a) || (q < p && matches[q] == ByOrder(a))) ==>
        (q != p && matches[q].Given() == Some(a));
  }

  lemma OneGuess(m: seq<Match>, n: seq<Match>, used: set<nat>, p: nat, amounts: nat)
    requires p < |m| == |n| && SameNamed(m, n, |m|) && m[..p] == n[..p] && m[p].ByOrder?
    requires UsedOnce(m, used) && GuessedRight(m, amounts) && GuessedRight(n, amounts)
    ensures n[p].ByOrder? && n[p].amount <= m[p].amount
  {
    hide GivenBefore, UsedOnce;
    NotGivenTwice(m, used, p);
    if GivenBefore(n, p, m[p].amount) { SameGivenBefore(n, m, p, m[p].amount); }
  }

  lemma {:induction false} GuessesAreDetermined(
      m: seq<Match>, n: seq<Match>, used: set<nat>, spent: set<nat>, p: nat, amounts: nat)
    requires p <= |m| == |n| && SameNamed(m, n, |m|) && UsedOnce(m, used) && UsedOnce(n, spent)
    requires GuessedRight(m, amounts) && GuessedRight(n, amounts)
    ensures m[..p] == n[..p]
  {
    hide GuessedRight, UsedOnce;
    if p > 0 {
      GuessesAreDetermined(m, n, used, spent, p - 1, amounts);
      if m[p - 1].ByOrder? { OneGuess(m, n, used, p - 1, amounts); }
      if n[p - 1].ByOrder? { OneGuess(n, m, spent, p - 1, amounts); }
      assert m[..p] == m[..p - 1] + [m[p - 1]] && n[..p] == n[..p - 1] + [n[p - 1]];
    }
  }

  /** There is exactly one suggestion for the products and amounts of a transcript. */
  lemma SuggestionIsDetermined(
      m: seq<Match>, n: seq<Match>, words: seq<seq<string>>, amounts: nat, heard: (string, nat) -> bool)
    requires Suggested(m, words, amounts, heard) && Suggested(n, words, amounts, heard)
    ensures m == n
  {
    hide AllNamedRight, GuessedRight, UsedOnce, GuessesRise, SameNamed;
    NamesAreDetermined(m, n, |m|, words, amounts, heard);
    var used :| UsedOnce(m, used);
    var spent :| UsedOnce(n, spent);
    GuessesAreDetermined(m, n, used, spent, |m|, amounts);
    assert m[..|m|] == m && n[..|n|] == n;
  }

  /**
   `words` are the telling words of each product's name; `heard` says that a word is in the transcript
   with the amount's phrase after it.
   */
  method SuggestQuotes(words: seq<seq<string>>, amounts: nat, heard: (string, nat) -> bool)
      returns (matches: seq<Match>)
    ensures |matches| == |words|
    ensures forall p :: 0 <= p < |matches| && matches[p].Given().Some? ==> matches[p].Given().value < amounts
    ensures NothingLeftOver(matches, amounts) && Suggested(matches, words, amounts, heard)
  {
    hide NothingLeftOver, GuessesRise, NamedRight, GuessedRight;
    var named, spent := MatchNames(words, amounts, heard);
    var used;
    matches, used := MatchOrder(named, spent, amounts);
    KeepsNames(named, matches, |named|, words, amounts, heard);
  }
}
