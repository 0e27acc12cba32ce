/**
 Numbers spelled in Persian words, as printed on cheques.
 */
module NumberWords {
  import opened Common

  const ONES := ["", "یک", "دو", "سه", "چهار", "پنج", "شش", "هفت", "هشت", "نه"]

  const TEENS := ["ده", "یازده", "دوازده", "سیزده", "چهارده", "پانزده", "شانزده", "هفده", "هجده", "نوزده"]

  const TENS := ["", "", "بیست", "سی", "چهل", "پنجاه", "شصت", "هفتاد", "هشتاد", "نود"]

  const HUNDREDS := ["", "صد", "دویست", "سیصد", "چهارصد", "پانصد", "ششصد", "هفتصد", "هشتصد", "نهصد"]

  /** One per group of three digits; the suffix brings its own space. */
  const SCALES := ["", " هزار", " میلیون", " میلیارد"]

  const MAX_SUPPORTED: int := 999_999_999_999

  const SEPARATOR := " و "

  const ZERO := "صفر"

  const RIAL := " ریال"

  /** A JavaScript number: NaN and the infinities, or a finite value. */
  datatype Number = NotFinite | Finite(value: real)

  datatype PrintError = NotANumber | NotAnInteger | Negative | TooLarge

  // ---------- one group of three digits ----------

  function HundredsPart(h: nat): seq<string>
    requires h <= 9
  {
    if h > 0 then [HUNDREDS[h]] else []
  }

  function RestParts(rest: nat): seq<string>
    requires rest <= 99
  {
    if 10 <= rest <= 19 then [TEENS[rest - 10]]
    else (if rest / 10 > 0 then [TENS[rest / 10]] else []) + (if rest % 10 > 0 then [ONES[rest % 10]] else [])
  }

  function TripletParts(n: nat): seq<string>
    requires n <= 999
  {
    HundredsPart(n / 100) + RestParts(n % 100)
  }

  function TripletToWords(n: nat): string
    requires n <= 999
  {
    Join(TripletParts(n), SEPARATOR)
  }

  method PrintTriplet(n: nat) returns (s: string)
    requires n <= 999
    ensures s == TripletToWords(n)
  {
    var parts: seq<string> := [];
    var h, rest := n / 100, n % 100;
    if h > 0 { parts := parts + [HUNDREDS[h]]; }
    if 10 <= rest <= 19 {
      parts := parts + [TEENS[rest - 10]];
    } else {
      var t, o := rest / 10, rest % 10;
      if t > 0 { parts := parts + [TENS[t]]; }
      if o > 0 { parts := parts + [ONES[o]]; }
    }
    assert parts == TripletParts(n);
    s := Join(parts, SEPARATOR);
  }

  // ---------- the whole number ----------

  /** Groups of three digits, the least significant first. */
  function Groups(n: nat): (r: seq<nat>)
    ensures forall g :: g in r ==> g <= 999
    ensures n > 0 ==> r != [] && r[|r| - 1] > 0
  {
    if n == 0 then [] else [n % 1000] + Groups(n / 1000)
  }

  function Pow1000(k: nat): nat { if k == 0 then 1 else 1000 * Pow1000(k - 1) }

  lemma {:induction false} GroupCount(n: nat, k: nat)
    requires n < Pow1000(k)
    ensures |Groups(n)| <= k
  {
    if n > 0 { GroupCount(n / 1000, k - 1); }
  }

  lemma AtMostFourGroups(n: nat)
    requires n <= MAX_SUPPORTED
    ensures |Groups(n)| <= 4
  {
    assert Pow1000(4) == 1000 * Pow1000(3) && Pow1000(2) == 1000 * Pow1000(1);
    GroupCount(n, 4);
  }

  /** The words of the groups from the last down to i; an empty group is not spoken. */
  function PartsDownTo(groups: seq<nat>, i: nat): seq<string>
    requires i <= |groups| <= 4 && forall g :: g in groups ==> g <= 999
    decreases |groups| - i
  {
    if i == |groups| then [] else PartsDownTo(groups, i + 1) + GroupPart(groups, i)
  }

  function GroupPart(groups: seq<nat>, i: nat): seq<string>
    requires i < |groups| <= 4 && forall g :: g in groups ==> g <= 999
  {
    assert groups[i] in groups;
    if groups[i] == 0 then [] else [TripletToWords(groups[i]) + SCALES[i]]
  }

  /** The spelling of a supported number. */
  function Spell(n: nat): string
    requires n <= MAX_SUPPORTED
  {
    AtMostFourGroups(n);
    if n == 0 then ZERO else Join(PartsDownTo(Groups(n), 0), SEPARATOR)
  }

  function NumberToPersianWords(v: Number): Result<string, PrintError> {
    if v.NotFinite? then Err(NotANumber)
    else if v.value.Floor as real != v.value then Err(NotAnInteger)
    else if v.value < 0.0 then Err(Negative)
    else if v.value > MAX_SUPPORTED as real then Err(TooLarge)
    else Ok(Spell(v.value.Floor))
  }

  lemma GroupsSplit(n: nat, groups: seq<nat>, m: nat)
    requires Groups(n) == groups + Groups(m)
    ensures m > 0 ==> Groups(n) == groups + [m % 1000] + Groups(m / 1000)
  {
  }

  method SplitGroups(value: nat) returns (groups: seq<nat>)
    ensures groups == Groups(value)
  {
    var n := value;
    groups := [];
    while n > 0
      invariant Groups(value) == groups + Groups(n)
    {
      GroupsSplit(value, groups, n);
      groups, n := groups + [n % 1000], n / 1000;
    }
  }

  /** Division loop, then the groups from the most significant down. */
  method PrintNumber(v: Number) returns (r: Result<string, PrintError>)
    ensures r == NumberToPersianWords(v)
  {
    if v.NotFinite? { return Err(NotANumber); }
    if v.value.Floor as real != v.value { return Err(NotAnInteger); }
    if v.value < 0.0 { return Err(Negative); }
    if v.value > MAX_SUPPORTED as real { return Err(TooLarge); }
    if v.value.Floor == 0 { return Ok(ZERO); }
    AtMostFourGroups(v.value.Floor);
    var groups := SplitGroups(v.value.Floor);
    var parts := PrintGroups(groups);
    r := Ok(Join(parts, SEPARATOR));
  }

  method PrintGroups(groups: seq<nat>) returns (parts: seq<string>)
    requires |groups| <= 4 && forall g :: g in groups ==> g <= 999
    ensures parts == PartsDownTo(groups, 0)
  {
    var i := |groups|;
    parts := [];
    while i > 0
      invariant 0 <= i <= |groups|
      invariant parts == PartsDownTo(groups, i)
    {
      i := i - 1;
      assert groups[i] in groups;
      if groups[i] != 0 {
        var words := PrintTriplet(groups[i]);
        parts := parts + [words + SCALES[i]];
      }
    }
  }

  /** The amount of a cheque, always in rials. */
  function AmountInWords(n: nat): string
    requires n <= MAX_SUPPORTED
  {
    Spell(n) + RIAL
  }
}
