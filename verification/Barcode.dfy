/**
 The bar code of a product: EAN-13 for twelve or thirteen digits, Code 128 for anything else.
 */
module Barcode {
  import opened Common
  import opened Modules
  import Ean13
  import Code128

  type Text = Code128.Text

  datatype Drawing = Drawing(bits: string, bars: seq<Bar>, caption: Text)

  predicate DigitUnit(unit: nat) { 48 <= unit <= 57 }

  predicate LooksLikeEan(clean: Text) {
    12 <= |clean| <= 13 && forall i :: 0 <= i < |clean| ==> DigitUnit(clean[i])
  }

  function Digit(unit: nat): nat
    requires DigitUnit(unit)
  {
    unit - 48
  }

  function DigitsOf(clean: Text): (r: Ean13.Code)
    requires forall i :: 0 <= i < |clean| ==> DigitUnit(clean[i])
    ensures |r| == |clean| && forall i :: 0 <= i < |r| ==> r[i] == Digit(clean[i]) <= 9
  {
    seq(|clean|, i requires 0 <= i < |clean| && DigitUnit(clean[i]) => Digit(clean[i]))
  }

  function UnitsOf(code: Ean13.Code): (r: Text)
    ensures |r| == |code| && forall i :: 0 <= i < |r| ==> r[i] == code[i] + 48
  {
    seq(|code|, i requires 0 <= i < |code| => code[i] + 48)
  }

  /** The code that is drawn: the first twelve digits with their own check digit. */
  ghost predicate Completes(code: Ean13.Code, clean: Text)
    requires LooksLikeEan(clean)
  {
    Ean13.Valid(code) && forall i :: 0 <= i < 12 ==> code[i] == DigitsOf(clean)[i]
  }

  lemma {:induction false} SumOfSame(a: Ean13.Code, b: Ean13.Code, n: nat)
    requires n <= |a| && n <= |b| && forall i :: 0 <= i < n ==> a[i] == b[i]
    ensures Ean13.SumTo(a, n) == Ean13.SumTo(b, n)
  {
    if n > 0 { SumOfSame(a, b, n - 1); }
  }

  lemma LastWeighsOne(code: Ean13.Code)
    requires |code| == 13
    ensures Ean13.SumTo(code, 13) == Ean13.SumTo(code, 12) + code[12]
  {
    assert Ean13.Weight(12) == 1;
  }

  /** There is one such code. */
  lemma CompletionIsUnique(a: Ean13.Code, b: Ean13.Code, clean: Text)
    requires LooksLikeEan(clean) && Completes(a, clean) && Completes(b, clean)
    ensures a == b
  {
    hide Ean13.SumTo;
    SumOfSame(a, b, 12);
    LastWeighsOne(a);
    LastWeighsOne(b);
    assert a[12] % 10 == b[12] % 10;
  }

  /** Thirteen digits are drawn as they are if and only if their check digit is right. */
  lemma WrongCheckDigitIsReplaced(code: Ean13.Code, clean: Text)
    requires LooksLikeEan(clean) && |clean| == 13 && Completes(code, clean)
    ensures Ean13.Decode(Ean13.Pattern(code)) == Some(DigitsOf(clean)) <==> Ean13.Valid(DigitsOf(clean))
  {
    hide Ean13.Decode, Ean13.Pattern, Ean13.SumTo;
    Ean13.DecodesToItself(code);
    if Ean13.Valid(DigitsOf(clean)) { CompletionIsUnique(code, DigitsOf(clean), clean); }
  }

  /** What the drawing of a non-empty text shows. */
  ghost predicate Shows(d: Drawing, clean: Text) {
    && (forall b :: b in d.bars <==> MaximalRun(d.bits, b)) && Apart(d.bars)
    && if LooksLikeEan(clean)
       then exists code :: Completes(code, clean) && Ean13.Decode(d.bits) == Some(code) && d.caption == UnitsOf(code)
       else d.bits == Code128.Pattern(clean) && d.caption == clean
  }

  const RIGHT_CODE: Ean13.Code := [4, 0, 0, 6, 3, 8, 1, 3, 3, 3, 9, 3, 1]

  /** 4006381333932, whose check digit should be 1. */
  const WRONG_TEXT: Text := [52, 48, 48, 54, 51, 56, 49, 51, 51, 51, 57, 51, 50]

  lemma RightCodeIsValid()
    ensures Ean13.Valid(RIGHT_CODE)
  {
    var c := RIGHT_CODE;
    assert Ean13.SumTo(c, 2) == 4 && Ean13.SumTo(c, 4) == 22 && Ean13.SumTo(c, 6) == 49;
    assert Ean13.SumTo(c, 8) == 59 && Ean13.SumTo(c, 10) == 71 && Ean13.SumTo(c, 12) == 89;
    assert Ean13.SumTo(c, 13) == 90;
  }

  lemma RightCodeCompletes()
    ensures LooksLikeEan(WRONG_TEXT) && Completes(RIGHT_CODE, WRONG_TEXT)
  {
    hide Ean13.SumTo;
    RightCodeIsValid();
  }

  lemma ShownCode(d: Drawing, clean: Text) returns (code: Ean13.Code)
    requires Shows(d, clean) && LooksLikeEan(clean)
    ensures Completes(code, clean) && Ean13.Decode(d.bits) == Some(code) && d.caption == UnitsOf(code)
  {
    hide Ean13.Decode, MaximalRun, Apart, Completes, LooksLikeEan;
    code :| Completes(code, clean) && Ean13.Decode(d.bits) == Some(code) && d.caption == UnitsOf(code);
  }

  /**
   Twelve or thirteen digits are drawn as an EAN-13 symbol that reads the first twelve and the check
   digit they call for, with that code as its caption; every other text is drawn as it is in Code 128.
   */
  lemma DrawnAs(d: Drawing, clean: Text)
    requires Shows(d, clean)
    ensures
      if |clean| in {12, 13} && forall i :: 0 <= i < |clean| ==> 48 <= clean[i] <= 57
      then
        && Ean13.Decode(d.bits).Some?
        && var code := Ean13.Decode(d.bits).value;
           && Ean13.Valid(code) && |d.caption| == 13
           && (forall i :: 0 <= i < 12 ==> code[i] + 48 == clean[i])
           && (forall i :: 0 <= i < 13 ==> d.caption[i] == code[i] + 48)
      else d.bits == Code128.Pattern(clean) && d.caption == clean
  {
    hide Ean13.Decode, Ean13.SumTo, Code128.Pattern, MaximalRun;
    if LooksLikeEan(clean) { var code := ShownCode(d, clean); }
  }

  /** A wrong thirteenth digit goes unnoticed: whatever is drawn for the text reads 4006381333931. */
  lemma WrongDigitVanishes(d: Drawing)
    requires Shows(d, WRONG_TEXT)
    ensures Ean13.Decode(d.bits) == Some(RIGHT_CODE) && d.caption == UnitsOf(RIGHT_CODE) != WRONG_TEXT
  {
    hide Ean13.Decode, Shows, Completes, LooksLikeEan;
    RightCodeCompletes();
    var code := ShownCode(d, WRONG_TEXT);
    CompletionIsUnique(code, RIGHT_CODE, WRONG_TEXT);
    assert UnitsOf(RIGHT_CODE)[12] != WRONG_TEXT[12];
  }

  /** Nothing for an empty text; otherwise the symbol, its bars and its caption. */
  method Draw(clean: Text) returns (r: Option<Drawing>)
    ensures r.None? <==> clean == []
    ensures r.Some? ==> Shows(r.value, clean)
  {
    hide Ean13.Pattern, Ean13.Decode, Code128.Pattern, Ean13.SumTo, MaximalRun;
    if clean == [] { return None; }
    var bits, caption;
    if LooksLikeEan(clean) {
      var base := DigitsOf(clean[..12]);
      var check := Ean13.CheckDigit(base);
      var full := base + [check];
      SumOfSame(base, full, 12);
      LastWeighsOne(full);
      assert Completes(full, clean);
      bits := Ean13.DrawPattern(full);
      caption := UnitsOf(full);
      Ean13.DecodesToItself(full);
    } else {
      bits := Code128.DrawPattern(clean);
      caption := clean;
    }
    var bars := DrawBars(bits);
    r := Some(Drawing(bits, bars, caption));
  }
}
