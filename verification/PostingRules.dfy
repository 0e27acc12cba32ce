/**
 The entry builders: which accounts a business document touches, and on which side.
 */
module PostingRules {
  import opened Common
  import opened Journal
  import opened Posting

  const CASH := "1101"
  const BANK := "1102"
  const RECEIVABLE := "1103"
  const CHEQUES := "1105"
  const FIXED_ASSET := "1201"
  const ACCUMULATED := "1202"
  const DISPOSAL_RESULT := "4105"
  const DEPRECIATION_EXPENSE := "5205"
  const SALES_REVENUE := "4101"
  const SALES_DISCOUNT := "4102"
  const OUTPUT_VAT := "2103"
  const FREIGHT_REVENUE := "4106"
  const OTHER_EXPENSE := "5299"

  datatype PayMethod = CashPay | CardPay | PosPay | BankTransferPay | OnlinePay | ChequePay | CreditPay | OtherPay

  function AccountForMethod(m: PayMethod): string {
    match m
    case CashPay => CASH
    case CardPay | PosPay | BankTransferPay | OnlinePay => BANK
    case ChequePay => CHEQUES
    case CreditPay | OtherPay => RECEIVABLE
  }

  /** Adds a line unless its amount is zero. */
  function Push(lines: seq<Line>, l: Line): seq<Line> {
    if l.debit + l.credit == 0 then lines else lines + [l]
  }

  // ---------- fixed assets ----------

  function AcquisitionLines(cost: int, m: PayMethod): seq<Line> {
    Push(Push([], Line(FIXED_ASSET, cost, 0)), Line(AccountForMethod(m), 0, cost))
  }

  function DepreciationLines(amount: int): seq<Line> {
    Push(Push([], Line(DEPRECIATION_EXPENSE, amount, 0)), Line(ACCUMULATED, 0, amount))
  }

  /** Gain on the credit side, loss on the debit side of one account. */
  function ResultLine(gain: int): Line {
    if gain >= 0 then Line(DISPOSAL_RESULT, 0, gain) else Line(DISPOSAL_RESULT, -gain, 0)
  }

  function DisposalLines(cost: int, accumulated: int, proceeds: int): seq<Line> {
    var out := Push(Push(Push([], Line(ACCUMULATED, accumulated, 0)), Line(CASH, proceeds, 0)),
        Line(FIXED_ASSET, 0, cost));
    Push(out, ResultLine(proceeds - (cost - accumulated)))
  }

  // ---------- sales ----------

  datatype Tender = Tender(how: PayMethod, amount: int)

  datatype Sale = Sale(
    subtotal: int, discount: int, tax: int, total: int, tenders: seq<Tender>,
    ration: int, additions: int, deductions: int)

  function Collected(tenders: seq<Tender>): int {
    if tenders == [] then 0 else Collected(tenders[..|tenders| - 1]) + tenders[|tenders| - 1].amount
  }

  function TenderLines(tenders: seq<Tender>): seq<Line> {
    if tenders == [] then []
    else
      var t := tenders[|tenders| - 1];
      Push(TenderLines(tenders[..|tenders| - 1]), Line(AccountForMethod(t.how), t.amount, 0))
  }

  /** What was paid, what the state owes for rations, and the rest on credit. */
  function ReceiptLines(s: Sale): seq<Line> {
    Push(Push(TenderLines(s.tenders), Line(RECEIVABLE, s.ration, 0)),
         Line(RECEIVABLE, s.total - (Collected(s.tenders) + s.ration), 0))
  }

  function SaleLines(s: Sale): seq<Line> {
    var goods := Push(Push(ReceiptLines(s), Line(SALES_DISCOUNT, s.discount, 0)), Line(SALES_REVENUE, 0, s.subtotal));
    Push(Push(Push(goods, Line(OUTPUT_VAT, 0, s.tax)), Line(FREIGHT_REVENUE, 0, s.additions)),
         Line(OTHER_EXPENSE, s.deductions, 0))
  }

  method SaleEntry(s: Sale) returns (lines: seq<Line>)
    ensures lines == SaleLines(s)
  {
    hide Push, AccountForMethod;
    lines := [];
    var collected := 0;
    for i := 0 to |s.tenders|
      invariant lines == TenderLines(s.tenders[..i]) && collected == Collected(s.tenders[..i])
    {
      assert s.tenders[..i + 1][..i] == s.tenders[..i];
      var tender := s.tenders[i];
      lines := Push(lines, Line(AccountForMethod(tender.how), tender.amount, 0));
      collected := collected + tender.amount;
    }
    assert s.tenders[..|s.tenders|] == s.tenders;
    lines := Push(lines, Line(RECEIVABLE, s.ration, 0));
    lines := Push(lines, Line(RECEIVABLE, s.total - (collected + s.ration), 0));
    lines := Push(lines, Line(SALES_DISCOUNT, s.discount, 0));
    lines := Push(lines, Line(SALES_REVENUE, 0, s.subtotal));
    lines := Push(lines, Line(OUTPUT_VAT, 0, s.tax));
    lines := Push(lines, Line(FREIGHT_REVENUE, 0, s.additions));
    lines := Push(lines, Line(OTHER_EXPENSE, s.deductions, 0));
  }

  ghost predicate AllOneSided(lines: seq<Line>) { forall l :: l in lines ==> OneSided(l) }

  lemma PushAdds(lines: seq<Line>, l: Line)
    requires l.debit == 0 || l.credit == 0
    ensures SideTotal(Push(lines, l), DebitSide) == SideTotal(lines, DebitSide) + l.debit
    ensures SideTotal(Push(lines, l), CreditSide) == SideTotal(lines, CreditSide) + l.credit
    ensures AllOneSided(Push(lines, l)) <==> AllOneSided(lines) && l.debit >= 0 && l.credit >= 0
  {
    PostedAppend(lines, l, "", DebitSide);
    PostedAppend(lines, l, "", CreditSide);
    if AllOneSided(lines + [l]) {
      assert l in lines + [l];
      assert forall x :: x in lines ==> x in lines + [l];
    }
  }

  lemma {:induction false} TendersAdd(tenders: seq<Tender>)
    ensures SideTotal(TenderLines(tenders), DebitSide) == Collected(tenders)
    ensures SideTotal(TenderLines(tenders), CreditSide) == 0
    ensures AllOneSided(TenderLines(tenders)) <==> forall t :: t in tenders ==> t.amount >= 0
  {
    hide Push, SideTotal, AllOneSided;
    if tenders == [] {
      NoLines();
    } else {
      var k := |tenders| - 1;
      assert tenders == tenders[..k] + [tenders[k]];
      TendersAdd(tenders[..k]);
      PushAdds(TenderLines(tenders[..k]), Line(AccountForMethod(tenders[k].how), tenders[k].amount, 0));
    }
  }

  lemma NoLines()
    ensures SideTotal([], DebitSide) == 0 == SideTotal([], CreditSide) && AllOneSided([])
  {
  }

  /** Money and claims received come to the invoice total, whatever was tendered. */
  lemma ReceiptsMakeTotal(s: Sale)
    ensures SideTotal(ReceiptLines(s), DebitSide) == s.total && SideTotal(ReceiptLines(s), CreditSide) == 0
    ensures AllOneSided(ReceiptLines(s)) <==>
      (forall t :: t in s.tenders ==> t.amount >= 0) && s.ration >= 0 && Collected(s.tenders) + s.ration <= s.total
  {
    hide Push, SideTotal, AllOneSided, TenderLines, Collected;
    TendersAdd(s.tenders);
    PushAdds(TenderLines(s.tenders), Line(RECEIVABLE, s.ration, 0));
    PushAdds(Push(TenderLines(s.tenders), Line(RECEIVABLE, s.ration, 0)),
             Line(RECEIVABLE, s.total - (Collected(s.tenders) + s.ration), 0));
  }

  predicate InvoiceAddsUp(s: Sale) {
    s.total == s.subtotal - s.discount + s.tax + s.additions - s.deductions
  }

  predicate NothingNegative(s: Sale) {
    && (forall t :: t in s.tenders ==> t.amount >= 0) && s.ration >= 0
    && s.discount >= 0 && s.subtotal >= 0 && s.tax >= 0 && s.additions >= 0 && s.deductions >= 0
  }

  lemma SaleAdds(s: Sale)
    ensures SideTotal(SaleLines(s), DebitSide) == s.total + s.discount + s.deductions
    ensures SideTotal(SaleLines(s), CreditSide) == s.subtotal + s.tax + s.additions
    ensures AllOneSided(SaleLines(s)) <==> NothingNegative(s) && Collected(s.tenders) + s.ration <= s.total
  {
    hide Push, SideTotal, AllOneSided, ReceiptLines, Collected;
    ReceiptsMakeTotal(s);
    var a := ReceiptLines(s);
    PushAdds(a, Line(SALES_DISCOUNT, s.discount, 0));
    var b := Push(a, Line(SALES_DISCOUNT, s.discount, 0));
    PushAdds(b, Line(SALES_REVENUE, 0, s.subtotal));
    var c := Push(b, Line(SALES_REVENUE, 0, s.subtotal));
    PushAdds(c, Line(OUTPUT_VAT, 0, s.tax));
    var d := Push(c, Line(OUTPUT_VAT, 0, s.tax));
    PushAdds(d, Line(FREIGHT_REVENUE, 0, s.additions));
    PushAdds(Push(d, Line(FREIGHT_REVENUE, 0, s.additions)), Line(OTHER_EXPENSE, s.deductions, 0));
  }

  /**
   A sale is posted, into an open year with its accounts in place and for a document not yet posted,
   if and only if the invoice adds up, no amount is negative, the buyer did not pay more than the
   total, and there is anything to post.
   */
  lemma SalePostsExactly(st: State, s: Sale, doc: Document, date: int, today: int)
    requires var y := YearOf(st.years, date); y.Some? && !st.years[y.value].closed
    requires forall l :: l in SaleLines(s) ==> l.account in st.accounts && st.accounts[l.account].postable
    requires !Taken(st.entries, External(doc))
    ensures PostIn(st, Request(External(doc), Some(date), SaleLines(s), false), today).Ok? <==>
      && InvoiceAddsUp(s) && NothingNegative(s) && Collected(s.tenders) + s.ration <= s.total
      && SaleLines(s) != []
  {
    hide SaleLines, SideTotal, Collected, PostIn;
    PostInExactly(st, Request(External(doc), Some(date), SaleLines(s), false), today);
    SaleAdds(s);
  }

  // ---------- what a sale does to each account ----------

  /** What was tendered in these ways. */
  function PaidBy(tenders: seq<Tender>, ways: set<PayMethod>): int {
    if tenders == [] then 0
    else
      var t := tenders[|tenders| - 1];
      PaidBy(tenders[..|tenders| - 1], ways) + (if t.how in ways then t.amount else 0)
  }

  const IN_CASH := {CashPay}

  const AT_BANK := {CardPay, PosPay, BankTransferPay, OnlinePay}

  const BY_CHEQUE := {ChequePay}

  const ON_CREDIT := {CreditPay, OtherPay}

  lemma PushNet(lines: seq<Line>, l: Line, code: string)
    requires l.debit == 0 || l.credit == 0
    ensures PostedNet(Push(lines, l), code)
         == PostedNet(lines, code) + (if l.account == code then l.debit - l.credit else 0)
  {
    PostedAppend(lines, l, code, DebitSide);
    PostedAppend(lines, l, code, CreditSide);
  }

  lemma {:induction false} TendersNet(tenders: seq<Tender>, code: string, ways: set<PayMethod>)
    requires forall m :: m in ways <==> AccountForMethod(m) == code
    ensures PostedNet(TenderLines(tenders), code) == PaidBy(tenders, ways)
  {
    hide Push, PostedNet, AccountForMethod;
    if tenders == [] {
      NothingNets(code);
    } else {
      var k := |tenders| - 1;
      TendersNet(tenders[..k], code, ways);
      PushNet(TenderLines(tenders[..k]), Line(AccountForMethod(tenders[k].how), tenders[k].amount, 0), code);
    }
  }

  lemma NothingNets(code: string)
    ensures PostedNet([], code) == 0
  {
  }

  lemma ReceiptsNet(s: Sale, code: string, ways: set<PayMethod>)
    requires forall m :: m in ways <==> AccountForMethod(m) == code
    ensures PostedNet(ReceiptLines(s), code)
         == PaidBy(s.tenders, ways) + (if code == RECEIVABLE then s.total - Collected(s.tenders) else 0)
  {
    hide Push, PostedNet, AccountForMethod, TenderLines;
    var a, b := Line(RECEIVABLE, s.ration, 0), Line(RECEIVABLE, s.total - (Collected(s.tenders) + s.ration), 0);
    TendersNet(s.tenders, code, ways);
    PushNet(TenderLines(s.tenders), a, code);
    PushNet(Push(TenderLines(s.tenders), a), b, code);
  }

  /** What the lines besides the receipts do to an account. */
  function GoodsNet(s: Sale, code: string): int {
    (if code == SALES_DISCOUNT then s.discount else 0) - (if code == SALES_REVENUE then s.subtotal else 0)
    - (if code == OUTPUT_VAT then s.tax else 0) - (if code == FREIGHT_REVENUE then s.additions else 0)
    + (if code == OTHER_EXPENSE then s.deductions else 0)
  }

  lemma SaleNet(s: Sale, code: string)
    ensures PostedNet(SaleLines(s), code) == PostedNet(ReceiptLines(s), code) + GoodsNet(s, code)
  {
    hide Push, PostedNet, ReceiptLines;
    var a := ReceiptLines(s);
    PushNet(a, Line(SALES_DISCOUNT, s.discount, 0), code);
    var b := Push(a, Line(SALES_DISCOUNT, s.discount, 0));
    PushNet(b, Line(SALES_REVENUE, 0, s.subtotal), code);
    var c := Push(b, Line(SALES_REVENUE, 0, s.subtotal));
    PushNet(c, Line(OUTPUT_VAT, 0, s.tax), code);
    var d := Push(c, Line(OUTPUT_VAT, 0, s.tax));
    PushNet(d, Line(FREIGHT_REVENUE, 0, s.additions), code);
    PushNet(Push(d, Line(FREIGHT_REVENUE, 0, s.additions)), Line(OTHER_EXPENSE, s.deductions, 0), code);
  }

  lemma {:induction false} WaysAddUp(tenders: seq<Tender>)
    ensures Collected(tenders) == PaidBy(tenders, IN_CASH) + PaidBy(tenders, AT_BANK) + PaidBy(tenders, BY_CHEQUE)
                                  + PaidBy(tenders, ON_CREDIT)
  {
    if tenders != [] {
      WaysAddUp(tenders[..|tenders| - 1]);
      OneWay(tenders[|tenders| - 1].how);
    }
  }

  lemma OneWay(m: PayMethod)
    ensures m in IN_CASH <==> m == CashPay
    ensures m in AT_BANK <==> m in {CardPay, PosPay, BankTransferPay, OnlinePay}
    ensures m in BY_CHEQUE <==> m == ChequePay
    ensures m in ON_CREDIT <==> m !in IN_CASH && m !in AT_BANK && m !in BY_CHEQUE
  {
  }

  lemma MoneyAccounts(s: Sale)
    ensures PostedNet(ReceiptLines(s), "1101") == PaidBy(s.tenders, IN_CASH)
    ensures PostedNet(ReceiptLines(s), "1102") == PaidBy(s.tenders, AT_BANK)
    ensures PostedNet(ReceiptLines(s), "1105") == PaidBy(s.tenders, BY_CHEQUE)
    ensures PostedNet(ReceiptLines(s), "1103")
         == s.total - (PaidBy(s.tenders, IN_CASH) + PaidBy(s.tenders, AT_BANK) + PaidBy(s.tenders, BY_CHEQUE))
  {
    hide PostedNet, ReceiptLines;
    ReceiptsNet(s, "1101", IN_CASH);
    ReceiptsNet(s, "1102", AT_BANK);
    ReceiptsNet(s, "1105", BY_CHEQUE);
    ReceiptsNet(s, "1103", ON_CREDIT);
    WaysAddUp(s.tenders);
  }

  lemma OtherReceipts(s: Sale, code: string)
    requires code !in ["1101", "1102", "1103", "1105"]
    ensures PostedNet(ReceiptLines(s), code) == 0
  {
    hide PostedNet, ReceiptLines;
    forall m ensures AccountForMethod(m) != code {
      assert AccountForMethod(m) in ["1101", "1102", "1103", "1105"];
    }
    ReceiptsNet(s, code, {});
    NothingPaid(s.tenders);
  }

  lemma {:induction false} NothingPaid(tenders: seq<Tender>)
    ensures PaidBy(tenders, {}) == 0
  {
    if tenders != [] { NothingPaid(tenders[..|tenders| - 1]); }
  }

  /**
   What a sale does to every account: money and cheques where they were paid in, the rest of the
   invoice as a claim, the goods at full price as revenue, and the discount, the tax, the freight and
   the deduction each on its own account.
   */
  lemma SaleBooks(s: Sale, code: string)
    ensures
      var cash, bank, cheques := PaidBy(s.tenders, {CashPay}),
          PaidBy(s.tenders, {CardPay, PosPay, BankTransferPay, OnlinePay}), PaidBy(s.tenders, {ChequePay});
      PostedNet(SaleLines(s), code) ==
        if code == "1101" then cash
        else if code == "1102" then bank
        else if code == "1105" then cheques
        else if code == "1103" then s.total - (cash + bank + cheques)
        else if code == "4101" then -s.subtotal
        else if code == "4102" then s.discount
        else if code == "2103" then -s.tax
        else if code == "4106" then -s.additions
        else if code == "5299" then s.deductions
        else 0
  {
    hide PostedNet, ReceiptLines, SaleLines;
    SaleNet(s, code);
    if code in ["1101", "1102", "1103", "1105"] {
      MoneyAccounts(s);
    } else {
      OtherReceipts(s, code);
    }
  }
}
