/**
 Fixed assets: acquisition, monthly depreciation runs and disposal, each posting to the ledger in
 the same transaction.
 */
module Assets {
  import opened Common
  import opened Journal
  import opened Posting
  import opened PostingRules
  import opened Depreciation

  // ---------- state ----------

  /** One row of the depreciation table; a period is the first day of a month. */
  datatype Charging = Charging(period: int, amount: int)

  datatype Asset = Asset(book: Book, inService: Option<int>, charges: seq<Charging>) {
    /** Neither sold nor thrown away. */
    predicate Live() { !book.status.DISPOSED? && !book.status.SOLD? }

    predicate ChargedFor(period: int) { exists c :: c in charges && c.period == period }
  }

  /** Asset numbers are positions in the table. */
  datatype Company = Company(ledger: State, ledgerEnabled: bool, assets: seq<Asset>)

  /** Posts only when the company keeps a ledger and there is something to post. */
  function PostAuto(c: Company, p: Request, today: int): Result<State, Error> {
    if p.lines == [] || !c.ledgerEnabled then Ok(c.ledger) else PostIn(c.ledger, p, today)
  }

  // ---------- operations ----------

  function AcquisitionRequest(id: nat, cost: int, m: PayMethod, purchased: Option<int>): Request {
    Request(External(AssetAcquisition(id)), purchased, AcquisitionLines(cost, m), false)
  }

  function NewAsset(terms: Terms, purchased: Option<int>, inService: Option<int>, today: int): Asset {
    Asset(Book(terms, 0, ACTIVE), Some(inService.GetOr(purchased.GetOr(today))), [])
  }

  /** An asset without a positive price gets no entry. */
  function Create(c: Company, terms: Terms, m: PayMethod, purchased: Option<int>, inService: Option<int>, today: int)
    : Result<Company, Error>
  {
    var posted :=
      if terms.cost > 0 then PostAuto(c, AcquisitionRequest(|c.assets|, terms.cost, m, purchased), today)
      else Ok(c.ledger);
    match posted
    case Err(e) => Err(e)
    case Ok(ledger) =>
      Ok(c.(ledger := ledger, assets := c.assets + [NewAsset(terms, purchased, inService, today)]))
  }

  /** The rows a depreciation run selects. */
  predicate Selected(a: Asset, period: int) {
    && a.book.status.ACTIVE? && !a.book.terms.how.NONE? && a.book.terms.years > 0
    && (a.inService.None? || a.inService.value <= period)
  }

  /** What the run takes from one asset; nothing if it was already charged for the period. */
  function Due(a: Asset, period: int): int {
    if Selected(a, period) && MonthCents(a.book) > 0 && !a.ChargedFor(period) then MonthCents(a.book) else 0
  }

  function ChargeFor(a: Asset, period: int): Asset {
    if Due(a, period) == 0 then a
    else a.(book := Charge(a.book), charges := a.charges + [Charging(period, MonthCents(a.book))])
  }

  function ChargeAll(assets: seq<Asset>, period: int): seq<Asset> {
    if assets == [] then []
    else
      var k := |assets| - 1;
      ChargeAll(assets[..k], period) + [ChargeFor(assets[k], period)]
  }

  function TotalDue(assets: seq<Asset>, period: int): int {
    if assets == [] then 0
    else
      var k := |assets| - 1;
      TotalDue(assets[..k], period) + Due(assets[k], period)
  }

  /** How many live depreciation entries the period has. */
  function PriorRuns(entries: seq<Entry>, period: int): nat {
    if entries == [] then 0
    else
      var k := |entries| - 1;
      PriorRuns(entries[..k], period) + (if IsRunFor(entries[k], period) && !entries[k].status.REVERSED? then 1 else 0)
  }

  predicate IsRunFor(e: Entry, period: int) {
    e.source.External? && e.source.doc.AssetDepreciation? && e.source.doc.period == period
  }

  /** The first entry of a period has no suffix, the next ones #2, #3, ... */
  function Part(n: nat): nat { if n == 0 then 0 else n + 1 }

  function RunRequest(c: Company, period: int): Request {
    Request(External(AssetDepreciation(period, Part(PriorRuns(c.ledger.entries, period)))), Some(period),
            DepreciationLines(TotalDue(c.assets, period)), false)
  }

  function RunDepreciation(c: Company, period: int, today: int): Result<Company, Error> {
    var posted := if TotalDue(c.assets, period) > 0 then PostAuto(c, RunRequest(c, period), today) else Ok(c.ledger);
    match posted
    case Err(e) => Err(e)
    case Ok(ledger) => Ok(c.(ledger := ledger, assets := ChargeAll(c.assets, period)))
  }

  function DisposalRequest(id: nat, b: Book, proceeds: int): Request {
    Request(External(AssetDisposal(id)), None, DisposalLines(b.terms.cost, b.accumulated, proceeds), false)
  }

  function Dispose(c: Company, id: nat, proceeds: int, today: int): Result<Company, Error> {
    if id >= |c.assets| then Err(NotFound)
    else if !c.assets[id].Live() then Err(AlreadyDisposed)
    else
      var a := c.assets[id];
      match PostAuto(c, DisposalRequest(id, a.book, proceeds), today)
      case Err(e) => Err(e)
      case Ok(ledger) =>
        var gone := a.(book := a.book.(status := if proceeds > 0 then SOLD else DISPOSED));
        Ok(c.(ledger := ledger, assets := c.assets[id := gone]))
  }

  /** Editing the useful life or the method; cost, salvage value and status stay. */
  function Revise(c: Company, id: nat, years: int, how: Method): Result<Company, Error> {
    if id >= |c.assets| then Err(NotFound)
    else
      var a := c.assets[id];
      var revised := a.(book := a.book.(terms := a.book.terms.(years := years, how := how)));
      Ok(c.(assets := c.assets[id := revised]))
  }

  /** `totalBookValue` of the statistics. */
  function TotalBookValue(assets: seq<Asset>): int {
    if assets == [] then 0
    else
      var k := |assets| - 1;
      TotalBookValue(assets[..k]) + (if assets[k].Live() then assets[k].book.BookValue() else 0)
  }
}
