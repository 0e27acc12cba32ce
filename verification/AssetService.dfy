/**
 The asset service as an object: the asset rows it updates in place and the ledger it posts to.
 */
module AssetService {
  import opened Common
  import opened Journal
  import opened Depreciation
  import opened Assets
  import opened PostingRules
  import Posting
  import LedgerService

  type Error = Posting.Error

  lemma TotalDueSplit(assets: seq<Asset>, i: nat, period: int)
    requires i < |assets|
    ensures TotalDue(assets[..i + 1], period) == TotalDue(assets[..i], period) + Due(assets[i], period)
    ensures ChargeAll(assets[..i + 1], period) == ChargeAll(assets[..i], period) + [ChargeFor(assets[i], period)]
  {
    assert assets[..i + 1][..i] == assets[..i];
  }

  class AssetRegister {
    const ledger: LedgerService.Ledger
    const ledgerEnabled: bool
    var assets: seq<Asset>

    function View(): Company
      reads this, ledger
    {
      Company(ledger.View(), ledgerEnabled, assets)
    }

    /** `after` is what a transaction with outcome `r` leaves of `before`. */
    static ghost predicate Commits(before: Company, after: Company, r: Result<Company, Error>) {
      match r
      case Ok(t) => after == t
      case Err(_) => after == before
    }

    constructor (books: LedgerService.Ledger, enabled: bool)
      ensures ledger == books && ledgerEnabled == enabled && assets == []
    {
      ledger, ledgerEnabled, assets := books, enabled, [];
    }

    method PostAuto(p: Posting.Request, today: int) returns (r: Result<Posting.State, Error>)
      modifies ledger
      ensures r == Assets.PostAuto(old(View()), p, today)
      ensures ledger.View() == (match r case Ok(t) => t case Err(_) => old(ledger.View()))
    {
      if p.lines == [] || !ledgerEnabled { return Ok(ledger.View()); }
      r := ledger.PostIn(p, today);
    }

    method Create(terms: Terms, m: PayMethod, purchased: Option<int>, inService: Option<int>, today: int)
      returns (r: Result<Company, Error>)
      modifies this, ledger
      ensures r == Assets.Create(old(View()), terms, m, purchased, inService, today) && Commits(old(View()), View(), r)
    {
      if terms.cost > 0 {
        var posted := PostAuto(AcquisitionRequest(|assets|, terms.cost, m, purchased), today);
        if posted.Err? { return Err(posted.error); }
      }
      assets := assets + [NewAsset(terms, purchased, inService, today)];
      r := Ok(View());
    }

    /** One pass over the selected assets, then one entry for their total. */
    method RunDepreciation(period: int, today: int) returns (r: Result<Company, Error>)
      modifies this, ledger
      ensures r == Assets.RunDepreciation(old(View()), period, today) && Commits(old(View()), View(), r)
    {
      var charged: seq<Asset>, total := [], 0;
      for i := 0 to |assets|
        invariant View() == old(View())
        invariant charged == ChargeAll(assets[..i], period) && total == TotalDue(assets[..i], period)
      {
        TotalDueSplit(assets, i, period);
        var a := assets[i];
        if Selected(a, period) {
          var amount := MonthCents(a.book);
          if amount > 0 && !a.ChargedFor(period) {
            var accumulated := a.book.accumulated + amount;
            var status := if accumulated >= a.book.Depreciable() then FULLY_DEPRECIATED else a.book.status;
            a := a.(book := a.book.(accumulated := accumulated, status := status),
                    charges := a.charges + [Charging(period, amount)]);
            total := total + amount;
          }
        }
        charged := charged + [a];
      }
      assert assets[..|assets|] == assets;

      if total > 0 {
        var posted := PostAuto(RunRequest(View(), period), today);
        if posted.Err? { return Err(posted.error); }
      }
      assets := charged;
      r := Ok(View());
    }

    method Dispose(id: nat, proceeds: int, today: int) returns (r: Result<Company, Error>)
      modifies this, ledger
      ensures r == Assets.Dispose(old(View()), id, proceeds, today) && Commits(old(View()), View(), r)
    {
      if id >= |assets| { return Err(Posting.NotFound); }
      var a := assets[id];
      if !a.Live() { return Err(Posting.AlreadyDisposed); }
      var posted := PostAuto(DisposalRequest(id, a.book, proceeds), today);
      if posted.Err? { return Err(posted.error); }
      assets := assets[id := a.(book := a.book.(status := if proceeds > 0 then SOLD else DISPOSED))];
      r := Ok(View());
    }
  }
}
